/**
 The orchestrator's warm pool of worker connections: a bounded queue, the
 get/put around each execution, and the background loop that refills the queue when
 it runs low. Executions and the refill interleave at single queue operations.
 */
module WarmPool {
  import opened Base

  /** A worker connection, known by its address. */
  type Worker = string

  type Tid = nat

  // ---- The queue and the refill loop as coded -----------------------------------------

  /** A send that does not block: a full queue discards. */
  function Sent(slots: seq<Worker>, capacity: nat, c: Worker): seq<Worker> {
    if |slots| < capacity then slots + [c] else slots
  }

  /** The refill hands out the workers round robin. */
  function RoundRobin(workers: seq<Worker>, i: nat): Worker
    requires workers != []
  {
    workers[i % |workers|]
  }

  class Pool {
    var slots: seq<Worker>
    const capacity: nat

    ghost predicate Valid()
      reads this
    {
      |slots| <= capacity
    }

    constructor (capacity: nat)
      ensures Valid() && this.capacity == capacity && slots == []
    {
      this.capacity := capacity;
      slots := [];
    }

    method Put(c: Worker)
      requires Valid()
      modifies this
      ensures Valid() && slots == Sent(old(slots), capacity, c)
      ensures |old(slots)| < capacity ==> slots == old(slots) + [c]
      ensures |old(slots)| == capacity ==> slots == old(slots)
    {
      if |slots| < capacity {
        slots := slots + [c];
      }
    }

    /**
     `cancelled`: the context was done before the call; `done`: it is done when the select
     looks; `pick`: which of two ready cases the select takes, true for the slot. With no
     slot the caller waits until the context is done.
     */
    method Get(cancelled: bool, done: bool, pick: bool) returns (c: Option<Worker>)
      requires Valid()
      modifies this
      ensures Valid()
      ensures c.Some? <==> !cancelled && old(slots) != [] && (!done || pick)
      ensures c.None? ==> slots == old(slots)
      ensures c.Some? ==> old(slots) == [c.value] + slots
    {
      if cancelled {
        return None;
      }
      var slotReady := |slots| > 0;
      if slotReady && (!done || pick) {
        c := Some(slots[0]);
        slots := slots[1..];
      } else {
        c := None;
      }
    }

    /** With nothing beside it, a refill fills the queue with the workers in turn. */
    method Replenish(workers: seq<Worker>)
      requires Valid()
      modifies this
      ensures Valid()
      ensures workers == [] ==> slots == old(slots)
      ensures workers != [] ==>
        slots == old(slots) + seq(capacity - |old(slots)|, i requires 0 <= i => RoundRobin(workers, i))
      ensures workers != [] ==>
        && |slots| == capacity
        && forall i :: |old(slots)| <= i < capacity ==> slots[i] == workers[(i - |old(slots)|) % |workers|]
    {
      if |workers| == 0 {
        return;
      }
      var needed := capacity - |slots|;
      for i := 0 to needed
        invariant Valid() && |slots| == |old(slots)| + i
        invariant slots == old(slots) + seq(i, k requires 0 <= k => RoundRobin(workers, k))
      {
        Put(workers[i % |workers|]);
      }
    }
  }

  // ---- Interleavings -------------------------------------------------------------------

  /**
   A refill under way: decided on, then with the worker list it read, then with the
   number of puts it planned and how many it did.
   */
  datatype Refill = Due | Listed(workers: seq<Worker>) | Putting(workers: seq<Worker>, needed: nat, done: nat)

  /** `landed` and `dropped` count refill puts that entered the queue and slots discarded by executions. */
  datatype State = State(
    idle: seq<Worker>,
    running: map<Tid, Worker>,
    refill: Option<Refill>,
    workers: seq<Worker>,
    served: seq<Worker>,
    landed: nat,
    dropped: nat)

  datatype Event =
    | GetSlot(t: Tid)
    | PutSlot(t: Tid)
    | Tick                            // the refill loop's threshold test
    | ReadWorkers                     // the worker list, under the manager's mutex
    | Plan                            // the second look at the queue's length
    | RefillPut
    | Heartbeat(alive: seq<Worker>)   // replaces the worker list

  function Threshold(capacity: nat): nat {
    capacity / 2
  }

  /** The pool right after the constructor seeded it. */
  function Seeded(capacity: nat, workers: seq<Worker>): State
    requires workers != []
  {
    State(seq(capacity, i requires 0 <= i => RoundRobin(workers, i)), map[], None, workers, [], 0, 0)
  }

  function Step(capacity: nat, s: State, e: Event): State {
    match e
    case GetSlot(t) =>
      if t in s.running || s.idle == [] then s
      else s.(idle := s.idle[1..], running := s.running[t := s.idle[0]], served := s.served + [s.idle[0]])
    case PutSlot(t) =>
      if t !in s.running then s
      else s.(idle := Sent(s.idle, capacity, s.running[t]), running := s.running - {t},
              dropped := s.dropped + if |s.idle| < capacity then 0 else 1)
    case Tick =>
      if s.refill.Some? || |s.idle| >= Threshold(capacity) then s else s.(refill := Some(Due))
    case ReadWorkers =>
      if s.refill != Some(Due) then s
      else s.(refill := if s.workers == [] then None else Some(Listed(s.workers)))
    case Plan =>
      if s.refill.None? || !s.refill.value.Listed? then s
      else s.(refill := Some(Putting(s.refill.value.workers, Max(0, capacity - |s.idle|), 0)))
    case RefillPut =>
      if s.refill.None? || !s.refill.value.Putting? || s.refill.value.workers == [] then s
      else
        var r := s.refill.value;
        if r.done >= r.needed then s.(refill := None)
        else s.(idle := Sent(s.idle, capacity, RoundRobin(r.workers, r.done)),
                refill := Some(r.(done := r.done + 1)),
                landed := s.landed + if |s.idle| < capacity then 1 else 0)
    case Heartbeat(alive) => s.(workers := alive)
  }

  function Run(capacity: nat, s: State, es: seq<Event>): State {
    if es == [] then s else Step(capacity, Run(capacity, s, es[..|es| - 1]), es[|es| - 1])
  }

  /** Idle slots fit the queue, and slots are created only by refills and destroyed only by a full queue. */
  ghost predicate Inv(capacity: nat, s: State) {
    && |s.idle| <= capacity <= |s.idle| + |s.running|
    && |s.idle| + |s.running| + s.dropped == capacity + s.landed
    && (s.landed == 0 ==> s.dropped == 0)
  }

  lemma Added(m: map<Tid, Worker>, t: Tid, w: Worker)
    requires t !in m
    ensures |m[t := w]| == |m| + 1
  {
    assert m[t := w].Keys == m.Keys + {t};
  }

  lemma Removed(m: map<Tid, Worker>, t: Tid)
    requires t in m
    ensures |m - {t}| == |m| - 1
  {
    assert (m - {t}).Keys == m.Keys - {t};
  }

  lemma SentKeeps(capacity: nat, s: State, w: Worker)
    requires Inv(capacity, s)
    ensures var landed := s.landed + if |s.idle| < capacity then 1 else 0;
            Inv(capacity, s.(idle := Sent(s.idle, capacity, w), landed := landed))
  {
  }

  lemma RefillKeeps(capacity: nat, s: State)
    requires Inv(capacity, s)
    ensures Inv(capacity, Step(capacity, s, RefillPut))
  {
    if s.refill.Some? && s.refill.value.Putting? && s.refill.value.workers != [] {
      var r := s.refill.value;
      SentKeeps(capacity, s, RoundRobin(r.workers, r.done));
    }
  }

  lemma StepKeeps(capacity: nat, s: State, e: Event)
    requires Inv(capacity, s)
    ensures Inv(capacity, Step(capacity, s, e))
  {
    match e
    case GetSlot(t) => if t !in s.running && s.idle != [] { Added(s.running, t, s.idle[0]); }
    case PutSlot(t) => if t in s.running { Removed(s.running, t); }
    case Tick =>
    case ReadWorkers =>
    case Plan =>
    case RefillPut => RefillKeeps(capacity, s);
    case Heartbeat(alive) =>
  }

  /** In every interleaving the queue stays within capacity and idle plus running never falls below it. */
  lemma {:induction false} RunKeeps(capacity: nat, workers: seq<Worker>, es: seq<Event>)
    requires workers != []
    ensures Inv(capacity, Run(capacity, Seeded(capacity, workers), es))
  {
    if es != [] {
      RunKeeps(capacity, workers, es[..|es| - 1]);
      StepKeeps(capacity, Run(capacity, Seeded(capacity, workers), es[..|es| - 1]), es[|es| - 1]);
    }
  }

  /** A put of the refill that finds room in the queue. */
  predicate Lands(capacity: nat, s: State, e: Event) {
    && e.RefillPut? && s.refill.Some? && s.refill.value.Putting? && s.refill.value.workers != []
    && s.refill.value.done < s.refill.value.needed && |s.idle| < capacity
  }

  function At(capacity: nat, workers: seq<Worker>, es: seq<Event>, k: nat): State
    requires workers != [] && k <= |es|
  {
    Run(capacity, Seeded(capacity, workers), es[..k])
  }

  function Total(s: State): nat {
    |s.idle| + |s.running|
  }

  lemma LandedStep(capacity: nat, s: State, e: Event)
    ensures Step(capacity, s, e).landed == s.landed + if Lands(capacity, s, e) then 1 else 0
  {
  }

  /** The `k`-th event is such a put. */
  ghost predicate LandsAt(capacity: nat, workers: seq<Worker>, es: seq<Event>, k: nat)
    requires workers != [] && k < |es|
  {
    Lands(capacity, At(capacity, workers, es, k), es[k])
  }

  lemma LandsAtPrefix(capacity: nat, workers: seq<Worker>, es: seq<Event>, k: nat)
    requires workers != [] && k + 1 < |es|
    ensures LandsAt(capacity, workers, es[..|es| - 1], k) <==> LandsAt(capacity, workers, es, k)
  {
    assert es[..|es| - 1][..k] == es[..k];
  }

  lemma LandedSnoc(capacity: nat, workers: seq<Worker>, es: seq<Event>)
    requires workers != [] && es != []
    ensures var s := Seeded(capacity, workers);
            Run(capacity, s, es).landed
              == Run(capacity, s, es[..|es| - 1]).landed + if LandsAt(capacity, workers, es, |es| - 1) then 1 else 0
  {
    LandedStep(capacity, At(capacity, workers, es, |es| - 1), es[|es| - 1]);
  }

  lemma {:induction false} LandedIff(capacity: nat, workers: seq<Worker>, es: seq<Event>)
    requires workers != []
    ensures Run(capacity, Seeded(capacity, workers), es).landed == 0
       <==> forall k :: 0 <= k < |es| ==> !LandsAt(capacity, workers, es, k)
    decreases |es|
  {
    if es != [] {
      var before := es[..|es| - 1];
      LandedIff(capacity, workers, before);
      LandedSnoc(capacity, workers, es);
      forall k | 0 <= k < |before|
        ensures LandsAt(capacity, workers, before, k) <==> LandsAt(capacity, workers, es, k)
      {
        LandsAtPrefix(capacity, workers, es, k);
      }
      if Run(capacity, Seeded(capacity, workers), before).landed > 0 {
        var k :| 0 <= k < |before| && LandsAt(capacity, workers, before, k);
        assert LandsAt(capacity, workers, es, k);
      }
    }
  }

  /**
   The number of slots is the capacity at every point of a run if and only if no put of
   the refill loop finds room in the queue. (Such a put makes it possible to exceed the
   capacity; `GetsExceedIff` says when more executions than that can then be started.)
   */
  lemma SlotsFixedIff(capacity: nat, workers: seq<Worker>, es: seq<Event>)
    requires workers != []
    ensures (forall k :: 0 <= k <= |es| ==> Total(At(capacity, workers, es, k)) == capacity)
       <==> forall k :: 0 <= k < |es| ==> !LandsAt(capacity, workers, es, k)
  {
    var s := Seeded(capacity, workers);
    assert es[..|es|] == es;
    LandedIff(capacity, workers, es);
    forall k | 0 <= k <= |es|
      ensures At(capacity, workers, es, k).landed <= Run(capacity, s, es).landed
      ensures Inv(capacity, At(capacity, workers, es, k))
    {
      LandedGrows(capacity, s, es, k);
      RunKeeps(capacity, workers, es[..k]);
    }
    if Run(capacity, s, es).landed > 0 {
      var k := FirstLanding(capacity, workers, es);
      assert Total(At(capacity, workers, es, k)) > capacity;
    }
  }

  lemma {:induction false} LandedGrows(capacity: nat, s: State, es: seq<Event>, k: nat)
    requires k <= |es|
    ensures Run(capacity, s, es[..k]).landed <= Run(capacity, s, es).landed
    decreases |es|
  {
    if k == |es| {
      assert es[..k] == es;
    } else {
      assert es[..|es| - 1][..k] == es[..k];
      LandedGrows(capacity, s, es[..|es| - 1], k);
    }
  }

  /** The shortest prefix in which a refill put landed has one slot too many. */
  lemma {:induction false} FirstLanding(capacity: nat, workers: seq<Worker>, es: seq<Event>) returns (k: nat)
    requires workers != [] && Run(capacity, Seeded(capacity, workers), es).landed > 0
    ensures k <= |es| && Total(At(capacity, workers, es, k)) == capacity + 1
    decreases |es|
  {
    var before := es[..|es| - 1];
    if Run(capacity, Seeded(capacity, workers), before).landed > 0 {
      k := FirstLanding(capacity, workers, before);
      assert before[..k] == es[..k];
    } else {
      k := |es|;
      assert es[..k] == es;
      RunKeeps(capacity, workers, before);
      RunKeeps(capacity, workers, es);
    }
  }

  // ---- When and with what a refill is done -----------------------------------------------------

  /** The loop decides on a refill exactly when fewer slots are idle than half the capacity, rounded down. */
  lemma TickIff(capacity: nat, s: State)
    requires s.refill == None
    ensures Step(capacity, s, Tick) == if 2 * |s.idle| + 2 <= capacity then s.(refill := Some(Due)) else s
  {
  }

  /** The refill uses the workers of the last heartbeat before it read the list, in turn, and fills what is missing. */
  lemma RefillAfterHeartbeat(capacity: nat, s: State, alive: seq<Worker>)
    requires s.refill == Some(Due)
    ensures var listed := Step(capacity, Step(capacity, s, Heartbeat(alive)), ReadWorkers);
            && (alive == [] ==> listed.refill == None)
            && (alive != [] ==>
                  Step(capacity, listed, Plan).refill == Some(Putting(alive, Max(0, capacity - |s.idle|), 0)))
  {
  }

  lemma RefillPutIs(capacity: nat, s: State, r: Refill)
    requires s.refill == Some(r) && r.Putting? && r.workers != []
    ensures var after := Step(capacity, s, RefillPut);
            if r.done >= r.needed then after == s.(refill := None)
            else
              && after.refill == Some(Putting(r.workers, r.needed, r.done + 1))
              && after.idle == (if |s.idle| < capacity then s.idle + [r.workers[r.done % |r.workers|]] else s.idle)
              && after.running == s.running && after.workers == s.workers
  {
  }

  /** An execution takes the oldest idle slot and puts the same one back at the end. */
  lemma GetThenPut(capacity: nat, s: State, t: Tid)
    requires |s.idle| <= capacity && s.idle != [] && t !in s.running
    ensures var got := Step(capacity, s, GetSlot(t));
            && got.idle == s.idle[1..] && got.running == s.running[t := s.idle[0]]
            && got.served == s.served + [s.idle[0]]
            && Step(capacity, got, PutSlot(t)).idle == s.idle[1..] + [s.idle[0]]
            && Step(capacity, got, PutSlot(t)).running == s.running
  {
    assert s.running[t := s.idle[0]] - {t} == s.running;
  }

  /** A slot given back to a full queue is dropped. */
  lemma PutWhenFull(capacity: nat, s: State, t: Tid)
    requires |s.idle| == capacity && t in s.running
    ensures Step(capacity, s, PutSlot(t)) == s.(running := s.running - {t}, dropped := s.dropped + 1)
  {
  }

  // ---- Sequential runs -----------------------------------------------------------------

  /** At no point of the run are two executions in flight. */
  ghost predicate Sequential(capacity: nat, s: State, es: seq<Event>) {
    forall k :: 0 <= k <= |es| ==> |Run(capacity, s, es[..k]).running| <= 1
  }

  /** The worker whose turn it is when `x` executions have started. */
  function Turn(capacity: nat, workers: seq<Worker>, x: nat): Worker
    requires capacity >= 1 && workers != []
  {
    RoundRobin(workers, x % capacity)
  }

  lemma ModShift(x: nat, c: nat)
    requires c >= 1
    ensures (x + c) % c == x % c
  {
    var q, r := x / c, x % c;
    var q', r' := (x + c) / c, (x + c) % c;
    assert x == c * q + r && x + c == c * q' + r';
    var d := q' - q - 1;
    assert c * d == r - r';
    AtLeastOnce(c, d);
  }

  lemma AtLeastOnce(c: nat, d: int)
    ensures d >= 1 ==> c * d >= c
    ensures d <= -1 ==> c * d + c <= 0
  {
  }

  lemma TurnPeriod(capacity: nat, workers: seq<Worker>, x: nat)
    requires capacity >= 1 && workers != []
    ensures Turn(capacity, workers, x + capacity) == Turn(capacity, workers, x)
  {
    ModShift(x, capacity);
  }

  function Queue(capacity: nat, workers: seq<Worker>, from: nat, n: nat): (q: seq<Worker>)
    requires capacity >= 1 && workers != []
    ensures |q| == n
  {
    seq(n, j requires 0 <= j => Turn(capacity, workers, from + j))
  }

  /** The queue is the workers in turn from the next execution on; one of them may be out. */
  ghost predicate InTurn(capacity: nat, workers: seq<Worker>, s: State)
    requires capacity >= 1 && workers != []
  {
    var g := |s.served|;
    && s.refill == None
    && s.served == Queue(capacity, workers, 0, g)
    && (s.running == map[] ==> s.idle == Queue(capacity, workers, g, capacity))
    && (s.running != map[] ==>
          && |s.running| == 1 && g >= 1 && s.idle == Queue(capacity, workers, g, capacity - 1)
          && forall t :: t in s.running ==> s.running[t] == Turn(capacity, workers, g - 1))
  }

  lemma OnlyOne(m: map<Tid, Worker>, t: Tid)
    requires t in m && |m| == 1
    ensures m.Keys == {t} && m - {t} == map[]
  {
    assert |m.Keys - {t}| == 0;
  }

  lemma QueueTail(capacity: nat, workers: seq<Worker>, from: nat, n: nat)
    requires capacity >= 1 && workers != [] && n >= 1
    ensures Queue(capacity, workers, from, n)[0] == Turn(capacity, workers, from)
    ensures Queue(capacity, workers, from, n)[1..] == Queue(capacity, workers, from + 1, n - 1)
    ensures Queue(capacity, workers, from, n)
         == Queue(capacity, workers, from, n - 1) + [Turn(capacity, workers, from + n - 1)]
  {
  }

  lemma GetInTurn(capacity: nat, workers: seq<Worker>, s: State, t: Tid)
    requires capacity >= 1 && workers != [] && InTurn(capacity, workers, s) && s.running == map[]
    ensures InTurn(capacity, workers, Step(capacity, s, GetSlot(t)))
  {
    var g := |s.served|;
    QueueTail(capacity, workers, g, capacity);
    QueueTail(capacity, workers, 0, g + 1);
    Added(s.running, t, s.idle[0]);
    assert t in Step(capacity, s, GetSlot(t)).running;
  }

  lemma PutInTurn(capacity: nat, workers: seq<Worker>, s: State, t: Tid)
    requires capacity >= 1 && workers != [] && InTurn(capacity, workers, s) && t in s.running
    ensures InTurn(capacity, workers, Step(capacity, s, PutSlot(t)))
  {
    var g := |s.served|;
    OnlyOne(s.running, t);
    TurnPeriod(capacity, workers, g - 1);
    QueueTail(capacity, workers, g, capacity);
  }

  lemma StepInTurn(capacity: nat, workers: seq<Worker>, s: State, e: Event)
    requires capacity >= 1 && workers != [] && InTurn(capacity, workers, s)
    requires |Step(capacity, s, e).running| <= 1
    ensures InTurn(capacity, workers, Step(capacity, s, e))
  {
    match e
    case GetSlot(t) =>
      if t !in s.running && s.idle != [] {
        Added(s.running, t, s.idle[0]);
        assert |s.running| == 0 && s.running == map[];
        GetInTurn(capacity, workers, s, t);
      }
    case PutSlot(t) => if t in s.running { PutInTurn(capacity, workers, s, t); }
    case Tick =>
    case ReadWorkers =>
    case Plan =>
    case RefillPut =>
    case Heartbeat(alive) =>
  }

  /** The seeded queue starts at turn 0. */
  lemma SeededInTurn(capacity: nat, workers: seq<Worker>)
    requires capacity >= 1 && workers != []
    ensures InTurn(capacity, workers, Seeded(capacity, workers))
  {
    var s := Seeded(capacity, workers);
    forall j | 0 <= j < capacity ensures s.idle[j] == Turn(capacity, workers, j) { assert j % capacity == j; }
    assert s.idle == Queue(capacity, workers, 0, capacity);
  }

  /**
   In sequential runs the refill never starts, idle plus running is the capacity,
   and execution i, counted from 0, runs on worker (i mod capacity) mod n.
   */
  lemma {:induction false} SequentialRoundRobin(capacity: nat, workers: seq<Worker>, es: seq<Event>)
    requires capacity >= 1 && workers != [] && Sequential(capacity, Seeded(capacity, workers), es)
    ensures InTurn(capacity, workers, Run(capacity, Seeded(capacity, workers), es))
    ensures var s := Run(capacity, Seeded(capacity, workers), es);
            && s.refill == None && |s.idle| + |s.running| == capacity
            && forall i :: 0 <= i < |s.served| ==> s.served[i] == workers[(i % capacity) % |workers|]
    decreases |es|
  {
    var s := Seeded(capacity, workers);
    if es == [] {
      SeededInTurn(capacity, workers);
    } else {
      var before := es[..|es| - 1];
      forall k | 0 <= k <= |before| ensures |Run(capacity, s, before[..k]).running| <= 1 {
        assert before[..k] == es[..k];
      }
      SequentialRoundRobin(capacity, workers, before);
      assert es[..|es|] == es;
      StepInTurn(capacity, workers, Run(capacity, s, before), es[|es| - 1]);
    }
  }

  // ---- Executions in flight ----------------------------------------------------------------

  lemma {:induction false} RunConcat(capacity: nat, s: State, a: seq<Event>, b: seq<Event>)
    ensures Run(capacity, s, a + b) == Run(capacity, Run(capacity, s, a), b)
    decreases |b|
  {
    if b == [] {
      assert a + b == a;
    } else {
      assert (a + b)[..|a + b| - 1] == a + b[..|b| - 1];
      RunConcat(capacity, s, a, b[..|b| - 1]);
    }
  }

  lemma RunOne(capacity: nat, s: State, e: Event, es: seq<Event>)
    ensures Run(capacity, s, [e] + es) == Run(capacity, Step(capacity, s, e), es)
  {
    RunConcat(capacity, s, [e], es);
    assert [e][..0] == [] && Run(capacity, s, [e]) == Step(capacity, s, e);
  }

  ghost predicate OnlyGets(es: seq<Event>) {
    forall k :: 0 <= k < |es| ==> es[k].GetSlot?
  }

  /** A finite set of executions leaves a number unused. */
  lemma {:induction false} UnusedTid(ts: set<Tid>) returns (t: Tid)
    ensures t !in ts && forall u :: u in ts ==> u < t
    decreases |ts|
  {
    if ts == {} {
      t := 0;
    } else {
      var u :| u in ts;
      var rest := UnusedTid(ts - {u});
      t := Max(rest, u + 1);
      forall v | v in ts ensures v < t { if v != u { assert v in ts - {u}; } }
    }
  }

  /** Every idle slot is taken by a new execution. */
  lemma {:induction false} Take(capacity: nat, s: State) returns (es: seq<Event>)
    ensures OnlyGets(es)
    ensures var t := Run(capacity, s, es);
            t.idle == [] && |t.running| == Total(s) && t.refill == s.refill && t.workers == s.workers
    decreases |s.idle|
  {
    if s.idle == [] {
      es := [];
    } else {
      var t := UnusedTid(s.running.Keys);
      var next := Step(capacity, s, GetSlot(t));
      Added(s.running, t, s.idle[0]);
      var rest := Take(capacity, next);
      es := [GetSlot(t)] + rest;
      RunOne(capacity, s, GetSlot(t), rest);
    }
  }

  lemma {:induction false} GetsKeepTotal(capacity: nat, s: State, es: seq<Event>)
    requires OnlyGets(es)
    ensures Total(Run(capacity, s, es)) == Total(s)
  {
    if es != [] {
      var before, t := Run(capacity, s, es[..|es| - 1]), es[|es| - 1].t;
      GetsKeepTotal(capacity, s, es[..|es| - 1]);
      if t !in before.running && before.idle != [] { Added(before.running, t, before.idle[0]); }
    }
  }

  /** In any state, new executions alone can exceed the capacity exactly when idle and running slots together do. */
  lemma GetsExceedIff(capacity: nat, s: State)
    ensures (exists es :: OnlyGets(es) && |Run(capacity, s, es).running| > capacity) <==> Total(s) > capacity
  {
    if es :| OnlyGets(es) && |Run(capacity, s, es).running| > capacity { GetsKeepTotal(capacity, s, es); }
    if Total(s) > capacity {
      var es := Take(capacity, s);
      assert OnlyGets(es) && |Run(capacity, s, es).running| > capacity;
    }
  }

  /** Queue empty, no refill under way, `n` executions running. */
  ghost predicate Drained(s: State, n: nat) {
    s.idle == [] && s.refill == None && s.workers != [] && |s.running| == n
  }

  /** A refill runs to its end. */
  lemma {:induction false} Fill(capacity: nat, s: State) returns (es: seq<Event>)
    requires s.refill.Some? && s.refill.value.Putting?
    requires s.refill.value.workers != [] && s.refill.value.done <= s.refill.value.needed
    requires |s.idle| + s.refill.value.needed - s.refill.value.done == capacity
    ensures var t := Run(capacity, s, es);
            |t.idle| == capacity && t.refill == None && t.running == s.running && t.workers == s.workers
    decreases s.refill.value.needed - s.refill.value.done
  {
    var next := Step(capacity, s, RefillPut);
    if s.refill.value.done == s.refill.value.needed {
      es := [RefillPut];
      RunOne(capacity, s, RefillPut, []);
      assert [RefillPut] + [] == [RefillPut];
    } else {
      var rest := Fill(capacity, next);
      es := [RefillPut] + rest;
      RunOne(capacity, s, RefillPut, rest);
    }
  }

  /** The empty queue triggers a refill. */
  lemma RefillStarts(capacity: nat, s: State, n: nat)
    requires capacity >= 2 && Drained(s, n)
    ensures Run(capacity, s, [Tick] + [ReadWorkers] + [Plan]) == s.(refill := Some(Putting(s.workers, capacity, 0)))
  {
    RunConcat(capacity, s, [Tick] + [ReadWorkers], [Plan]);
    RunConcat(capacity, s, [Tick], [ReadWorkers]);
    assert [Tick][..0] == [] && [ReadWorkers][..0] == [] && [Plan][..0] == [];
    assert Run(capacity, s, [Tick]) == Step(capacity, s, Tick);
    var due := Step(capacity, s, Tick);
    assert Run(capacity, due, [ReadWorkers]) == Step(capacity, due, ReadWorkers);
  }

  /** The refill's slots are taken while everything still runs. */
  lemma Round(capacity: nat, s: State, n: nat) returns (es: seq<Event>)
    requires capacity >= 2 && Drained(s, n)
    ensures Drained(Run(capacity, s, es), n + capacity)
  {
    var start := [Tick] + [ReadWorkers] + [Plan];
    RefillStarts(capacity, s, n);
    var fill := Fill(capacity, Run(capacity, s, start));
    RunConcat(capacity, s, start, fill);
    var take := Take(capacity, Run(capacity, s, start + fill));
    RunConcat(capacity, s, start + fill, take);
    es := start + fill + take;
  }

  /** With two slots or more any number of executions can be in flight at once. */
  lemma {:induction false} InFlightUnbounded(capacity: nat, workers: seq<Worker>, m: nat)
    requires capacity >= 2 && workers != []
    ensures exists es, n :: n >= m && Drained(Run(capacity, Seeded(capacity, workers), es), n)
  {
    var start := Seeded(capacity, workers);
    if m == 0 {
      var es := Take(capacity, start);
      assert Drained(Run(capacity, start, es), capacity);
    } else {
      InFlightUnbounded(capacity, workers, m - 1);
      var es, n :| n >= m - 1 && Drained(Run(capacity, start, es), n);
      var more := Round(capacity, Run(capacity, start, es), n);
      RunConcat(capacity, start, es, more);
      assert Drained(Run(capacity, start, es + more), n + capacity);
    }
  }

  /** With fewer than two slots the threshold is zero and the refill never starts. */
  lemma {:induction false} SmallNeverRefills(capacity: nat, workers: seq<Worker>, es: seq<Event>)
    requires capacity < 2 && workers != []
    ensures var s := Run(capacity, Seeded(capacity, workers), es); s.refill == None && s.landed == 0
  {
    if es != [] { SmallNeverRefills(capacity, workers, es[..|es| - 1]); }
  }

  /** The pool caps the executions in flight, over all its runs, exactly when its capacity is below two. */
  lemma InFlightBoundedIff(capacity: nat, workers: seq<Worker>)
    requires workers != []
    ensures (forall es :: |Run(capacity, Seeded(capacity, workers), es).running| <= capacity) <==> capacity < 2
  {
    var start := Seeded(capacity, workers);
    if capacity < 2 {
      forall es ensures |Run(capacity, start, es).running| <= capacity {
        SmallNeverRefills(capacity, workers, es);
        RunKeeps(capacity, workers, es);
      }
    } else {
      InFlightUnbounded(capacity, workers, capacity + 1);
      var es, n :| n >= capacity + 1 && Drained(Run(capacity, start, es), n);
      assert |Run(capacity, start, es).running| > capacity;
    }
  }
}
