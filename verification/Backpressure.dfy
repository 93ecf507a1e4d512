/**
 The worker's admission guard. A handler reads the load, is shed or counted as
 admitted, takes a ticket and drops it when done; reading the load and taking the
 ticket are separate atomic steps, so handlers can overshoot the threshold together.
 */
module Backpressure {
  import opened Base
  import opened MapSum

  datatype LoadSnapshot = LoadSnapshot(cpu: real, memory: real, pool: real) {
    predicate IsOverloaded() {
      cpu > 80.0 || memory > 85.0 || pool > 0.90
    }

    function RetryAfterSecs(): nat {
      if cpu > 95.0 || pool > 0.98 then 10
      else if cpu > 90.0 || pool > 0.95 then 5
      else if cpu > 80.0 || pool > 0.90 then 2
      else 1
    }
  }

  /** An empty pool counts as fully used. */
  function Utilisation(active: nat, capacity: nat): real {
    if capacity == 0 then 1.0 else active as real / capacity as real
  }

  /** The most active executions with which the pool is not over its threshold. */
  function Limit(capacity: nat): nat {
    9 * capacity / 10
  }

  lemma UnderThresholdIff(active: nat, capacity: nat)
    ensures Utilisation(active, capacity) <= 0.90 <==> capacity > 0 && active <= Limit(capacity)
  {
    if capacity > 0 {
      var a, c := active as real, capacity as real;
      assert a / c * c == a;
      assert a / c <= 0.90 <==> a <= 0.90 * c by {
        if a / c <= 0.90 { assert a / c * c <= 0.90 * c; }
        if a <= 0.90 * c { assert a / c <= 0.90 * c / c == 0.90; }
      }
      assert a <= 0.90 * c <==> 10 * active <= 9 * capacity;
    }
  }

  type Tid = nat

  /** Load read, with the verdict it gives; counted as admitted; ticket held. */
  datatype Phase = Loaded(shed: bool) | Passed | Ticket

  datatype State = State(active: int, handlers: map<Tid, Phase>, admitted: nat, shed: nat, checks: nat)

  const Start := State(0, map[], 0, 0, 0)

  datatype Event =
    | Load(t: Tid, cpu: real, memory: real)  // snapshot and active count are read
    | Decide(t: Tid)                         // shed_count or admitted_count is incremented
    | Admit(t: Tid)                          // active_count is incremented
    | Drop(t: Tid)                           // the ticket is dropped

  function Step(capacity: nat, s: State, e: Event): State {
    match e
    case Load(t, cpu, memory) =>
      if t in s.handlers || s.active < 0 then s
      else
        var over := LoadSnapshot(cpu, memory, Utilisation(s.active, capacity)).IsOverloaded();
        s.(handlers := s.handlers[t := Loaded(over)], checks := s.checks + 1)
    case Decide(t) =>
      if t !in s.handlers || !s.handlers[t].Loaded? then s
      else if s.handlers[t].shed then s.(handlers := s.handlers - {t}, shed := s.shed + 1)
      else s.(handlers := s.handlers[t := Passed], admitted := s.admitted + 1)
    case Admit(t) =>
      if t !in s.handlers || s.handlers[t] != Passed then s
      else s.(handlers := s.handlers[t := Ticket], active := s.active + 1)
    case Drop(t) =>
      if t !in s.handlers || s.handlers[t] != Ticket then s
      else s.(handlers := s.handlers - {t}, active := s.active - 1)
  }

  function Run(capacity: nat, es: seq<Event>): State {
    if es == [] then Start else Step(capacity, Run(capacity, es[..|es| - 1]), es[|es| - 1])
  }

  // ---- Every interleaving ----------------------------------------------------------------

  ghost const IsTicket := (p: Phase) => if p == Ticket then 1 else 0

  /** Found the load acceptable and has no ticket yet. */
  ghost const IsBetween := (p: Phase) => if p == Passed || p == Loaded(false) then 1 else 0

  ghost const IsLoaded := (p: Phase) => if p.Loaded? then 1 else 0

  /** The active count is the number of live tickets, and every check ends up admitted or shed. */
  ghost predicate Inv(s: State) {
    && s.active == Sum(s.handlers, IsTicket)
    && s.checks == s.admitted + s.shed + Sum(s.handlers, IsLoaded)
  }

  ghost function Between(s: State): nat {
    Sum(s.handlers, IsBetween)
  }

  lemma SetHandler(m: map<Tid, Phase>, t: Tid, p: Phase)
    ensures Sum(m[t := p], IsTicket) == IsTicket(p) + Sum(m - {t}, IsTicket)
    ensures Sum(m[t := p], IsLoaded) == IsLoaded(p) + Sum(m - {t}, IsLoaded)
    ensures Sum(m[t := p], IsBetween) == IsBetween(p) + Sum(m - {t}, IsBetween)
  {
    SumSet(m, t, p, IsTicket);
    SumSet(m, t, p, IsLoaded);
    SumSet(m, t, p, IsBetween);
  }

  lemma WithoutHandler(m: map<Tid, Phase>, t: Tid)
    ensures Sum(m, IsTicket) == Sum(m - {t}, IsTicket) + if t in m then IsTicket(m[t]) else 0
    ensures Sum(m, IsLoaded) == Sum(m - {t}, IsLoaded) + if t in m then IsLoaded(m[t]) else 0
    ensures Sum(m, IsBetween) == Sum(m - {t}, IsBetween) + if t in m then IsBetween(m[t]) else 0
  {
    SumWithout(m, t, IsTicket);
    SumWithout(m, t, IsLoaded);
    SumWithout(m, t, IsBetween);
  }

  lemma StepKeeps(capacity: nat, s: State, e: Event)
    requires Inv(s)
    ensures Inv(Step(capacity, s, e))
  {
    WithoutHandler(s.handlers, e.t);
    var after := Step(capacity, s, e).handlers;
    if e.t in after { SetHandler(s.handlers, e.t, after[e.t]); }
  }

  /** Overshoot is bought only with handlers between check and ticket. */
  lemma StepBounded(capacity: nat, s: State, e: Event, k: nat)
    requires Inv(s) && s.active + Between(s) <= Limit(capacity) + k
    requires Between(Step(capacity, s, e)) <= k
    ensures var t := Step(capacity, s, e); t.active + Between(t) <= Limit(capacity) + k
  {
    WithoutHandler(s.handlers, e.t);
    var after := Step(capacity, s, e).handlers;
    if e.t in after { SetHandler(s.handlers, e.t, after[e.t]); }
    if e.Load? { UnderThresholdIff(s.active, capacity); }
  }

  /** At no point of the run are more than `k` handlers between check and ticket. */
  ghost predicate AtMostBetween(capacity: nat, es: seq<Event>, k: nat) {
    forall i :: 0 <= i <= |es| ==> Between(Run(capacity, es[..i])) <= k
  }

  lemma {:induction false} RunKeeps(capacity: nat, es: seq<Event>)
    ensures Inv(Run(capacity, es))
  {
    if es == [] {
      assert Start.handlers == map[];
    } else {
      RunKeeps(capacity, es[..|es| - 1]);
      StepKeeps(capacity, Run(capacity, es[..|es| - 1]), es[|es| - 1]);
    }
  }

  /**
   With at most `k` handlers between check and ticket, active executions never exceed
   floor(0.9 * capacity) + k, in any interleaving.
   */
  lemma {:induction false} ActiveBounded(capacity: nat, es: seq<Event>, k: nat)
    requires AtMostBetween(capacity, es, k)
    ensures var s := Run(capacity, es); Inv(s) && 0 <= s.active && s.active + Between(s) <= Limit(capacity) + k
    decreases |es|
  {
    RunKeeps(capacity, es);
    if es == [] {
      assert Start.handlers == map[];
    } else {
      var before := es[..|es| - 1];
      forall i | 0 <= i <= |before| ensures Between(Run(capacity, before[..i])) <= k { assert before[..i] == es[..i]; }
      ActiveBounded(capacity, before, k);
      assert es[..|es|] == es;
      StepBounded(capacity, Run(capacity, before), es[|es| - 1], k);
    }
  }

  // ---- The code ----------------------------------------------------------------------------

  /**
   The guard's counters and its operations, each as one caller sees it with nothing beside
   it. `handlers` and `checks` say who is where; they are not stored by the code.
   */
  class BackPressureGuard {
    const poolCapacity: nat
    var cpuPercent: real
    var memoryPercent: real
    var activeCount: nat
    var shedCount: nat
    var admittedCount: nat
    ghost var handlers: map<Tid, Phase>
    ghost var checks: nat

    ghost function View(): State
      reads this
    {
      State(activeCount, handlers, admittedCount, shedCount, checks)
    }

    /** The active count is the number of live tickets, and every check is accounted for. */
    ghost predicate Valid()
      reads this
    {
      Inv(View())
    }

    constructor (poolCapacity: nat)
      ensures Valid() && View() == Start
      ensures this.poolCapacity == poolCapacity && cpuPercent == 0.0 && memoryPercent == 0.0
    {
      this.poolCapacity := poolCapacity;
      cpuPercent, memoryPercent := 0.0, 0.0;
      activeCount, shedCount, admittedCount := 0, 0, 0;
      handlers, checks := map[], 0;
      new;
      RunKeeps(poolCapacity, []);
    }

    /** Passes exactly when CPU and memory are within their limits and at most floor(0.9 * capacity) are active. */
    method CheckAdmission(ghost t: Tid) returns (r: Result<(), LoadSnapshot>)
      requires Valid() && t !in handlers
      modifies this`shedCount, this`admittedCount, this`handlers, this`checks
      ensures Valid()
      ensures View()
           == Step(poolCapacity, Step(poolCapacity, old(View()), Load(t, cpuPercent, memoryPercent)), Decide(t))
      ensures r.Ok? <==>
        cpuPercent <= 80.0 && memoryPercent <= 85.0 && poolCapacity > 0 && activeCount <= Limit(poolCapacity)
      ensures r.Ok? <==> t in handlers && handlers[t] == Passed
      ensures r.Err? ==> r.error.IsOverloaded() && r.error.pool == Utilisation(activeCount, poolCapacity)
    {
      ghost var loaded := Step(poolCapacity, View(), Load(t, cpuPercent, memoryPercent));
      StepKeeps(poolCapacity, View(), Load(t, cpuPercent, memoryPercent));
      StepKeeps(poolCapacity, loaded, Decide(t));
      var snapshot := LoadSnapshot(cpuPercent, memoryPercent, Utilisation(activeCount, poolCapacity));
      UnderThresholdIff(activeCount, poolCapacity);
      if snapshot.IsOverloaded() {
        shedCount := shedCount + 1;
        r := Err(snapshot);
      } else {
        admittedCount := admittedCount + 1;
        r := Ok(());
      }
      ghost var decided := Step(poolCapacity, loaded, Decide(t));
      handlers, checks := decided.handlers, decided.checks;
    }

    /** Takes the ticket of a handler whose check passed. */
    method Admit(ghost t: Tid)
      requires Valid() && t in handlers && handlers[t] == Passed
      modifies this`activeCount, this`handlers
      ensures Valid() && View() == Step(poolCapacity, old(View()), Event.Admit(t))
    {
      StepKeeps(poolCapacity, View(), Event.Admit(t));
      activeCount := activeCount + 1;
      handlers := handlers[t := Ticket];
    }

    /** Drops a live ticket; there being one, the unsigned counter does not wrap. */
    method DropTicket(ghost t: Tid)
      requires Valid() && t in handlers && handlers[t] == Ticket
      modifies this`activeCount, this`handlers
      ensures Valid() && View() == Step(poolCapacity, old(View()), Drop(t)) && activeCount < old(activeCount)
    {
      StepKeeps(poolCapacity, View(), Drop(t));
      WithoutHandler(handlers, t);
      activeCount := activeCount - 1;
      handlers := handlers - {t};
    }
  }

  // ---- The bound is reached ---------------------------------------------------------------

  /** Tickets `0..a`, then handlers `a..n` that found the load acceptable; nobody else. */
  ghost predicate Layout(s: State, a: nat, n: nat) {
    && s.active == a <= n && Between(s) == n - a
    && (forall t: Tid :: t in s.handlers <==> t < n)
    && (forall t :: t in s.handlers && t < a ==> s.handlers[t] == Ticket)
    && (forall t :: t in s.handlers && a <= t ==> s.handlers[t] == Loaded(false))
  }

  lemma Append(capacity: nat, es: seq<Event>, e: Event, k: nat)
    requires AtMostBetween(capacity, es, k) && Between(Step(capacity, Run(capacity, es), e)) <= k
    ensures Run(capacity, es + [e]) == Step(capacity, Run(capacity, es), e)
    ensures AtMostBetween(capacity, es + [e], k)
  {
    var all := es + [e];
    assert all[..|es|] == es;
    forall i | 0 <= i <= |all| ensures Between(Run(capacity, all[..i])) <= k {
      if i <= |es| { assert all[..i] == es[..i]; } else { assert all[..i] == all; }
    }
  }

  lemma LoadedState(capacity: nat, s: State, n: nat)
    requires capacity > 0 && 0 <= s.active <= Limit(capacity) && n !in s.handlers
    ensures Step(capacity, s, Load(n, 0.0, 0.0))
         == s.(handlers := s.handlers[n := Loaded(false)], checks := s.checks + 1)
  {
    UnderThresholdIff(s.active, capacity);
  }

  lemma LoadLayout(s: State, after: State, a: nat, n: nat)
    requires Layout(s, a, n) && after.handlers == s.handlers[n := Loaded(false)] && after.active == s.active
    ensures Layout(after, a, n + 1)
  {
    WithoutHandler(s.handlers, n);
    SetHandler(s.handlers, n, Loaded(false));
  }

  lemma LoadOne(capacity: nat, es: seq<Event>, a: nat, n: nat, k: nat) returns (more: seq<Event>)
    requires capacity > 0 && a <= Limit(capacity) && n - a < k
    requires AtMostBetween(capacity, es, k) && Layout(Run(capacity, es), a, n)
    ensures AtMostBetween(capacity, more, k) && Layout(Run(capacity, more), a, n + 1)
  {
    var s, e := Run(capacity, es), Load(n, 0.0, 0.0);
    LoadedState(capacity, s, n);
    LoadLayout(s, Step(capacity, s, e), a, n);
    Append(capacity, es, e, k);
    more := es + [e];
  }

  lemma DecideLayout(capacity: nat, s: State, a: nat, n: nat)
    requires a < n && Layout(s, a, n)
    ensures var mid := Step(capacity, s, Decide(a));
            mid.handlers == s.handlers[a := Passed] && mid.active == a && Between(mid) == n - a
  {
    WithoutHandler(s.handlers, a);
    SetHandler(s.handlers, a, Passed);
  }

  lemma AdmitLayout(capacity: nat, s: State, mid: State, a: nat, n: nat)
    requires a < n && Layout(s, a, n)
    requires mid.handlers == s.handlers[a := Passed] && mid.active == a && Between(mid) == n - a
    ensures Layout(Step(capacity, mid, Admit(a)), a + 1, n)
  {
    WithoutHandler(mid.handlers, a);
    SetHandler(mid.handlers, a, Ticket);
  }

  lemma AdmitOne(capacity: nat, es: seq<Event>, a: nat, n: nat, k: nat) returns (more: seq<Event>)
    requires a < n && AtMostBetween(capacity, es, k) && Layout(Run(capacity, es), a, n)
    ensures AtMostBetween(capacity, more, k) && Layout(Run(capacity, more), a + 1, n)
  {
    var s := Run(capacity, es);
    assert es[..|es|] == es && Between(s) <= k;
    DecideLayout(capacity, s, a, n);
    Append(capacity, es, Decide(a), k);
    AdmitLayout(capacity, s, Step(capacity, s, Decide(a)), a, n);
    Append(capacity, es + [Decide(a)], Admit(a), k);
    more := es + [Decide(a)] + [Admit(a)];
  }

  /** One handler at a time, tickets up to the limit; then `k` handlers find the load acceptable together. */
  lemma {:induction false} LoadMany(capacity: nat, a: nat, n: nat, k: nat) returns (es: seq<Event>)
    requires capacity > 0 && k >= 1 && a <= Limit(capacity) && a <= n <= a + k
    ensures AtMostBetween(capacity, es, k) && Layout(Run(capacity, es), a, n)
    decreases a, n
  {
    if n > a {
      es := LoadMany(capacity, a, n - 1, k);
      es := LoadOne(capacity, es, a, n - 1, k);
    } else if a > 0 {
      es := LoadMany(capacity, a - 1, a, k);
      es := AdmitOne(capacity, es, a - 1, a, k);
    } else {
      es := [];
      assert Run(capacity, es) == Start && Start.handlers == map[];
    }
  }

  lemma {:induction false} AdmitMany(capacity: nat, m: nat, k: nat) returns (es: seq<Event>)
    requires capacity > 0 && k >= 1 && m <= k
    ensures AtMostBetween(capacity, es, k) && Layout(Run(capacity, es), Limit(capacity) + m, Limit(capacity) + k)
    decreases m
  {
    if m == 0 {
      es := LoadMany(capacity, Limit(capacity), Limit(capacity) + k, k);
    } else {
      es := AdmitMany(capacity, m - 1, k);
      es := AdmitOne(capacity, es, Limit(capacity) + m - 1, Limit(capacity) + k, k);
    }
  }

  /** For every pool and k some interleaving with at most k handlers in between reaches floor(0.9 * capacity) + k. */
  lemma BoundReached(capacity: nat, k: nat)
    requires capacity > 0 && k >= 1
    ensures exists es :: AtMostBetween(capacity, es, k) && Run(capacity, es).active == Limit(capacity) + k
  {
    var es := AdmitMany(capacity, k, k);
    assert AtMostBetween(capacity, es, k) && Run(capacity, es).active == Limit(capacity) + k;
  }

  /** More load never shortens the wait, and a wait above the base value or too much memory is what sheds a request. */
  lemma RetryGraduated(a: LoadSnapshot, b: LoadSnapshot)
    ensures a.cpu <= b.cpu && a.pool <= b.pool ==> a.RetryAfterSecs() <= b.RetryAfterSecs()
    ensures a.IsOverloaded() <==> a.RetryAfterSecs() >= 2 || a.memory > 85.0
    ensures a.RetryAfterSecs() in {1, 2, 5, 10}
    ensures a.RetryAfterSecs() >= 2 <==> a.cpu > 80.0 || a.pool > 0.90
    ensures a.RetryAfterSecs() >= 5 <==> a.cpu > 90.0 || a.pool > 0.95
    ensures a.RetryAfterSecs() >= 10 <==> a.cpu > 95.0 || a.pool > 0.98
  {
  }
}
