/**
 Sandbox slots in the worker: an execution takes a permit, pops a warm slot under the
 deque's lock, makes a cold one after releasing the lock if there was none, runs, makes
 a fresh slot and pushes it under the lock again. Any number of executions interleave
 at these steps, so warm slots may come back between a missed pop and the cold slot it
 leads to; an early error return gives the permit back without pushing anything. The
 slot an execution ran in is freed when it returns, after its replacement was pushed.
 */
module SlotPool {
  import opened Base
  import opened MapSum

  type Tid = nat
  type SlotId = nat

  const TOTAL_SLOTS: nat := 512

  /** Permit taken; no warm slot found; slot in use; replacement made; replacement pushed or failed, about to return. */
  datatype Phase = Admitted | Missed | Holding(slot: SlotId) | Renewed(next: SlotId) | Finishing

  /** Slot identifiers are minted in order; `handed` lists the slots given to executions. */
  datatype State = State(
    warm: seq<SlotId>,
    execs: map<Tid, Phase>,
    minted: nat,
    handed: seq<SlotId>,
    cold: nat,
    lost: nat)

  /** The pool after pre-warming, in which some slots may have failed. */
  function Prewarmed(n: nat): State {
    State(seq(n, i => i), map[], n, [], 0, 0)
  }

  datatype Event =
    | Acquire(t: Tid)
    | Pop(t: Tid)                    // pop_front under the lock
    | Make(t: Tid, made: bool)       // the cold slot, without the lock; `made`: whether it could be made
    | Abort(t: Tid)                  // early return while holding a slot
    | Renew(t: Tid, made: bool)      // the fresh slot, without the lock
    | Push(t: Tid)                   // push_back under the lock
    | Leave(t: Tid)                  // the permit is released

  predicate In(s: State, t: Tid, p: Phase) {
    t in s.execs && s.execs[t] == p
  }

  function Step(s: State, e: Event): State {
    match e
    case Acquire(t) =>
      if t in s.execs || |s.execs| >= TOTAL_SLOTS then s else s.(execs := s.execs[t := Admitted])
    case Pop(t) =>
      if !In(s, t, Admitted) then s
      else if s.warm == [] then s.(execs := s.execs[t := Missed])
      else s.(warm := s.warm[1..], execs := s.execs[t := Holding(s.warm[0])], handed := s.handed + [s.warm[0]])
    case Make(t, made) =>
      if !In(s, t, Missed) then s
      else if made then
        s.(execs := s.execs[t := Holding(s.minted)], handed := s.handed + [s.minted],
           minted := s.minted + 1, cold := s.cold + 1)
      else s.(execs := s.execs - {t})
    case Abort(t) =>
      if t !in s.execs || !s.execs[t].Holding? then s
      else s.(execs := s.execs - {t}, lost := s.lost + 1)
    case Renew(t, made) =>
      if t !in s.execs || !s.execs[t].Holding? then s
      else if made then s.(execs := s.execs[t := Renewed(s.minted)], minted := s.minted + 1)
      else s.(execs := s.execs[t := Finishing], lost := s.lost + 1)
    case Push(t) =>
      if t !in s.execs || !s.execs[t].Renewed? then s
      else s.(execs := s.execs[t := Finishing], warm := s.warm + [s.execs[t].next])
    case Leave(t) =>
      if !In(s, t, Finishing) then s else s.(execs := s.execs - {t})
  }

  function Run(n: nat, es: seq<Event>): State {
    if es == [] then Prewarmed(n) else Step(Run(n, es[..|es| - 1]), es[|es| - 1])
  }

  // ---- The code ----------------------------------------------------------------------------

  /** How one execution goes: whether slots can be made when asked for, and whether it returns early. */
  datatype Course = Course(coldMade: bool, aborts: bool, freshMade: bool)

  function Obtained(s: State, t: Tid, coldMade: bool): State {
    Step(Step(Step(s, Acquire(t)), Pop(t)), Make(t, coldMade))
  }

  function ReturnSteps(s: State, t: Tid, c: Course): State {
    if c.aborts then Step(s, Abort(t)) else Step(Step(Step(s, Renew(t, c.freshMade)), Push(t)), Leave(t))
  }

  /** One execution from permit to return, with nothing beside it. */
  function ExecuteSteps(s: State, t: Tid, c: Course): State {
    ReturnSteps(Obtained(s, t, c.coldMade), t, c)
  }

  /** Taking the permit and a slot, warm if there is one. */
  function Got(s: State): State {
    if s.warm == [] then s.(minted := s.minted + 1, cold := s.cold + 1, handed := s.handed + [s.minted])
    else s.(warm := s.warm[1..], handed := s.handed + [s.warm[0]])
  }

  lemma ObtainEffect(s: State, t: Tid, made: bool) returns (slot: SlotId)
    requires s.execs == map[]
    ensures Obtained(s, t, made) ==
            if s.warm == [] && !made then s else Got(s).(execs := map[t := Holding(slot)])
  {
    slot := if s.warm == [] then s.minted else s.warm[0];
    var s1 := Step(s, Acquire(t));
    assert s1.execs == map[t := Admitted];
    assert s1.execs[t := Missed] - {t} == map[] && s1.execs[t := Missed][t := Holding(slot)] == map[t := Holding(slot)];
    assert s1.execs[t := Holding(slot)] == map[t := Holding(slot)];
  }

  /** The steps of one execution spelled out: a slot is taken and a fresh one appended, or something is missing. */
  lemma ExecuteEffect(s: State, t: Tid, c: Course)
    requires s.execs == map[]
    ensures ExecuteSteps(s, t, c) ==
      if s.warm == [] && !c.coldMade then s
      else if c.aborts || !c.freshMade then Got(s).(lost := s.lost + 1)
      else Got(s).(warm := Got(s).warm + [Got(s).minted], minted := Got(s).minted + 1)
  {
    var slot := ObtainEffect(s, t, c.coldMade);
    if !(s.warm == [] && !c.coldMade) { ReturnEffect(Got(s).(execs := map[t := Holding(slot)]), t, slot, c); }
  }

  lemma ReturnEffect(s: State, t: Tid, slot: SlotId, c: Course)
    requires s.execs == map[t := Holding(slot)]
    ensures ReturnSteps(s, t, c) ==
      if c.aborts || !c.freshMade then s.(execs := map[], lost := s.lost + 1)
      else s.(execs := map[], warm := s.warm + [s.minted], minted := s.minted + 1)
  {
    Only(s.execs, t, Holding(slot), Finishing);
    Only(s.execs, t, Holding(slot), Renewed(s.minted));
    if !c.aborts {
      var next := Step(s, Renew(t, c.freshMade));
      if c.freshMade {
        PushEffect(next, t, s.minted);
        LeaveEffect(Step(next, Push(t)), t);
      } else {
        LeaveEffect(next, t);
      }
    }
  }

  lemma PushEffect(s: State, t: Tid, x: SlotId)
    requires s.execs == map[t := Renewed(x)]
    ensures Step(s, Push(t)) == s.(execs := map[t := Finishing], warm := s.warm + [x])
  {
    Only(s.execs, t, Renewed(x), Finishing);
  }

  lemma LeaveEffect(s: State, t: Tid)
    requires s.execs == map[t := Finishing]
    ensures Step(s, Push(t)) == s && Step(s, Leave(t)) == s.(execs := map[])
  {
    Only(s.execs, t, Finishing, Finishing);
  }

  lemma Only(execs: map<Tid, Phase>, t: Tid, p: Phase, q: Phase)
    requires execs == map[t := p]
    ensures execs - {t} == map[] && execs[t := q] == map[t := q] && map[t := q] - {t} == map[]
  {
  }

  class SandboxPool {
    var warmSlots: seq<SlotId>
    var minted: nat
    ghost var handed: seq<SlotId>
    ghost var cold: nat
    ghost var lost: nat

    ghost function View(): State
      reads this
    {
      State(warmSlots, map[], minted, handed, cold, lost)
    }

    /** Pre-warming: `n` of the attempted slots could be made. */
    constructor (n: nat)
      ensures View() == Prewarmed(n)
    {
      warmSlots, minted := seq(n, i => i), n;
      handed, cold, lost := [], 0, 0;
    }

    /** The slot the execution ran in, or nothing if none could be had. */
    method Execute(t: Tid, c: Course) returns (slot: Option<SlotId>)
      modifies this
      ensures View() == ExecuteSteps(old(View()), t, c)
      ensures slot.Some? ==> handed == old(handed) + [slot.value]
      ensures slot.None? <==> old(warmSlots) == [] && !c.coldMade
      ensures old(warmSlots) != [] ==> slot == Some(old(warmSlots)[0])
      ensures old(warmSlots) != [] && !c.aborts && c.freshMade ==> warmSlots == old(warmSlots)[1..] + [old(minted)]
    {
      ExecuteEffect(View(), t, c);
      ghost var got := Got(View());
      if |warmSlots| > 0 {
        slot := Some(warmSlots[0]);
        warmSlots := warmSlots[1..];
      } else if c.coldMade {
        slot := Some(minted);
        minted := minted + 1;
        cold := cold + 1;
      } else {
        return None;
      }
      handed := handed + [slot.value];
      assert View() == got;
      if c.aborts {
        lost := lost + 1;
        return;
      }
      if c.freshMade {
        warmSlots := warmSlots + [minted];
        minted := minted + 1;
      } else {
        lost := lost + 1;
      }
    }
  }

  // ---- How many slots there are -----------------------------------------------------------

  /** Has an unspent slot in hand: the one it runs in, or the one it is about to push. */
  ghost const HasSlot := (p: Phase) => if p.Holding? || p.Renewed? then 1 else 0

  /** Has a slot in hand or has found none and is about to make one. */
  ghost const Claims := (p: Phase) => if p.Missed? || p.Holding? || p.Renewed? then 1 else 0

  /** Slots an execution keeps alive: the one it ran in until it returns, and the replacement until it is pushed. */
  ghost const Live := (p: Phase) => if p.Renewed? then 2 else if p.Holding? || p.Finishing? then 1 else 0

  ghost const One := (p: Phase) => 1

  /** Permits bound the executions; unspent slots are conserved up to cold starts and losses, and bounded. */
  ghost predicate Counted(n: nat, s: State) {
    && |s.execs| <= TOTAL_SLOTS
    && |s.warm| + Sum(s.execs, HasSlot) + s.lost == n + s.cold
    && |s.warm| + Sum(s.execs, Claims) <= Max(n, TOTAL_SLOTS)
  }

  lemma SetSize(execs: map<Tid, Phase>, t: Tid, p: Phase)
    ensures |execs[t := p]| == |execs| + if t in execs then 0 else 1
  {
    assert execs[t := p].Keys == execs.Keys + {t};
    if t in execs { assert execs.Keys + {t} == execs.Keys; }
  }

  lemma DropExec(execs: map<Tid, Phase>, t: Tid)
    requires t in execs
    ensures |execs - {t}| == |execs| - 1
    ensures Sum(execs - {t}, HasSlot) == Sum(execs, HasSlot) - HasSlot(execs[t])
    ensures Sum(execs - {t}, Claims) == Sum(execs, Claims) - Claims(execs[t])
  {
    SumRemove(execs, t, HasSlot);
    SumRemove(execs, t, Claims);
    assert (execs - {t}).Keys == execs.Keys - {t};
  }

  lemma ClaimsWithin(execs: map<Tid, Phase>)
    ensures Sum(execs, HasSlot) <= Sum(execs, Claims) <= |execs|
  {
    SumAtMost(execs, HasSlot, Claims);
    SumAtMost(execs, Claims, One);
    SumOfOnes(execs, One);
  }

  /** A change of phase counts right if slots only move between deque, hand, cold starts and losses, and claims stay. */
  lemma MoveCounted(n: nat, s: State, after: State, t: Tid, p: Phase)
    requires Counted(n, s) && t in s.execs && after.execs == s.execs[t := p]
    requires |after.warm| + HasSlot(p) + after.lost - after.cold == |s.warm| + HasSlot(s.execs[t]) + s.lost - s.cold
    requires |after.warm| + Claims(p) <= |s.warm| + Claims(s.execs[t]) || after.warm == []
    ensures Counted(n, after)
  {
    SetSize(s.execs, t, p);
    SumSet(s.execs, t, p, HasSlot);
    SumSet(s.execs, t, p, Claims);
    ClaimsWithin(after.execs);
  }

  lemma GoneCounted(n: nat, s: State, after: State, t: Tid)
    requires Counted(n, s) && t in s.execs && after.execs == s.execs - {t} && after.warm == s.warm
    requires after.lost == s.lost + HasSlot(s.execs[t]) && after.cold == s.cold
    ensures Counted(n, after)
  {
    DropExec(s.execs, t);
  }

  lemma AcquireCounted(n: nat, s: State, t: Tid)
    requires Counted(n, s)
    ensures Counted(n, Step(s, Acquire(t)))
  {
    SetSize(s.execs, t, Admitted);
    SumSet(s.execs, t, Admitted, HasSlot);
    SumSet(s.execs, t, Admitted, Claims);
  }

  lemma StepCounted(n: nat, s: State, e: Event)
    requires Counted(n, s)
    ensures Counted(n, Step(s, e))
  {
    var t, after := e.t, Step(s, e);
    if after != s {
      if t !in s.execs {
        AcquireCounted(n, s, t);
      } else if t in after.execs {
        MoveCounted(n, s, after, t, after.execs[t]);
      } else {
        GoneCounted(n, s, after, t);
      }
    }
  }

  lemma {:induction false} RunCounted(n: nat, es: seq<Event>)
    ensures Counted(n, Run(n, es))
  {
    if es == [] {
      assert Run(n, es).execs == map[];
    } else {
      RunCounted(n, es[..|es| - 1]);
      StepCounted(n, Run(n, es[..|es| - 1]), es[|es| - 1]);
    }
  }

  /** Warm slots, slots executions run in and replacements not pushed yet. */
  ghost function Unspent(s: State): nat {
    |s.warm| + Sum(s.execs, HasSlot)
  }

  /** All slots there are, with those already used and not freed. */
  ghost function Alive(s: State): nat {
    |s.warm| + Sum(s.execs, Live)
  }

  /**
   In every interleaving the unspent slots, and even those with the cold slots about to
   be made, stay within the larger of the prewarmed count and 512; they fall below the
   prewarmed count only by early returns and failed replacements, each of which costs
   one slot until a cold start makes one.
   */
  lemma SlotsBounded(n: nat, es: seq<Event>)
    ensures var s := Run(n, es);
            && Unspent(s) <= |s.warm| + Sum(s.execs, Claims) <= Max(n, 512)
            && Unspent(s) == n + s.cold - s.lost
            && (s.lost == 0 ==> Unspent(s) >= n)
  {
    RunCounted(n, es);
    ClaimsWithin(Run(n, es).execs);
  }

  ghost const ClaimsAndOne := (p: Phase) => Claims(p) + One(p)

  /** In every interleaving the slots alive are at most 512 more: one used slot for each permit. */
  lemma AliveBounded(n: nat, es: seq<Event>)
    ensures Alive(Run(n, es)) <= Max(n, 512) + 512
  {
    RunCounted(n, es);
    LiveWithin(Run(n, es).execs);
  }

  lemma LiveWithin(execs: map<Tid, Phase>)
    ensures Sum(execs, Live) <= Sum(execs, Claims) + |execs|
  {
    LiveAtMost(execs);
    ClaimsSplit(execs);
    OneEach(execs);
  }

  lemma ClaimsSplit(execs: map<Tid, Phase>)
    ensures Sum(execs, ClaimsAndOne) == Sum(execs, Claims) + Sum(execs, One)
  {
    SumAdds(execs, Claims, One, ClaimsAndOne);
  }

  lemma OneEach(execs: map<Tid, Phase>)
    ensures Sum(execs, One) == |execs|
  {
    SumOfOnes(execs, One);
  }

  lemma LiveAtMost(execs: map<Tid, Phase>)
    ensures Sum(execs, Live) <= Sum(execs, ClaimsAndOne)
  {
    SumAtMost(execs, Live, ClaimsAndOne);
  }

  // ---- The bounds are reached ---------------------------------------------------------------

  /** Executions `0..j` have pushed their replacements, `j..k` are running, nobody else is about, nothing is lost. */
  ghost predicate Lined(s: State, j: nat, k: nat) {
    && s.lost == 0 && |s.execs| == k
    && (forall t: Tid :: t in s.execs <==> t < k)
    && (forall t :: t in s.execs ==> if t < j then s.execs[t] == Finishing else s.execs[t].Holding?)
  }

  lemma Snoc(n: nat, es: seq<Event>, e: Event)
    ensures Run(n, es + [e]) == Step(Run(n, es), e)
  {
    assert (es + [e])[..|es|] == es;
  }

  /** One more execution gets a slot, a cold one if need be. */
  lemma OneMore(n: nat, es: seq<Event>, k: nat) returns (more: seq<Event>)
    requires k < TOTAL_SLOTS && Lined(Run(n, es), 0, k)
    ensures Lined(Run(n, more), 0, k + 1)
  {
    Snoc(n, es, Acquire(k));
    Snoc(n, es + [Acquire(k)], Pop(k));
    Snoc(n, es + [Acquire(k)] + [Pop(k)], Make(k, true));
    more := es + [Acquire(k)] + [Pop(k)] + [Make(k, true)];
    OneMoreHolds(Run(n, es), k);
  }

  lemma ObtainedExecs(s: State, k: nat) returns (slot: SlotId)
    requires k !in s.execs && |s.execs| < TOTAL_SLOTS
    ensures Obtained(s, k, true).execs == s.execs[k := Holding(slot)] && Obtained(s, k, true).lost == s.lost
  {
    slot := if s.warm == [] then s.minted else s.warm[0];
    var s1 := Step(s, Acquire(k));
    assert s1.execs == s.execs[k := Admitted];
    assert s1.execs[k := Missed][k := Holding(slot)] == s.execs[k := Holding(slot)];
    assert s1.execs[k := Holding(slot)] == s.execs[k := Holding(slot)];
  }

  lemma OneMoreHolds(s: State, k: nat)
    requires k < TOTAL_SLOTS && Lined(s, 0, k)
    ensures Lined(Obtained(s, k, true), 0, k + 1)
  {
    var slot := ObtainedExecs(s, k);
    SetSize(s.execs, k, Holding(slot));
  }

  lemma {:induction false} ManyHolding(n: nat, k: nat) returns (es: seq<Event>)
    requires k <= TOTAL_SLOTS
    ensures Lined(Run(n, es), 0, k)
    decreases k
  {
    if k == 0 {
      es := [];
    } else {
      es := ManyHolding(n, k - 1);
      es := OneMore(n, es, k - 1);
    }
  }

  /** The next execution makes its replacement and pushes it, and is about to return. */
  lemma OnePushed(n: nat, es: seq<Event>, j: nat, k: nat) returns (more: seq<Event>)
    requires j < k && Lined(Run(n, es), j, k)
    ensures Lined(Run(n, more), j + 1, k) && Run(n, more).cold == Run(n, es).cold
  {
    var s := Run(n, es);
    Snoc(n, es, Renew(j, true));
    Snoc(n, es + [Renew(j, true)], Push(j));
    more := es + [Renew(j, true)] + [Push(j)];
    assert s.execs[j := Renewed(s.minted)][j := Finishing] == s.execs[j := Finishing];
    SetSize(s.execs, j, Finishing);
  }

  lemma {:induction false} ManyPushed(n: nat, j: nat, k: nat) returns (es: seq<Event>)
    requires j <= k <= TOTAL_SLOTS
    ensures Lined(Run(n, es), j, k)
    ensures k == TOTAL_SLOTS ==> Unspent(Run(n, es)) == Max(n, TOTAL_SLOTS)
    decreases j
  {
    if j == 0 {
      es := ManyHolding(n, k);
      SumOfOnes(Run(n, es).execs, HasSlot);
      SlotsBounded(n, es);
    } else {
      var before := ManyPushed(n, j - 1, k);
      es := OnePushed(n, before, j - 1, k);
      SlotsBounded(n, before);
      SlotsBounded(n, es);
    }
  }

  /** However many slots were prewarmed, some run has max(prewarmed, 512) unspent slots, and no run has more. */
  lemma SlotBoundExact(n: nat)
    ensures exists es :: Unspent(Run(n, es)) == Max(n, 512)
    ensures forall es :: Unspent(Run(n, es)) <= Max(n, 512)
  {
    forall es ensures Unspent(Run(n, es)) <= Max(n, TOTAL_SLOTS) { SlotsBounded(n, es); }
    var es := ManyPushed(n, 0, TOTAL_SLOTS);
    assert Unspent(Run(n, es)) == Max(n, TOTAL_SLOTS);
  }

  /** Some run has 512 slots more than that alive, and no run has more. */
  lemma AliveBoundExact(n: nat)
    ensures exists es :: Alive(Run(n, es)) == Max(n, 512) + 512
    ensures forall es :: Alive(Run(n, es)) <= Max(n, 512) + 512
  {
    forall es ensures Alive(Run(n, es)) <= Max(n, TOTAL_SLOTS) + TOTAL_SLOTS { AliveBounded(n, es); }
    var es := ManyPushed(n, TOTAL_SLOTS, TOTAL_SLOTS);
    var s := Run(n, es);
    SumOfOnes(s.execs, Live);
    SumOfNone(s.execs, HasSlot);
    assert Alive(s) == Unspent(s) + TOTAL_SLOTS;
  }

  // ---- The oldest warm slot goes first -------------------------------------------------------

  /** Slots that were ever in the deque, in the order they entered it. */
  function Entered(n: nat, es: seq<Event>): seq<SlotId> {
    if es == [] then seq(n, i => i)
    else
      var s, e := Run(n, es[..|es| - 1]), es[|es| - 1];
      Entered(n, es[..|es| - 1])
      + if e.Push? && e.t in s.execs && s.execs[e.t].Renewed? then [s.execs[e.t].next] else []
  }

  /** Slots executions hold because of a pop, in the order of the pops. */
  function Popped(n: nat, es: seq<Event>): seq<SlotId> {
    if es == [] then []
    else
      var s, e, after := Run(n, es[..|es| - 1]), es[|es| - 1], Run(n, es).execs;
      Popped(n, es[..|es| - 1])
      + if e.Pop? && In(s, e.t, Admitted) && e.t in after && after[e.t].Holding? then [after[e.t].slot] else []
  }

  lemma PopsFront(s: State, e: Event, out: seq<SlotId>, in_: seq<SlotId>)
    requires out + s.warm == in_
    ensures var after := Step(s, e);
            var popped := if e.Pop? && In(s, e.t, Admitted) && e.t in after.execs && after.execs[e.t].Holding?
                          then [after.execs[e.t].slot] else [];
            var pushed := if e.Push? && e.t in s.execs && s.execs[e.t].Renewed? then [s.execs[e.t].next] else [];
            (out + popped) + after.warm == in_ + pushed
  {
    if e.Push? {
      assert (out + []) + Step(s, e).warm == out + Step(s, e).warm;
    }
  }

  /** In every interleaving slots leave the deque in the order in which they entered it. */
  lemma {:induction false} FirstInFirstOut(n: nat, es: seq<Event>)
    ensures Popped(n, es) + Run(n, es).warm == Entered(n, es)
  {
    if es != [] {
      FirstInFirstOut(n, es[..|es| - 1]);
      PopsFront(Run(n, es[..|es| - 1]), es[|es| - 1], Popped(n, es[..|es| - 1]), Entered(n, es[..|es| - 1]));
    }
  }

  // ---- No slot is used twice ---------------------------------------------------------------

  ghost predicate Distinct(ids: seq<SlotId>) {
    forall i, j :: 0 <= i < j < |ids| ==> ids[i] != ids[j]
  }

  /** A replacement on its way to the deque is nobody else's and was never handed out or pushed. */
  ghost predicate OnTheWay(s: State, t: Tid)
    requires t in s.execs && s.execs[t].Renewed?
  {
    var x := s.execs[t].next;
    && x < s.minted && x !in s.handed + s.warm
    && forall u :: u in s.execs && u != t ==> s.execs[u] != Renewed(x)
  }

  /** Slots handed out, waiting and on their way are all different, and all minted already. */
  ghost predicate Fresh(s: State) {
    && Distinct(s.handed + s.warm)
    && (forall x :: x in s.handed + s.warm ==> x < s.minted)
    && forall t :: t in s.execs && s.execs[t].Renewed? ==> OnTheWay(s, t)
  }

  lemma AddOne(ids: seq<SlotId>, x: SlotId)
    requires Distinct(ids) && x !in ids
    ensures Distinct(ids + [x])
  {
  }

  lemma StepFresh(s: State, e: Event)
    requires Fresh(s)
    ensures Fresh(Step(s, e))
  {
    var after := Step(s, e);
    if after.warm == s.warm && after.handed == s.handed {
    } else if e.Pop? {
      assert after.handed + after.warm == s.handed + s.warm;
    } else if e.Make? {
      MakeFresh(s, e.t);
    } else {
      PushFresh(s, e.t);
    }
  }

  lemma MakeFresh(s: State, t: Tid)
    requires Fresh(s) && In(s, t, Missed)
    ensures Fresh(Step(s, Make(t, true)))
  {
    var after := Step(s, Make(t, true));
    var was, now := s.handed + s.warm, s.handed + [s.minted] + s.warm;
    var k := |s.handed|;
    forall i, j | 0 <= i < j < |now| ensures now[i] != now[j] {
      assert i != k ==> now[i] == was[if i < k then i else i - 1] && now[i] in was;
      assert j != k ==> now[j] == was[if j < k then j else j - 1] && now[j] in was;
    }
    forall x | x in now ensures x in was || x == s.minted {}
  }

  lemma PushFresh(s: State, t: Tid)
    requires Fresh(s) && t in s.execs && s.execs[t].Renewed?
    ensures Fresh(Step(s, Push(t)))
  {
    var x := s.execs[t].next;
    assert OnTheWay(s, t);
    AddOne(s.handed + s.warm, x);
    assert s.handed + (s.warm + [x]) == s.handed + s.warm + [x];
  }

  /** In every interleaving each execution runs in a slot that no execution had before it. */
  lemma {:induction false} NeverReused(n: nat, es: seq<Event>)
    ensures Fresh(Run(n, es)) && Distinct(Run(n, es).handed)
  {
    if es == [] {
      assert Run(n, es).handed + Run(n, es).warm == seq(n, i => i);
    } else {
      NeverReused(n, es[..|es| - 1]);
      StepFresh(Run(n, es[..|es| - 1]), es[|es| - 1]);
      var s := Run(n, es);
      forall i, j | 0 <= i < j < |s.handed| ensures s.handed[i] != s.handed[j] {
        assert (s.handed + s.warm)[i] == s.handed[i] && (s.handed + s.warm)[j] == s.handed[j];
      }
    }
  }
}
