/**
 The write quota under concurrency. `fd_write` charges a shared counter with an
 atomic add, tests the value the add returned, and on refusal takes the charge back
 with a second atomic operation. Any number of writers interleave at these steps.
 */
module QuotaProtocol {
  import opened FileModel
  import opened MapSum

  type Tid = nat

  /** Where a writer stands between its atomic steps. */
  datatype Phase =
    | Charged(len: nat, prev: int)
    | Refused(len: nat)
    | Accepted(len: nat)

  /** `succeeded`: bytes of writes that returned Ok; `wasted`: charges kept by writes that failed later. */
  datatype State = State(counter: int, writers: map<Tid, Phase>, succeeded: nat, wasted: nat)

  const Start := State(0, map[], 0, 0)

  datatype Event =
    | Charge(t: Tid, len: nat)     // fetch_add
    | Test(t: Tid)                 // prev + len > quota?
    | TakeBack(t: Tid)             // fetch_sub
    | Finish(t: Tid, ok: bool)     // descriptor checks and the copy

  /** One atomic step of one writer; a step whose writer is not there yet does nothing. */
  function Step(s: State, e: Event): State {
    match e
    case Charge(t, len) =>
      if t in s.writers then s
      else s.(counter := s.counter + len, writers := s.writers[t := Charged(len, s.counter)])
    case Test(t) =>
      if t !in s.writers || !s.writers[t].Charged? then s
      else
        var w := s.writers[t];
        s.(writers := s.writers[t := if w.prev + w.len > WRITE_QUOTA then Refused(w.len) else Accepted(w.len)])
    case TakeBack(t) =>
      if t !in s.writers || !s.writers[t].Refused? then s
      else s.(counter := s.counter - s.writers[t].len, writers := s.writers - {t})
    case Finish(t, ok) =>
      if t !in s.writers || !s.writers[t].Accepted? then s
      else
        var len := s.writers[t].len;
        if ok then s.(succeeded := s.succeeded + len, writers := s.writers - {t})
        else s.(wasted := s.wasted + len, writers := s.writers - {t})
  }

  function RunFrom(s: State, es: seq<Event>): State {
    if es == [] then s else Step(RunFrom(s, es[..|es| - 1]), es[|es| - 1])
  }

  function Run(es: seq<Event>): State {
    RunFrom(Start, es)
  }

  // ---- Every interleaving ---------------------------------------------------------

  ghost const Len := (p: Phase) => p.len

  /** Bytes of a writer whose test will pass or has passed. */
  ghost const Granted := (p: Phase) =>
    if p.Accepted? || (p.Charged? && p.prev + p.len <= WRITE_QUOTA) then p.len else 0

  ghost function Committed(s: State): nat {
    s.succeeded + s.wasted + Sum(s.writers, Granted)
  }

  /** The counter is exactly the kept charges plus those still in flight, and granted bytes fit the quota. */
  ghost predicate Inv(s: State) {
    s.counter == s.succeeded + s.wasted + Sum(s.writers, Len) && Committed(s) <= WRITE_QUOTA
  }

  lemma StepKeeps(s: State, e: Event)
    requires Inv(s)
    ensures Inv(Step(s, e))
  {
    SumAtMost(s.writers, Granted, Len);
    match e
    case Charge(t, len) =>
      SumSet(s.writers, t, Charged(len, s.counter), Len);
      SumSet(s.writers, t, Charged(len, s.counter), Granted);
    case Test(t) =>
      if t in s.writers && s.writers[t].Charged? {
        var w := s.writers[t];
        var next := if w.prev + w.len > WRITE_QUOTA then Refused(w.len) else Accepted(w.len);
        SumSet(s.writers, t, next, Len);
        SumSet(s.writers, t, next, Granted);
      }
    case TakeBack(t) =>
      if t in s.writers { SumRemove(s.writers, t, Len); SumRemove(s.writers, t, Granted); }
    case Finish(t, ok) =>
      if t in s.writers { SumRemove(s.writers, t, Len); SumRemove(s.writers, t, Granted); }
  }

  lemma {:induction false} RunKeeps(es: seq<Event>)
    ensures Inv(Run(es))
  {
    if es == [] {
      assert Start.writers == map[];
    } else {
      RunKeeps(es[..|es| - 1]);
      StepKeeps(Run(es[..|es| - 1]), es[|es| - 1]);
    }
  }

  /** In every interleaving, successful writes stay within 64 MB and within the counter, which never goes negative. */
  lemma QuotaHolds(es: seq<Event>)
    ensures Run(es).succeeded <= WRITE_QUOTA
    ensures 0 <= Run(es).succeeded + Run(es).wasted <= Run(es).counter
  {
    RunKeeps(es);
  }

  lemma {:induction false} RunConcat(s: State, a: seq<Event>, b: seq<Event>)
    ensures RunFrom(s, a + b) == RunFrom(RunFrom(s, a), b)
    decreases |b|
  {
    if b == [] {
      assert a + b == a;
    } else {
      assert (a + b)[..|a + b| - 1] == a + b[..|b| - 1];
      RunConcat(s, a, b[..|b| - 1]);
    }
  }

  /** Nothing that happens between a writer's charge and its own test changes what the test sees. */
  lemma {:induction false} ChargeWaits(s: State, es: seq<Event>, t: Tid, len: nat, prev: int)
    requires t in s.writers && s.writers[t] == Charged(len, prev)
    requires forall k :: 0 <= k < |es| ==> es[k] != Test(t)
    ensures t in RunFrom(s, es).writers && RunFrom(s, es).writers[t] == Charged(len, prev)
  {
    if es != [] { ChargeWaits(s, es[..|es| - 1], t, len, prev); }
  }

  /**
   A writer is refused exactly when its bytes do not fit beside the charges kept and
   the charges of every writer under way at the moment it adds its own, whatever
   happens between that moment and its test.
   */
  lemma RefusedIff(es: seq<Event>, t: Tid, len: nat, between: seq<Event>)
    requires t !in Run(es).writers && forall k :: 0 <= k < |between| ==> between[k] != Test(t)
    ensures var s := Run(es);
            var after := Run(es + [Charge(t, len)] + between + [Test(t)]).writers;
            && t in after
            && after[t] ==
               if s.succeeded + s.wasted + Sum(s.writers, Len) + len > WRITE_QUOTA then Refused(len) else Accepted(len)
  {
    var s := Run(es);
    RunKeeps(es);
    var charged := es + [Charge(t, len)];
    assert charged[..|es|] == es;
    var waited := charged + between;
    RunConcat(Start, charged, between);
    ChargeWaits(Run(charged), between, t, len, s.counter);
    assert (waited + [Test(t)])[..|waited|] == waited;
  }

  /** The charge that counts may be one that is taken back: a write is refused although nothing was ever written. */
  lemma RefusedBesideAnother()
    ensures var s := Run([Charge(0, WRITE_QUOTA + 1), Charge(1, 1), Test(1)]);
            s.succeeded == 0 && s.wasted == 0 && 1 in s.writers && s.writers[1] == Refused(1)
  {
    var e1, e2 := [Charge(0, WRITE_QUOTA + 1)], [Charge(0, WRITE_QUOTA + 1), Charge(1, 1)];
    var es := [Charge(0, WRITE_QUOTA + 1), Charge(1, 1), Test(1)];
    assert e1[..0] == [] && e2[..1] == e1 && es[..2] == e2;
    assert Run([]) == Start;
    assert Run(e1) == Step(Start, Charge(0, WRITE_QUOTA + 1));
    assert Run(e2) == Step(Run(e1), Charge(1, 1));
    assert Run(es) == Step(Run(e2), Test(1));
  }
}
