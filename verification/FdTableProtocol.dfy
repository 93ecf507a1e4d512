/**
 Descriptor allocation under concurrency. `path_open` checks the table size and
 draws a number under one lock of the table, and inserts the handle under another;
 the root write lock it holds throughout is what keeps two openers apart. Closing
 only takes the table lock and may happen between the two.
 */
module FdTableProtocol {
  import opened Base
  import opened FileModel
  import FileLaws

  type Tid = nat

  /** An opener holds the root lock from `Enter` to `Insert`. */
  datatype Opener = Entered | Drawn(fd: u32)

  datatype State = State(openers: map<Tid, Opener>, table: set<u32>, nextFd: u32, issued: seq<u32>)

  const Start := State(map[], {}, FIRST_GUEST_FD, [])

  datatype Event =
    | Enter(t: Tid)     // root.write()
    | GiveUp(t: Tid)    // path, existence or parent check fails; the root lock is released
    | Draw(t: Tid)      // alloc_fd: table lock, size check, fetch_add
    | Insert(t: Tid)    // table lock, insert; then the root lock is released
    | CloseFd(fd: u32)  // table lock, remove

  function Step(s: State, e: Event): State {
    match e
    case Enter(t) => if s.openers != map[] then s else s.(openers := map[t := Entered])
    case GiveUp(t) => if t !in s.openers || s.openers[t] != Entered then s else s.(openers := s.openers - {t})
    case Draw(t) =>
      if t !in s.openers || s.openers[t] != Entered then s
      else if |s.table| >= MAX_FDS then s.(openers := s.openers - {t})
      else s.(openers := s.openers[t := Drawn(s.nextFd)],
              nextFd := Successor(s.nextFd),
              issued := s.issued + [s.nextFd])
    case Insert(t) =>
      if t !in s.openers || !s.openers[t].Drawn? then s
      else s.(openers := s.openers - {t}, table := s.table + {s.openers[t].fd})
    case CloseFd(fd) => s.(table := s.table - {fd})
  }

  function Run(es: seq<Event>): State {
    if es == [] then Start else Step(Run(es[..|es| - 1]), es[|es| - 1])
  }

  ghost predicate SomeDrawn(s: State) {
    exists t :: t in s.openers && s.openers[t].Drawn?
  }

  /** At most one opener, and room in the table for the number it drew. */
  ghost predicate Inv(s: State) {
    && (forall t, u :: t in s.openers && u in s.openers ==> t == u)
    && |s.table| + (if SomeDrawn(s) then 1 else 0) <= MAX_FDS
    && FileLaws.InOrder(FIRST_GUEST_FD, s.issued, s.nextFd)
    && (forall fd :: fd in s.table ==> fd in s.issued)
    && (forall t :: t in s.openers && s.openers[t].Drawn? ==>
          s.issued != [] && s.openers[t].fd == s.issued[|s.issued| - 1])
  }

  lemma NumberDrawn(s: State)
    requires Inv(s)
    ensures FileLaws.InOrder(FIRST_GUEST_FD, s.issued + [s.nextFd], Successor(s.nextFd))
  {
  }

  lemma StepKeeps(s: State, e: Event)
    requires Inv(s)
    ensures Inv(Step(s, e))
  {
    match e
    case Enter(t) =>
    case GiveUp(t) =>
      assert SomeDrawn(Step(s, e)) ==> SomeDrawn(s);
    case Draw(t) =>
      if t in s.openers && s.openers[t] == Entered {
        NumberDrawn(s);
        assert !SomeDrawn(s);
      }
    case Insert(t) =>
      if t in s.openers && s.openers[t].Drawn? {
        assert SomeDrawn(s);
        assert |s.table + {s.openers[t].fd}| <= |s.table| + 1;
        assert s.openers[t].fd in s.issued;
      }
    case CloseFd(fd) =>
      assert SomeDrawn(Step(s, e)) ==> SomeDrawn(s);
  }

  /** In every interleaving the table holds at most 256 descriptors and numbers are drawn in order. */
  lemma {:induction false} RunKeeps(es: seq<Event>)
    ensures Inv(Run(es)) && |Run(es).table| <= MAX_FDS
  {
    if es != [] {
      RunKeeps(es[..|es| - 1]);
      StepKeeps(Run(es[..|es| - 1]), es[|es| - 1]);
    }
  }

  /** Issued, not in the table and not on its way into it. */
  ghost predicate Gone(s: State, fd: u32) {
    fd in s.issued && fd !in s.table && forall t :: t in s.openers ==> s.openers[t] != Drawn(fd)
  }

  lemma GoneStep(s: State, e: Event, fd: u32)
    requires Inv(s) && Gone(s, fd) && |Step(s, e).issued| <= U32_SIZE
    ensures Gone(Step(s, e), fd)
  {
    if e.Draw? && Step(s, e).issued != s.issued {
      FileLaws.FreshNumber(FIRST_GUEST_FD, s.issued, s.nextFd);
    }
  }

  /** Within 2^32 allocations a closed descriptor never becomes valid again, whatever is interleaved. */
  lemma {:induction false} GoneForever(es: seq<Event>, k: nat, fd: u32)
    requires k <= |es| && |Run(es).issued| <= U32_SIZE && Gone(Run(es[..k]), fd)
    ensures Gone(Run(es), fd)
    decreases |es|
  {
    if k == |es| {
      assert es[..k] == es;
    } else {
      var before := es[..|es| - 1];
      assert before[..k] == es[..k];
      GoneForever(before, k, fd);
      RunKeeps(before);
      GoneStep(Run(before), es[|es| - 1], fd);
    }
  }
}
