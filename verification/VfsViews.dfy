/**
 The shared VFS seen through its two protocols. Forgetting everything but the charges,
 a run of threads is a run of the quota protocol; forgetting everything but openers and
 descriptor numbers, it is a run of the descriptor protocol. What those protocols keep
 in every interleaving therefore holds of the shared VFS.
 */
module VfsViews {
  import opened Base
  import opened Paths
  import opened FileModel
  import opened FileRuns
  import opened VfsThreads
  import FileLaws
  import Q = QuotaProtocol
  import F = FdTableProtocol

  lemma ReturnedCall(s: State, op: Op, out: Outcome)
    ensures Behind(Return(s, op, out)) == Apply(Behind(s), op).0
    ensures FileLaws.Written(Initial, s.done + [op]) == FileLaws.Written(Initial, s.done)
              + if op.WriteOp? && Apply(Behind(s), op).1.Count? then Apply(Behind(s), op).1.n else 0
    ensures FileLaws.Issued(s.outs + [out]) == FileLaws.Extend(FileLaws.Issued(s.outs), out)
  {
    assert (s.done + [op])[..|s.done|] == s.done;
    assert (s.outs + [out])[..|s.outs|] == s.outs;
  }

  // ---- Charges --------------------------------------------------------------------------

  function PhaseOf(w: Writer): Q.Phase {
    match w.verdict
    case Charged(prev) => Q.Charged(|w.data|, prev)
    case Refused => Q.Refused(|w.data|)
    case Accepted => Q.Accepted(|w.data|)
  }

  ghost function Phases(writers: map<Tid, Writer>): map<Tid, Q.Phase> {
    map t | t in writers :: PhaseOf(writers[t])
  }

  /** Counter and writers as they are; bytes reported written, and charges kept for nothing. */
  ghost function QuotaView(s: State): Q.State {
    FileLaws.QuotaBoundsWrites(s.done);
    var written := FileLaws.Written(Initial, s.done);
    Q.State(s.counter, Phases(s.writers), written, Behind(s).charged - written)
  }

  function QuotaEvent(s: State, e: Event): Option<Q.Event> {
    match e
    case Begin(t, op) => if op.WriteOp? && !Busy(s, t) then Some(Q.Charge(t, |op.data|)) else None
    case Next(t) =>
      if t !in s.writers || (s.opener.Some? && s.opener.value.t == t) then None
      else
        var w := s.writers[t];
        match w.verdict
        case Charged(_) => Some(Q.Test(t))
        case Refused => Some(Q.TakeBack(t))
        case Accepted =>
          if Waits(s, WriteOp(w.fd, w.data)) then None
          else Some(Q.Finish(t, WritePaid(Shared(s), w.fd, w.data).1.Ok?))
  }

  function QuotaStep(q: Q.State, e: Option<Q.Event>): Q.State {
    if e.Some? then Q.Step(q, e.value) else q
  }

  lemma SetPhases(writers: map<Tid, Writer>, t: Tid, w: Writer)
    ensures Phases(writers[t := w]) == Phases(writers)[t := PhaseOf(w)]
    ensures Phases(writers - {t}) == Phases(writers) - {t}
  {
  }

  /** Only writes charge. */
  lemma QuietCharge(a: FileSystem, op: Op)
    requires !op.WriteOp?
    ensures Apply(a, op).0.charged == a.charged
  {
  }

  /** A call that is no write leaves the view alone when it returns. */
  lemma QuietReturn(s: State, op: Op, out: Outcome)
    requires !op.WriteOp?
    ensures QuotaView(Return(s, op, out)) == QuotaView(s)
  {
    ReturnedCall(s, op, out);
    QuietCharge(Behind(s), op);
  }

  /** Files, table, numbering and opener are not in the view. */
  lemma SameCharges(s: State, t: State)
    requires s.counter == t.counter && s.writers == t.writers && s.done == t.done
    ensures QuotaView(s) == QuotaView(t)
  {
  }

  lemma OpenReturn(s: State, o: Opener, table: map<u32, Handle>, out: Outcome)
    ensures QuotaView(Return(s.(table := table, opener := None), OpenOp(o.raw, o.mode, o.access), out)) == QuotaView(s)
  {
    SameCharges(s, s.(table := table, opener := None));
    QuietReturn(s.(table := table, opener := None), OpenOp(o.raw, o.mode, o.access), out);
  }

  lemma OpenQuota(s: State, o: Opener)
    ensures QuotaView(OpenNext(s, o)) == QuotaView(s)
  {
    match o.stage
    case Entered =>
      var r := Prepare(Shared(s), o.path, o.mode);
      if r.Err? { OpenReturn(s, o, s.table, Failed(r.error)); } else { SameCharges(s, OpenNext(s, o)); }
    case Prepared =>
      if |s.table| >= MAX_FDS {
        OpenReturn(s, o, s.table, Failed(FdExhausted));
      } else {
        SameCharges(s, OpenNext(s, o));
      }
    case Drawn(fd) => OpenReturn(s, o, s.table[fd := Handle(o.path, 0, o.access)], Opened(fd));
  }

  lemma SimpleQuota(s: State, t: Tid, op: Op)
    requires Simple(op)
    ensures QuotaView(BeginCall(s, t, op)) == QuotaView(s)
  {
    if !Waits(s, op) {
      var (after, out) := Apply(Shared(s), op);
      SameCharges(s, s.(table := after.handles));
      QuietReturn(s.(table := after.handles), op, out);
    }
  }

  lemma BeginQuota(s: State, t: Tid, op: Op)
    requires !Busy(s, t)
    ensures QuotaView(BeginCall(s, t, op)) == QuotaStep(QuotaView(s), QuotaEvent(s, Begin(t, op)))
  {
    match op
    case WriteOp(fd, data) => SetPhases(s.writers, t, Writer(fd, data, Charged(s.counter)));
    case OpenOp(raw, _, _) =>
      if Resolve([], Split(raw)).None? {
        QuietReturn(s, op, Failed(CapabilityDenied));
      } else {
        SameCharges(s, BeginCall(s, t, op));
      }
    case _ => SimpleQuota(s, t, op);
  }

  lemma PendingQuota(s: State, t: Tid, w: Writer)
    requires t in s.writers && s.writers[t] == w && !w.verdict.Accepted?
    requires s.opener.None? || s.opener.value.t != t
    ensures QuotaView(WriteNext(s, t, w)) == QuotaStep(QuotaView(s), QuotaEvent(s, Next(t)))
  {
    if w.verdict.Charged? {
      var next := w.(verdict := if w.verdict.prev + |w.data| > WRITE_QUOTA then Refused else Accepted);
      SetPhases(s.writers, t, next);
    } else {
      SetPhases(s.writers, t, w);
    }
  }

  /** What a write that returned leaves in the view. */
  function Booked(q: Q.State, ok: bool, n: nat): Q.State {
    if ok then q.(succeeded := q.succeeded + n) else q.(wasted := q.wasted + n)
  }

  lemma WriteReturn(s: State, op: Op, b: FileSystem, out: Outcome)
    requires op.WriteOp? && Apply(Behind(s), op) == (b, out) && b.charged == Behind(s).charged + |op.data|
    requires out.Count? ==> out.n == |op.data|
    ensures QuotaView(Return(s, op, out)) == Booked(QuotaView(s), out.Count?, |op.data|)
  {
    ReturnedCall(s, op, out);
  }

  lemma WriterGone(s: State, t: Tid, after: FileSystem)
    ensures QuotaView(WithoutWriter(s, t, after)) == QuotaView(s).(writers := Phases(s.writers) - {t})
  {
    if t in s.writers { SetPhases(s.writers, t, s.writers[t]); }
  }

  lemma FinishBooks(q: Q.State, t: Tid, n: nat, ok: bool)
    requires t in q.writers && q.writers[t] == Q.Accepted(n)
    ensures Q.Step(q, Q.Finish(t, ok)) == Booked(q.(writers := q.writers - {t}), ok, n)
  {
  }

  /** The writer goes and its bytes are booked: the protocol's last step. */
  lemma BookedQuota(s: State, t: Tid, w: Writer, after: FileSystem, b: FileSystem, out: Outcome)
    requires t in s.writers && s.writers[t] == w && w.verdict.Accepted? && (out.Count? ==> out.n == |w.data|)
    requires Apply(Behind(s), WriteOp(w.fd, w.data)) == (b, out) && b.charged == Behind(s).charged + |w.data|
    ensures QuotaView(Return(WithoutWriter(s, t, after), WriteOp(w.fd, w.data), out))
         == Q.Step(QuotaView(s), Q.Finish(t, out.Count?))
  {
    WriterGone(s, t, after);
    WriteReturn(WithoutWriter(s, t, after), WriteOp(w.fd, w.data), b, out);
    FinishBooks(QuotaView(s), t, |w.data|, out.Count?);
  }

  lemma AcceptedQuota(s: State, t: Tid, w: Writer)
    requires Inv(s) && t in s.writers && s.writers[t] == w && w.verdict.Accepted?
    requires s.opener.None? || s.opener.value.t != t
    ensures QuotaView(WriteNext(s, t, w)) == QuotaStep(QuotaView(s), QuotaEvent(s, Next(t)))
  {
    CounterLeft(s.counter, s.writers, Behind(s).charged, t);
    if !Waits(s, WriteOp(w.fd, w.data)) {
      WriteFollows(s, Behind(s), w.fd, w.data);
      var (after, r) := WritePaid(Shared(s), w.fd, w.data);
      BookedQuota(s, t, w, after, Apply(Behind(s), WriteOp(w.fd, w.data)).0, WriteOutcome(r));
    }
  }

  lemma StepQuota(s: State, e: Event)
    requires Inv(s)
    ensures QuotaView(Step(s, e)) == QuotaStep(QuotaView(s), QuotaEvent(s, e))
  {
    match e
    case Begin(t, op) => if !Busy(s, t) { BeginQuota(s, t, op); }
    case Next(t) =>
      if s.opener.Some? && s.opener.value.t == t {
        OpenQuota(s, s.opener.value);
      } else if t in s.writers {
        if s.writers[t].verdict.Accepted? {
          AcceptedQuota(s, t, s.writers[t]);
        } else {
          PendingQuota(s, t, s.writers[t]);
        }
      }
  }

  function AsSeq<T>(e: Option<T>): seq<T> {
    if e.Some? then [e.value] else []
  }

  /** The quota events of a run of threads. */
  function QuotaEvents(es: seq<Event>): seq<Q.Event> {
    if es == [] then []
    else QuotaEvents(es[..|es| - 1]) + AsSeq(LastQuotaEvent(es))
  }

  lemma QuotaSnoc(qs: seq<Q.Event>, e: Option<Q.Event>)
    ensures Q.Run(qs + AsSeq(e)) == QuotaStep(Q.Run(qs), e)
  {
    if e.Some? { assert (qs + [e.value])[..|qs|] == qs; } else { assert qs + [] == qs; }
  }

  lemma QuotaSnocThreads(es: seq<Event>)
    requires es != []
    ensures QuotaView(RunThreads(es)) == QuotaStep(QuotaView(RunThreads(es[..|es| - 1])), LastQuotaEvent(es))
    ensures QuotaEvents(es) == QuotaEvents(es[..|es| - 1]) + AsSeq(LastQuotaEvent(es))
  {
    RunFollows(es[..|es| - 1]);
    StepQuota(RunThreads(es[..|es| - 1]), es[|es| - 1]);
  }

  function LastQuotaEvent(es: seq<Event>): Option<Q.Event>
    requires es != []
  {
    QuotaEvent(RunThreads(es[..|es| - 1]), es[|es| - 1])
  }

  lemma StartQuota()
    ensures QuotaView(Start) == Q.Start
  {
    assert Phases(map[]) == map[];
  }

  /** Every run of threads is, in its charges, a run of the quota protocol. */
  lemma {:induction false} ThreadsKeepQuota(es: seq<Event>)
    ensures QuotaView(RunThreads(es)) == Q.Run(QuotaEvents(es))
  {
    if es == [] {
      StartQuota();
    } else {
      ThreadsKeepQuota(es[..|es| - 1]);
      QuotaSnocThreads(es);
      QuotaSnoc(QuotaEvents(es[..|es| - 1]), LastQuotaEvent(es));
    }
  }

  /** So the bytes that threads report written stay within 64 MB and within the shared counter. */
  lemma ThreadsWithinQuota(es: seq<Event>)
    ensures FileLaws.Written(Initial, RunThreads(es).done) <= WRITE_QUOTA
    ensures FileLaws.Written(Initial, RunThreads(es).done) <= RunThreads(es).counter
  {
    ThreadsKeepQuota(es);
    Q.QuotaHolds(QuotaEvents(es));
  }

  // ---- Descriptor numbers -------------------------------------------------------------------

  function OpenersOf(opener: Option<Opener>): map<Tid, F.Opener> {
    match opener
    case None => map[]
    case Some(o) => map[o.t := if o.stage.Drawn? then F.Drawn(o.stage.fd) else F.Entered]
  }

  /** Numbers returned by opens, and the one an opener has drawn. */
  function NumbersDrawn(outs: seq<Outcome>, opener: Option<Opener>): seq<u32> {
    FileLaws.Issued(outs) + if opener.Some? && opener.value.stage.Drawn? then [opener.value.stage.fd] else []
  }

  function FdView(s: State): F.State {
    F.State(OpenersOf(s.opener), s.table.Keys, s.nextFd, NumbersDrawn(s.outs, s.opener))
  }

  function FdEvent(s: State, e: Event): Option<F.Event> {
    match e
    case Begin(t, op) =>
      if Busy(s, t) then None
      else if op.CloseOp? then Some(F.CloseFd(op.fd))
      else if op.OpenOp? && Resolve([], Split(op.raw)).Some? && s.opener.None? then Some(F.Enter(t))
      else None
    case Next(t) =>
      if s.opener.None? || s.opener.value.t != t then None
      else
        match s.opener.value.stage
        case Entered =>
          if Prepare(Shared(s), s.opener.value.path, s.opener.value.mode).Ok? then None else Some(F.GiveUp(t))
        case Prepared => Some(F.Draw(t))
        case Drawn(_) => Some(F.Insert(t))
  }

  function FdStep(f: F.State, e: Option<F.Event>): F.State {
    if e.Some? then F.Step(f, e.value) else f
  }

  /** A call that returns no descriptor adds no number. */
  lemma PlainReturn(s: State, op: Op, out: Outcome)
    requires !out.Opened?
    ensures FdView(Return(s, op, out)) == FdView(s)
  {
    ReturnedCall(s, op, out);
  }

  lemma SimpleFds(s: State, t: Tid, op: Op)
    requires Simple(op) && !Busy(s, t)
    ensures FdView(BeginCall(s, t, op)) == FdStep(FdView(s), FdEvent(s, Begin(t, op)))
  {
    if !Waits(s, op) {
      var (after, out) := Apply(Shared(s), op);
      PlainReturn(s.(table := after.handles), op, out);
      SimpleTable(Shared(s), op);
    }
  }

  lemma SimpleTable(a: FileSystem, op: Op)
    requires Simple(op)
    ensures Apply(a, op).0.handles.Keys == if op.CloseOp? then a.handles.Keys - {op.fd} else a.handles.Keys
  {
  }

  lemma WriteFds(s: State, t: Tid, w: Writer)
    ensures FdView(WriteNext(s, t, w)) == FdView(s)
  {
    var op := WriteOp(w.fd, w.data);
    if w.verdict.Accepted? && !Waits(s, op) {
      var (after, r) := WritePaid(Shared(s), w.fd, w.data);
      PlainReturn(WithoutWriter(s, t, after), op, WriteOutcome(r));
      PaidTable(Shared(s), w.fd, w.data);
    }
  }

  lemma PaidTable(a: FileSystem, fd: u32, data: seq<byte>)
    ensures WritePaid(a, fd, data).0.handles.Keys == a.handles.Keys
  {
  }

  lemma BeginFds(s: State, t: Tid, op: Op)
    requires !Busy(s, t)
    ensures FdView(BeginCall(s, t, op)) == FdStep(FdView(s), FdEvent(s, Begin(t, op)))
  {
    match op
    case WriteOp(fd, data) =>
    case OpenOp(raw, _, _) =>
      if Resolve([], Split(raw)).None? { PlainReturn(s, op, Failed(CapabilityDenied)); }
    case _ => SimpleFds(s, t, op);
  }

  lemma EnteredFds(s: State, o: Opener)
    requires s.opener == Some(o) && o.stage == Entered
    ensures FdView(OpenNext(s, o)) == FdStep(FdView(s), FdEvent(s, Next(o.t)))
  {
    var r := Prepare(Shared(s), o.path, o.mode);
    if r.Err? {
      PlainReturn(s.(opener := None), OpenOp(o.raw, o.mode, o.access), Failed(r.error));
      assert map[o.t := F.Entered] - {o.t} == map[];
    }
  }

  lemma ExhaustedFds(s: State, o: Opener)
    requires s.opener == Some(o) && o.stage == Prepared && |s.table| >= MAX_FDS
    ensures FdView(OpenNext(s, o)) == F.Step(FdView(s), F.Draw(o.t))
  {
    PlainReturn(s.(opener := None), OpenOp(o.raw, o.mode, o.access), Failed(FdExhausted));
    DrawRefused(FdView(s), o.t);
  }

  lemma DrawRefused(f: F.State, t: Tid)
    requires f.openers == map[t := F.Entered] && |f.table| >= MAX_FDS
    ensures F.Step(f, F.Draw(t)) == f.(openers := map[])
  {
    assert f.openers - {t} == map[];
  }

  lemma NumberedFds(s: State, o: Opener)
    requires s.opener == Some(o) && o.stage == Prepared && |s.table| < MAX_FDS
    ensures FdView(OpenNext(s, o)) == F.Step(FdView(s), F.Draw(o.t))
  {
    assert map[o.t := F.Entered][o.t := F.Drawn(s.nextFd)] == map[o.t := F.Drawn(s.nextFd)];
    assert NumbersDrawn(s.outs, s.opener) == FileLaws.Issued(s.outs);
    assert |s.table.Keys| == |s.table|;
  }

  lemma PreparedFds(s: State, o: Opener)
    requires s.opener == Some(o) && o.stage == Prepared
    ensures FdView(OpenNext(s, o)) == FdStep(FdView(s), FdEvent(s, Next(o.t)))
  {
    if |s.table| >= MAX_FDS { ExhaustedFds(s, o); } else { NumberedFds(s, o); }
  }

  lemma DrawnFds(s: State, o: Opener)
    requires s.opener == Some(o) && o.stage.Drawn?
    ensures FdView(OpenNext(s, o)) == FdStep(FdView(s), FdEvent(s, Next(o.t)))
  {
    var fd := o.stage.fd;
    var next := s.(table := s.table[fd := Handle(o.path, 0, o.access)], opener := None);
    ReturnedCall(next, OpenOp(o.raw, o.mode, o.access), Opened(fd));
    assert map[o.t := F.Drawn(fd)] - {o.t} == map[];
    assert next.table.Keys == s.table.Keys + {fd};
  }

  lemma StepFds(s: State, e: Event)
    ensures FdView(Step(s, e)) == FdStep(FdView(s), FdEvent(s, e))
  {
    match e
    case Begin(t, op) => if !Busy(s, t) { BeginFds(s, t, op); }
    case Next(t) =>
      if s.opener.Some? && s.opener.value.t == t {
        var o := s.opener.value;
        match o.stage
        case Entered => EnteredFds(s, o);
        case Prepared => PreparedFds(s, o);
        case Drawn(_) => DrawnFds(s, o);
      } else if t in s.writers {
        WriteFds(s, t, s.writers[t]);
      }
  }

  /** The descriptor events of a run of threads. */
  function FdEvents(es: seq<Event>): seq<F.Event> {
    if es == [] then []
    else FdEvents(es[..|es| - 1]) + AsSeq(LastFdEvent(es))
  }

  function LastFdEvent(es: seq<Event>): Option<F.Event>
    requires es != []
  {
    FdEvent(RunThreads(es[..|es| - 1]), es[|es| - 1])
  }

  lemma FdSnoc(fs: seq<F.Event>, e: Option<F.Event>)
    ensures F.Run(fs + AsSeq(e)) == FdStep(F.Run(fs), e)
  {
    if e.Some? { assert (fs + [e.value])[..|fs|] == fs; } else { assert fs + [] == fs; }
  }

  lemma FdSnocThreads(es: seq<Event>)
    requires es != []
    ensures FdView(RunThreads(es)) == FdStep(FdView(RunThreads(es[..|es| - 1])), LastFdEvent(es))
  {
    StepFds(RunThreads(es[..|es| - 1]), es[|es| - 1]);
  }

  /** Every run of threads is, in its openers and numbers, a run of the descriptor protocol. */
  lemma {:induction false} ThreadsKeepFds(es: seq<Event>)
    ensures FdView(RunThreads(es)) == F.Run(FdEvents(es))
  {
    if es != [] {
      ThreadsKeepFds(es[..|es| - 1]);
      FdSnocThreads(es);
      FdSnoc(FdEvents(es[..|es| - 1]), LastFdEvent(es));
    }
  }

  lemma {:induction false} FdEventsPrefix(es: seq<Event>, k: nat)
    requires k <= |es|
    ensures FdEvents(es[..k]) <= FdEvents(es)
    decreases |es|
  {
    if k == |es| {
      assert es[..k] == es;
    } else {
      assert es[..|es| - 1][..k] == es[..k];
      FdEventsPrefix(es[..|es| - 1], k);
    }
  }

  /** So within 2^32 draws a descriptor that was issued and is closed never becomes valid again for any thread. */
  lemma ThreadsGoneForever(es: seq<Event>, k: nat, fd: u32)
    requires k <= |es| && |FdView(RunThreads(es)).issued| <= U32_SIZE && F.Gone(FdView(RunThreads(es[..k])), fd)
    ensures F.Gone(FdView(RunThreads(es)), fd) && fd !in RunThreads(es).table
  {
    ThreadsKeepFds(es);
    ThreadsKeepFds(es[..k]);
    FdEventsPrefix(es, k);
    var n := |FdEvents(es[..k])|;
    assert FdEvents(es)[..n] == FdEvents(es[..k]);
    F.GoneForever(FdEvents(es), n, fd);
  }
}
