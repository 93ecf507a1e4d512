/**
 One VFS shared by threads. `path_open` holds the root write lock from the existence
 check to its return and takes the table lock twice; the descriptor calls hold the
 table lock throughout and take the root lock inside it when they reach the node; a
 write first charges the shared counter with atomic operations and no lock. Calls
 interleave at these sections. A call that has to wait for a lock takes no step: it has
 changed nothing yet.
 */
module VfsThreads {
  import opened Base
  import opened Paths
  import opened FileModel
  import opened FileRuns
  import opened MapSum

  type Tid = nat

  datatype Stage = Entered | Prepared | Drawn(fd: u32)

  /** The thread that holds the root write lock, and how far its open has come. */
  datatype Opener = Opener(t: Tid, raw: string, mode: OpenMode, access: Access, path: Path, stage: Stage)

  datatype Verdict = Charged(prev: int) | Refused | Accepted

  /** A write between its charge and its end. */
  datatype Writer = Writer(fd: u32, data: seq<byte>, verdict: Verdict)

  /**
   The shared fields, the calls under way, and the calls that returned with what they
   returned, in that order; refused writes are kept apart.
   */
  datatype State = State(
    files: map<Path, seq<byte>>,
    dirs: set<Path>,
    table: map<u32, Handle>,
    nextFd: u32,
    counter: int,
    opener: Option<Opener>,
    writers: map<Tid, Writer>,
    done: seq<Op>,
    outs: seq<Outcome>,
    refused: seq<Op>)

  const Start := State(Initial.files, Initial.dirs, Initial.handles, Initial.nextFd, 0, None, map[], [], [], [])

  /** A thread begins a call, or takes the next step of the one it is in. */
  datatype Event = Begin(t: Tid, op: Op) | Next(t: Tid)

  /** What the lock-protected fields are for the model's operations, which do not look at the charge. */
  function Shared(s: State): FileSystem {
    FileSystem(s.files, s.dirs, s.table, s.nextFd, 0)
  }

  function Return(s: State, op: Op, out: Outcome): State {
    s.(done := s.done + [op], outs := s.outs + [out])
  }

  predicate Busy(s: State, t: Tid) {
    t in s.writers || (s.opener.Some? && s.opener.value.t == t)
  }

  /** The call gets past its descriptor checks and asks for the root lock. */
  predicate NeedsRoot(table: map<u32, Handle>, dirs: set<Path>, op: Op) {
    match op
    case OpenOp(_, _, _) => true
    case ReadOp(fd, _) => fd in table && table[fd].access.read && table[fd].path !in dirs
    case WriteOp(fd, _) => fd in table && table[fd].access.write
    case SeekOp(fd, _, _) => fd in table && table[fd].access.seek
    case CloseOp(_) => false
  }

  predicate Waits(s: State, op: Op) {
    s.opener.Some? && NeedsRoot(s.table, s.dirs, op)
  }

  function Step(s: State, e: Event): State {
    match e
    case Begin(t, op) => if Busy(s, t) then s else BeginCall(s, t, op)
    case Next(t) =>
      if s.opener.Some? && s.opener.value.t == t then OpenNext(s, s.opener.value)
      else if t in s.writers then WriteNext(s, t, s.writers[t])
      else s
  }

  function BeginCall(s: State, t: Tid, op: Op): State {
    match op
    case OpenOp(raw, mode, access) =>
      (match Resolve([], Split(raw))
       case None => Return(s, op, Failed(CapabilityDenied))
       case Some(p) =>
         if s.opener.Some? then s else s.(opener := Some(Opener(t, raw, mode, access, p, Entered))))
    case WriteOp(fd, data) =>
      s.(counter := s.counter + |data|, writers := s.writers[t := Writer(fd, data, Charged(s.counter))])
    case _ =>
      if Waits(s, op) then s
      else
        var (after, out) := Apply(Shared(s), op);
        Return(s.(table := after.handles), op, out)
  }

  function OpenNext(s: State, o: Opener): State {
    var op := OpenOp(o.raw, o.mode, o.access);
    match o.stage
    case Entered =>
      (match Prepare(Shared(s), o.path, o.mode)
       case Err(e) => Return(s.(opener := None), op, Failed(e))
       case Ok(ready) => s.(files := ready.files, opener := Some(o.(stage := Prepared))))
    case Prepared =>
      if |s.table| >= MAX_FDS then Return(s.(opener := None), op, Failed(FdExhausted))
      else s.(nextFd := Successor(s.nextFd), opener := Some(o.(stage := Drawn(s.nextFd))))
    case Drawn(fd) =>
      Return(s.(table := s.table[fd := Handle(o.path, 0, o.access)], opener := None), op, Opened(fd))
  }

  function WriteOutcome(r: Result<nat, VfsError>): Outcome {
    if r.Ok? then Count(r.value) else Failed(r.error)
  }

  function WriteNext(s: State, t: Tid, w: Writer): State {
    var op := WriteOp(w.fd, w.data);
    match w.verdict
    case Charged(prev) =>
      s.(writers := s.writers[t := w.(verdict := if prev + |w.data| > WRITE_QUOTA then Refused else Accepted)])
    case Refused =>
      s.(counter := s.counter - |w.data|, writers := s.writers - {t}, refused := s.refused + [op])
    case Accepted =>
      if Waits(s, op) then s
      else
        var (after, r) := WritePaid(Shared(s), w.fd, w.data);
        Return(WithoutWriter(s, t, after), op, WriteOutcome(r))
  }

  function WithoutWriter(s: State, t: Tid, after: FileSystem): State {
    s.(files := after.files, table := after.handles, writers := s.writers - {t})
  }

  function RunThreads(es: seq<Event>): State {
    if es == [] then Start else Step(RunThreads(es[..|es| - 1]), es[|es| - 1])
  }

  // ---- The sequential file system behind the threads ------------------------------------

  /** The calls that returned, one after the other. */
  function Behind(s: State): FileSystem {
    Run(Initial, s.done)
  }

  ghost const Len := (w: Writer) => |w.data|

  /** Bytes of a writer whose test will pass or has passed. */
  ghost const Granted := (w: Writer) =>
    if w.verdict.Accepted? || (w.verdict.Charged? && w.verdict.prev + |w.data| <= WRITE_QUOTA) then |w.data| else 0

  /** The shared counter is the charge kept so far and those under way, and what is granted fits the quota. */
  ghost predicate CounterFits(counter: int, writers: map<Tid, Writer>, charged: nat) {
    counter == charged + Sum(writers, Len) && charged + Sum(writers, Granted) <= WRITE_QUOTA
  }

  /** Creating or truncating in `a` gives the shared files. */
  ghost predicate PreparedFrom(s: State, a: FileSystem, o: Opener) {
    var r := Prepare(a, o.path, o.mode);
    r.Ok? && r.value.files == s.files
  }

  /** How far the shared tree and numbering are ahead: by what the opener has done. */
  ghost predicate Ahead(s: State, a: FileSystem) {
    match s.opener
    case None => s.files == a.files && s.nextFd == a.nextFd
    case Some(o) =>
      && Resolve([], Split(o.raw)) == Some(o.path)
      && match o.stage
         case Entered => s.files == a.files && s.nextFd == a.nextFd
         case Prepared => PreparedFrom(s, a, o) && s.nextFd == a.nextFd
         case Drawn(fd) =>
           PreparedFrom(s, a, o) && fd == a.nextFd && s.nextFd == Successor(fd) && |a.handles| < MAX_FDS
  }

  ghost predicate Follows(s: State, a: FileSystem) {
    s.dirs == a.dirs && s.table == a.handles && Ahead(s, a) && CounterFits(s.counter, s.writers, a.charged)
  }

  ghost predicate Inv(s: State) {
    Follows(s, Behind(s)) && s.outs == Outcomes(Initial, s.done)
  }

  lemma Returned(s: State, op: Op, out: Outcome)
    ensures var t := Return(s, op, out);
            && Behind(t) == Apply(Behind(s), op).0
            && (s.outs == Outcomes(Initial, s.done) ==>
                  out == Apply(Behind(s), op).1 ==> t.outs == Outcomes(Initial, t.done))
  {
    assert (s.done + [op])[..|s.done|] == s.done;
  }

  // ---- Descriptor calls -----------------------------------------------------------------

  predicate Simple(op: Op) {
    op.ReadOp? || op.SeekOp? || op.CloseOp?
  }

  /** A read, seek or close looks at the files only if it asks for the root lock, and changes only the table. */
  lemma SimpleAgrees(a: FileSystem, b: FileSystem, op: Op)
    requires Simple(op) && a.dirs == b.dirs && a.handles == b.handles
    requires NeedsRoot(a.handles, a.dirs, op) ==> a.files == b.files
    ensures Apply(a, op).1 == Apply(b, op).1
    ensures Apply(a, op).0 == a.(handles := Apply(b, op).0.handles)
  {
  }

  lemma SimpleCloses(a: FileSystem, op: Op)
    requires Simple(op)
    ensures |Apply(a, op).0.handles| <= |a.handles|
  {
    var after := Apply(a, op).0.handles;
    if op.CloseOp? {
      assert after.Keys == a.handles.Keys - {op.fd};
    } else {
      assert after.Keys == a.handles.Keys;
    }
  }

  lemma AheadStays(s: State, a: FileSystem, t: State, b: FileSystem)
    requires Ahead(s, a) && t.opener == s.opener && t.files == s.files && t.nextFd == s.nextFd
    requires b.files == a.files && b.dirs == a.dirs && b.nextFd == a.nextFd && |b.handles| <= |a.handles|
    ensures Ahead(t, b)
  {
    if s.opener.Some? { PrepareAgrees(a, b, s.opener.value.path, s.opener.value.mode); }
  }

  lemma SimpleKeeps(s: State, t: Tid, op: Op)
    requires Inv(s) && Simple(op) && !Busy(s, t)
    ensures Inv(BeginCall(s, t, op))
  {
    if !Waits(s, op) {
      var a := Behind(s);
      var (after, out) := Apply(Shared(s), op);
      var next := s.(table := after.handles);
      SimpleAgrees(a, Shared(s), op);
      SimpleCloses(a, op);
      Returned(next, op, out);
      AheadStays(s, a, Return(next, op, out), Apply(a, op).0);
    }
  }

  // ---- Opens --------------------------------------------------------------------------------

  /** Creation and truncation look at the tree alone and change the files alone. */
  lemma PrepareAgrees(a: FileSystem, b: FileSystem, p: Path, mode: OpenMode)
    requires a.files == b.files && a.dirs == b.dirs
    ensures var r, q := Prepare(a, p, mode), Prepare(b, p, mode);
            && (r.Ok? <==> q.Ok?)
            && (r.Ok? ==> r.value == a.(files := q.value.files))
            && (r.Err? ==> r.error == q.error)
  {
  }

  lemma EnteredKeeps(s: State, o: Opener)
    requires Inv(s) && s.opener == Some(o) && o.stage == Entered
    ensures Inv(OpenNext(s, o))
  {
    var a, op := Behind(s), OpenOp(o.raw, o.mode, o.access);
    PrepareAgrees(a, Shared(s), o.path, o.mode);
    var r := Prepare(Shared(s), o.path, o.mode);
    if r.Err? { Returned(s.(opener := None), op, Failed(r.error)); }
  }

  lemma PreparedKeeps(s: State, o: Opener)
    requires Inv(s) && s.opener == Some(o) && o.stage == Prepared
    ensures Inv(OpenNext(s, o))
  {
    var a, op := Behind(s), OpenOp(o.raw, o.mode, o.access);
    PrepareAgrees(a, a, o.path, o.mode);
    if |s.table| >= MAX_FDS { Returned(s.(opener := None), op, Failed(FdExhausted)); }
  }

  lemma DrawnKeeps(s: State, o: Opener)
    requires Inv(s) && s.opener == Some(o) && o.stage.Drawn?
    ensures Inv(OpenNext(s, o))
  {
    var a, op := Behind(s), OpenOp(o.raw, o.mode, o.access);
    PrepareAgrees(a, a, o.path, o.mode);
    var next := s.(table := s.table[o.stage.fd := Handle(o.path, 0, o.access)], opener := None);
    Returned(next, op, Opened(o.stage.fd));
  }

  // ---- Writes ------------------------------------------------------------------------------

  /** Past its charge a write looks at the files only under the root lock. */
  lemma WriteAgrees(a: FileSystem, b: FileSystem, fd: u32, data: seq<byte>)
    requires a.dirs == b.dirs && a.handles == b.handles && a.charged + |data| <= WRITE_QUOTA
    requires NeedsRoot(a.handles, a.dirs, WriteOp(fd, data)) ==> a.files == b.files
    ensures var (after, r) := WritePaid(b, fd, data);
            && Write(a, fd, data).1 == r
            && Write(a, fd, data).0
               == Charge(a, |data|).(files := if r.Ok? then after.files else a.files, handles := after.handles)
            && (r.Err? ==> after == b) && |after.handles| == |b.handles|
  {
    if WritePaid(b, fd, data).1.Ok? { assert WritePaid(b, fd, data).0.handles.Keys == b.handles.Keys; }
  }

  lemma CounterCharged(counter: int, writers: map<Tid, Writer>, charged: nat, t: Tid, fd: u32, data: seq<byte>)
    requires CounterFits(counter, writers, charged) && t !in writers
    ensures CounterFits(counter + |data|, writers[t := Writer(fd, data, Charged(counter))], charged)
  {
    var w := Writer(fd, data, Charged(counter));
    SumAtMost(writers, Granted, Len);
    SumSet(writers, t, w, Len);
    SumSet(writers, t, w, Granted);
  }

  /** The test only says what was settled by the charge. */
  lemma CounterTested(counter: int, writers: map<Tid, Writer>, charged: nat, t: Tid, w: Writer)
    requires CounterFits(counter, writers, charged) && t in writers
    requires Len(w) == Len(writers[t]) && Granted(w) == Granted(writers[t])
    ensures CounterFits(counter, writers[t := w], charged)
  {
    SumSet(writers, t, w, Len);
    SumSet(writers, t, w, Granted);
  }

  /** A writer that goes takes its charge back, or, if accepted, leaves it among the kept ones. */
  lemma CounterLeft(counter: int, writers: map<Tid, Writer>, charged: nat, t: Tid)
    requires CounterFits(counter, writers, charged) && t in writers
    ensures CounterFits(counter - Len(writers[t]), writers - {t}, charged)
    ensures writers[t].verdict.Accepted? ==>
      charged + Len(writers[t]) <= WRITE_QUOTA && CounterFits(counter, writers - {t}, charged + Len(writers[t]))
  {
    SumRemove(writers, t, Len);
    SumRemove(writers, t, Granted);
  }

  lemma ChargeKeeps(s: State, t: Tid, fd: u32, data: seq<byte>)
    requires Inv(s) && t !in s.writers
    ensures Inv(BeginCall(s, t, WriteOp(fd, data)))
  {
    CounterCharged(s.counter, s.writers, Behind(s).charged, t, fd, data);
  }

  lemma TestKeeps(s: State, t: Tid, w: Writer)
    requires Inv(s) && t in s.writers && s.writers[t] == w && w.verdict.Charged?
    ensures Inv(WriteNext(s, t, w))
  {
    var next := w.(verdict := if w.verdict.prev + |w.data| > WRITE_QUOTA then Refused else Accepted);
    CounterTested(s.counter, s.writers, Behind(s).charged, t, next);
  }

  lemma RefusedKeeps(s: State, t: Tid, w: Writer)
    requires Inv(s) && t in s.writers && s.writers[t] == w && w.verdict.Refused?
    ensures Inv(WriteNext(s, t, w))
  {
    CounterLeft(s.counter, s.writers, Behind(s).charged, t);
  }

  lemma AcceptedKeeps(s: State, t: Tid, w: Writer)
    requires Inv(s) && t in s.writers && s.writers[t] == w && w.verdict.Accepted?
    ensures Inv(WriteNext(s, t, w))
  {
    var a, op := Behind(s), WriteOp(w.fd, w.data);
    CounterLeft(s.counter, s.writers, a.charged, t);
    if !Waits(s, op) {
      WriteFollows(s, a, w.fd, w.data);
      var (after, r) := WritePaid(Shared(s), w.fd, w.data);
      WriterLeft(s, t, op, after, Apply(a, op).0, WriteOutcome(r));
    }
  }

  lemma WriterLeft(s: State, t: Tid, op: Op, after: FileSystem, b: FileSystem, out: Outcome)
    requires Inv(s) && t in s.writers && s.writers[t].verdict.Accepted? && Apply(Behind(s), op) == (b, out)
    requires b.dirs == s.dirs && b.handles == after.handles && b.charged == Behind(s).charged + |s.writers[t].data|
    requires Ahead(s.(files := after.files), b)
    ensures Inv(Return(WithoutWriter(s, t, after), op, out))
  {
    CounterLeft(s.counter, s.writers, Behind(s).charged, t);
    AheadFields(s.(files := after.files), WithoutWriter(s, t, after), b);
    ReturnFollows(WithoutWriter(s, t, after), op, out, b);
  }

  /** A state that follows the file system with the call applied follows once the call is recorded. */
  lemma ReturnFollows(s: State, op: Op, out: Outcome, b: FileSystem)
    requires s.outs == Outcomes(Initial, s.done) && Apply(Behind(s), op) == (b, out) && Follows(s, b)
    ensures Inv(Return(s, op, out))
  {
    Returned(s, op, out);
    AheadFields(s, Return(s, op, out), b);
  }

  /** The locked section of a write does to the shared fields what the whole write does to the sequential ones. */
  lemma WriteFollows(s: State, a: FileSystem, fd: u32, data: seq<byte>)
    requires s.dirs == a.dirs && s.table == a.handles && Ahead(s, a) && !Waits(s, WriteOp(fd, data))
    requires a.charged + |data| <= WRITE_QUOTA
    ensures var (after, r) := WritePaid(Shared(s), fd, data);
            var (b, out) := Apply(a, WriteOp(fd, data));
            && out == WriteOutcome(r)
            && b.dirs == a.dirs && b.handles == after.handles && b.charged == a.charged + |data|
            && Ahead(s.(files := after.files), b)
  {
    WriteAgrees(a, Shared(s), fd, data);
    var (after, r) := WritePaid(Shared(s), fd, data);
    if s.opener.Some? { AheadStays(s, a, s.(files := after.files), Write(a, fd, data).0); }
  }

  /** Only the files, the counter of numbers and the opener matter. */
  lemma AheadFields(s: State, t: State, a: FileSystem)
    requires Ahead(s, a) && t.opener == s.opener && t.files == s.files && t.nextFd == s.nextFd
    ensures Ahead(t, a)
  {
  }

  // ---- Every interleaving -------------------------------------------------------------------

  lemma BeginKeeps(s: State, t: Tid, op: Op)
    requires Inv(s) && !Busy(s, t)
    ensures Inv(BeginCall(s, t, op))
  {
    match op
    case OpenOp(raw, mode, access) =>
      if Resolve([], Split(raw)).None? { Returned(s, op, Failed(CapabilityDenied)); }
    case WriteOp(fd, data) => ChargeKeeps(s, t, fd, data);
    case _ => SimpleKeeps(s, t, op);
  }

  lemma OpenKeeps(s: State, o: Opener)
    requires Inv(s) && s.opener == Some(o)
    ensures Inv(OpenNext(s, o))
  {
    match o.stage
    case Entered => EnteredKeeps(s, o);
    case Prepared => PreparedKeeps(s, o);
    case Drawn(_) => DrawnKeeps(s, o);
  }

  lemma WriteKeeps(s: State, t: Tid, w: Writer)
    requires Inv(s) && t in s.writers && s.writers[t] == w
    ensures Inv(WriteNext(s, t, w))
  {
    match w.verdict
    case Charged(_) => TestKeeps(s, t, w);
    case Refused => RefusedKeeps(s, t, w);
    case Accepted => AcceptedKeeps(s, t, w);
  }

  lemma StepKeeps(s: State, e: Event)
    requires Inv(s)
    ensures Inv(Step(s, e))
  {
    match e
    case Begin(t, op) => if !Busy(s, t) { BeginKeeps(s, t, op); }
    case Next(t) =>
      if s.opener.Some? && s.opener.value.t == t {
        OpenKeeps(s, s.opener.value);
      } else if t in s.writers {
        WriteKeeps(s, t, s.writers[t]);
      }
  }

  lemma {:induction false} RunFollows(es: seq<Event>)
    ensures Inv(RunThreads(es))
  {
    if es == [] {
      assert Start.writers == map[];
    } else {
      RunFollows(es[..|es| - 1]);
      StepKeeps(RunThreads(es[..|es| - 1]), es[|es| - 1]);
    }
  }

  /**
   In every interleaving the calls that returned, taken in the order in which they
   returned, are a run of the sequential file system: each returned what it returns
   there, and whenever no call is under way the shared state is the one that run leaves.
   Refused writes are the only calls left out, and they leave no trace.
   */
  lemma Linearizable(es: seq<Event>)
    ensures var s := RunThreads(es);
            && s.outs == Outcomes(Initial, s.done)
            && s.dirs == Run(Initial, s.done).dirs && s.table == Run(Initial, s.done).handles
            && (s.opener == None ==> s.files == Run(Initial, s.done).files && s.nextFd == Run(Initial, s.done).nextFd)
            && (s.writers == map[] ==> s.counter == Run(Initial, s.done).charged)
  {
    RunFollows(es);
  }

  /** Well-formedness looks at files, directories and handles, and at a charge within the quota. */
  lemma SameWellFormed(a: FileSystem, b: FileSystem)
    requires WellFormed(a) && b.files == a.files && b.dirs == a.dirs && b.handles == a.handles && b.charged == 0
    ensures WellFormed(b)
  {
    assert Nodes(a) == Nodes(b);
  }

  lemma PreparedWellFormed(s: State, a: FileSystem, o: Opener)
    requires WellFormed(a) && s.dirs == a.dirs && s.table == a.handles && PreparedFrom(s, a, o)
    requires Resolve([], Split(o.raw)) == Some(o.path)
    ensures WellFormed(Shared(s))
  {
    ResolvedIsClean(o.raw);
    PrepareKeeps(a, o.path, o.mode);
    PrepareAgrees(a, a, o.path, o.mode);
    SameWellFormed(Prepare(a, o.path, o.mode).value, Shared(s));
  }

  /**
   Everything the sequential runs keep, the shared state keeps at every step, in the
   middle of an open too: at most 256 handles, each on a node of a well-formed tree.
   */
  lemma SharedWellFormed(es: seq<Event>)
    ensures var s := RunThreads(es);
            && WellFormed(Shared(s)) && |s.table| <= MAX_FDS
            && 0 <= s.counter && (s.writers == map[] ==> s.counter <= WRITE_QUOTA)
  {
    RunFollows(es);
    var s := RunThreads(es);
    RunKeeps(s.done, 0);
    if s.opener.Some? && s.opener.value.stage != Entered {
      PreparedWellFormed(s, Behind(s), s.opener.value);
    } else {
      SameWellFormed(Behind(s), Shared(s));
    }
  }

  /**
   Refusals are where threads and sequence differ. A write is refused exactly when it
   does not fit beside the kept charges and those of all writes under way; after the
   calls that returned it would be refused exactly when it does not fit beside the kept
   ones alone.
   */
  lemma RefusedIff(es: seq<Event>, t: Tid, fd: u32, data: seq<byte>)
    requires !Busy(RunThreads(es), t)
    ensures var s := RunThreads(es);
            var kept := Run(Initial, s.done).charged;
            var tested := Step(Step(s, Begin(t, WriteOp(fd, data))), Next(t)).writers;
            && t in tested
            && (tested[t].verdict == Refused <==> kept + Sum(s.writers, Len) + |data| > WRITE_QUOTA)
            && (Write(Run(Initial, s.done), fd, data).1 == Err(Internal(QuotaExceeded)) <==>
                  kept + |data| > WRITE_QUOTA)
  {
    RunFollows(es);
  }

  // ---- Nothing is blocked that need not be ---------------------------------------------------

  function Steps(s: State, es: seq<Event>): State
    decreases |es|
  {
    if es == [] then s else Steps(Step(s, es[0]), es[1..])
  }

  /** The call and as many further steps as any call can take. */
  function Alone(t: Tid, op: Op): seq<Event> {
    [Begin(t, op), Next(t), Next(t), Next(t)]
  }

  lemma AloneSteps(s: State, t: Tid, op: Op, s1: State, s2: State, s3: State)
    requires s1 == Step(s, Begin(t, op)) && s2 == Step(s1, Next(t)) && s3 == Step(s2, Next(t))
    ensures Steps(s, Alone(t, op)) == Step(s3, Next(t))
  {
    var es := Alone(t, op);
    assert es[1..] == [Next(t), Next(t), Next(t)] && es[1..][1..] == [Next(t), Next(t)];
    assert es[1..][1..][1..] == [Next(t)] && es[1..][1..][1..][1..] == [];
    StepsFirst(s, es);
    StepsFirst(s1, es[1..]);
    StepsFirst(s2, es[1..][1..]);
    StepsFirst(s3, es[1..][1..][1..]);
  }

  lemma StepsFirst(s: State, es: seq<Event>)
    requires es != []
    ensures Steps(s, es) == Steps(Step(s, es[0]), es[1..])
  {
  }

  /** No open is under way, and the thread is in no call. */
  predicate Free(s: State, t: Tid) {
    s.opener == None && t !in s.writers
  }

  lemma IdleStep(s: State, t: Tid)
    requires Free(s, t)
    ensures Step(s, Next(t)) == s
  {
  }

  /** The call has returned and nothing else is different about who is in which call. */
  predicate HasReturned(s: State, after: State, t: Tid, op: Op) {
    Free(after, t) && after.done == s.done + [op] && after.writers == s.writers
  }

  lemma SimpleReturns(s: State, t: Tid, op: Op)
    requires Free(s, t) && Simple(op)
    ensures HasReturned(s, Steps(s, Alone(t, op)), t, op)
  {
    var s1 := Step(s, Begin(t, op));
    IdleStep(s1, t);
    AloneSteps(s, t, op, s1, s1, s1);
  }

  /** Each step of an open ends it or brings it one stage on. */
  lemma OpenStage(s: State, o: Opener)
    requires s.opener == Some(o)
    ensures var after, op := Step(s, Next(o.t)), OpenOp(o.raw, o.mode, o.access);
            && after.writers == s.writers
            && if after.opener == None then after.done == s.done + [op]
               else
                 && after.done == s.done && !o.stage.Drawn?
                 && exists next :: after.opener == Some(o.(stage := next)) && (o.stage.Prepared? ==> next.Drawn?)
                                   && (o.stage.Entered? ==> next.Prepared?)
  {
    var after := Step(s, Next(o.t));
    if after.opener.Some? { assert after.opener == Some(o.(stage := after.opener.value.stage)); }
  }

  /** An open of thread `t` is under way and has not returned. */
  predicate Opening(s: State, now: State, t: Tid, op: Op) {
    && now.done == s.done && now.writers == s.writers && t !in s.writers && now.opener.Some?
    && var o := now.opener.value; o.t == t && op == OpenOp(o.raw, o.mode, o.access)
  }

  lemma OpeningNext(s: State, now: State, t: Tid, op: Op)
    requires Opening(s, now, t, op)
    ensures var after := Step(now, Next(t));
            || HasReturned(s, after, t, op)
            || (&& Opening(s, after, t, op) && !now.opener.value.stage.Drawn?
                && (now.opener.value.stage.Prepared? ==> after.opener.value.stage.Drawn?)
                && (now.opener.value.stage.Entered? ==> after.opener.value.stage.Prepared?))
  {
    OpenStage(now, now.opener.value);
  }

  lemma BeginOpen(s: State, t: Tid, op: Op)
    requires Free(s, t) && op.OpenOp?
    ensures var after := Step(s, Begin(t, op));
            HasReturned(s, after, t, op) || (Opening(s, after, t, op) && after.opener.value.stage == Entered)
  {
  }

  lemma ReturnedStays(s: State, after: State, t: Tid, op: Op)
    requires HasReturned(s, after, t, op)
    ensures Step(after, Next(t)) == after
  {
    IdleStep(after, t);
  }

  lemma OpenReturns(s: State, t: Tid, op: Op, s1: State, s2: State, s3: State)
    requires Free(s, t) && op.OpenOp?
    requires s1 == Step(s, Begin(t, op)) && s2 == Step(s1, Next(t)) && s3 == Step(s2, Next(t))
    ensures HasReturned(s, Step(s3, Next(t)), t, op)
  {
    BeginOpen(s, t, op);
    if HasReturned(s, s1, t, op) { ReturnedStays(s, s1, t, op); } else { OpeningNext(s, s1, t, op); }
    if HasReturned(s, s2, t, op) { ReturnedStays(s, s2, t, op); } else { OpeningNext(s, s2, t, op); }
    if HasReturned(s, s3, t, op) { ReturnedStays(s, s3, t, op); } else { OpeningNext(s, s3, t, op); }
  }

  lemma WriteReturns(s: State, t: Tid, op: Op)
    requires Free(s, t) && op.WriteOp? && s.counter + |op.data| <= WRITE_QUOTA
    ensures HasReturned(s, Steps(s, Alone(t, op)), t, op)
  {
    var w := Writer(op.fd, op.data, Charged(s.counter));
    var s1 := Step(s, Begin(t, op));
    assert s1.writers == s.writers[t := w];
    var s2 := Step(s1, Next(t));
    assert s2.writers == s.writers[t := w.(verdict := Accepted)];
    var s3 := Step(s2, Next(t));
    assert s.writers[t := w.(verdict := Accepted)] - {t} == s.writers;
    IdleStep(s3, t);
    AloneSteps(s, t, op, s1, s2, s3);
  }

  /** With no open under way a thread's call returns by its own steps alone, whatever writes others are in. */
  lemma CallReturns(s: State, t: Tid, op: Op)
    requires Free(s, t) && (op.WriteOp? ==> s.counter + |op.data| <= WRITE_QUOTA)
    ensures HasReturned(s, Steps(s, Alone(t, op)), t, op)
  {
    if op.OpenOp? {
      var s1 := Step(s, Begin(t, op));
      var s2 := Step(s1, Next(t));
      var s3 := Step(s2, Next(t));
      OpenReturns(s, t, op, s1, s2, s3);
      AloneSteps(s, t, op, s1, s2, s3);
    } else if op.WriteOp? {
      WriteReturns(s, t, op);
    } else {
      SimpleReturns(s, t, op);
    }
  }

  /** A close returns at once even while an open is under way. */
  lemma CloseReturns(s: State, t: Tid, fd: u32)
    requires !Busy(s, t)
    ensures var after := Step(s, Begin(t, CloseOp(fd)));
            && after.done == s.done + [CloseOp(fd)] && after.outs == s.outs + [Done]
            && after.table == s.table - {fd} && after.opener == s.opener
  {
  }

  /** No write of the run is refused for the quota. */
  ghost predicate WithinQuota(ops: seq<Op>) {
    forall k :: 0 <= k < |ops| && ops[k].WriteOp? ==> Run(Initial, ops[..k]).charged + |ops[k].data| <= WRITE_QUOTA
  }

  lemma {:induction false} RunOn(es: seq<Event>, more: seq<Event>)
    ensures RunThreads(es + more) == Steps(RunThreads(es), more)
    decreases |more|
  {
    if more == [] {
      assert es + more == es;
    } else {
      assert (es + [more[0]])[..|es|] == es;
      assert es + [more[0]] + more[1..] == es + more;
      RunOn(es + [more[0]], more[1..]);
    }
  }

  lemma WithinQuotaPrefix(ops: seq<Op>)
    requires ops != [] && WithinQuota(ops)
    ensures WithinQuota(ops[..|ops| - 1])
    ensures ops[|ops| - 1].WriteOp? ==>
      Run(Initial, ops[..|ops| - 1]).charged + |ops[|ops| - 1].data| <= WRITE_QUOTA
  {
    var before := ops[..|ops| - 1];
    forall k | 0 <= k < |before| && before[k].WriteOp?
      ensures Run(Initial, before[..k]).charged + |before[k].data| <= WRITE_QUOTA
    {
      assert before[..k] == ops[..k] && ops[k].WriteOp?;
    }
  }

  /** All calls have returned, and they are these. */
  ghost predicate Finished(s: State, ops: seq<Op>) {
    s.done == ops && s.opener == None && s.writers == map[]
  }

  lemma OneCallMore(es: seq<Event>, ops: seq<Op>, op: Op)
    requires Finished(RunThreads(es), ops)
    requires op.WriteOp? ==> Run(Initial, ops).charged + |op.data| <= WRITE_QUOTA
    ensures Finished(RunThreads(es + Alone(0, op)), ops + [op])
  {
    Linearizable(es);
    CallReturns(RunThreads(es), 0, op);
    RunOn(es, Alone(0, op));
  }

  /** Conversely, every sequential run without a refused write is a run of threads. */
  lemma {:induction false} EverySequence(ops: seq<Op>) returns (es: seq<Event>)
    requires WithinQuota(ops)
    ensures Finished(RunThreads(es), ops)
    decreases |ops|
  {
    if ops == [] {
      es := [];
    } else {
      var before, op := ops[..|ops| - 1], ops[|ops| - 1];
      WithinQuotaPrefix(ops);
      es := EverySequence(before);
      OneCallMore(es, before, op);
      es := es + Alone(0, op);
      assert before + [op] == ops;
    }
  }
}
