/**
 Laws a guest program relies on: what it writes is what it reads, a run that does
 not touch a file leaves it alone, descriptor numbers are not reused, and the
 write quota bounds everything ever written.
 */
module FileLaws {
  import opened Base
  import opened Paths
  import opened FileModel
  import opened FileRuns

  // ---- Contents -------------------------------------------------------------------

  /** The bytes a write covers are the data; the write leaves nothing else different but zeros in a gap. */
  lemma OverlaySlice(old_: seq<byte>, pos: nat, data: seq<byte>)
    ensures Overlay(old_, pos, data)[pos..pos + |data|] == data
    ensures forall i :: 0 <= i < |old_| && !(pos <= i < pos + |data|) ==> Overlay(old_, pos, data)[i] == old_[i]
    ensures forall i :: |old_| <= i < pos ==> Overlay(old_, pos, data)[i] == 0
  {
  }

  /** Two adjacent writes are one write of the concatenation. */
  lemma OverlayCompose(old_: seq<byte>, pos: nat, a: seq<byte>, b: seq<byte>)
    ensures Overlay(Overlay(old_, pos, a), pos + |a|, b) == Overlay(old_, pos, a + b)
  {
  }

  /** What one handle writes, another handle on the same file standing at the same offset reads. */
  lemma ReadBackOther(fs: FileSystem, fd: u32, g: u32, data: seq<byte>)
    requires WellFormed(fs) && Write(fs, fd, data).1.Ok?
    requires g in fs.handles && g != fd && fs.handles[g].access.read && fs.handles[g].path == fs.handles[fd].path
    requires fs.handles[g].position == WritePosition(fs, fd)
    ensures Read(Write(fs, fd, data).0, g, |data|).1 == Ok(data)
  {
    var h := fs.handles[fd];
    var pos := fs.handles[g].position;
    OverlaySlice(fs.files[h.path], pos, data);
  }

  /** Write, seek back to where the write began, read: the same bytes. */
  lemma ReadBackSelf(fs: FileSystem, fd: u32, data: seq<byte>)
    requires WellFormed(fs) && Write(fs, fd, data).1.Ok?
    requires fs.handles[fd].access.read && fs.handles[fd].access.seek && !fs.handles[fd].access.append
    requires fs.handles[fd].position < I64_LIMIT
    ensures var rewound := Seek(Write(fs, fd, data).0, fd, fs.handles[fd].position, 0);
            rewound.1 == Ok(fs.handles[fd].position) && Read(rewound.0, fd, |data|).1 == Ok(data)
  {
    var h := fs.handles[fd];
    OverlaySlice(fs.files[h.path], h.position, data);
  }

  /** A seek succeeds exactly when the target is inside the signed 64-bit range, and lands there. */
  lemma SeekExact(fs: FileSystem, fd: u32, offset: i64, whence: nat)
    requires fd in fs.handles && fs.handles[fd].access.seek && fs.handles[fd].path in fs.files && whence <= 2
    requires fs.handles[fd].position < I64_LIMIT && |fs.files[fs.handles[fd].path]| < I64_LIMIT
    ensures var base := if whence == 0 then 0 else if whence == 1 then fs.handles[fd].position
                        else |fs.files[fs.handles[fd].path]|;
            && (Seek(fs, fd, offset, whence).1.Ok? <==> 0 <= base + offset < I64_LIMIT)
            && (Seek(fs, fd, offset, whence).1.Ok? ==> Seek(fs, fd, offset, whence).1 == Ok(base + offset))
  {
  }

  // ---- What a run leaves alone ------------------------------------------------------

  /** The only calls that can change the contents of `p`. */
  predicate Touches(fs: FileSystem, op: Op, p: Path) {
    match op
    case OpenOp(raw, mode, _) => mode.truncate && Resolve([], Split(raw)) == Some(p)
    case WriteOp(fd, _) => fd in fs.handles && fs.handles[fd].path == p
    case _ => false
  }

  lemma UntouchedStep(fs: FileSystem, op: Op, p: Path)
    requires p in fs.files && !Touches(fs, op, p)
    ensures p in Apply(fs, op).0.files && Apply(fs, op).0.files[p] == fs.files[p]
  {
  }

  lemma {:induction false} UntouchedRun(fs: FileSystem, ops: seq<Op>, p: Path)
    requires p in fs.files
    requires forall i :: 0 <= i < |ops| ==> !Touches(Run(fs, ops[..i]), ops[i], p)
    ensures p in Run(fs, ops).files && Run(fs, ops).files[p] == fs.files[p]
    decreases |ops|
  {
    if ops != [] {
      var before := ops[..|ops| - 1];
      forall i | 0 <= i < |before| ensures !Touches(Run(fs, before[..i]), before[i], p) {
        assert before[..i] == ops[..i];
      }
      UntouchedRun(fs, before, p);
      UntouchedStep(Run(fs, before), ops[|ops| - 1], p);
    }
  }

  predicate Names(fs: FileSystem, op: Op, fd: u32) {
    match op
    case OpenOp(_, _, _) => fs.nextFd == fd
    case ReadOp(g, _) => g == fd
    case WriteOp(g, _) => g == fd
    case SeekOp(g, _, _) => g == fd
    case CloseOp(g) => g == fd
  }

  /** A call that does not name a handle leaves its path, position and rights as they are. */
  lemma OtherHandlesStay(fs: FileSystem, op: Op, fd: u32)
    requires fd in fs.handles && !Names(fs, op, fd)
    ensures fd in Apply(fs, op).0.handles && Apply(fs, op).0.handles[fd] == fs.handles[fd]
  {
  }

  // ---- Where the code departs from a tree of directories ----------------------------

  /** No file at the root, and only directories have anything below them. */
  ghost predicate TreeShaped(fs: FileSystem) {
    [] !in Nodes(fs) && forall p {:trigger Parent(p)} :: p in Nodes(fs) && |p| > 1 ==> Parent(p) in fs.dirs
  }

  /** Creating "/" itself, or a file below a file; neither is refused. */
  predicate CreatesOutsideTree(fs: FileSystem, p: Path, mode: OpenMode) {
    mode.create && p !in Nodes(fs) && (p == [] || (|p| > 1 && Parent(p) in fs.files && Parent(p) !in fs.dirs))
  }

  predicate BreaksTree(fs: FileSystem, op: Op) {
    op.OpenOp? &&
    match Resolve([], Split(op.raw))
    case None => false
    case Some(p) => CreatesOutsideTree(fs, p, op.mode)
  }

  lemma SetContentsShape(fs: FileSystem, p: Path)
    requires TreeShaped(fs) && (|p| > 1 ==> Parent(p) in Nodes(fs))
    ensures TreeShaped(SetContents(fs, p, [])) <==> p in Nodes(fs) || |p| == 1 || (p != [] && Parent(p) in fs.dirs)
  {
    SetContentsNodes(fs, p, []);
  }

  lemma SameNodesShape(fs: FileSystem, after: FileSystem)
    requires Nodes(fs) == Nodes(after) && fs.dirs == after.dirs
    ensures TreeShaped(fs) <==> TreeShaped(after)
  {
  }

  lemma PrepareShape(fs: FileSystem, p: Path, mode: OpenMode)
    requires TreeShaped(fs)
    ensures var r := Prepare(fs, p, mode);
            if r.Ok? then TreeShaped(r.value) <==> !CreatesOutsideTree(fs, p, mode)
            else !CreatesOutsideTree(fs, p, mode)
  {
    var r := Prepare(fs, p, mode);
    if r.Ok? && r.value != fs { SetContentsShape(fs, p); }
  }

  lemma OpenAtShape(fs: FileSystem, p: Path, mode: OpenMode, access: Access)
    requires TreeShaped(fs)
    ensures TreeShaped(OpenAt(fs, p, mode, access).0) <==> !CreatesOutsideTree(fs, p, mode)
  {
    PrepareShape(fs, p, mode);
    var r := Prepare(fs, p, mode);
    if r.Ok? { SameNodesShape(r.value, Allocate(r.value, p, access).0); }
  }

  lemma WriteNodes(fs: FileSystem, fd: u32, data: seq<byte>)
    ensures Nodes(Write(fs, fd, data).0) == Nodes(fs) && Write(fs, fd, data).0.dirs == fs.dirs
  {
    if Write(fs, fd, data).1.Ok? {
      assert Write(fs, fd, data).0.files.Keys == fs.files.Keys;
    }
  }

  /** The tree shape survives a call exactly when the call is not such a creation. */
  lemma TreeShapedIff(fs: FileSystem, op: Op)
    requires TreeShaped(fs)
    ensures TreeShaped(Apply(fs, op).0) <==> !BreaksTree(fs, op)
  {
    match op
    case OpenOp(raw, mode, access) =>
      var r := Resolve([], Split(raw));
      if r.Some? { OpenAtShape(fs, r.value, mode, access); }
    case WriteOp(fd, data) =>
      WriteNodes(fs, fd, data);
      SameNodesShape(fs, Apply(fs, op).0);
    case ReadOp(fd, n) => SameNodesShape(fs, Read(fs, fd, n).0);
    case SeekOp(fd, offset, whence) => SameNodesShape(fs, Seek(fs, fd, offset, whence).0);
    case CloseOp(fd) => SameNodesShape(fs, Close(fs, fd));
  }

  lemma PrepareNodes(fs: FileSystem, p: Path, mode: OpenMode)
    ensures var r := Prepare(fs, p, mode); r.Ok? ==> Nodes(fs) <= Nodes(r.value) && r.value.dirs == fs.dirs
  {
    SetContentsNodes(fs, p, []);
  }

  lemma AllocateNodes(fs: FileSystem, p: Path, access: Access)
    ensures Allocate(fs, p, access).0.files == fs.files && Allocate(fs, p, access).0.dirs == fs.dirs
  {
  }

  lemma OpenNodes(fs: FileSystem, raw: string, mode: OpenMode, access: Access)
    ensures Nodes(fs) <= Nodes(Open(fs, raw, mode, access).0) && Open(fs, raw, mode, access).0.dirs == fs.dirs
  {
    var r := Resolve([], Split(raw));
    if r.Some? {
      PrepareNodes(fs, r.value, mode);
      var ready := Prepare(fs, r.value, mode);
      if ready.Ok? { AllocateNodes(ready.value, r.value, access); }
    }
  }

  lemma ApplyNodes(fs: FileSystem, op: Op)
    ensures Nodes(fs) <= Nodes(Apply(fs, op).0) && Apply(fs, op).0.dirs == fs.dirs
  {
    match op
    case OpenOp(raw, mode, access) => OpenNodes(fs, raw, mode, access);
    case WriteOp(fd, data) => WriteNodes(fs, fd, data);
    case _ => assert Apply(fs, op).0.files == fs.files;
  }

  /** With nodes that do not vanish and directories that are fixed, a shape once lost does not come back. */
  lemma ShapeStaysLost(fs: FileSystem, after: FileSystem)
    requires Nodes(fs) <= Nodes(after) && after.dirs == fs.dirs && TreeShaped(after)
    ensures TreeShaped(fs)
  {
    forall p | p in Nodes(fs) && |p| > 1 ensures Parent(p) in fs.dirs { assert p in Nodes(after); }
  }

  /** The `k`-th call creates something outside the tree. */
  ghost predicate BreaksTreeAt(fs: FileSystem, ops: seq<Op>, k: nat)
    requires k < |ops|
  {
    BreaksTree(Run(fs, ops[..k]), ops[k])
  }

  /** Over a whole run the tree shape survives exactly when none of its calls is such a creation. */
  lemma {:induction false} TreeShapedRunIff(fs: FileSystem, ops: seq<Op>)
    requires TreeShaped(fs)
    ensures TreeShaped(Run(fs, ops)) <==> forall k :: 0 <= k < |ops| ==> !BreaksTreeAt(fs, ops, k)
    decreases |ops|
  {
    if ops != [] {
      var before, last := ops[..|ops| - 1], |ops| - 1;
      TreeShapedRunIff(fs, before);
      forall k | 0 <= k < |before| ensures BreaksTreeAt(fs, before, k) <==> BreaksTreeAt(fs, ops, k) {
        assert before[..k] == ops[..k];
      }
      ApplyNodes(Run(fs, before), ops[last]);
      if TreeShaped(Run(fs, ops)) { ShapeStaysLost(Run(fs, before), Run(fs, ops)); }
      if TreeShaped(Run(fs, before)) {
        TreeShapedIff(Run(fs, before), ops[last]);
        assert BreaksTreeAt(fs, ops, last) <==> !TreeShaped(Run(fs, ops));
      }
    }
  }

  lemma InitialTreeShaped()
    ensures TreeShaped(Initial)
  {
  }

  /** One call from the initial file system makes "/" a regular file. */
  lemma RootCanBecomeFile()
    ensures [] in Run(Initial, [OpenOp("/", OpenMode(true, false, false), Access(true, true, true, false))]).files
  {
    var op := OpenOp("/", OpenMode(true, false, false), Access(true, true, true, false));
    assert Split("/") == ["", ""] && ["", ""][1..] == [""] && [""][1..] == [];
    assert Resolve([], ["", ""]) == Some([]);
    assert [op][..0] == [];
  }

  /** The open asks for a new file below an existing parent, or for a non-empty file to be emptied. */
  predicate AsksForChange(fs: FileSystem, p: Path, mode: OpenMode) {
    if p in Nodes(fs) then p in fs.files && fs.files[p] != [] && mode.truncate && !(mode.create && mode.exclusive)
    else mode.create && (|p| <= 1 || Parent(p) in Nodes(fs))
  }

  /** An open fails and still changes the files exactly when the table is full and the path asks for a change. */
  lemma RefusedOpenEffect(fs: FileSystem, raw: string, mode: OpenMode, access: Access)
    ensures var (after, result) := Open(fs, raw, mode, access);
            result.Err? && after != fs <==>
              && |fs.handles| >= MAX_FDS
              && match Resolve([], Split(raw))
                 case None => false
                 case Some(p) => AsksForChange(fs, p, mode)
  {
    var r := Resolve([], Split(raw));
    if r.Some? {
      var p := r.value;
      assert p in fs.files && fs.files[p] == [] ==> fs.files[p := []] == fs.files;
      assert p in fs.files && fs.files[p] != [] ==> fs.files[p := []][p] != fs.files[p];
      assert p !in fs.files ==> p in fs.files[p := []];
    }
  }

  // ---- Descriptor numbers --------------------------------------------------------------

  function Extend(fds: seq<u32>, out: Outcome): seq<u32> {
    if out.Opened? then fds + [out.fd] else fds
  }

  /** The descriptors a run returned, in order. */
  function Issued(outs: seq<Outcome>): seq<u32> {
    if outs == [] then [] else Extend(Issued(outs[..|outs| - 1]), outs[|outs| - 1])
  }

  /** What one call does to the numbering and to the set of open descriptors. */
  ghost predicate FdStep(fs: FileSystem, after: FileSystem, out: Outcome) {
    if out.Opened? then
      && out.fd == fs.nextFd && after.nextFd == Successor(fs.nextFd)
      && after.handles.Keys == fs.handles.Keys + {fs.nextFd}
    else after.nextFd == fs.nextFd && after.handles.Keys <= fs.handles.Keys
  }

  lemma AllocateFdStep(fs: FileSystem, p: Path, access: Access)
    ensures var (after, r) := Allocate(fs, p, access);
            if r.Ok? then
              && r.value == fs.nextFd && after.nextFd == Successor(fs.nextFd)
              && after.handles.Keys == fs.handles.Keys + {fs.nextFd}
            else after == fs
  {
  }

  lemma OpenFdStep(fs: FileSystem, raw: string, mode: OpenMode, access: Access)
    ensures var (after, r) := Open(fs, raw, mode, access);
            if r.Ok? then
              && r.value == fs.nextFd && after.nextFd == Successor(fs.nextFd)
              && after.handles.Keys == fs.handles.Keys + {fs.nextFd}
            else after.nextFd == fs.nextFd && after.handles == fs.handles
  {
    var r := Resolve([], Split(raw));
    if r.Some? {
      var ready := Prepare(fs, r.value, mode);
      if ready.Ok? { AllocateFdStep(ready.value, r.value, access); }
    }
  }

  lemma QuietStep(fs: FileSystem, op: Op)
    requires !op.OpenOp?
    ensures Apply(fs, op).0.nextFd == fs.nextFd && Apply(fs, op).0.handles.Keys <= fs.handles.Keys
    ensures !Apply(fs, op).1.Opened?
  {
  }

  lemma StepFd(fs: FileSystem, op: Op)
    ensures FdStep(fs, Apply(fs, op).0, Apply(fs, op).1)
  {
    if op.OpenOp? { OpenFdStep(fs, op.raw, op.mode, op.access); } else { QuietStep(fs, op); }
  }

  lemma IssuedSnoc(outs: seq<Outcome>, out: Outcome)
    ensures Issued(outs + [out]) == Extend(Issued(outs), out)
  {
    assert (outs + [out])[..|outs|] == outs;
  }

  /** The counter and the issued numbers agree: the i-th number is `first + i`, modulo 2^32. */
  ghost predicate InOrder(first: u32, fds: seq<u32>, next: u32) {
    next == (first + |fds|) % U32_SIZE && forall i :: 0 <= i < |fds| ==> fds[i] == (first + i) % U32_SIZE
  }

  lemma InOrderStep(first: u32, fds: seq<u32>, fs: FileSystem, after: FileSystem, out: Outcome)
    requires InOrder(first, fds, fs.nextFd) && FdStep(fs, after, out)
    ensures InOrder(first, Extend(fds, out), after.nextFd)
  {
  }

  /** The last call of a run extends the list of issued numbers by its outcome. */
  lemma IssuedStep(fs: FileSystem, ops: seq<Op>) returns (out: Outcome)
    requires ops != []
    ensures FdStep(Run(fs, ops[..|ops| - 1]), Run(fs, ops), out)
    ensures Issued(Outcomes(fs, ops)) == Extend(Issued(Outcomes(fs, ops[..|ops| - 1])), out)
  {
    var before := ops[..|ops| - 1];
    var mid := Run(fs, before);
    out := Apply(mid, ops[|ops| - 1]).1;
    IssuedSnoc(Outcomes(fs, before), out);
    StepFd(mid, ops[|ops| - 1]);
  }

  /**
   In every run the i-th successful open returns the initial counter plus i, modulo
   2^32; from the initial file system that is 3 + i.
   */
  lemma {:induction false} IssuedInOrder(fs: FileSystem, ops: seq<Op>)
    ensures InOrder(fs.nextFd, Issued(Outcomes(fs, ops)), Run(fs, ops).nextFd)
    decreases |ops|
  {
    if ops != [] {
      var before := ops[..|ops| - 1];
      IssuedInOrder(fs, before);
      var out := IssuedStep(fs, ops);
      InOrderStep(fs.nextFd, Issued(Outcomes(fs, before)), Run(fs, before), Run(fs, ops), out);
    }
  }

  lemma SameResidue(first: nat, i: nat, j: nat)
    requires i <= j
    ensures (first + i) % U32_SIZE == (first + j) % U32_SIZE <==> (j - i) % U32_SIZE == 0
  {
  }

  lemma InOrderReuse(first: u32, fds: seq<u32>, next: u32, i: nat, j: nat)
    requires InOrder(first, fds, next) && i <= j < |fds|
    ensures fds[i] == fds[j] <==> (j - i) % U32_SIZE == 0
  {
    SameResidue(first, i, j);
  }

  /** Two opens return the same number exactly when a multiple of 2^32 opens lie between them. */
  lemma ReusedIff(fs: FileSystem, ops: seq<Op>, i: nat, j: nat)
    requires i <= j < |Issued(Outcomes(fs, ops))|
    ensures Issued(Outcomes(fs, ops))[i] == Issued(Outcomes(fs, ops))[j] <==> (j - i) % U32_SIZE == 0
  {
    IssuedInOrder(fs, ops);
    InOrderReuse(fs.nextFd, Issued(Outcomes(fs, ops)), Run(fs, ops).nextFd, i, j);
  }

  lemma FreshNumber(first: u32, fds: seq<u32>, next: u32)
    requires InOrder(first, fds, next) && |fds| < U32_SIZE
    ensures next !in fds
  {
    forall i | 0 <= i < |fds| ensures fds[i] != next {
      SameResidue(first, i, |fds|);
    }
  }

  /** Within 2^32 opens, a descriptor that was issued and is closed stays closed. */
  lemma {:induction false} ClosedStaysClosed(fs: FileSystem, ops: seq<Op>, k: nat, fd: u32)
    requires k <= |ops| && |Issued(Outcomes(fs, ops))| <= U32_SIZE
    requires fd in Issued(Outcomes(fs, ops[..k])) && fd !in Run(fs, ops[..k]).handles
    ensures fd !in Run(fs, ops).handles && fd in Issued(Outcomes(fs, ops))
    decreases |ops|
  {
    if k == |ops| {
      assert ops[..k] == ops;
    } else {
      var before := ops[..|ops| - 1];
      assert before[..k] == ops[..k];
      var out := IssuedStep(fs, ops);
      ClosedStaysClosed(fs, before, k, fd);
      var fds, next := Issued(Outcomes(fs, before)), Run(fs, before).nextFd;
      IssuedInOrder(fs, before);
      if |fds| < U32_SIZE { FreshNumber(fs.nextFd, fds, next); }
    }
  }

  // ---- Quota ----------------------------------------------------------------------------

  /** Bytes reported written by the writes of a run. */
  function Written(fs: FileSystem, ops: seq<Op>): nat {
    if ops == [] then 0
    else
      var before := ops[..|ops| - 1];
      var out := Apply(Run(fs, before), ops[|ops| - 1]).1;
      Written(fs, before) + if ops[|ops| - 1].WriteOp? && out.Count? then out.n else 0
  }

  lemma {:induction false} QuotaBoundsWrites(ops: seq<Op>)
    ensures Written(Initial, ops) <= Run(Initial, ops).charged <= WRITE_QUOTA
  {
    if ops != [] {
      QuotaBoundsWrites(ops[..|ops| - 1]);
    }
  }
}
