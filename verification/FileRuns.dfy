/**
 Every run of guest calls against the file model: what all reachable file
 systems have in common, what a run leaves alone, and how descriptors are numbered.
 */
module FileRuns {
  import opened Base
  import opened Paths
  import opened FileModel

  datatype Op =
    | OpenOp(raw: string, mode: OpenMode, access: Access)
    | ReadOp(fd: u32, n: nat)
    | WriteOp(fd: u32, data: seq<byte>)
    | SeekOp(fd: u32, offset: i64, whence: nat)
    | CloseOp(fd: u32)

  datatype Outcome =
    | Opened(fd: u32)
    | Bytes(bytes: seq<byte>)
    | Count(n: nat)
    | Done
    | Failed(error: VfsError)

  function Apply(fs: FileSystem, op: Op): (FileSystem, Outcome) {
    match op
    case OpenOp(raw, mode, access) => Reported(Open(fs, raw, mode, access), fd => Opened(fd))
    case ReadOp(fd, n) => Reported(Read(fs, fd, n), bytes => Bytes(bytes))
    case WriteOp(fd, data) => Reported(Write(fs, fd, data), n => Count(n))
    case SeekOp(fd, offset, whence) => Reported(Seek(fs, fd, offset, whence), n => Count(n))
    case CloseOp(fd) => (Close(fs, fd), Done)
  }

  function Reported<T>(step: (FileSystem, Result<T, VfsError>), ok: T -> Outcome): (FileSystem, Outcome) {
    (step.0, Report(step.1, ok))
  }

  function Report<T>(r: Result<T, VfsError>, ok: T -> Outcome): Outcome {
    if r.Ok? then ok(r.value) else Failed(r.error)
  }

  function Run(fs: FileSystem, ops: seq<Op>): FileSystem {
    if ops == [] then fs else Apply(Run(fs, ops[..|ops| - 1]), ops[|ops| - 1]).0
  }

  function Outcomes(fs: FileSystem, ops: seq<Op>): (outs: seq<Outcome>)
    ensures |outs| == |ops|
  {
    if ops == [] then []
    else
      var before := ops[..|ops| - 1];
      Outcomes(fs, before) + [Apply(Run(fs, before), ops[|ops| - 1]).1]
  }

  // ---- Reachable file systems ---------------------------------------------------

  /** Canonical paths, each below the root or below another of them. */
  ghost predicate Rooted(nodes: set<Path>) {
    && (forall p {:trigger Clean(p)} :: p in nodes ==> Clean(p))
    && (forall p {:trigger Parent(p)} :: p in nodes && |p| > 1 ==> Parent(p) in nodes)
  }

  ghost predicate WellFormed(fs: FileSystem) {
    && Rooted(Nodes(fs))
    && fs.files.Keys !! fs.dirs
    && (forall fd :: fd in fs.handles ==> fs.handles[fd].path in Nodes(fs))
    && |fs.handles| <= MAX_FDS
    && fs.charged <= WRITE_QUOTA
  }

  lemma ResolvedIsClean(raw: string)
    ensures var r := Resolve([], Split(raw)); r.Some? ==> Clean(r.value)
  {
    JoinSplit(raw);
    ResolveKeepsClean([], Split(raw));
  }

  lemma RootedAdd(nodes: set<Path>, p: Path)
    requires Rooted(nodes) && Clean(p) && (|p| > 1 ==> Parent(p) in nodes)
    ensures Rooted(nodes + {p})
  {
  }

  lemma SetContentsNodes(fs: FileSystem, p: Path, data: seq<byte>)
    ensures Nodes(SetContents(fs, p, data)) == Nodes(fs) + {p}
    ensures fs.files[p := data].Keys == fs.files.Keys + {p}
  {
  }

  /** Setting a file's contents at a path that is not a directory and has a parent. */
  lemma SetContentsKeeps(fs: FileSystem, p: Path, data: seq<byte>)
    requires WellFormed(fs) && Clean(p) && p !in fs.dirs && (|p| > 1 ==> Parent(p) in Nodes(fs))
    ensures WellFormed(SetContents(fs, p, data))
  {
    SetContentsNodes(fs, p, data);
    RootedAdd(Nodes(fs), p);
  }

  lemma PrepareKeeps(fs: FileSystem, p: Path, mode: OpenMode)
    requires WellFormed(fs) && Clean(p)
    ensures var r := Prepare(fs, p, mode);
            r.Ok? ==> Extends(fs, r.value) && p in Nodes(r.value)
  {
    if Prepare(fs, p, mode).Ok? && p !in fs.dirs {
      SetContentsKeeps(fs, p, []);
      SetContentsNodes(fs, p, []);
    }
  }

  lemma HandleAdded(m: map<u32, Handle>, fd: u32, h: Handle)
    ensures |m[fd := h]| <= |m| + 1
    ensures fd in m ==> |m[fd := h]| == |m|
  {
    assert m[fd := h].Keys == m.Keys + {fd};
    if fd in m { assert m.Keys + {fd} == m.Keys; }
  }

  lemma HandleRemoved(m: map<u32, Handle>, fd: u32)
    ensures |m - {fd}| <= |m|
  {
    assert (m - {fd}).Keys == m.Keys - {fd};
  }

  lemma AllocateKeeps(fs: FileSystem, p: Path, access: Access)
    requires WellFormed(fs) && p in Nodes(fs)
    ensures Extends(fs, Allocate(fs, p, access).0)
  {
    HandleAdded(fs.handles, fs.nextFd, Handle(p, 0, access));
  }

  /** A well-formed successor with every file and directory still there. */
  ghost predicate Extends(fs: FileSystem, after: FileSystem) {
    WellFormed(after) && fs.files.Keys <= after.files.Keys && after.dirs == fs.dirs
  }

  lemma ExtendsTransitive(a: FileSystem, b: FileSystem, c: FileSystem)
    requires Extends(a, b) && Extends(b, c)
    ensures Extends(a, c)
  {
  }

  lemma OpenKeeps(fs: FileSystem, raw: string, mode: OpenMode, access: Access)
    requires WellFormed(fs)
    ensures Extends(fs, Open(fs, raw, mode, access).0)
  {
    ResolvedIsClean(raw);
    var r := Resolve([], Split(raw));
    if r.Some? {
      PrepareKeeps(fs, r.value, mode);
      var ready := Prepare(fs, r.value, mode);
      if ready.Ok? { AllocateKeeps(ready.value, r.value, access); }
    }
  }

  lemma MoveKeeps(fs: FileSystem, fd: u32, pos: nat)
    requires WellFormed(fs) && fd in fs.handles
    ensures Extends(fs, MoveTo(fs, fd, pos))
  {
    HandleAdded(fs.handles, fd, fs.handles[fd].(position := pos));
  }

  lemma StoreKeeps(fs: FileSystem, fd: u32, data: seq<byte>)
    requires WellFormed(fs) && fd in fs.handles && fs.handles[fd].path in fs.files
    ensures Extends(fs, Store(fs, fd, data))
  {
    var h := fs.handles[fd];
    assert h.path in Nodes(fs);
    var pos := WritePosition(fs, fd);
    var bytes := Overlay(fs.files[h.path], pos, data);
    SetContentsKeeps(fs, h.path, bytes);
    MoveKeeps(SetContents(fs, h.path, bytes), fd, pos + |data|);
  }

  lemma ChargeKeeps(fs: FileSystem, n: nat)
    requires WellFormed(fs) && fs.charged + n <= WRITE_QUOTA
    ensures Extends(fs, Charge(fs, n))
  {
    assert Nodes(Charge(fs, n)) == Nodes(fs);
  }

  lemma WritePaidKeeps(fs: FileSystem, fd: u32, data: seq<byte>)
    requires WellFormed(fs)
    ensures Extends(fs, WritePaid(fs, fd, data).0)
  {
    if WritePaid(fs, fd, data).1.Ok? { StoreKeeps(fs, fd, data); }
  }

  lemma WriteKeeps(fs: FileSystem, fd: u32, data: seq<byte>)
    requires WellFormed(fs)
    ensures Extends(fs, Write(fs, fd, data).0)
  {
    if fs.charged + |data| <= WRITE_QUOTA {
      var paid := Charge(fs, |data|);
      ChargeKeeps(fs, |data|);
      WritePaidKeeps(paid, fd, data);
      ExtendsTransitive(fs, paid, WritePaid(paid, fd, data).0);
    }
  }

  lemma ReadKeeps(fs: FileSystem, fd: u32, n: nat)
    requires WellFormed(fs)
    ensures Extends(fs, Read(fs, fd, n).0)
  {
    var r := Read(fs, fd, n).1;
    if r.Ok? { MoveKeeps(fs, fd, fs.handles[fd].position + |r.value|); }
  }

  lemma SeekKeeps(fs: FileSystem, fd: u32, offset: i64, whence: nat)
    requires WellFormed(fs)
    ensures Extends(fs, Seek(fs, fd, offset, whence).0)
  {
    var (after, r) := Seek(fs, fd, offset, whence);
    if r.Ok? { MoveKeeps(fs, fd, r.value); }
  }

  lemma CloseKeeps(fs: FileSystem, fd: u32)
    requires WellFormed(fs)
    ensures Extends(fs, Close(fs, fd))
  {
    HandleRemoved(fs.handles, fd);
  }

  lemma ApplyKeeps(fs: FileSystem, op: Op)
    requires WellFormed(fs)
    ensures Extends(fs, Apply(fs, op).0)
  {
    match op
    case OpenOp(raw, mode, access) => OpenKeeps(fs, raw, mode, access);
    case ReadOp(fd, n) => ReadKeeps(fs, fd, n);
    case WriteOp(fd, data) => WriteKeeps(fs, fd, data);
    case SeekOp(fd, offset, whence) => SeekKeeps(fs, fd, offset, whence);
    case CloseOp(fd) => CloseKeeps(fs, fd);
  }

  lemma RootedTop(nodes: set<Path>, n: string)
    requires Rooted(nodes) && IsName(n) && '/' !in n
    ensures Rooted(nodes + {[n]})
  {
    RootedAdd(nodes, [n]);
  }

  lemma InitialWellFormed()
    ensures WellFormed(Initial)
  {
    RootedTop({}, "tmp");
    RootedTop({["tmp"]}, "home");
    RootedTop({["tmp"], ["home"]}, "workspace");
    assert {} + {["tmp"]} == {["tmp"]} && {["tmp"]} + {["home"]} == {["tmp"], ["home"]};
    assert Nodes(Initial) == {["tmp"], ["home"]} + {["workspace"]};
  }

  /**
   In every run from the initial file system: all paths are canonical, a node's
   parent is the root or a node, every open handle refers to a node, at most 256
   handles are open, and nodes neither vanish nor change kind.
   */
  lemma {:induction false} RunKeeps(ops: seq<Op>, k: nat)
    requires k <= |ops|
    ensures WellFormed(Run(Initial, ops))
    ensures Extends(Run(Initial, ops[..k]), Run(Initial, ops))
    decreases |ops|
  {
    if k == |ops| {
      assert ops[..k] == ops;
    }
    if ops == [] {
      InitialWellFormed();
    } else {
      var before := ops[..|ops| - 1];
      RunKeeps(before, Min(k, |before|));
      ApplyKeeps(Run(Initial, before), ops[|ops| - 1]);
      if k < |ops| { assert before[..k] == ops[..k]; }
    }
  }
}
