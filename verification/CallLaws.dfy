/**
 What each guest call returns and changes, said of the bytes, the table and the
 charge alone. Nothing here names the helpers the model's operations are made of, so
 a call that stored, moved or refused the wrong thing would break one of these laws.
 */
module CallLaws {
  import opened Base
  import opened Paths
  import opened FileModel
  import opened FileRuns

  // ---- path_open ------------------------------------------------------------------------

  /** Why an open of `p` cannot go ahead, looking at the tree alone. */
  predicate TreeRefuses(fs: FileSystem, p: Path, mode: OpenMode, e: VfsError) {
    if p in Nodes(fs) then mode.create && mode.exclusive && e == Internal(AlreadyExists)
    else if !mode.create then e == NotFound(Render(p))
    else |p| > 1 && p[..|p| - 1] !in Nodes(fs) && e == NotFound(Render(p[..|p| - 1]))
  }

  /** The open gives the file no contents: it is new, or it is there and is to be truncated. */
  predicate Empties(fs: FileSystem, p: Path, mode: OpenMode) {
    p !in Nodes(fs) || (p in fs.files && mode.truncate)
  }

  /** A path that leaves the root, and a tree that says no: the error, and nothing changes. */
  lemma OpenRefused(fs: FileSystem, raw: string, mode: OpenMode, access: Access, e: VfsError)
    requires match Resolve([], Split(raw))
             case None => e == CapabilityDenied
             case Some(p) => TreeRefuses(fs, p, mode, e)
    ensures Apply(fs, OpenOp(raw, mode, access)) == (fs, Failed(e))
  {
  }

  /** Numbers go up by one, and from the last 32-bit number to 0. */
  function NextNumber(fd: u32): u32 {
    if fd == 0xFFFF_FFFF then 0 else fd + 1
  }

  /** Otherwise the file is emptied or left alone, and no other file and no directory changes. */
  lemma OpenContents(fs: FileSystem, raw: string, mode: OpenMode, access: Access, p: Path)
    requires Resolve([], Split(raw)) == Some(p) && forall e :: !TreeRefuses(fs, p, mode, e)
    ensures var after := Apply(fs, OpenOp(raw, mode, access)).0;
            && after.files == (if Empties(fs, p, mode) then fs.files[p := []] else fs.files)
            && after.dirs == fs.dirs && after.charged == fs.charged
  {
    var ready := PrepareEffect(fs, p, mode);
    AllocateEffect(ready, p, access);
    OpenSteps(fs, raw, mode, access, p, ready);
  }

  /** And with fewer than 256 handles open the next number is a new handle that stands at the first byte. */
  lemma OpenTable(fs: FileSystem, raw: string, mode: OpenMode, access: Access, p: Path)
    requires Resolve([], Split(raw)) == Some(p) && forall e :: !TreeRefuses(fs, p, mode, e)
    ensures var (after, out) := Apply(fs, OpenOp(raw, mode, access));
            if |fs.handles| >= 256 then
              out == Failed(FdExhausted) && after.handles == fs.handles && after.nextFd == fs.nextFd
            else
              && out == Opened(fs.nextFd) && after.nextFd == NextNumber(fs.nextFd)
              && after.handles == fs.handles[fs.nextFd := Handle(p, 0, access)]
  {
    var ready := PrepareEffect(fs, p, mode);
    AllocateEffect(ready, p, access);
    OpenSteps(fs, raw, mode, access, p, ready);
  }

  lemma OpenSteps(fs: FileSystem, raw: string, mode: OpenMode, access: Access, p: Path, ready: FileSystem)
    requires Resolve([], Split(raw)) == Some(p) && Prepare(fs, p, mode) == Ok(ready)
    ensures var (after, r) := Allocate(ready, p, access);
            Apply(fs, OpenOp(raw, mode, access)) == (after, if r.Ok? then Opened(r.value) else Failed(r.error))
  {
  }

  lemma AllocateEffect(fs: FileSystem, p: Path, access: Access)
    ensures |fs.handles| >= 256 ==> Allocate(fs, p, access) == (fs, Err(FdExhausted))
    ensures |fs.handles| < 256 ==>
      var (after, r) := Allocate(fs, p, access);
      && r == Ok(fs.nextFd) && after.nextFd == NextNumber(fs.nextFd)
      && after.handles == fs.handles[fs.nextFd := Handle(p, 0, access)]
      && after.files == fs.files && after.dirs == fs.dirs && after.charged == fs.charged
  {
  }

  lemma PrepareEffect(fs: FileSystem, p: Path, mode: OpenMode) returns (ready: FileSystem)
    requires forall e :: !TreeRefuses(fs, p, mode, e)
    ensures ready == fs.(files := if Empties(fs, p, mode) then fs.files[p := []] else fs.files)
    ensures Prepare(fs, p, mode) == Ok(ready)
  {
    ready := fs.(files := if Empties(fs, p, mode) then fs.files[p := []] else fs.files);
    assert !TreeRefuses(fs, p, mode, Internal(AlreadyExists));
    assert !TreeRefuses(fs, p, mode, NotFound(Render(p)));
    assert p != [] ==> !TreeRefuses(fs, p, mode, NotFound(Render(p[..|p| - 1])));
  }

  /** What a new handle reads first is the front of the file, and nothing if the open emptied it. */
  lemma OpenThenRead(fs: FileSystem, raw: string, mode: OpenMode, access: Access, p: Path, n: nat)
    requires Resolve([], Split(raw)) == Some(p) && access.read && p !in fs.dirs
    requires Apply(fs, OpenOp(raw, mode, access)).1.Opened?
    ensures var (after, out) := Apply(fs, OpenOp(raw, mode, access));
            && p in after.files
            && Apply(after, ReadOp(out.fd, n)).1
               == Bytes(if Empties(fs, p, mode) then [] else fs.files[p][..Min(n, |fs.files[p]|)])
  {
    forall e ensures !TreeRefuses(fs, p, mode, e) {
      if TreeRefuses(fs, p, mode, e) { OpenRefused(fs, raw, mode, access, e); }
    }
    OpenContents(fs, raw, mode, access, p);
    OpenTable(fs, raw, mode, access, p);
    var (after, out) := Apply(fs, OpenOp(raw, mode, access));
    ReadEffect(after, out.fd, n);
  }

  // ---- fd_read --------------------------------------------------------------------------

  /** The handle is open on a file. */
  predicate OnFile(fs: FileSystem, fd: u32) {
    fd in fs.handles && fs.handles[fd].path in fs.files && fs.handles[fd].path !in fs.dirs
  }

  function Contents(fs: FileSystem, fd: u32): seq<byte>
    requires OnFile(fs, fd)
  {
    fs.files[fs.handles[fd].path]
  }

  /** A read returns the bytes from the position on and moves just past them; nothing else changes. */
  lemma ReadEffect(fs: FileSystem, fd: u32, n: nat)
    requires OnFile(fs, fd) && fs.handles[fd].access.read
    ensures var (after, out) := Apply(fs, ReadOp(fd, n));
            var pos, data := fs.handles[fd].position, Contents(fs, fd);
            && out.Bytes?
            && |out.bytes| == (if pos >= |data| then 0 else Min(n, |data| - pos))
            && (forall i :: 0 <= i < |out.bytes| ==> out.bytes[i] == data[pos + i])
            && after == fs.(handles := fs.handles[fd := fs.handles[fd].(position := pos + |out.bytes|)])
  {
  }

  /** Without an open handle or the right to read, or on a directory, a read fails and changes nothing. */
  lemma ReadRefused(fs: FileSystem, fd: u32, n: nat)
    ensures fd !in fs.handles || !fs.handles[fd].access.read ==>
      Apply(fs, ReadOp(fd, n)) == (fs, Failed(ReadOnly(fd)))
    ensures fd in fs.handles && fs.handles[fd].access.read && fs.handles[fd].path in fs.dirs ==>
      Apply(fs, ReadOp(fd, n)) == (fs, Failed(Internal(IsDirectory)))
  {
  }

  // ---- fd_write -------------------------------------------------------------------------

  /** Where a write begins: at the end for an appending handle, at the position otherwise. */
  lemma WriteEffect(fs: FileSystem, fd: u32, data: seq<byte>)
    requires OnFile(fs, fd) && fs.handles[fd].access.write && fs.charged + |data| <= 67108864
    ensures var (after, out) := Apply(fs, WriteOp(fd, data));
            var h, was := fs.handles[fd], Contents(fs, fd);
            && out == Count(|data|)
            && after.dirs == fs.dirs && after.nextFd == fs.nextFd && after.charged == fs.charged + |data|
            && (h.access.append ==>
                  && after.files == fs.files[h.path := was + data]
                  && after.handles == fs.handles[fd := h.(position := |was| + |data|)])
            && (!h.access.append ==>
                  && after.files == fs.files[h.path := Overlay(was, h.position, data)]
                  && after.handles == fs.handles[fd := h.(position := h.position + |data|)])
  {
    var was := Contents(fs, fd);
    assert Overlay(was, |was|, data) == was + data;
  }

  /** Over the quota nothing changes; without a handle that may write, on a file, only the charge does. */
  lemma WriteRefused(fs: FileSystem, fd: u32, data: seq<byte>)
    ensures fs.charged + |data| > 67108864 ==> Apply(fs, WriteOp(fd, data)) == (fs, Failed(Internal(QuotaExceeded)))
    ensures fs.charged + |data| <= 67108864 && (fd !in fs.handles || !fs.handles[fd].access.write) ==>
      Apply(fs, WriteOp(fd, data)) == (fs.(charged := fs.charged + |data|), Failed(ReadOnly(fd)))
    ensures fs.charged + |data| <= 67108864 && fd in fs.handles && fs.handles[fd].access.write
            && fs.handles[fd].path !in fs.files ==>
      Apply(fs, WriteOp(fd, data))
      == (fs.(charged := fs.charged + |data|), Failed(NotFound(Render(fs.handles[fd].path))))
  {
  }

  // ---- fd_seek ----------------------------------------------------------------------------

  /** Where a seek counts from: the start, the position or the end. */
  function SeekBase(fs: FileSystem, fd: u32, whence: nat): nat
    requires OnFile(fs, fd)
  {
    if whence == 0 then 0 else if whence == 1 then fs.handles[fd].position else |Contents(fs, fd)|
  }

  lemma WrappedTarget(base: nat, offset: i64)
    ensures var target := AsI64(AsI64(base) + offset);
            var wrapped := (base + offset) % 0x1_0000_0000_0000_0000;
            target == if wrapped < 0x8000_0000_0000_0000 then wrapped else wrapped - 0x1_0000_0000_0000_0000
  {
  }

  /**
   For all positions, lengths and offsets: the sum is taken modulo 2^64; read as a signed
   number it is where the handle then stands, or the seek fails because it is negative.
   */
  lemma SeekEffect(fs: FileSystem, fd: u32, offset: i64, whence: nat)
    requires OnFile(fs, fd) && fs.handles[fd].access.seek && whence <= 2
    ensures var (after, out) := Apply(fs, SeekOp(fd, offset, whence));
            var wrapped := (SeekBase(fs, fd, whence) + offset) % 0x1_0000_0000_0000_0000;
            if wrapped < 0x8000_0000_0000_0000 then
              && out == Count(wrapped)
              && after == fs.(handles := fs.handles[fd := fs.handles[fd].(position := wrapped)])
            else out == Failed(Internal(BeforeStart)) && after == fs
  {
    WrappedTarget(SeekBase(fs, fd, whence), offset);
  }

  /** The bytes read after a seek are those from the place it returned. */
  lemma SeekThenRead(fs: FileSystem, fd: u32, offset: i64, whence: nat, n: nat)
    requires OnFile(fs, fd) && fs.handles[fd].access.seek && fs.handles[fd].access.read && whence <= 2
    requires Apply(fs, SeekOp(fd, offset, whence)).1.Count?
    ensures var (after, out) := Apply(fs, SeekOp(fd, offset, whence));
            var data := Contents(fs, fd);
            Apply(after, ReadOp(fd, n)).1
            == Bytes(if out.n >= |data| then [] else data[out.n..Min(out.n + n, |data|)])
  {
    SeekEffect(fs, fd, offset, whence);
    ReadEffect(Apply(fs, SeekOp(fd, offset, whence)).0, fd, n);
  }

  /** A handle that is not open, may not seek or is on a directory, and a whence above 2: the error, and no change. */
  lemma SeekRefused(fs: FileSystem, fd: u32, offset: i64, whence: nat)
    ensures fd !in fs.handles ==> Apply(fs, SeekOp(fd, offset, whence)) == (fs, Failed(ReadOnly(fd)))
    ensures fd in fs.handles && !fs.handles[fd].access.seek ==>
      Apply(fs, SeekOp(fd, offset, whence)) == (fs, Failed(CapabilityDenied))
    ensures fd in fs.handles && fs.handles[fd].access.seek && fs.handles[fd].path !in fs.files ==>
      Apply(fs, SeekOp(fd, offset, whence)) == (fs, Failed(NotFound(Render(fs.handles[fd].path))))
    ensures OnFile(fs, fd) && fs.handles[fd].access.seek && whence > 2 ==>
      Apply(fs, SeekOp(fd, offset, whence)) == (fs, Failed(Internal(BadWhence)))
  {
  }

  // ---- fd_close ---------------------------------------------------------------------------

  /** Afterwards the number is refused by every call; closing one that is not open changes nothing. */
  lemma CloseEffect(fs: FileSystem, fd: u32, n: nat, offset: i64, whence: nat)
    ensures var (after, out) := Apply(fs, CloseOp(fd));
            && out == Done && after == fs.(handles := fs.handles - {fd})
            && (fd !in fs.handles ==> after == fs)
            && Apply(after, ReadOp(fd, n)).1 == Failed(ReadOnly(fd))
            && Apply(after, SeekOp(fd, offset, whence)).1 == Failed(ReadOnly(fd))
  {
    assert fd !in fs.handles ==> fs.handles - {fd} == fs.handles;
  }

  // ---- Appending over whole runs --------------------------------------------------------------

  /** What the call adds to the file at `p` if it is a write through a handle on it that succeeds. */
  function Added(fs: FileSystem, op: Op, p: Path): seq<byte> {
    if op.WriteOp? && op.fd in fs.handles && fs.handles[op.fd].path == p && Apply(fs, op).1.Count? then op.data else []
  }

  function AddedBy(fs: FileSystem, ops: seq<Op>, p: Path): seq<byte> {
    if ops == [] then []
    else AddedBy(fs, ops[..|ops| - 1], p) + Added(Run(fs, ops[..|ops| - 1]), ops[|ops| - 1], p)
  }

  /** The call does not truncate the file and writes to it, if at all, through an appending handle. */
  predicate OnlyAppends(fs: FileSystem, op: Op, p: Path) {
    match op
    case OpenOp(raw, mode, _) => !(mode.truncate && Resolve([], Split(raw)) == Some(p))
    case WriteOp(fd, _) => fd in fs.handles && fs.handles[fd].path == p ==> fs.handles[fd].access.append
    case _ => true
  }

  lemma AppendStep(fs: FileSystem, op: Op, p: Path)
    requires p in fs.files && p !in fs.dirs && OnlyAppends(fs, op, p)
    ensures p in Apply(fs, op).0.files && p !in Apply(fs, op).0.dirs
    ensures Apply(fs, op).0.files[p] == fs.files[p] + Added(fs, op, p)
  {
    if op.WriteOp? && op.fd in fs.handles && fs.handles[op.fd].path == p {
      if Apply(fs, op).1.Count? { WriteEffect(fs, op.fd, op.data); } else { WriteRefused(fs, op.fd, op.data); }
    }
  }

  predicate OnlyAppendsAt(fs: FileSystem, ops: seq<Op>, p: Path, k: nat)
    requires k < |ops|
  {
    OnlyAppends(Run(fs, ops[..k]), ops[k], p)
  }

  /** The file holds what it held and what the run added. */
  ghost predicate Grown(fs: FileSystem, after: FileSystem, p: Path, added: seq<byte>)
    requires p in fs.files
  {
    p in after.files && p !in after.dirs && after.files[p] == fs.files[p] + added
  }

  lemma GrownStep(fs: FileSystem, mid: FileSystem, op: Op, p: Path, added: seq<byte>)
    requires p in fs.files && Grown(fs, mid, p, added) && OnlyAppends(mid, op, p)
    ensures Grown(fs, Apply(mid, op).0, p, added + Added(mid, op, p))
  {
    AppendStep(mid, op, p);
    var more := Added(mid, op, p);
    assert (fs.files[p] + added) + more == fs.files[p] + (added + more);
  }

  /**
   However many handles append to a file, and whatever else the run opens, reads, seeks
   and closes, the file grows by exactly the data of the writes that succeeded, in order.
   */
  lemma {:induction false} AppendRun(fs: FileSystem, ops: seq<Op>, p: Path)
    requires p in fs.files && p !in fs.dirs && forall k :: 0 <= k < |ops| ==> OnlyAppendsAt(fs, ops, p, k)
    ensures Grown(fs, Run(fs, ops), p, AddedBy(fs, ops, p))
    decreases |ops|
  {
    if ops == [] {
      assert fs.files[p] + [] == fs.files[p];
    } else {
      var before, last := ops[..|ops| - 1], |ops| - 1;
      forall k | 0 <= k < |before| ensures OnlyAppendsAt(fs, before, p, k) {
        assert OnlyAppendsAt(fs, ops, p, k);
        assert before[..k] == ops[..k];
      }
      AppendRun(fs, before, p);
      assert OnlyAppendsAt(fs, ops, p, last);
      GrownStep(fs, Run(fs, before), ops[last], p, AddedBy(fs, before, p));
    }
  }
}
