/**
 The file system a guest is promised: byte contents by path, and handles that
 are a path and a position. Paths are lists of names, so a parent is "all but the
 last name"; there are no strings, flag bits or resizing here.
 */
module FileModel {
  import opened Base
  import opened Paths

  const MAX_FDS: nat := 256
  const WRITE_QUOTA: nat := 64 * 1024 * 1024
  const FIRST_GUEST_FD: u32 := 3

  datatype Cause = AlreadyExists | IsDirectory | QuotaExceeded | BadWhence | BeforeStart

  datatype VfsError =
    | CapabilityDenied
    | NotFound(path: string)
    | ReadOnly(fd: u32)
    | FdExhausted
    | Internal(cause: Cause)

  datatype OpenMode = OpenMode(create: bool, exclusive: bool, truncate: bool)

  datatype Access = Access(read: bool, write: bool, seek: bool, append: bool)

  datatype Handle = Handle(path: Path, position: nat, access: Access)

  datatype FileSystem = FileSystem(
    files: map<Path, seq<byte>>,
    dirs: set<Path>,
    handles: map<u32, Handle>,
    nextFd: u32,
    charged: nat)

  const Initial := FileSystem(map[], {["tmp"], ["home"], ["workspace"]}, map[], FIRST_GUEST_FD, 0)

  function Nodes(fs: FileSystem): set<Path> {
    fs.files.Keys + fs.dirs
  }

  function SetContents(fs: FileSystem, p: Path, data: seq<byte>): FileSystem {
    fs.(files := fs.files[p := data])
  }

  function Parent(p: Path): Path {
    if p == [] then [] else p[..|p| - 1]
  }

  /** Writing `data` at `pos`: a gap before it reads as zeros, bytes outside it stay. */
  function Overlay(old_: seq<byte>, pos: nat, data: seq<byte>): (s: seq<byte>)
    ensures |s| == Max(|old_|, pos + |data|)
  {
    seq(Max(|old_|, pos + |data|), i requires 0 <= i =>
      if pos <= i < pos + |data| then data[i - pos] else if i < |old_| then old_[i] else 0)
  }

  // ---- Operations -------------------------------------------------------------

  function Open(fs: FileSystem, raw: string, mode: OpenMode, access: Access): (FileSystem, Result<u32, VfsError>) {
    match Resolve([], Split(raw))
    case None => (fs, Err(CapabilityDenied))
    case Some(p) => OpenAt(fs, p, mode, access)
  }

  /** Creation or truncation comes before allocation, so it stays even when no descriptor is free. */
  function OpenAt(fs: FileSystem, p: Path, mode: OpenMode, access: Access): (FileSystem, Result<u32, VfsError>) {
    match Prepare(fs, p, mode)
    case Err(e) => (fs, Err(e))
    case Ok(ready) => Allocate(ready, p, access)
  }

  function Prepare(fs: FileSystem, p: Path, mode: OpenMode): Result<FileSystem, VfsError> {
    if p in Nodes(fs) then
      if mode.create && mode.exclusive then Err(Internal(AlreadyExists))
      else if mode.truncate && p in fs.files then Ok(SetContents(fs, p, []))
      else Ok(fs)
    else if !mode.create then Err(NotFound(Render(p)))
    else if Parent(p) != [] && Parent(p) !in Nodes(fs) then Err(NotFound(Render(Parent(p))))
    else Ok(SetContents(fs, p, []))
  }

  /** Descriptor numbers count up and wrap at 2^32. */
  function Successor(fd: u32): u32 {
    (fd + 1) % U32_SIZE
  }

  function Allocate(fs: FileSystem, p: Path, access: Access): (FileSystem, Result<u32, VfsError>) {
    if |fs.handles| >= MAX_FDS then (fs, Err(FdExhausted))
    else
      (fs.(handles := fs.handles[fs.nextFd := Handle(p, 0, access)], nextFd := Successor(fs.nextFd)),
       Ok(fs.nextFd))
  }

  function Read(fs: FileSystem, fd: u32, n: nat): (FileSystem, Result<seq<byte>, VfsError>) {
    if fd !in fs.handles || !fs.handles[fd].access.read then (fs, Err(ReadOnly(fd)))
    else
      var p := fs.handles[fd].path;
      if p in fs.dirs then (fs, Err(Internal(IsDirectory)))
      else if p !in fs.files then (fs, Err(NotFound(Render(p))))
      else
        var bytes := Available(fs.files[p], fs.handles[fd].position, n);
        (MoveTo(fs, fd, fs.handles[fd].position + |bytes|), Ok(bytes))
  }

  /** At most `n` bytes from `pos` on; nothing at or past the end. */
  function Available(data: seq<byte>, pos: nat, n: nat): seq<byte> {
    if pos >= |data| then [] else data[pos..Min(pos + n, |data|)]
  }

  function MoveTo(fs: FileSystem, fd: u32, pos: nat): FileSystem
    requires fd in fs.handles
  {
    fs.(handles := fs.handles[fd := fs.handles[fd].(position := pos)])
  }

  /** The quota is charged before the descriptor is looked at; only a quota refusal gives it back. */
  function Write(fs: FileSystem, fd: u32, data: seq<byte>): (FileSystem, Result<nat, VfsError>) {
    if fs.charged + |data| > WRITE_QUOTA then (fs, Err(Internal(QuotaExceeded)))
    else WritePaid(Charge(fs, |data|), fd, data)
  }

  function Charge(fs: FileSystem, n: nat): FileSystem {
    fs.(charged := fs.charged + n)
  }

  function WritePaid(fs: FileSystem, fd: u32, data: seq<byte>): (FileSystem, Result<nat, VfsError>) {
    if fd !in fs.handles || !fs.handles[fd].access.write then (fs, Err(ReadOnly(fd)))
    else if fs.handles[fd].path !in fs.files then (fs, Err(NotFound(Render(fs.handles[fd].path))))
    else (Store(fs, fd, data), Ok(|data|))
  }

  /** Appending handles write at the end, whatever their position. */
  function WritePosition(fs: FileSystem, fd: u32): nat
    requires fd in fs.handles && fs.handles[fd].path in fs.files
  {
    if fs.handles[fd].access.append then |fs.files[fs.handles[fd].path]| else fs.handles[fd].position
  }

  function Store(fs: FileSystem, fd: u32, data: seq<byte>): FileSystem
    requires fd in fs.handles && fs.handles[fd].path in fs.files
  {
    var p, pos := fs.handles[fd].path, WritePosition(fs, fd);
    MoveTo(SetContents(fs, p, Overlay(fs.files[p], pos, data)), fd, pos + |data|)
  }

  /** Two's complement reading of a 64-bit value. */
  function AsI64(x: int): (r: i64) {
    (x + I64_LIMIT) % U64_SIZE - I64_LIMIT
  }

  function Seek(fs: FileSystem, fd: u32, offset: i64, whence: nat): (FileSystem, Result<nat, VfsError>) {
    if fd !in fs.handles then (fs, Err(ReadOnly(fd)))
    else if !fs.handles[fd].access.seek then (fs, Err(CapabilityDenied))
    else if fs.handles[fd].path !in fs.files then (fs, Err(NotFound(Render(fs.handles[fd].path))))
    else if whence > 2 then (fs, Err(Internal(BadWhence)))
    else
      var target := SeekTarget(fs.handles[fd].position, |fs.files[fs.handles[fd].path]|, offset, whence);
      if target < 0 then (fs, Err(Internal(BeforeStart))) else (MoveTo(fs, fd, target), Ok(target))
  }

  function SeekTarget(position: nat, length: nat, offset: i64, whence: nat): i64 {
    var base := if whence == 0 then 0 else if whence == 1 then position else length;
    AsI64(AsI64(base) + offset)
  }

  function Close(fs: FileSystem, fd: u32): FileSystem {
    fs.(handles := fs.handles - {fd})
  }
}
