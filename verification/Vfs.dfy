/**
 The in-memory VFS as the worker implements it: one flat map from path strings
 to nodes, a descriptor table with right and flag bits, and a write counter.
 Every operation is proved to be the corresponding operation of `FileModel`.
 */
module Vfs {
  import opened Base
  import opened Paths
  import FileModel
  import opened RingBuffers
  import DirListing
  import FileRuns

  type VfsError = FileModel.VfsError

  datatype Node = File(data: seq<byte>, mode: nat) | Directory(mode: nat)

  const STDOUT_CAPACITY: usize := 256 * 1024
  const STDERR_CAPACITY: usize := 64 * 1024

  /** oflags, fdflags and rights bits. */
  const O_CREAT: bv16 := 0x0001
  const O_EXCL: bv16 := 0x0004
  const O_TRUNC: bv16 := 0x0008
  const FD_APPEND: bv16 := 0x0001
  const FD_READ: bv64 := 0x02
  const FD_SEEK: bv64 := 0x04
  const FD_WRITE: bv64 := 0x40

  predicate Has16(bits: bv16, flag: bv16) { bits & flag != 0 }

  predicate Has64(bits: bv64, flag: bv64) { bits & flag != 0 }

  datatype OpenHandle = OpenHandle(path: string, position: nat, rights: bv64, fdFlags: bv16, isDir: bool)

  // ---- What the concrete state stands for -------------------------------------

  ghost predicate CanonicalKeys(root: map<string, Node>) {
    forall k {:trigger Canonical(k)} :: k in root ==> Canonical(k)
  }

  ghost function FilePaths(root: map<string, Node>): set<Path>
    requires CanonicalKeys(root)
  {
    set k | k in root && root[k].File? :: Components(k)
  }

  ghost function FilesOf(root: map<string, Node>): (m: map<Path, seq<byte>>)
    requires CanonicalKeys(root)
  {
    AllRendered(root);
    map p | p in FilePaths(root) :: root[Render(p)].data
  }

  ghost function DirsOf(root: map<string, Node>): set<Path>
    requires CanonicalKeys(root)
  {
    set k | k in root && root[k].Directory? :: Components(k)
  }

  lemma AllRendered(root: map<string, Node>)
    requires CanonicalKeys(root)
    ensures forall k :: k in root ==> Render(Components(k)) == k
  {
    forall k | k in root ensures Render(Components(k)) == k {
      assert Canonical(k);
      CanonicalRender(k);
    }
  }

  ghost function AccessOf(rights: bv64, fdFlags: bv16): FileModel.Access {
    FileModel.Access(Has64(rights, FD_READ), Has64(rights, FD_WRITE), Has64(rights, FD_SEEK), Has16(fdFlags, FD_APPEND))
  }

  ghost function ModeOf(oflags: bv16): FileModel.OpenMode {
    FileModel.OpenMode(Has16(oflags, O_CREAT), Has16(oflags, O_EXCL), Has16(oflags, O_TRUNC))
  }

  /** The bits as WASI preview 1 numbers them. */
  lemma FlagBits(oflags: bv16, rights: bv64, fdFlags: bv16)
    ensures ModeOf(oflags)
         == FileModel.OpenMode(create := oflags & 1 != 0, exclusive := oflags & 4 != 0, truncate := oflags & 8 != 0)
    ensures AccessOf(rights, fdFlags)
         == FileModel.Access(read := rights & 0x2 != 0, write := rights & 0x40 != 0, seek := rights & 0x4 != 0,
                             append := fdFlags & 1 != 0)
  {
  }

  ghost function HandleOf(h: OpenHandle): FileModel.Handle
  {
    FileModel.Handle(Components(h.path), h.position, AccessOf(h.rights, h.fdFlags))
  }

  /** Every open handle's path is a key, and its kind is the one recorded at open. */
  ghost predicate HandlesOk(root: map<string, Node>, fds: map<u32, OpenHandle>) {
    forall fd :: fd in fds ==> fds[fd].path in root && (fds[fd].isDir <==> root[fds[fd].path].Directory?)
  }

  ghost function HandlesOf(root: map<string, Node>, fds: map<u32, OpenHandle>): map<u32, FileModel.Handle>
    requires CanonicalKeys(root) && HandlesOk(root, fds)
  {
    map fd | fd in fds :: HandleOf(fds[fd])
  }

  /** A name list is a file or a directory exactly when the string it renders to is such a key. */
  lemma AtPath(root: map<string, Node>, p: Path)
    requires CanonicalKeys(root)
    ensures p in FilesOf(root) <==> Clean(p) && Render(p) in root && root[Render(p)].File?
    ensures p in FilesOf(root) ==> FilesOf(root)[p] == root[Render(p)].data
    ensures p in DirsOf(root) <==> Clean(p) && Render(p) in root && root[Render(p)].Directory?
  {
    AllRendered(root);
    if Clean(p) { RenderCanonical(p); }
    if p in FilesOf(root) || p in DirsOf(root) {
      var k :| k in root && Components(k) == p;
      assert Canonical(k);
    }
  }

  lemma LookUp(root: map<string, Node>, k: string)
    requires CanonicalKeys(root) && Canonical(k)
    ensures Components(k) in FilesOf(root) <==> k in root && root[k].File?
    ensures k in root && root[k].File? ==> FilesOf(root)[Components(k)] == root[k].data
    ensures Components(k) in DirsOf(root) <==> k in root && root[k].Directory?
  {
    CanonicalRender(k);
    AtPath(root, Components(k));
  }

  lemma SetFileAt(root: map<string, Node>, k: string, node: Node, p: Path)
    requires CanonicalKeys(root) && Canonical(k) && (k in root ==> root[k].File?)
    requires node.File? && CanonicalKeys(root[k := node])
    ensures p in FilesOf(root[k := node]) <==> p == Components(k) || p in FilesOf(root)
    ensures p == Components(k) ==> FilesOf(root[k := node])[p] == node.data
    ensures p in FilesOf(root) && p != Components(k) ==> FilesOf(root[k := node])[p] == FilesOf(root)[p]
    ensures p in DirsOf(root[k := node]) <==> p in DirsOf(root)
  {
    AtPath(root, p);
    AtPath(root[k := node], p);
    CanonicalRender(k);
    if Clean(p) { RenderCanonical(p); }
  }

  lemma UpdatedMap<K, V>(m: map<K, V>, m': map<K, V>, k: K, v: V)
    requires forall p :: p in m' <==> p == k || p in m
    requires k in m' ==> m'[k] == v
    requires forall p :: p in m && p != k ==> m'[p] == m[p]
    ensures m' == m[k := v]
  {
  }

  lemma SetDirs(root: map<string, Node>, k: string, node: Node)
    requires CanonicalKeys(root) && Canonical(k) && (k in root ==> root[k].File?) && node.File?
    ensures CanonicalKeys(root[k := node])
    ensures DirsOf(root[k := node]) == DirsOf(root)
  {
    forall p ensures p in DirsOf(root[k := node]) <==> p in DirsOf(root) {
      SetFileAt(root, k, node, p);
    }
  }

  /** Setting a file at a key that is not a directory sets it at the key's name list. */
  lemma SetFile(root: map<string, Node>, k: string, node: Node)
    requires CanonicalKeys(root) && Canonical(k) && (k in root ==> root[k].File?) && node.File?
    ensures CanonicalKeys(root[k := node])
    ensures FilesOf(root[k := node]) == FilesOf(root)[Components(k) := node.data]
  {
    forall p
      ensures p in FilesOf(root[k := node]) <==> p == Components(k) || p in FilesOf(root)
      ensures p == Components(k) ==> FilesOf(root[k := node])[p] == node.data
      ensures p in FilesOf(root) && p != Components(k) ==> FilesOf(root[k := node])[p] == FilesOf(root)[p]
    {
      SetFileAt(root, k, node, p);
    }
    SetFileAt(root, k, node, Components(k));
    UpdatedMap(FilesOf(root), FilesOf(root[k := node]), Components(k), node.data);
  }

  ghost function ImageOf(root: map<string, Node>, fds: map<u32, OpenHandle>, nextFd: u32, bytesWritten: nat)
    : FileModel.FileSystem
    requires CanonicalKeys(root) && HandlesOk(root, fds)
  {
    FileModel.FileSystem(FilesOf(root), DirsOf(root), HandlesOf(root, fds), nextFd, bytesWritten)
  }

  /** Parent lookup by string split is parent lookup by dropping the last name. */
  lemma ParentLookUp(root: map<string, Node>, path: string)
    requires CanonicalKeys(root) && Canonical(path)
    ensures SplitPath(path).0 == Render(FileModel.Parent(Components(path)))
    ensures SplitPath(path).0 == "/" <==> FileModel.Parent(Components(path)) == []
    ensures SplitPath(path).0 in root <==>
      FileModel.Parent(Components(path)) in FilesOf(root).Keys + DirsOf(root)
  {
    var p := Components(path);
    var parent := FileModel.Parent(p);
    CanonicalRender(path);
    assert Clean(parent);
    if p == [] {
      assert path == "/" && RFind("/", '/') == Some(0);
    } else {
      SplitPathIsParent(p);
    }
    RenderCanonical(parent);
    LookUp(root, Render(parent));
  }

  /** Changing only file contents keeps every handle's meaning. */
  lemma SetFileHandles(root: map<string, Node>, k: string, node: Node, fds: map<u32, OpenHandle>)
    requires CanonicalKeys(root) && CanonicalKeys(root[k := node]) && HandlesOk(root, fds)
    requires k in root ==> root[k].File?
    requires node.File?
    ensures HandlesOk(root[k := node], fds)
    ensures HandlesOf(root[k := node], fds) == HandlesOf(root, fds)
  {
  }

  lemma HandleCount(root: map<string, Node>, fds: map<u32, OpenHandle>)
    requires CanonicalKeys(root) && HandlesOk(root, fds)
    ensures |HandlesOf(root, fds)| == |fds|
  {
    assert HandlesOf(root, fds).Keys == fds.Keys;
  }

  /** An open handle's path is a file or a directory of the image, as its key says. */
  lemma HandleLookUp(root: map<string, Node>, fds: map<u32, OpenHandle>, fd: u32)
    requires CanonicalKeys(root) && HandlesOk(root, fds) && fd in fds
    ensures HandlesOf(root, fds)[fd] == HandleOf(fds[fd])
    ensures var p := Components(fds[fd].path);
            && Render(p) == fds[fd].path
            && (p in FilesOf(root) <==> root[fds[fd].path].File?)
            && (p in DirsOf(root) <==> root[fds[fd].path].Directory?)
            && (p in FilesOf(root) ==> FilesOf(root)[p] == root[fds[fd].path].data)
  {
    LookUp(root, fds[fd].path);
    CanonicalRender(fds[fd].path);
  }

  /** `Vec::resize` with zeros. */
  function Resize(s: seq<byte>, n: nat): (t: seq<byte>)
    ensures |t| == n
  {
    if n <= |s| then s[..n] else s + seq(n - |s|, _ => 0)
  }

  /** A guest call as the WASI layer passes it on. */
  datatype Call =
    | PathOpenCall(raw: string, oflags: bv16, rights: bv64, fdFlags: bv16)
    | FdReadCall(fd: u32, len: nat)
    | FdWriteCall(fd: u32, data: seq<byte>)
    | FdSeekCall(fd: u32, offset: i64, whence: nat)
    | FdCloseCall(fd: u32)

  ghost function OpOf(call: Call): FileRuns.Op {
    match call
    case PathOpenCall(raw, oflags, rights, fdFlags) =>
      FileRuns.OpenOp(raw, ModeOf(oflags), AccessOf(rights, fdFlags))
    case FdReadCall(fd, len) => FileRuns.ReadOp(fd, len)
    case FdWriteCall(fd, data) => FileRuns.WriteOp(fd, data)
    case FdSeekCall(fd, offset, whence) => FileRuns.SeekOp(fd, offset, whence)
    case FdCloseCall(fd) => FileRuns.CloseOp(fd)
  }

  ghost function OpsOf(calls: seq<Call>): (ops: seq<FileRuns.Op>)
    ensures |ops| == |calls|
  {
    seq(|calls|, i requires 0 <= i < |calls| => OpOf(calls[i]))
  }

  class VfsState {
    var root: map<string, Node>
    var openFds: map<u32, OpenHandle>
    var nextFd: u32
    var bytesWritten: nat
    const stdout: RingBuffer
    const stderr: RingBuffer

    ghost predicate Valid()
      reads this
    {
      && CanonicalKeys(root) && HandlesOk(root, openFds) && stdout != stderr
      && stdout.capacity == STDOUT_CAPACITY && stderr.capacity == STDERR_CAPACITY
    }

    /** The file system this state implements. */
    ghost function Image(): FileModel.FileSystem
      requires Valid()
      reads this
    {
      ImageOf(root, openFds, nextFd, bytesWritten)
    }

    constructor ()
      ensures Valid() && Image() == FileModel.Initial
      ensures fresh(stdout) && fresh(stderr)
      ensures stdout.buf == [] && stderr.buf == []
      ensures stdout.capacity == 262144 && stderr.capacity == 65536
      ensures root.Keys == {"/tmp", "/home", "/workspace"} && openFds == map[] && nextFd == 3 && bytesWritten == 0
    {
      root := map["/tmp" := Directory(0x1ed), "/home" := Directory(0x1ed), "/workspace" := Directory(0x1ed)];
      openFds := map[];
      nextFd := FileModel.FIRST_GUEST_FD;
      bytesWritten := 0;
      stdout := new RingBuffer(STDOUT_CAPACITY);
      stderr := new RingBuffer(STDERR_CAPACITY);
      new;
      assert "/tmp" == "/" + "tmp" && "/home" == "/" + "home" && "/workspace" == "/" + "workspace";
      DirectoryImage("tmp", "home", "workspace", Directory(0x1ed));
    }

    /** Reserves a descriptor number unless the table is full. */
    method AllocFd() returns (r: Result<u32, VfsError>)
      modifies this`nextFd
      ensures |openFds| >= FileModel.MAX_FDS ==> r == Err(FileModel.FdExhausted) && nextFd == old(nextFd)
      ensures |openFds| < FileModel.MAX_FDS ==> r == Ok(old(nextFd)) && nextFd == FileModel.Successor(old(nextFd))
    {
      if |openFds| >= FileModel.MAX_FDS {
        return Err(FileModel.FdExhausted);
      }
      r := Ok(nextFd);
      nextFd := (nextFd + 1) % U32_SIZE;
    }

    /** The part of `path_open` under the root lock that creates or truncates the file. */
    method PrepareNode(path: string, oflags: bv16) returns (r: Option<VfsError>)
      requires Valid() && Canonical(path)
      modifies this`root
      ensures Valid()
      ensures match FileModel.Prepare(old(Image()), Components(path), ModeOf(oflags))
              case Err(e) => r == Some(e) && root == old(root)
              case Ok(fs) => r == None && Image() == fs && path in root
    {
      LookUp(root, path);
      if path !in root {
        CanonicalRender(path);
        if Has16(oflags, O_CREAT) {
          ParentLookUp(root, path);
          var (parent, _) := SplitPath(path);
          if parent != "/" && parent !in root {
            return Some(FileModel.NotFound(parent));
          }
          SetNode(path, File([], 0x1a4));
        } else {
          return Some(FileModel.NotFound(path));
        }
      } else {
        if Has16(oflags, O_CREAT) && Has16(oflags, O_EXCL) {
          return Some(FileModel.Internal(FileModel.AlreadyExists));
        }
        if Has16(oflags, O_TRUNC) && root[path].File? {
          SetNode(path, root[path].(data := []));
        }
      }
      r := None;
    }

    /** `root.insert` of a file node, or an update of one in place. */
    method SetNode(path: string, node: Node)
      requires Valid() && Canonical(path) && (path in root ==> root[path].File?) && node.File?
      modifies this`root
      ensures Valid() && root == old(root)[path := node]
      ensures Image() == FileModel.SetContents(old(Image()), Components(path), node.data)
    {
      SetFile(root, path, node);
      SetDirs(root, path, node);
      SetFileHandles(root, path, node, openFds);
      root := root[path := node];
    }

    method PathOpen(rawPath: string, oflags: bv16, rights: bv64, fdFlags: bv16) returns (r: Result<u32, VfsError>)
      requires Valid()
      modifies this
      ensures Valid()
      ensures (Image(), r) == FileModel.Open(old(Image()), rawPath, ModeOf(oflags), AccessOf(rights, fdFlags))
    {
      var canon := Canonicalise(rawPath);
      if canon.Err? {
        return Err(FileModel.CapabilityDenied);
      }
      CanonicalisedIsCanonical(rawPath);
      r := OpenCanonical(canon.value, oflags, rights, fdFlags);
    }

    method OpenCanonical(path: string, oflags: bv16, rights: bv64, fdFlags: bv16) returns (r: Result<u32, VfsError>)
      requires Valid() && Canonical(path)
      modifies this
      ensures Valid()
      ensures (Image(), r)
           == FileModel.OpenAt(old(Image()), Components(path), ModeOf(oflags), AccessOf(rights, fdFlags))
    {
      var refused := PrepareNode(path, oflags);
      if refused.Some? {
        return Err(refused.value);
      }
      r := OpenFd(path, rights, fdFlags);
    }

    /** Descriptor allocation and insertion for a path that is a key. */
    method OpenFd(path: string, rights: bv64, fdFlags: bv16) returns (r: Result<u32, VfsError>)
      requires Valid() && path in root
      modifies this`nextFd, this`openFds
      ensures Valid()
      ensures (Image(), r) == FileModel.Allocate(old(Image()), Components(path), AccessOf(rights, fdFlags))
    {
      var isDir := root[path].Directory?;
      HandleCount(root, openFds);
      ghost var fs := Image();
      r := AllocFd();
      assert Image() == fs.(nextFd := nextFd);
      if r.Ok? {
        SetHandle(r.value, OpenHandle(path, 0, rights, fdFlags, isDir));
      }
    }

    /** `open_fds.insert`, or an update of a handle in place. */
    method SetHandle(fd: u32, h: OpenHandle)
      requires Valid() && h.path in root && (h.isDir <==> root[h.path].Directory?)
      modifies this`openFds
      ensures Valid() && openFds == old(openFds)[fd := h]
      ensures Image() == old(Image()).(handles := old(Image()).handles[fd := HandleOf(h)])
    {
      openFds := openFds[fd := h];
      assert HandlesOf(root, openFds) == HandlesOf(root, old(openFds))[fd := HandleOf(h)];
    }

    /** The body of `fd_read`, returning the bytes it copies out. */
    method ReadUpTo(fd: u32, len: nat) returns (r: Result<seq<byte>, VfsError>)
      requires Valid()
      modifies this`openFds
      ensures Valid()
      ensures (Image(), r) == FileModel.Read(old(Image()), fd, len)
    {
      if fd !in openFds {
        return Err(FileModel.ReadOnly(fd));
      }
      var handle := openFds[fd];
      HandleLookUp(root, openFds, fd);
      if !Has64(handle.rights, FD_READ) {
        return Err(FileModel.ReadOnly(fd));
      }
      if handle.isDir {
        return Err(FileModel.Internal(FileModel.IsDirectory));
      }
      if handle.path !in root || !root[handle.path].File? {
        return Err(FileModel.NotFound(handle.path));
      }
      var bytes := TakeFrom(root[handle.path].data, handle.position, len);
      Advance(fd, handle.position + |bytes|);
      r := Ok(bytes);
    }

    /** `data[start..end]`, empty at or past the end of the data. */
    static method TakeFrom(data: seq<byte>, position: nat, len: nat) returns (bytes: seq<byte>)
      ensures bytes == FileModel.Available(data, position, len)
    {
      var start := position;
      if start >= |data| {
        return [];
      }
      var end := Min(start + len, |data|);
      bytes := data[start..end];
    }

    method FdRead(fd: u32, buf: array<byte>) returns (r: Result<nat, VfsError>)
      requires Valid()
      modifies this`openFds, buf
      ensures Valid()
      ensures Image() == FileModel.Read(old(Image()), fd, buf.Length).0
      ensures match FileModel.Read(old(Image()), fd, buf.Length).1
              case Err(e) => r == Err(e) && buf[..] == old(buf[..])
              case Ok(bytes) => r == Ok(|bytes|) && |bytes| <= buf.Length && buf[..] == bytes + old(buf[..])[|bytes|..]
    {
      var bytes := ReadUpTo(fd, buf.Length);
      if bytes.Err? {
        return Err(bytes.error);
      }
      CopyOut(bytes.value, buf);
      r := Ok(|bytes.value|);
    }

    /** `buf[..n].copy_from_slice(bytes)` */
    static method CopyOut(bytes: seq<byte>, buf: array<byte>)
      requires |bytes| <= buf.Length
      modifies buf
      ensures buf[..] == bytes + old(buf[..])[|bytes|..]
    {
      forall i | 0 <= i < |bytes| { buf[i] := bytes[i]; }
    }

    /** The assignment to `handle.position`. */
    method Advance(fd: u32, position: nat)
      requires Valid() && fd in openFds
      modifies this`openFds
      ensures Valid() && openFds == old(openFds)[fd := old(openFds)[fd].(position := position)]
      ensures fd in old(Image()).handles && Image() == FileModel.MoveTo(old(Image()), fd, position)
    {
      SetHandle(fd, openFds[fd].(position := position));
    }

    method FdWrite(fd: u32, data: seq<byte>) returns (r: Result<nat, VfsError>)
      requires Valid()
      modifies this`root, this`openFds, this`bytesWritten
      ensures Valid()
      ensures (Image(), r) == FileModel.Write(old(Image()), fd, data)
    {
      ghost var fs := Image();
      var prev := bytesWritten;
      bytesWritten := bytesWritten + |data|;
      assert Image() == FileModel.Charge(fs, |data|);
      if prev + |data| > FileModel.WRITE_QUOTA {
        bytesWritten := bytesWritten - |data|;
        return Err(FileModel.Internal(FileModel.QuotaExceeded));
      }
      if fd !in openFds {
        return Err(FileModel.ReadOnly(fd));
      }
      var handle := openFds[fd];
      HandleLookUp(root, openFds, fd);
      if !Has64(handle.rights, FD_WRITE) {
        return Err(FileModel.ReadOnly(fd));
      }
      if handle.path !in root || !root[handle.path].File? {
        return Err(FileModel.NotFound(handle.path));
      }
      StoreBytes(fd, data);
      r := Ok(|data|);
    }

    method StoreBytes(fd: u32, data: seq<byte>)
      requires Valid() && fd in openFds && root[openFds[fd].path].File?
      requires fd in Image().handles && Image().handles[fd].path in Image().files
      modifies this`root, this`openFds
      ensures Valid()
      ensures Image() == FileModel.Store(old(Image()), fd, data)
    {
      var handle := openFds[fd];
      var file := root[handle.path];
      ghost var fs := Image();
      assert fs.handles[fd] == HandleOf(handle) && fs.files[Components(handle.path)] == file.data by {
        HandleLookUp(root, openFds, fd);
      }
      var pos := handle.position;
      if Has16(handle.fdFlags, FD_APPEND) {
        pos := |file.data|;
      }
      assert pos == FileModel.WritePosition(fs, fd);
      var bytes := WriteAt(file.data, pos, data);
      SetNode(handle.path, file.(data := bytes));
      Advance(fd, pos + |data|);
    }

    /** Growing the byte vector in two steps and copying the new bytes in. */
    static method WriteAt(contents: seq<byte>, pos: nat, data: seq<byte>) returns (bytes: seq<byte>)
      ensures bytes == FileModel.Overlay(contents, pos, data)
    {
      bytes := contents;
      if pos > |bytes| {
        bytes := Resize(bytes, pos);
      }
      var end := pos + |data|;
      if end > |bytes| {
        bytes := Resize(bytes, end);
      }
      bytes := bytes[..pos] + data + bytes[end..];
    }

    method FdSeek(fd: u32, offset: i64, whence: nat) returns (r: Result<nat, VfsError>)
      requires Valid()
      modifies this`openFds
      ensures Valid()
      ensures (Image(), r) == FileModel.Seek(old(Image()), fd, offset, whence)
    {
      if fd !in openFds {
        return Err(FileModel.ReadOnly(fd));
      }
      var handle := openFds[fd];
      HandleLookUp(root, openFds, fd);
      if !Has64(handle.rights, FD_SEEK) {
        return Err(FileModel.CapabilityDenied);
      }
      if handle.path !in root || !root[handle.path].File? {
        return Err(FileModel.NotFound(handle.path));
      }
      if whence > 2 {
        return Err(FileModel.Internal(FileModel.BadWhence));
      }
      var newPos := NewPosition(handle.position, |root[handle.path].data|, offset, whence);
      if newPos < 0 {
        return Err(FileModel.Internal(FileModel.BeforeStart));
      }
      Advance(fd, newPos);
      r := Ok(newPos);
    }

    /** 0 is SET, 1 is CUR, 2 is END. */
    static method NewPosition(position: nat, fileLen: nat, offset: i64, whence: nat) returns (newPos: i64)
      requires whence <= 2
      ensures newPos == FileModel.SeekTarget(position, fileLen, offset, whence)
    {
      if whence == 0 {
        newPos := offset;
      } else if whence == 1 {
        newPos := FileModel.AsI64(FileModel.AsI64(position) + offset);
      } else {
        newPos := FileModel.AsI64(FileModel.AsI64(fileLen) + offset);
      }
    }

    method FdClose(fd: u32)
      requires Valid()
      modifies this`openFds
      ensures Valid()
      ensures Image() == FileModel.Close(old(Image()), fd)
    {
      openFds := openFds - {fd};
      assert HandlesOf(root, openFds) == HandlesOf(root, old(openFds)) - {fd};
    }

    method Perform(call: Call) returns (out: FileRuns.Outcome)
      requires Valid()
      modifies this
      ensures Valid()
      ensures (Image(), out) == FileRuns.Apply(old(Image()), OpOf(call))
    {
      match call
      case PathOpenCall(raw, oflags, rights, fdFlags) =>
        var r := PathOpen(raw, oflags, rights, fdFlags);
        out := FileRuns.Report(r, fd => FileRuns.Opened(fd));
      case FdReadCall(fd, len) =>
        var r := ReadUpTo(fd, len);
        out := FileRuns.Report(r, bytes => FileRuns.Bytes(bytes));
      case FdWriteCall(fd, data) =>
        var r := FdWrite(fd, data);
        out := FileRuns.Report(r, n => FileRuns.Count(n));
      case FdSeekCall(fd, offset, whence) =>
        var r := FdSeek(fd, offset, whence);
        out := FileRuns.Report(r, n => FileRuns.Count(n));
      case FdCloseCall(fd) =>
        FdClose(fd);
        out := FileRuns.Done;
    }

    /** Any sequence of calls has the outcomes and the final contents of the model's run. */
    method Execute(calls: seq<Call>) returns (outs: seq<FileRuns.Outcome>)
      requires Valid()
      modifies this
      ensures Valid()
      ensures Image() == FileRuns.Run(old(Image()), OpsOf(calls))
      ensures outs == FileRuns.Outcomes(old(Image()), OpsOf(calls))
    {
      outs := [];
      ghost var fs := Image();
      ghost var ops := OpsOf(calls);
      for i := 0 to |calls|
        invariant Valid()
        invariant Image() == FileRuns.Run(fs, ops[..i])
        invariant outs == FileRuns.Outcomes(fs, ops[..i])
      {
        var out := Perform(calls[i]);
        outs := outs + [out];
        assert ops[..i + 1][..i] == ops[..i];
      }
      assert ops[..|calls|] == ops;
    }

    /** File type and size: 1 for a regular file, 3 for a directory. An open handle is always found. */
    method FdFilestatGet(fd: u32) returns (r: Result<(nat, nat), VfsError>)
      requires Valid()
      ensures r.Err? <==> fd !in Image().handles
      ensures r.Err? ==> r == Err(FileModel.ReadOnly(fd))
      ensures r.Ok? ==>
        var p := Image().handles[fd].path;
        if p in Image().files then r == Ok((1, |Image().files[p]|)) else p in Image().dirs && r == Ok((3, 0))
    {
      if fd !in openFds {
        return Err(FileModel.ReadOnly(fd));
      }
      var handle := openFds[fd];
      HandleLookUp(root, openFds, fd);
      if handle.path in root {
        match root[handle.path]
        case File(data, _) => r := Ok((1, |data|));
        case Directory(_) => r := Ok((3, 0));
      } else {
        r := Err(FileModel.NotFound(handle.path));
      }
    }

    method ReadFile(raw: string) returns (r: Result<seq<byte>, VfsError>)
      requires Valid()
      ensures match Resolve([], Split(raw))
              case None => r == Err(FileModel.CapabilityDenied)
              case Some(p) =>
                if p in Image().files then r == Ok(Image().files[p])
                else if p in Image().dirs then r == Err(FileModel.Internal(FileModel.IsDirectory))
                else r == Err(FileModel.NotFound(Render(p)))
    {
      var canon := Canonicalise(raw);
      if canon.Err? {
        return Err(FileModel.CapabilityDenied);
      }
      CanonicalisedIsCanonical(raw);
      LookUp(root, canon.value);
      if canon.value in root {
        match root[canon.value]
        case File(data, _) => r := Ok(data);
        case Directory(_) => r := Err(FileModel.Internal(FileModel.IsDirectory));
      } else {
        r := Err(FileModel.NotFound(canon.value));
      }
    }

    /**
     The names directly below a directory, in ascending order. Nothing checks that the
     path exists; below the root, a file created at "/" itself shows up as an empty name.
     */
    method ListDir(raw: string) returns (r: Result<seq<string>, VfsError>)
      requires Valid()
      ensures match Resolve([], Split(raw))
              case None => r == Err(FileModel.CapabilityDenied)
              case Some(p) =>
                && r.Ok? && DirListing.Ascending(r.value)
                && forall n :: n in r.value <==>
                     p + [n] in FileModel.Nodes(Image()) || (p == [] && n == "" && [] in FileModel.Nodes(Image()))
    {
      var canon := Canonicalise(raw);
      if canon.Err? {
        return Err(FileModel.CapabilityDenied);
      }
      CanonicalisedIsCanonical(raw);
      var prefix := if canon.value == "/" then "/" else canon.value + "/";
      r := Ok(DirListing.Scan(root.Keys, prefix));
      DirListing.ScanListsChildren(root.Keys, prefix);
      forall n
        ensures n in r.value <==>
          || Components(canon.value) + [n] in FileModel.Nodes(Image())
          || (Components(canon.value) == [] && n == "" && [] in FileModel.Nodes(Image()))
      {
        ChildKey(root, canon.value, n);
      }
    }

    /** The contents of every file, by the path string that names it. */
    method Snapshot() returns (snap: map<string, seq<byte>>)
      requires Valid()
      ensures snap.Keys == set p | p in Image().files :: Render(p)
      ensures forall p :: p in Image().files ==> snap[Render(p)] == Image().files[p]
    {
      snap := map k | k in root && root[k].File? :: root[k].data;
      SnapshotKeys(root);
      forall p | p in Image().files ensures Render(p) in snap && snap[Render(p)] == Image().files[p] {
        AtPath(root, p);
      }
    }
  }

  /**
   A whole session from a new VFS: the outcomes and the final contents are those of
   the model's run, that run ends well formed, and the snapshot is its file map.
   */
  method Session(calls: seq<Call>) returns (vfs: VfsState, outs: seq<FileRuns.Outcome>, snap: map<string, seq<byte>>)
    ensures vfs.Valid() && vfs.Image() == FileRuns.Run(FileModel.Initial, OpsOf(calls))
    ensures FileRuns.WellFormed(vfs.Image())
    ensures outs == FileRuns.Outcomes(FileModel.Initial, OpsOf(calls))
    ensures snap.Keys == set p | p in vfs.Image().files :: Render(p)
    ensures forall p :: p in vfs.Image().files ==> snap[Render(p)] == vfs.Image().files[p]
  {
    vfs := new VfsState();
    outs := vfs.Execute(calls);
    snap := vfs.Snapshot();
    FileRuns.RunKeeps(OpsOf(calls), 0);
  }

  /** The name list of a key below a directory. */
  lemma ChildComponents(dir: string, n: string)
    requires Canonical(dir) && '/' !in n
    ensures var k := (if dir == "/" then "/" else dir + "/") + n;
            k != "" && k[0] == '/' &&
            Components(k) == if dir == "/" && n == "" then [] else Components(dir) + [n]
  {
    var k := (if dir == "/" then "/" else dir + "/") + n;
    SplitName(n);
    if dir == "/" {
      assert k[1..] == n;
    } else {
      assert k[1..] == dir[1..] + "/" + n;
      SplitConcat(dir[1..], n);
    }
  }

  /** A string is a key directly below a directory exactly when the extended name list is a node. */
  lemma ChildKey(root: map<string, Node>, dir: string, n: string)
    requires CanonicalKeys(root) && Canonical(dir)
    ensures var k := (if dir == "/" then "/" else dir + "/") + n;
            var nodes := FilesOf(root).Keys + DirsOf(root);
            '/' !in n && k in root <==>
              Components(dir) + [n] in nodes || (Components(dir) == [] && n == "" && [] in nodes)
  {
    var p := Components(dir);
    AtPath(root, p + [n]);
    AtPath(root, []);
    if Clean(p + [n]) { assert '/' !in (p + [n])[|p|]; }
    if '/' !in n {
      ChildComponents(dir, n);
      var k := (if dir == "/" then "/" else dir + "/") + n;
      CanonicalRender(dir);
      RenderSnoc(p, n);
      if k in root { LookUp(root, k); }
      assert dir == "/" <==> p == [];
    }
  }

  lemma SnapshotKeys(root: map<string, Node>)
    requires CanonicalKeys(root)
    ensures (set k | k in root && root[k].File?) == set p | p in FilesOf(root) :: Render(p)
  {
    forall k | k in root && root[k].File? ensures k in set p | p in FilesOf(root) :: Render(p) {
      LookUp(root, k);
      CanonicalRender(k);
    }
    forall p | p in FilesOf(root) ensures Render(p) in root && root[Render(p)].File? {
      AtPath(root, p);
    }
  }

  lemma TopLevel(name: string)
    requires IsName(name) && '/' !in name
    ensures Canonical("/" + name) && Components("/" + name) == [name]
  {
    assert ("/" + name)[1..] == name;
    SplitName(name);
  }

  lemma DirectoryImage(a: string, b: string, c: string, d: Node)
    requires forall n :: n in {a, b, c} ==> IsName(n) && '/' !in n
    requires d.Directory?
    ensures var root := map["/" + a := d, "/" + b := d, "/" + c := d];
            CanonicalKeys(root) && FilesOf(root) == map[] && DirsOf(root) == {[a], [b], [c]}
  {
    TopLevel(a);
    TopLevel(b);
    TopLevel(c);
    var root := map["/" + a := d, "/" + b := d, "/" + c := d];
    forall k ensures k in root <==> k == "/" + a || k == "/" + b || k == "/" + c {}
    assert FilePaths(root) == {};
    forall p ensures p in DirsOf(root) <==> p in {[a], [b], [c]} {
      if p == [a] { assert "/" + a in root; }
      if p == [b] { assert "/" + b in root; }
      if p == [c] { assert "/" + c in root; }
    }
  }
}
