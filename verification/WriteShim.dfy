/**
 The `fd_write` host shim: it walks the guest's iovec array and passes each buffer
 on by itself. On a guest file this is proved to be one write of the concatenation.
 */
module WriteShim {
  import opened Base
  import opened FileModel
  import opened FileLaws
  import opened GuestMemory
  import opened RingBuffers
  import Vfs

  datatype Errno = SUCCESS | BADF | INVAL

  /** What the shim can change besides guest memory. */
  datatype Host = Host(fs: FileSystem, out: seq<byte>, err: seq<byte>)

  /** One buffer: descriptor 1 and 2 are the capture buffers, everything else is the VFS. */
  function Emit(host: Host, fd: u32, data: seq<byte>): (Host, bool) {
    if fd == 1 then (host.(out := AfterWrite(Vfs.STDOUT_CAPACITY, host.out, data)), true)
    else if fd == 2 then (host.(err := AfterWrite(Vfs.STDERR_CAPACITY, host.err, data)), true)
    else
      var (after, r) := Write(host.fs, fd, data);
      (host.(fs := after), r.Ok?)
  }

  function BufferAt(mem: seq<byte>, iovs: nat, i: nat): Option<seq<byte>> {
    match IovecAt(mem, iovs, i)
    case None => None
    case Some(v) => Slice(mem, v)
  }

  /** Entry `i`: its buffer is looked up and passed on; the length is reported. */
  function GatherOne(host: Host, fd: u32, mem: seq<byte>, iovs: nat, i: nat): (Host, Result<nat, Errno>) {
    match BufferAt(mem, iovs, i)
    case None => (host, Err(INVAL))
    case Some(data) =>
      var (after, ok) := Emit(host, fd, data);
      (after, if ok then Ok(|data|) else Err(BADF))
  }

  /** Entries `i..n` in turn, stopping at the first that is out of bounds or refused. */
  function Gather(host: Host, fd: u32, mem: seq<byte>, iovs: nat, i: nat, n: nat, total: u32)
    : (Host, Result<u32, Errno>)
    decreases n - i
  {
    if i >= n then (host, Ok(total))
    else
      var (after, r) := GatherOne(host, fd, mem, iovs, i);
      if r.Err? then (after, Err(r.error)) else Gather(after, fd, mem, iovs, i + 1, n, Add32(total, r.value))
  }

  ghost function HostOf(vfs: Vfs.VfsState): Host
    requires vfs.Valid()
    reads vfs, vfs.stdout, vfs.stderr
  {
    Host(vfs.Image(), vfs.stdout.buf, vfs.stderr.buf)
  }

  method EmitBuffer(vfs: Vfs.VfsState, fd: u32, data: seq<byte>) returns (ok: bool)
    requires vfs.Valid()
    requires |vfs.stdout.buf| + |data| < U64_SIZE && |vfs.stderr.buf| + |data| < U64_SIZE
    modifies vfs, vfs.stdout, vfs.stderr
    ensures vfs.Valid() && (HostOf(vfs), ok) == Emit(old(HostOf(vfs)), fd, data)
  {
    if fd == 1 {
      vfs.stdout.Write(data);
      ok := true;
    } else if fd == 2 {
      vfs.stderr.Write(data);
      ok := true;
    } else {
      var r := vfs.FdWrite(fd, data);
      ok := r.Ok?;
    }
  }

  /** Capture buffers grow by at most the emitted bytes, which come out of guest memory. */
  lemma GatherOneGrowth(host: Host, fd: u32, mem: seq<byte>, iovs: nat, i: nat)
    ensures var after := GatherOne(host, fd, mem, iovs, i).0;
            |after.out| <= |host.out| + |mem| && |after.err| <= |host.err| + |mem|
  {
  }

  method GatherEntry(vfs: Vfs.VfsState, mem: array<byte>, fd: u32, iovs: nat, i: nat) returns (r: Result<nat, Errno>)
    requires vfs.Valid()
    requires |vfs.stdout.buf| + mem.Length < U64_SIZE && |vfs.stderr.buf| + mem.Length < U64_SIZE
    modifies vfs, vfs.stdout, vfs.stderr
    ensures vfs.Valid() && (HostOf(vfs), r) == GatherOne(old(HostOf(vfs)), fd, mem[..], iovs, i)
  {
    var v := IovecAt(mem[..], iovs, i);
    if v.None? {
      return Err(INVAL);
    }
    var slice := Slice(mem[..], v.value);
    if slice.None? {
      return Err(INVAL);
    }
    var ok := EmitBuffer(vfs, fd, slice.value);
    r := if ok then Ok(|slice.value|) else Err(BADF);
  }

  lemma MostStep(n: nat, len: nat)
    requires n > 0
    ensures Most(n, len) == len + Most(n - 1, len)
  {
  }

  /** The most `n` buffers out of a memory of `len` bytes can hold: n * len. */
  function Most(n: nat, len: nat): nat {
    if n == 0 then 0 else len + Most(n - 1, len)
  }

  /**
   The loop over the iovec array; the running total is a wrapping 32-bit sum. The
   bound on the capture buffers only says that the bytes fit one 64-bit address
   space: the count is below 2^31 and guest memory below 2^32.
   */
  method GatherLoop(vfs: Vfs.VfsState, mem: array<byte>, fd: u32, iovs: nat, n: nat) returns (r: Result<u32, Errno>)
    requires vfs.Valid()
    requires |vfs.stdout.buf| + Most(n, mem.Length) < U64_SIZE && |vfs.stderr.buf| + Most(n, mem.Length) < U64_SIZE
    modifies vfs, vfs.stdout, vfs.stderr
    ensures vfs.Valid()
    ensures (HostOf(vfs), r) == Gather(old(HostOf(vfs)), fd, mem[..], iovs, 0, n, 0)
  {
    var total: u32 := 0;
    ghost var host := HostOf(vfs);
    ghost var m := mem[..];
    ghost var outcome := Gather(host, fd, m, iovs, 0, n, 0);
    var i := 0;
    while i < n
      invariant 0 <= i <= n && vfs.Valid() && host == HostOf(vfs) && mem[..] == m
      invariant Gather(host, fd, m, iovs, i, n, total) == outcome
      invariant |host.out| + Most(n - i, |m|) < U64_SIZE && |host.err| + Most(n - i, |m|) < U64_SIZE
    {
      ghost var step := GatherOne(host, fd, m, iovs, i);
      GatherOneGrowth(host, fd, m, iovs, i);
      MostStep(n - i, |m|);
      var one := GatherEntry(vfs, mem, fd, iovs, i);
      host := step.0;
      if one.Err? {
        return Err(one.error);
      }
      total := Add32(total, one.value);
      i := i + 1;
    }
    r := Ok(total);
  }

  /** The whole shim: the loop, then the byte count stored at `nwritten`. */
  method FdWriteShim(vfs: Vfs.VfsState, mem: array<byte>, fd: u32, iovs: nat, iovsLen: nat, nwritten: nat)
    returns (e: Errno)
    requires vfs.Valid()
    requires |vfs.stdout.buf| + Most(iovsLen, mem.Length) < U64_SIZE
    requires |vfs.stderr.buf| + Most(iovsLen, mem.Length) < U64_SIZE
    modifies vfs, vfs.stdout, vfs.stderr, mem
    ensures vfs.Valid()
    ensures HostOf(vfs) == Gather(old(HostOf(vfs)), fd, old(mem[..]), iovs, 0, iovsLen, 0).0
    ensures match Gather(old(HostOf(vfs)), fd, old(mem[..]), iovs, 0, iovsLen, 0).1
            case Err(x) => e == x && mem[..] == old(mem[..])
            case Ok(total) =>
              if nwritten + 4 <= mem.Length
              then e == SUCCESS && mem[..] == Patch(old(mem[..]), nwritten, LeBytes(total))
              else e == INVAL && mem[..] == old(mem[..])
  {
    var r := GatherLoop(vfs, mem, fd, iovs, iovsLen);
    if r.Err? {
      return r.error;
    }
    var fits := WriteU32Le(mem, nwritten, r.value);
    e := if fits then SUCCESS else INVAL;
  }

  // ---- One write of the concatenation -----------------------------------------------

  /** Two consecutive writes through a handle are one write of both, and one succeeds when the other does. */
  lemma WriteCompose(fs: FileSystem, fd: u32, a: seq<byte>, b: seq<byte>)
    ensures var first := Write(fs, fd, a);
            var second := Write(first.0, fd, b);
            var whole := Write(fs, fd, a + b);
            && (whole.1.Ok? <==> first.1.Ok? && second.1.Ok?)
            && (whole.1.Ok? ==> whole.0 == second.0)
  {
    var first := Write(fs, fd, a);
    var whole := Write(fs, fd, a + b);
    if first.1.Ok? {
      var h := fs.handles[fd];
      OverlayCompose(fs.files[h.path], WritePosition(fs, fd), a, b);
    }
  }

  /** The buffers one by one, stopping at the first refusal. */
  function WriteAll(fs: FileSystem, fd: u32, bufs: seq<seq<byte>>): (FileSystem, bool)
    decreases |bufs|
  {
    if bufs == [] then (fs, true)
    else
      var (after, r) := Write(fs, fd, bufs[0]);
      if r.Ok? then WriteAll(after, fd, bufs[1..]) else (after, false)
  }

  lemma {:induction false} WriteAllIsOneWrite(fs: FileSystem, fd: u32, bufs: seq<seq<byte>>)
    requires bufs != []
    ensures var flat := Write(fs, fd, Concat(bufs));
            var (after, ok) := WriteAll(fs, fd, bufs);
            (ok <==> flat.1.Ok?) && (ok ==> after == flat.0)
    decreases |bufs|
  {
    if |bufs| == 1 {
      assert Concat(bufs) == bufs[0] + [] == bufs[0];
    } else {
      WriteCompose(fs, fd, bufs[0], Concat(bufs[1..]));
      WriteAllIsOneWrite(Write(fs, fd, bufs[0]).0, fd, bufs[1..]);
    }
  }

  /** The buffers of entries `i..n`, if all are in bounds. */
  function Buffers(mem: seq<byte>, iovs: nat, i: nat, n: nat): Option<seq<seq<byte>>>
    decreases n - i
  {
    if i >= n then Some([])
    else
      var first := BufferAt(mem, iovs, i);
      var rest := Buffers(mem, iovs, i + 1, n);
      if first.Some? && rest.Some? then Some([first.value] + rest.value) else None
  }

  lemma {:induction false} GatherIsWriteAll(host: Host, fd: u32, mem: seq<byte>, iovs: nat, i: nat, n: nat, total: u32)
    requires fd != 1 && fd != 2 && Buffers(mem, iovs, i, n).Some?
    ensures var (fs, ok) := WriteAll(host.fs, fd, Buffers(mem, iovs, i, n).value);
            var (after, r) := Gather(host, fd, mem, iovs, i, n, total);
            && after.fs == fs && after.out == host.out && after.err == host.err
            && (r.Ok? <==> ok) && (r.Err? ==> r == Err(BADF))
    decreases n - i
  {
    if i < n {
      assert Buffers(mem, iovs, i, n).value[1..] == Buffers(mem, iovs, i + 1, n).value;
      var (after, r) := GatherOne(host, fd, mem, iovs, i);
      if r.Ok? { GatherIsWriteAll(after, fd, mem, iovs, i + 1, n, Add32(total, r.value)); }
    }
  }

  lemma {:induction false} GatherCounts(host: Host, fd: u32, mem: seq<byte>, iovs: nat, i: nat, n: nat, total: u32)
    requires Buffers(mem, iovs, i, n).Some? && Gather(host, fd, mem, iovs, i, n, total).1.Ok?
    requires total + |Concat(Buffers(mem, iovs, i, n).value)| < U32_SIZE
    ensures Gather(host, fd, mem, iovs, i, n, total).1 == Ok(total + |Concat(Buffers(mem, iovs, i, n).value)|)
    decreases n - i
  {
    if i < n {
      assert Buffers(mem, iovs, i, n).value[1..] == Buffers(mem, iovs, i + 1, n).value;
      var (after, r) := GatherOne(host, fd, mem, iovs, i);
      GatherCounts(after, fd, mem, iovs, i + 1, n, Add32(total, r.value));
    }
  }

  /**
   For a non-empty, in-bounds iovec array on a VFS descriptor the shim succeeds
   exactly when a single write of the concatenated buffers would, leaves the same
   files, positions and quota counter, and reports the exact length: the quota
   keeps it far below the 2^32 at which the count would wrap.
   */
  lemma GatherIsOneWrite(host: Host, fd: u32, mem: seq<byte>, iovs: nat, n: nat)
    requires n > 0 && fd != 1 && fd != 2 && Buffers(mem, iovs, 0, n).Some?
    ensures var data := Concat(Buffers(mem, iovs, 0, n).value);
            var flat := Write(host.fs, fd, data);
            var (after, r) := Gather(host, fd, mem, iovs, 0, n, 0);
            && (r.Ok? <==> flat.1.Ok?)
            && (r.Ok? ==> after == host.(fs := flat.0) && r == Ok(|data|))
  {
    GatherIsWriteAll(host, fd, mem, iovs, 0, n, 0);
    WriteAllIsOneWrite(host.fs, fd, Buffers(mem, iovs, 0, n).value);
    if Gather(host, fd, mem, iovs, 0, n, 0).1.Ok? { GatherCounts(host, fd, mem, iovs, 0, n, 0); }
  }

  // ---- Standard output and standard error --------------------------------------------------

  /** A capture buffer after some writes to it. */
  function Captured(capacity: nat, buf: seq<byte>, bufs: seq<seq<byte>>): seq<byte>
    decreases |bufs|
  {
    if bufs == [] then buf else Captured(capacity, AfterWrite(capacity, buf, bufs[0]), bufs[1..])
  }

  /** Descriptor 1 goes to the 256 KB buffer and descriptor 2 to the 64 KB one; the rest of the host is untouched. */
  lemma {:induction false} GatherCaptures(host: Host, fd: u32, mem: seq<byte>, iovs: nat, i: nat, n: nat, total: u32)
    requires (fd == 1 || fd == 2) && Buffers(mem, iovs, i, n).Some?
    ensures var bufs := Buffers(mem, iovs, i, n).value;
            var (after, r) := Gather(host, fd, mem, iovs, i, n, total);
            && r.Ok?
            && after == if fd == 1 then Host(host.fs, Captured(262144, host.out, bufs), host.err)
                        else Host(host.fs, host.out, Captured(65536, host.err, bufs))
    decreases n - i
  {
    if i < n {
      assert Buffers(mem, iovs, i, n).value[1..] == Buffers(mem, iovs, i + 1, n).value;
      var (after, r) := GatherOne(host, fd, mem, iovs, i);
      GatherCaptures(after, fd, mem, iovs, i + 1, n, Add32(total, r.value));
    }
  }

  lemma {:induction false} CapturedFits(capacity: nat, buf: seq<byte>, bufs: seq<seq<byte>>)
    requires |buf| + |Concat(bufs)| <= capacity
    ensures Captured(capacity, buf, bufs) == buf + Concat(bufs)
    decreases |bufs|
  {
    if bufs != [] {
      CapturedFits(capacity, buf + bufs[0], bufs[1..]);
      assert buf + bufs[0] + Concat(bufs[1..]) == buf + (bufs[0] + Concat(bufs[1..]));
    } else {
      assert buf + [] == buf;
    }
  }

  lemma LastOfLast(n: nat, a: seq<byte>, b: seq<byte>)
    ensures Last(n, Last(n, a) + b) == Last(n, a + b)
  {
  }

  lemma LastThrice(n: nat, a: seq<byte>, b: seq<byte>, c: seq<byte>)
    ensures Last(n, Last(n, a + b) + c) == Last(n, a + (b + c))
  {
    LastOfLast(n, a + b, c);
    assert a + b + c == a + (b + c);
  }

  lemma ShortWrite(capacity: nat, buf: seq<byte>, data: seq<byte>)
    requires |buf| <= capacity && |data| <= capacity
    ensures AfterWrite(capacity, buf, data) == Last(capacity, buf + data)
    ensures |AfterWrite(capacity, buf, data)| <= capacity
  {
  }

  ghost predicate AllShort(capacity: nat, bufs: seq<seq<byte>>) {
    forall i :: 0 <= i < |bufs| ==> |bufs[i]| <= capacity
  }

  /** As long as no single buffer exceeds the capacity, the most recent bytes are kept. */
  lemma {:induction false} CapturedLast(capacity: nat, buf: seq<byte>, bufs: seq<seq<byte>>)
    requires |buf| <= capacity && AllShort(capacity, bufs)
    ensures Captured(capacity, buf, bufs) == Last(capacity, buf + Concat(bufs))
    decreases |bufs|
  {
    if bufs == [] {
      assert buf + [] == buf;
    } else {
      ShortWrite(capacity, buf, bufs[0]);
      CapturedLast(capacity, AfterWrite(capacity, buf, bufs[0]), bufs[1..]);
      LastThrice(capacity, buf, bufs[0], Concat(bufs[1..]));
    }
  }

  /**
   Bytes that fit beside what is captured are appended to the stream the descriptor
   names, to nothing else, and their number is reported.
   */
  lemma GatherAppends(host: Host, fd: u32, mem: seq<byte>, iovs: nat, n: nat)
    requires (fd == 1 || fd == 2) && Buffers(mem, iovs, 0, n).Some?
    requires var data := Concat(Buffers(mem, iovs, 0, n).value);
             if fd == 1 then |host.out| + |data| <= 262144 else |host.err| + |data| <= 65536
    ensures var data := Concat(Buffers(mem, iovs, 0, n).value);
            Gather(host, fd, mem, iovs, 0, n, 0)
            == (if fd == 1 then host.(out := host.out + data) else host.(err := host.err + data), Ok(|data|))
  {
    var bufs := Buffers(mem, iovs, 0, n).value;
    GatherCaptures(host, fd, mem, iovs, 0, n, 0);
    GatherCounts(host, fd, mem, iovs, 0, n, 0);
    if fd == 1 { CapturedFits(262144, host.out, bufs); } else { CapturedFits(65536, host.err, bufs); }
  }

  // ---- Where the walk ends early ---------------------------------------------------------------

  /** The walk in two parts: what the first part did stays, and its failure is the whole walk's. */
  lemma {:induction false} GatherSplits(
    host: Host, fd: u32, mem: seq<byte>, iovs: nat, i: nat, m: nat, n: nat, total: u32)
    requires i <= m <= n
    ensures var (mid, r) := Gather(host, fd, mem, iovs, i, m, total);
            Gather(host, fd, mem, iovs, i, n, total)
            == if r.Ok? then Gather(mid, fd, mem, iovs, m, n, r.value) else (mid, r)
    decreases m - i
  {
    if i < m {
      var (after, r) := GatherOne(host, fd, mem, iovs, i);
      if r.Ok? { GatherSplits(after, fd, mem, iovs, i + 1, m, n, Add32(total, r.value)); }
    }
  }

  /** An entry, or a buffer, that is not inside guest memory: nothing more is written and the call is invalid. */
  lemma GatherOutOfBounds(host: Host, fd: u32, mem: seq<byte>, iovs: nat, i: nat, n: nat, total: u32)
    requires i < n
    requires iovs + i * 8 + 8 > |mem| ||
             match IovecAt(mem, iovs, i) case None => true case Some(v) => v.ptr + v.len > |mem|
    ensures Gather(host, fd, mem, iovs, i, n, total) == (host, Err(INVAL))
  {
  }

  /** A buffer the VFS refuses: its charge may stay, nothing more is written, and the descriptor is bad. */
  lemma GatherRefused(host: Host, fd: u32, mem: seq<byte>, iovs: nat, i: nat, n: nat, total: u32, v: Iovec)
    requires i < n && fd != 1 && fd != 2 && IovecAt(mem, iovs, i) == Some(v) && v.ptr + v.len <= |mem|
    requires Write(host.fs, fd, mem[v.ptr..v.ptr + v.len]).1.Err?
    ensures Gather(host, fd, mem, iovs, i, n, total)
         == (host.(fs := Write(host.fs, fd, mem[v.ptr..v.ptr + v.len]).0), Err(BADF))
  {
  }
}
