/**
 The `fd_read` host shim: it reads the guest's iovec array entry by entry, fills
 each buffer with its own read and stops at the first short one. When no buffer
 overlaps another or an entry after its own this is proved to be one read of the
 total length, laid out over the buffers in order. The layout condition on the
 array is exact: otherwise some file makes the walk read an entry it was not given.
 */
module ReadShim {
  import opened Base
  import opened FileModel
  import opened GuestMemory
  import opened WriteShim
  import Vfs

  datatype State = State(fs: FileSystem, mem: seq<byte>)

  /** One buffer: how many bytes arrived, or why the shim gives up. */
  function Fill(s: State, fd: u32, v: Iovec): (State, Result<nat, Errno>) {
    var (after, r) := Read(s.fs, fd, v.len);
    match r
    case Err(_) => (s.(fs := after), Err(BADF))
    case Ok(bytes) =>
      if v.ptr + |bytes| > |s.mem| then (s.(fs := after), Err(INVAL))
      else (State(after, Patch(s.mem, v.ptr, bytes)), Ok(|bytes|))
  }

  datatype Progress = Progress(count: nat, short: bool)

  /** Entry `i` of the array as memory holds it now. */
  function ScatterOne(s: State, fd: u32, iovs: nat, i: nat): (State, Result<Progress, Errno>) {
    match IovecAt(s.mem, iovs, i)
    case None => (s, Err(INVAL))
    case Some(v) =>
      var (after, r) := Fill(s, fd, v);
      (after, if r.Ok? then Ok(Progress(r.value, r.value < v.len)) else Err(r.error))
  }

  /** Entries `i..n` in turn; a short read ends the walk. */
  function Scatter(s: State, fd: u32, iovs: nat, i: nat, n: nat, total: u32): (State, Result<u32, Errno>)
    decreases n - i
  {
    if i >= n then (s, Ok(total))
    else
      var (after, r) := ScatterOne(s, fd, iovs, i);
      match r
      case Err(e) => (after, Err(e))
      case Ok(p) =>
        if p.short then (after, Ok(Add32(total, p.count)))
        else Scatter(after, fd, iovs, i + 1, n, Add32(total, p.count))
  }

  // ---- The shim -------------------------------------------------------------------

  ghost function StateOf(vfs: Vfs.VfsState, mem: array<byte>): State
    requires vfs.Valid()
    reads vfs, mem
  {
    State(vfs.Image(), mem[..])
  }

  method FillBuffer(vfs: Vfs.VfsState, mem: array<byte>, fd: u32, v: Iovec) returns (r: Result<nat, Errno>)
    requires vfs.Valid()
    modifies vfs, mem
    ensures vfs.Valid() && (StateOf(vfs, mem), r) == Fill(old(StateOf(vfs, mem)), fd, v)
  {
    ghost var before := mem[..];
    var tmp := vfs.ReadUpTo(fd, v.len);
    assert mem[..] == before;
    if tmp.Err? {
      return Err(BADF);
    }
    var n := |tmp.value|;
    if v.ptr + n > mem.Length {
      return Err(INVAL);
    }
    CopyIn(mem, v.ptr, tmp.value);
    r := Ok(n);
  }

  method ScatterEntry(vfs: Vfs.VfsState, mem: array<byte>, fd: u32, iovs: nat, i: nat)
    returns (r: Result<Progress, Errno>)
    requires vfs.Valid()
    modifies vfs, mem
    ensures vfs.Valid() && (StateOf(vfs, mem), r) == ScatterOne(old(StateOf(vfs, mem)), fd, iovs, i)
  {
    var v := IovecAt(mem[..], iovs, i);
    if v.None? {
      return Err(INVAL);
    }
    var k := FillBuffer(vfs, mem, fd, v.value);
    r := if k.Ok? then Ok(Progress(k.value, k.value < v.value.len)) else Err(k.error);
  }

  method ScatterLoop(vfs: Vfs.VfsState, mem: array<byte>, fd: u32, iovs: nat, n: nat) returns (r: Result<u32, Errno>)
    requires vfs.Valid()
    modifies vfs, mem
    ensures vfs.Valid()
    ensures (StateOf(vfs, mem), r) == Scatter(old(StateOf(vfs, mem)), fd, iovs, 0, n, 0)
  {
    var total: u32 := 0;
    ghost var s := StateOf(vfs, mem);
    ghost var outcome := Scatter(s, fd, iovs, 0, n, 0);
    var i := 0;
    while i < n
      invariant 0 <= i <= n && vfs.Valid() && s == StateOf(vfs, mem)
      invariant Scatter(s, fd, iovs, i, n, total) == outcome
    {
      ghost var step := ScatterOne(s, fd, iovs, i);
      var p := ScatterEntry(vfs, mem, fd, iovs, i);
      s := step.0;
      if p.Err? {
        return Err(p.error);
      }
      total := Add32(total, p.value.count);
      if p.value.short {
        return Ok(total);
      }
      i := i + 1;
    }
    r := Ok(total);
  }

  /** Descriptor 0 reports end of input and leaves the count word alone. */
  method FdReadShim(vfs: Vfs.VfsState, mem: array<byte>, fd: u32, iovs: nat, iovsLen: nat, nread: nat)
    returns (e: Errno)
    requires vfs.Valid()
    modifies vfs, mem
    ensures vfs.Valid()
    ensures fd == 0 ==> e == SUCCESS && StateOf(vfs, mem) == old(StateOf(vfs, mem))
    ensures fd != 0 ==>
      var (after, r) := Scatter(old(StateOf(vfs, mem)), fd, iovs, 0, iovsLen, 0);
      && |after.mem| == mem.Length && vfs.Image() == after.fs
      && match r
         case Err(x) => e == x && mem[..] == after.mem
         case Ok(total) =>
           if nread + 4 <= mem.Length
           then e == SUCCESS && mem[..] == Patch(after.mem, nread, LeBytes(total))
           else e == INVAL && mem[..] == after.mem
  {
    if fd == 0 {
      return SUCCESS;
    }
    var r := ScatterLoop(vfs, mem, fd, iovs, iovsLen);
    if r.Err? {
      return r.error;
    }
    var fits := WriteU32Le(mem, nread, r.value);
    e := if fits then SUCCESS else INVAL;
  }

  // ---- One read of the total length ----------------------------------------------------

  /** Reading `a` and then `b` bytes is reading `a + b`; a short first read has everything there is. */
  lemma ReadCompose(fs: FileSystem, fd: u32, a: nat, b: nat)
    ensures var first := Read(fs, fd, a);
            var whole := Read(fs, fd, a + b);
            && (first.1.Ok? <==> whole.1.Ok?)
            && (first.1.Ok? && |first.1.value| < a ==> whole == first)
            && (first.1.Ok? && |first.1.value| >= a ==>
                  var second := Read(first.0, fd, b);
                  second.1.Ok? && whole == (second.0, Ok(first.1.value + second.1.value)))
  {
    var first := Read(fs, fd, a);
    if first.1.Ok? {
      var h := fs.handles[fd];
      AvailableSplit(fs.files[h.path], h.position, a, b);
      var mid := h.position + |first.1.value|;
      var end := mid + |Available(fs.files[h.path], h.position + a, b)|;
      assert fs.handles[fd := h.(position := mid)][fd := h.(position := end)] == fs.handles[fd := h.(position := end)];
    }
  }

  lemma AvailableSplit(data: seq<byte>, pos: nat, a: nat, b: nat)
    ensures var first := Available(data, pos, a);
            && |first| <= a
            && (|first| < a ==> Available(data, pos, a + b) == first)
            && (|first| == a ==> Available(data, pos, a + b) == first + Available(data, pos + a, b))
  {
  }

  /** All buffers in bounds and pairwise disjoint. */
  ghost predicate Separate(vs: seq<Iovec>, size: nat) {
    && (forall i :: 0 <= i < |vs| ==> vs[i].ptr + vs[i].len <= size)
    && (forall i, j :: 0 <= i < j < |vs| ==> Apart(vs[i], vs[j]))
  }

  predicate Apart(v: Iovec, w: Iovec) {
    v.len == 0 || w.len == 0 || v.ptr + v.len <= w.ptr || w.ptr + w.len <= v.ptr
  }

  predicate Inside(at: nat, v: Iovec) {
    v.ptr <= at < v.ptr + v.len
  }

  /** What the buffers hold, end to end. */
  function View(mem: seq<byte>, vs: seq<Iovec>): seq<byte>
    requires forall i :: 0 <= i < |vs| ==> vs[i].ptr + vs[i].len <= |mem|
  {
    if vs == [] then [] else mem[vs[0].ptr..vs[0].ptr + vs[0].len] + View(mem, vs[1..])
  }

  function TotalLen(vs: seq<Iovec>): nat {
    if vs == [] then 0 else vs[0].len + TotalLen(vs[1..])
  }

  /** The same walk over a fixed list of buffers. */
  function FillAll(s: State, fd: u32, vs: seq<Iovec>, total: u32): (State, Result<u32, Errno>)
    decreases |vs|
  {
    if vs == [] then (s, Ok(total))
    else
      var (after, r) := Fill(s, fd, vs[0]);
      match r
      case Err(e) => (after, Err(e))
      case Ok(k) => if k < vs[0].len then (after, Ok(Add32(total, k))) else FillAll(after, fd, vs[1..], Add32(total, k))
  }

  ghost predicate Covered(at: nat, vs: seq<Iovec>) {
    exists i :: 0 <= i < |vs| && Inside(at, vs[i])
  }

  /** Memory outside the buffers is the same. */
  ghost predicate SameOutside(mem: seq<byte>, mem': seq<byte>, vs: seq<Iovec>) {
    |mem| == |mem'| && forall at :: 0 <= at < |mem| && !Covered(at, vs) ==> mem[at] == mem'[at]
  }

  /** Filling the front of one buffer: that buffer, and nothing outside it. */
  lemma PatchBuffer(mem: seq<byte>, v: Iovec, bytes: seq<byte>)
    requires v.ptr + v.len <= |mem| && |bytes| <= v.len
    ensures var m := Patch(mem, v.ptr, bytes);
            && m[v.ptr..v.ptr + v.len] == bytes + mem[v.ptr..v.ptr + v.len][|bytes|..]
            && (forall at :: 0 <= at < |mem| && !Inside(at, v) ==> m[at] == mem[at])
  {
  }

  ghost predicate SameIn(mem: seq<byte>, mem': seq<byte>, w: Iovec)
    requires |mem| == |mem'|
  {
    w.ptr + w.len <= |mem| && mem'[w.ptr..w.ptr + w.len] == mem[w.ptr..w.ptr + w.len]
  }

  lemma {:induction false} SameView(mem: seq<byte>, mem': seq<byte>, ws: seq<Iovec>)
    requires |mem| == |mem'| && forall i :: 0 <= i < |ws| ==> SameIn(mem, mem', ws[i])
    ensures forall i :: 0 <= i < |ws| ==> ws[i].ptr + ws[i].len <= |mem|
    ensures View(mem', ws) == View(mem, ws)
  {
    if ws != [] {
      assert SameIn(mem, mem', ws[0]);
      SameView(mem, mem', ws[1..]);
    }
  }

  /** The memories differ inside one buffer at most. */
  ghost predicate ChangedIn(mem: seq<byte>, mem': seq<byte>, v: Iovec) {
    |mem| == |mem'| && forall at :: 0 <= at < |mem| && !Inside(at, v) ==> mem'[at] == mem[at]
  }

  lemma ApartSame(mem: seq<byte>, mem': seq<byte>, v: Iovec, w: Iovec)
    requires ChangedIn(mem, mem', v) && Apart(v, w) && w.ptr + w.len <= |mem|
    ensures SameIn(mem, mem', w)
  {
    forall at | w.ptr <= at < w.ptr + w.len ensures mem'[at] == mem[at] { assert !Inside(at, v); }
  }

  lemma ViewOutside(mem: seq<byte>, mem': seq<byte>, v: Iovec, ws: seq<Iovec>)
    requires ChangedIn(mem, mem', v)
    requires forall i :: 0 <= i < |ws| ==> ws[i].ptr + ws[i].len <= |mem| && Apart(v, ws[i])
    ensures View(mem', ws) == View(mem, ws)
  {
    forall i | 0 <= i < |ws| ensures SameIn(mem, mem', ws[i]) { ApartSame(mem, mem', v, ws[i]); }
    SameView(mem, mem', ws);
  }

  lemma PatchOthers(mem: seq<byte>, vs: seq<Iovec>, bytes: seq<byte>)
    requires vs != [] && Separate(vs, |mem|) && |bytes| <= vs[0].len
    ensures View(Patch(mem, vs[0].ptr, bytes), vs[1..]) == View(mem, vs[1..])
  {
    PatchBuffer(mem, vs[0], bytes);
    ViewOutside(mem, Patch(mem, vs[0].ptr, bytes), vs[0], vs[1..]);
  }

  /** A change confined to the other buffers leaves the first one alone. */
  lemma FirstUntouched(mem: seq<byte>, mem': seq<byte>, vs: seq<Iovec>)
    requires vs != [] && Separate(vs, |mem|) && SameOutside(mem, mem', vs[1..])
    ensures mem'[vs[0].ptr..vs[0].ptr + vs[0].len] == mem[vs[0].ptr..vs[0].ptr + vs[0].len]
  {
    forall at | vs[0].ptr <= at < vs[0].ptr + vs[0].len ensures mem[at] == mem'[at] {
      forall i | 0 <= i < |vs[1..]| ensures !Inside(at, vs[1..][i]) { assert Apart(vs[0], vs[i + 1]); }
    }
  }

  lemma OutsideChain(mem: seq<byte>, mid: seq<byte>, end: seq<byte>, vs: seq<Iovec>)
    requires vs != [] && |mid| == |mem|
    requires forall at :: 0 <= at < |mem| && !Inside(at, vs[0]) ==> mid[at] == mem[at]
    requires SameOutside(mid, end, vs[1..])
    ensures SameOutside(mem, end, vs)
  {
    forall at | 0 <= at < |mem| && !Covered(at, vs) ensures mem[at] == end[at] {
      assert !Inside(at, vs[0]);
      forall i | 0 <= i < |vs[1..]| ensures !Inside(at, vs[1..][i]) { assert !Inside(at, vs[i + 1]); }
    }
  }

  /** The buffers hold `bytes` followed by what they held before. */
  ghost predicate LaidOut(mem: seq<byte>, mem': seq<byte>, vs: seq<Iovec>, bytes: seq<byte>)
    requires |mem| == |mem'| && forall i :: 0 <= i < |vs| ==> vs[i].ptr + vs[i].len <= |mem|
  {
    |bytes| <= |View(mem, vs)| && View(mem', vs) == bytes + View(mem, vs)[|bytes|..]
  }

  lemma LayShort(mem: seq<byte>, vs: seq<Iovec>, bytes: seq<byte>)
    requires vs != [] && Separate(vs, |mem|) && |bytes| <= vs[0].len
    ensures LaidOut(mem, Patch(mem, vs[0].ptr, bytes), vs, bytes)
  {
    PatchBuffer(mem, vs[0], bytes);
    PatchOthers(mem, vs, bytes);
    var head, rest := mem[vs[0].ptr..vs[0].ptr + vs[0].len], View(mem, vs[1..]);
    assert (head + rest)[|bytes|..] == head[|bytes|..] + rest;
    assert bytes + head[|bytes|..] + rest == bytes + (head[|bytes|..] + rest);
  }

  lemma LayFull(mem: seq<byte>, end: seq<byte>, vs: seq<Iovec>, first: seq<byte>, bytes: seq<byte>)
    requires vs != [] && Separate(vs, |mem|) && Separate(vs[1..], |mem|) && |first| == vs[0].len && |end| == |mem|
    requires SameOutside(Patch(mem, vs[0].ptr, first), end, vs[1..])
    requires LaidOut(Patch(mem, vs[0].ptr, first), end, vs[1..], bytes)
    ensures LaidOut(mem, end, vs, first + bytes)
  {
    var mid := Patch(mem, vs[0].ptr, first);
    PatchBuffer(mem, vs[0], first);
    PatchOthers(mem, vs, first);
    FirstUntouched(mid, end, vs);
    LayJoined(mem[vs[0].ptr..vs[0].ptr + vs[0].len], View(mem, vs[1..]), first, bytes);
  }

  lemma LayJoined(head: seq<byte>, rest: seq<byte>, first: seq<byte>, bytes: seq<byte>)
    requires |first| == |head| && |bytes| <= |rest|
    ensures first + (bytes + rest[|bytes|..]) == (first + bytes) + (head + rest)[|first + bytes|..]
  {
    assert (head + rest)[|first + bytes|..] == rest[|bytes|..];
  }

  /**
   Over separate in-bounds buffers the walk is one read of the total length: same
   file system, the bytes laid out over the buffers in order, nothing else changed,
   and the exact count reported while it stays below 2^32.
   */
  lemma {:induction false} FillAllIsOneRead(s: State, fd: u32, vs: seq<Iovec>, total: u32)
    requires vs != [] && Separate(vs, |s.mem|) && Read(s.fs, fd, TotalLen(vs)).1.Ok?
    ensures var flat := Read(s.fs, fd, TotalLen(vs));
            var (after, r) := FillAll(s, fd, vs, total);
            && after.fs == flat.0 && SameOutside(s.mem, after.mem, vs)
            && LaidOut(s.mem, after.mem, vs, flat.1.value)
            && r.Ok? && (total + |flat.1.value| < U32_SIZE ==> r == Ok(total + |flat.1.value|))
    decreases |vs|
  {
    var v, rest := vs[0], vs[1..];
    assert Separate(rest, |s.mem|) by { SeparateRest(vs, |s.mem|); }
    ReadCompose(s.fs, fd, v.len, TotalLen(rest));
    var first := Read(s.fs, fd, v.len).1.value;
    ReadAtMost(s.fs, fd, v.len);
    var mid := Patch(s.mem, v.ptr, first);
    PatchBuffer(s.mem, v, first);
    if |first| < v.len || rest == [] {
      LayShort(s.mem, vs, first);
      OutsideSelf(s.mem, mid, vs);
      if rest == [] { assert TotalLen(vs) == v.len; }
    } else {
      var after := State(Read(s.fs, fd, v.len).0, mid);
      FillAllIsOneRead(after, fd, rest, Add32(total, |first|));
      var end := FillAll(after, fd, rest, Add32(total, |first|)).0.mem;
      LayFull(s.mem, end, vs, first, Read(after.fs, fd, TotalLen(rest)).1.value);
      OutsideChain(s.mem, mid, end, vs);
    }
  }

  lemma SeparateRest(vs: seq<Iovec>, size: nat)
    requires vs != [] && Separate(vs, size)
    ensures Separate(vs[1..], size)
  {
  }

  lemma ReadAtMost(fs: FileSystem, fd: u32, n: nat)
    ensures var r := Read(fs, fd, n).1; r.Ok? ==> |r.value| <= n
  {
  }

  lemma OutsideSelf(mem: seq<byte>, mid: seq<byte>, vs: seq<Iovec>)
    requires vs != [] && |mid| == |mem|
    requires forall at :: 0 <= at < |mem| && !Inside(at, vs[0]) ==> mid[at] == mem[at]
    ensures SameOutside(mem, mid, vs)
  {
    forall at | 0 <= at < |mem| && !Covered(at, vs) ensures mem[at] == mid[at] {
      assert !Inside(at, vs[0]);
    }
  }

  // ---- The array itself is not among the buffers ------------------------------------

  /** Entries `i..n` of the array, if the array is in bounds. */
  function Table(mem: seq<byte>, iovs: nat, i: nat, n: nat): (t: Option<seq<Iovec>>)
    ensures t.Some? && i <= n ==> |t.value| == n - i
    decreases n - i
  {
    if i >= n then Some([])
    else
      var first := IovecAt(mem, iovs, i);
      var rest := Table(mem, iovs, i + 1, n);
      if first.Some? && rest.Some? then Some([first.value] + rest.value) else None
  }

  /** The memory that entries `i..n` of the array take up. */
  function Entries(iovs: nat, i: nat, n: nat): Iovec
    requires i <= n
  {
    Iovec(iovs + i * 8, (n - i) * 8)
  }

  lemma {:induction false} TableUntouched(mem: seq<byte>, v: Iovec, bytes: seq<byte>, iovs: nat, i: nat, n: nat)
    requires i <= n && v.ptr + v.len <= |mem| && |bytes| <= v.len
    requires Apart(v, Entries(iovs, i, n))
    ensures Table(Patch(mem, v.ptr, bytes), iovs, i, n) == Table(mem, iovs, i, n)
    decreases n - i
  {
    if v.len == 0 {
      assert Patch(mem, v.ptr, bytes) == mem;
    } else if i < n {
      WordUntouched(mem, v.ptr, bytes, iovs + i * 8);
      WordUntouched(mem, v.ptr, bytes, iovs + i * 8 + 4);
      TableUntouched(mem, v, bytes, iovs, i + 1, n);
    }
  }

  lemma FillKeepsTable(s: State, fd: u32, v: Iovec, iovs: nat, i: nat, n: nat)
    requires i <= n && v.ptr + v.len <= |s.mem| && Apart(v, Entries(iovs, i, n))
    ensures var after := Fill(s, fd, v).0;
            |after.mem| == |s.mem| && Table(after.mem, iovs, i, n) == Table(s.mem, iovs, i, n)
  {
    var r := Read(s.fs, fd, v.len).1;
    ReadAtMost(s.fs, fd, v.len);
    if r.Ok? { TableUntouched(s.mem, v, r.value, iovs, i, n); }
  }

  /**
   The listed buffers are those of entries `i..n`; each is in bounds and apart from the
   entries after its own, which are all that is still to be read when it is filled.
   */
  ghost predicate OffTable(vs: seq<Iovec>, size: nat, iovs: nat, i: nat, n: nat)
    requires i + |vs| == n
  {
    forall k :: 0 <= k < |vs| ==> vs[k].ptr + vs[k].len <= size && Apart(vs[k], Entries(iovs, i + k + 1, n))
  }

  lemma OffTableRest(vs: seq<Iovec>, size: nat, iovs: nat, i: nat, n: nat)
    requires vs != [] && i + |vs| == n && OffTable(vs, size, iovs, i, n)
    ensures OffTable(vs[1..], size, iovs, i + 1, n)
    ensures Apart(vs[0], Entries(iovs, i + 1, n))
  {
    forall k | 0 <= k < |vs[1..]| ensures Apart(vs[1..][k], Entries(iovs, (i + 1) + k + 1, n)) {
      assert Apart(vs[k + 1], Entries(iovs, i + (k + 1) + 1, n));
    }
  }

  /** Looking up an entry, and filling a buffer completely, if the file has enough. */
  type Look = (State, nat) -> Option<Iovec>
  type Filling = (State, Iovec) -> Option<State>

  function EntryOf(iovs: nat): Look {
    (s: State, i: nat) => IovecAt(s.mem, iovs, i)
  }

  function FillWhole(fd: u32): Filling {
    (s: State, v: Iovec) =>
      var (after, r) := Fill(s, fd, v);
      if r.Ok? && r.value >= v.len then Some(after) else None
  }

  /** A walk finds the listed entries: each is looked up once the buffers before it are filled. */
  ghost predicate Finds(s: State, i: nat, vs: seq<Iovec>, look: Look, fill: Filling)
    decreases |vs|
  {
    vs == [] ||
    (&& look(s, i) == Some(vs[0])
     && (fill(s, vs[0]).Some? ==> Finds(fill(s, vs[0]).value, i + 1, vs[1..], look, fill)))
  }

  /** Every entry the shim's walk reads is the one the list has for it. */
  ghost predicate AsListed(s: State, fd: u32, iovs: nat, i: nat, vs: seq<Iovec>) {
    Finds(s, i, vs, EntryOf(iovs), FillWhole(fd))
  }

  lemma AsListedStep(s: State, fd: u32, iovs: nat, i: nat, vs: seq<Iovec>)
    requires vs != []
    ensures var (after, r) := Fill(s, fd, vs[0]);
            AsListed(s, fd, iovs, i, vs) <==>
              && IovecAt(s.mem, iovs, i) == Some(vs[0])
              && (r.Ok? && r.value >= vs[0].len ==> AsListed(after, fd, iovs, i + 1, vs[1..]))
  {
  }

  lemma ScatterStep(s: State, fd: u32, iovs: nat, i: nat, n: nat, total: u32, v: Iovec)
    requires i < n && IovecAt(s.mem, iovs, i) == Some(v)
    ensures var (after, r) := Fill(s, fd, v);
            Scatter(s, fd, iovs, i, n, total) ==
              if r.Err? then (after, Err(r.error))
              else if r.value < v.len then (after, Ok(Add32(total, r.value)))
              else Scatter(after, fd, iovs, i + 1, n, Add32(total, r.value))
  {
  }

  lemma FillAllStep(s: State, fd: u32, vs: seq<Iovec>, total: u32)
    requires vs != []
    ensures var (after, r) := Fill(s, fd, vs[0]);
            FillAll(s, fd, vs, total) ==
              if r.Err? then (after, Err(r.error))
              else if r.value < vs[0].len then (after, Ok(Add32(total, r.value)))
              else FillAll(after, fd, vs[1..], Add32(total, r.value))
  {
  }

  /** One entry: both walks do the same if they do the same afterwards. */
  lemma ListedAgrees(
    s: State, fd: u32, iovs: nat, i: nat, n: nat, vs: seq<Iovec>, total: u32, after: State, r: Result<nat, Errno>)
    requires i < n && vs != [] && IovecAt(s.mem, iovs, i) == Some(vs[0]) && Fill(s, fd, vs[0]) == (after, r)
    requires r.Ok? && r.value >= vs[0].len ==>
      Scatter(after, fd, iovs, i + 1, n, Add32(total, r.value)) == FillAll(after, fd, vs[1..], Add32(total, r.value))
    ensures Scatter(s, fd, iovs, i, n, total) == FillAll(s, fd, vs, total)
  {
    ScatterStep(s, fd, iovs, i, n, total, vs[0]);
    FillAllStep(s, fd, vs, total);
  }

  /** Re-reading the array after each buffer makes no difference when it still reads as listed. */
  lemma {:induction false} ListedIsFillAll(s: State, fd: u32, iovs: nat, i: nat, n: nat, vs: seq<Iovec>, total: u32)
    requires n == i + |vs| && AsListed(s, fd, iovs, i, vs)
    ensures Scatter(s, fd, iovs, i, n, total) == FillAll(s, fd, vs, total)
    decreases |vs|
  {
    if vs != [] {
      var (after, r) := Fill(s, fd, vs[0]);
      AsListedStep(s, fd, iovs, i, vs);
      if r.Ok? && r.value >= vs[0].len { ListedIsFillAll(after, fd, iovs, i + 1, n, vs[1..], Add32(total, r.value)); }
      ListedAgrees(s, fd, iovs, i, n, vs, total, after, r);
    }
  }

  /** It does when no buffer overlaps a later entry, whatever the file holds. */
  lemma {:induction false} OffTableListed(s: State, fd: u32, iovs: nat, i: nat, n: nat)
    requires i <= n && Table(s.mem, iovs, i, n).Some?
    requires OffTable(Table(s.mem, iovs, i, n).value, |s.mem|, iovs, i, n)
    ensures AsListed(s, fd, iovs, i, Table(s.mem, iovs, i, n).value)
    decreases n - i
  {
    if i < n {
      var vs, rest := Table(s.mem, iovs, i, n).value, Table(s.mem, iovs, i + 1, n).value;
      assert vs[1..] == rest;
      OffTableRest(vs, |s.mem|, iovs, i, n);
      FillKeepsTable(s, fd, vs[0], iovs, i + 1, n);
      OffTableListed(Fill(s, fd, vs[0]).0, fd, iovs, i + 1, n);
      AsListedStep(s, fd, iovs, i, vs);
    }
  }

  /** Over separate buffers a walk that reads every entry as listed is one read of the total length. */
  lemma ListedIsOneRead(s: State, fd: u32, iovs: nat, vs: seq<Iovec>)
    requires vs != [] && Separate(vs, |s.mem|) && AsListed(s, fd, iovs, 0, vs) && Read(s.fs, fd, TotalLen(vs)).1.Ok?
    ensures var flat := Read(s.fs, fd, TotalLen(vs));
            var (after, r) := Scatter(s, fd, iovs, 0, |vs|, 0);
            && after.fs == flat.0 && SameOutside(s.mem, after.mem, vs)
            && LaidOut(s.mem, after.mem, vs, flat.1.value)
            && r.Ok? && (|flat.1.value| < U32_SIZE ==> r == Ok(|flat.1.value|))
  {
    ListedIsFillAll(s, fd, iovs, 0, |vs|, vs, 0);
    FillAllIsOneRead(s, fd, vs, 0);
  }

  /** The shim over separate buffers that lie on no later entry of the array is one read of the total length. */
  lemma ScatterIsOneRead(s: State, fd: u32, iovs: nat, n: nat)
    requires n > 0 && Table(s.mem, iovs, 0, n).Some?
    requires var vs := Table(s.mem, iovs, 0, n).value;
             && Separate(vs, |s.mem|) && OffTable(vs, |s.mem|, iovs, 0, n)
             && Read(s.fs, fd, TotalLen(vs)).1.Ok?
    ensures var vs := Table(s.mem, iovs, 0, n).value;
            var flat := Read(s.fs, fd, TotalLen(vs));
            var (after, r) := Scatter(s, fd, iovs, 0, n, 0);
            && after.fs == flat.0 && SameOutside(s.mem, after.mem, vs)
            && LaidOut(s.mem, after.mem, vs, flat.1.value)
            && r.Ok? && (|flat.1.value| < U32_SIZE ==> r == Ok(|flat.1.value|))
  {
    var vs := Table(s.mem, iovs, 0, n).value;
    OffTableListed(s, fd, iovs, 0, n);
    ListedIsOneRead(s, fd, iovs, vs);
  }

  // ---- A buffer on a later entry: some file makes the walk go astray ----------------------

  ghost predicate InBounds(vs: seq<Iovec>, size: nat) {
    forall i :: 0 <= i < |vs| ==> vs[i].ptr + vs[i].len <= size
  }

  /** The descriptor can be read and has exactly `rest` left. */
  ghost predicate Serves(fs: FileSystem, fd: u32, rest: seq<byte>) {
    && fd in fs.handles && fs.handles[fd].access.read
    && var h := fs.handles[fd];
       h.path in fs.files && h.path !in fs.dirs && h.position <= |fs.files[h.path]|
       && fs.files[h.path][h.position..] == rest
  }

  lemma ServeSome(fs: FileSystem, fd: u32, bytes: seq<byte>, rest: seq<byte>)
    requires Serves(fs, fd, bytes + rest)
    ensures Read(fs, fd, |bytes|).1 == Ok(bytes) && Serves(Read(fs, fd, |bytes|).0, fd, rest)
  {
    var h := fs.handles[fd];
    var data := fs.files[h.path];
    assert data[h.position..] == bytes + rest;
    assert data[h.position..h.position + |bytes|] == (bytes + rest)[..|bytes|] == bytes;
    assert data[h.position + |bytes|..] == (bytes + rest)[|bytes|..] == rest;
    assert Available(data, h.position, |bytes|) == bytes;
  }

  lemma FillServed(s: State, fd: u32, v: Iovec, bytes: seq<byte>, rest: seq<byte>)
    requires Serves(s.fs, fd, bytes + rest) && |bytes| == v.len && v.ptr + v.len <= |s.mem|
    ensures var (after, r) := Fill(s, fd, v);
            r == Ok(v.len) && after.mem == Patch(s.mem, v.ptr, bytes) && Serves(after.fs, fd, rest)
  {
    ServeSome(s.fs, fd, bytes, rest);
  }

  /** The two memories differ at most at `x`. */
  ghost predicate DifferAt(mem: seq<byte>, other: seq<byte>, x: nat) {
    |mem| == |other| && forall at :: 0 <= at < |mem| && at != x ==> mem[at] == other[at]
  }

  /** Writing a piece of one over its own place in the other changes at most the byte at `x`. */
  lemma PatchByte(mem: seq<byte>, other: seq<byte>, x: nat, v: Iovec)
    requires DifferAt(mem, other, x) && v.ptr + v.len <= |mem|
    ensures var bytes := other[v.ptr..v.ptr + v.len];
            && Patch(other, v.ptr, bytes) == other
            && Patch(mem, v.ptr, bytes) == if Inside(x, v) then other else mem
  {
  }

  /** The buffers of the walk still to come rewrite what memory holds, but for the byte at `x`. */
  ghost predicate Rewriting(s: State, fd: u32, vs: seq<Iovec>, mem: seq<byte>, other: seq<byte>, x: nat) {
    && DifferAt(mem, other, x) && InBounds(vs, |mem|)
    && (s.mem == mem || s.mem == other)
    && Serves(s.fs, fd, View(other, vs))
  }

  lemma RewriteOne(s: State, fd: u32, vs: seq<Iovec>, mem: seq<byte>, other: seq<byte>, x: nat)
    requires vs != [] && Rewriting(s, fd, vs, mem, other, x)
    ensures var after := FillWhole(fd)(s, vs[0]);
            && after.Some? && Rewriting(after.value, fd, vs[1..], mem, other, x)
            && (Inside(x, vs[0]) || s.mem == other ==> after.value.mem == other)
  {
    var v := vs[0];
    FillServed(s, fd, v, other[v.ptr..v.ptr + v.len], View(other, vs[1..]));
    PatchByte(mem, other, x, v);
  }

  /** Filling the buffers one after the other, as long as every read fills its buffer. */
  function Walk(s: State, vs: seq<Iovec>, fill: Filling): Option<State>
    decreases |vs|
  {
    if vs == [] then Some(s)
    else if fill(s, vs[0]).None? then None
    else Walk(fill(s, vs[0]).value, vs[1..], fill)
  }

  lemma WalkFirst(s: State, vs: seq<Iovec>, j: nat, fill: Filling)
    requires 0 < j <= |vs| && fill(s, vs[0]).Some?
    ensures Walk(s, vs[..j], fill) == Walk(fill(s, vs[0]).value, vs[1..][..j - 1], fill)
  {
    assert vs[..j][1..] == vs[1..][..j - 1];
  }

  /** The entry a walk gets to is looked up as listed. */
  lemma {:induction false} FindsAt(s: State, i: nat, vs: seq<Iovec>, j: nat, look: Look, fill: Filling)
    requires Finds(s, i, vs, look, fill) && j < |vs| && Walk(s, vs[..j], fill).Some?
    ensures look(Walk(s, vs[..j], fill).value, i + j) == Some(vs[j])
    decreases |vs|
  {
    if j > 0 {
      assert vs[..j][0] == vs[0];
      WalkFirst(s, vs, j, fill);
      FindsAt(fill(s, vs[0]).value, i + 1, vs[1..], j - 1, look, fill);
    }
  }

  /** What every complete fill carries from a list to its rest, a walk carries along. */
  lemma {:induction false} WalkKeeps(
    s: State, vs: seq<Iovec>, j: nat, fill: Filling, inv: (State, seq<Iovec>) -> bool)
    requires j <= |vs| && inv(s, vs)
    requires forall t, ws :: inv(t, ws) && ws != [] ==> fill(t, ws[0]).Some? && inv(fill(t, ws[0]).value, ws[1..])
    ensures Walk(s, vs[..j], fill).Some? && inv(Walk(s, vs[..j], fill).value, vs[j..])
    decreases j
  {
    if j > 0 {
      WalkFirst(s, vs, j, fill);
      WalkKeeps(fill(s, vs[0]).value, vs[1..], j - 1, fill, inv);
      assert vs[1..][j - 1..] == vs[j..];
    }
  }

  /** Buffer `k` of `all` is still to come, or the byte at `x` is changed. */
  ghost predicate Changing(
    s: State, fd: u32, vs: seq<Iovec>, mem: seq<byte>, other: seq<byte>, x: nat, all: seq<Iovec>, k: nat) {
    && Rewriting(s, fd, vs, mem, other, x)
    && |vs| <= |all| && vs == all[|all| - |vs|..]
    && k < |all| && Inside(x, all[k]) && (|all| - |vs| <= k || s.mem == other)
  }

  lemma ChangingOne(
    s: State, fd: u32, vs: seq<Iovec>, mem: seq<byte>, other: seq<byte>, x: nat, all: seq<Iovec>, k: nat)
    requires vs != [] && Changing(s, fd, vs, mem, other, x, all, k)
    ensures var after := FillWhole(fd)(s, vs[0]);
            after.Some? && Changing(after.value, fd, vs[1..], mem, other, x, all, k)
  {
    RewriteOne(s, fd, vs, mem, other, x);
    assert |all| - |vs| == k ==> vs[0] == all[k];
    assert vs[1..] == all[|all| - |vs[1..]|..];
  }

  /** The walk fills all buffers and leaves the byte changed. */
  lemma RewriteMany(
    s: State, fd: u32, vs: seq<Iovec>, mem: seq<byte>, other: seq<byte>, x: nat, k: nat, j: nat)
    requires k < j <= |vs| && Rewriting(s, fd, vs, mem, other, x) && Inside(x, vs[k])
    ensures Walk(s, vs[..j], FillWhole(fd)).Some? && Walk(s, vs[..j], FillWhole(fd)).value.mem == other
  {
    ghost var inv := (t: State, ws: seq<Iovec>) => Changing(t, fd, ws, mem, other, x, vs, k);
    forall t, ws | inv(t, ws) && ws != []
      ensures FillWhole(fd)(t, ws[0]).Some? && inv(FillWhole(fd)(t, ws[0]).value, ws[1..])
    {
      ChangingOne(t, fd, ws, mem, other, x, vs, k);
    }
    WalkKeeps(s, vs, j, FillWhole(fd), inv);
  }

  lemma WordChanged(mem: seq<byte>, x: nat, y: byte, offset: nat)
    requires offset <= x < offset + 4 <= |mem| && y != mem[x]
    ensures ReadU32Le(mem[x := y], offset) != ReadU32Le(mem, offset)
  {
  }

  lemma EntryChanged(mem: seq<byte>, x: nat, y: byte, iovs: nat, j: nat)
    requires iovs + j * 8 <= x < iovs + j * 8 + 8 <= |mem| && y != mem[x]
    ensures IovecAt(mem[x := y], iovs, j) != IovecAt(mem, iovs, j)
  {
    if x < iovs + j * 8 + 4 {
      WordChanged(mem, x, y, iovs + j * 8);
    } else {
      WordChanged(mem, x, y, iovs + j * 8 + 4);
    }
  }

  lemma {:induction false} TableAt(mem: seq<byte>, iovs: nat, i: nat, n: nat, j: nat)
    requires i <= j < n && Table(mem, iovs, i, n).Some?
    ensures IovecAt(mem, iovs, j) == Some(Table(mem, iovs, i, n).value[j - i])
    decreases n - i
  {
    if i < j { TableAt(mem, iovs, i + 1, n, j); }
  }

  /** A file system with one readable file that holds the given bytes. */
  function OneFile(data: seq<byte>): FileSystem {
    FileSystem(map[["f"] := data], {}, map[3 := Handle(["f"], 0, Access(true, false, false, false))], 4, 0)
  }

  lemma OneFileServes(data: seq<byte>)
    ensures Serves(OneFile(data), 3, data)
  {
  }

  /** A byte that a buffer shares with the entries after its own, and the entry it belongs to. */
  lemma SharedByte(v: Iovec, iovs: nat, k: nat, n: nat) returns (x: nat, j: nat)
    requires k < n && !Apart(v, Entries(iovs, k + 1, n))
    ensures Inside(x, v) && k < j < n && iovs + j * 8 <= x < iovs + j * 8 + 8
  {
    x := Max(v.ptr, iovs + (k + 1) * 8);
    j := (x - iovs) / 8;
  }

  /** Some other value of such a byte changes the entry. */
  lemma ClashingByte(mem: seq<byte>, iovs: nat, n: nat, vs: seq<Iovec>, k: nat)
    returns (x: nat, other: seq<byte>, j: nat)
    requires Table(mem, iovs, 0, n) == Some(vs) && InBounds(vs, |mem|)
    requires k < n && !Apart(vs[k], Entries(iovs, k + 1, n))
    ensures Inside(x, vs[k]) && DifferAt(mem, other, x) && k < j < n && IovecAt(other, iovs, j) != Some(vs[j])
  {
    x, j := SharedByte(vs[k], iovs, k, n);
    TableAt(mem, iovs, 0, n, j);
    var y: byte := if mem[x] == 0 then 1 else 0;
    other := mem[x := y];
    EntryChanged(mem, x, y, iovs, j);
  }

  lemma OverlapAstray(mem: seq<byte>, iovs: nat, n: nat, vs: seq<Iovec>, k: nat) returns (fs: FileSystem)
    requires Table(mem, iovs, 0, n) == Some(vs) && InBounds(vs, |mem|)
    requires k < n && !Apart(vs[k], Entries(iovs, k + 1, n))
    ensures !AsListed(State(fs, mem), 3, iovs, 0, vs)
  {
    var x, other, j := ClashingByte(mem, iovs, n, vs, k);
    fs := OneFile(View(other, vs));
    OneFileServes(View(other, vs));
    RewriteMany(State(fs, mem), 3, vs, mem, other, x, k, j);
    AstrayAt(State(fs, mem), vs, j, EntryOf(iovs), FillWhole(3));
  }

  lemma AstrayAt(s: State, vs: seq<Iovec>, j: nat, look: Look, fill: Filling)
    requires j < |vs| && Walk(s, vs[..j], fill).Some? && look(Walk(s, vs[..j], fill).value, j) != Some(vs[j])
    ensures !Finds(s, 0, vs, look, fill)
  {
    if Finds(s, 0, vs, look, fill) { FindsAt(s, 0, vs, j, look, fill); }
  }

  /**
   For an in-bounds array of in-bounds buffers the walk reads every entry as the array
   held it at the call, whatever file is behind the descriptor, exactly when no buffer
   overlaps an entry after its own.
   */
  lemma AsListedIff(mem: seq<byte>, iovs: nat, n: nat, vs: seq<Iovec>)
    requires Table(mem, iovs, 0, n) == Some(vs) && InBounds(vs, |mem|)
    ensures (forall fs, fd :: AsListed(State(fs, mem), fd, iovs, 0, vs)) <==> OffTable(vs, |mem|, iovs, 0, n)
  {
    if OffTable(vs, |mem|, iovs, 0, n) {
      forall fs, fd ensures AsListed(State(fs, mem), fd, iovs, 0, vs) {
        OffTableListed(State(fs, mem), fd, iovs, 0, n);
      }
    } else {
      var k :| 0 <= k < |vs| && !Apart(vs[k], Entries(iovs, 0 + k + 1, n));
      var fs := OverlapAstray(mem, iovs, n, vs, k);
      assert !AsListed(State(fs, mem), 3, iovs, 0, vs);
    }
  }

  // ---- Where the walk ends early ---------------------------------------------------------------

  /**
   How it can fail at an entry. An entry outside guest memory: invalid, nothing more
   happens. A refused read: bad descriptor, nothing more happens. Bytes that do not fit
   where the entry points: invalid, memory is left alone, but the handle has moved.
   */
  lemma ScatterFails(s: State, fd: u32, iovs: nat, i: nat, n: nat, total: u32)
    requires i < n
    ensures iovs + i * 8 + 8 > |s.mem| ==> Scatter(s, fd, iovs, i, n, total) == (s, Err(INVAL))
    ensures iovs + i * 8 + 8 <= |s.mem| ==>
      var v := IovecAt(s.mem, iovs, i).value;
      var (after, r) := Read(s.fs, fd, v.len);
      && (r.Err? ==> Scatter(s, fd, iovs, i, n, total) == (s, Err(BADF)))
      && (r.Ok? && v.ptr + |r.value| > |s.mem| ==>
            Scatter(s, fd, iovs, i, n, total) == (State(after, s.mem), Err(INVAL)))
  {
  }

  /** Two entries: an 8-byte buffer lying on the second entry, and an empty one. */
  lemma OverlappedTable(mem: seq<byte>)
    requires mem == [8, 0, 0, 0, 8, 0, 0, 0, 0, 0, 0, 0, 0, 0, 0, 0]
    ensures Table(mem, 0, 0, 2) == Some([Iovec(8, 8), Iovec(0, 0)])
  {
    assert IovecAt(mem, 0, 0) == Some(Iovec(8, 8)) && IovecAt(mem, 0, 1) == Some(Iovec(0, 0));
    assert Table(mem, 0, 2, 2) == Some([]);
    assert [Iovec(0, 0)] + [] == [Iovec(0, 0)];
    assert [Iovec(8, 8)] + [Iovec(0, 0)] == [Iovec(8, 8), Iovec(0, 0)];
  }

  /** The first buffer arrives, over the second entry. */
  lemma OverlappedFirst(fs: FileSystem, fd: u32, mem: seq<byte>)
    requires mem == [8, 0, 0, 0, 8, 0, 0, 0, 0, 0, 0, 0, 0, 0, 0, 0]
    requires fd in fs.handles && fs.handles[fd].path in fs.files && fs.handles[fd].path !in fs.dirs
    requires fs.handles[fd].access.read && fs.handles[fd].position == 0
    requires fs.files[fs.handles[fd].path] == [0, 0, 0, 0, 4, 0, 0, 0, 1, 2, 3, 4]
    ensures IovecAt(mem, 0, 0) == Some(Iovec(8, 8))
    ensures Fill(State(fs, mem), fd, Iovec(8, 8))
         == (State(MoveTo(fs, fd, 8), [8, 0, 0, 0, 8, 0, 0, 0, 0, 0, 0, 0, 4, 0, 0, 0]), Ok(8))
  {
    var bytes: seq<byte> := [0, 0, 0, 0, 4, 0, 0, 0];
    assert Available(fs.files[fs.handles[fd].path], 0, 8) == bytes;
    assert Patch(mem, 8, bytes) == [8, 0, 0, 0, 8, 0, 0, 0, 0, 0, 0, 0, 4, 0, 0, 0];
  }

  /** The second entry now asks for four more bytes. */
  lemma OverlappedWalk(fs: FileSystem, fd: u32, mem: seq<byte>)
    requires mem == [8, 0, 0, 0, 8, 0, 0, 0, 0, 0, 0, 0, 0, 0, 0, 0]
    requires fd in fs.handles && fs.handles[fd].path in fs.files && fs.handles[fd].path !in fs.dirs
    requires fs.handles[fd].access.read && fs.handles[fd].position == 0
    requires fs.files[fs.handles[fd].path] == [0, 0, 0, 0, 4, 0, 0, 0, 1, 2, 3, 4]
    ensures Scatter(State(fs, mem), fd, 0, 0, 2, 0).0.fs == MoveTo(MoveTo(fs, fd, 8), fd, 12)
  {
    OverlappedFirst(fs, fd, mem);
    var mid := Fill(State(fs, mem), fd, Iovec(8, 8)).0;
    assert IovecAt(mid.mem, 0, 1) == Some(Iovec(0, 4));
    assert |Available(fs.files[fs.handles[fd].path], 8, 4)| == 4;
    ScatterStep(State(fs, mem), fd, 0, 0, 2, 0, Iovec(8, 8));
    ScatterStep(mid, fd, 0, 1, 2, 8, Iovec(0, 4));
  }

  /**
   Disjoint buffers are not enough: a buffer laid over the array can rewrite a later
   entry, and the walk then reads on past the length the array asked for at first.
   */
  lemma OverlapWithTableDiffers(fs: FileSystem, fd: u32, mem: seq<byte>)
    requires mem == [8, 0, 0, 0, 8, 0, 0, 0, 0, 0, 0, 0, 0, 0, 0, 0]
    requires fd in fs.handles && fs.handles[fd].path in fs.files && fs.handles[fd].path !in fs.dirs
    requires fs.handles[fd].access.read && fs.handles[fd].position == 0
    requires fs.files[fs.handles[fd].path] == [0, 0, 0, 0, 4, 0, 0, 0, 1, 2, 3, 4]
    ensures Table(mem, 0, 0, 2).Some? && Separate(Table(mem, 0, 0, 2).value, |mem|)
    ensures var flat := Read(fs, fd, TotalLen(Table(mem, 0, 0, 2).value));
            flat.1.Ok? && Scatter(State(fs, mem), fd, 0, 0, 2, 0).0.fs != flat.0
  {
    OverlappedTable(mem);
    OverlappedWalk(fs, fd, mem);
    var vs := [Iovec(8, 8), Iovec(0, 0)];
    assert TotalLen(vs) == 8 by { assert vs[1..] == [Iovec(0, 0)] && vs[1..][1..] == []; }
    assert Scatter(State(fs, mem), fd, 0, 0, 2, 0).0.fs.handles[fd].position == 12;
    assert Read(fs, fd, 8).0.handles[fd].position == 8;
  }
}
