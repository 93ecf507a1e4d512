/** Guest linear memory as the host shims see it: bounds-checked slices and little-endian words. */
module GuestMemory {
  import opened Base

  /** A buffer descriptor from the guest's iovec array. */
  datatype Iovec = Iovec(ptr: nat, len: nat)

  function ReadU32Le(mem: seq<byte>, offset: nat): Option<u32> {
    if offset + 4 > |mem| then None
    else
      var b0: int, b1: int, b2: int, b3: int := mem[offset], mem[offset + 1], mem[offset + 2], mem[offset + 3];
      Some(b0 + 0x100 * b1 + 0x1_0000 * b2 + 0x100_0000 * b3)
  }

  /** The shims' byte counts: 32-bit wrapping addition. */
  function Add32(total: u32, k: nat): (sum: u32)
    ensures total + k < U32_SIZE ==> sum == total + k
  {
    (total + k) % U32_SIZE
  }

  function LeBytes(v: u32): (bs: seq<byte>)
    ensures |bs| == 4
  {
    var q1 := v / 0x100;
    var q2 := q1 / 0x100;
    [v % 0x100, q1 % 0x100, q2 % 0x100, q2 / 0x100]
  }

  function Patch(mem: seq<byte>, at: nat, bytes: seq<byte>): (m: seq<byte>)
    requires at + |bytes| <= |mem|
    ensures |m| == |mem|
  {
    mem[..at] + bytes + mem[at + |bytes|..]
  }

  /** `copy_from_slice` into guest memory. */
  method CopyIn(mem: array<byte>, at: nat, bytes: seq<byte>)
    requires at + |bytes| <= mem.Length
    modifies mem
    ensures mem[..] == Patch(old(mem[..]), at, bytes)
  {
    forall i | 0 <= i < |bytes| { mem[at + i] := bytes[i]; }
  }

  method WriteU32Le(mem: array<byte>, offset: nat, v: u32) returns (ok: bool)
    modifies mem
    ensures ok <==> offset + 4 <= mem.Length
    ensures ok ==> mem[..] == Patch(old(mem[..]), offset, LeBytes(v))
    ensures !ok ==> mem[..] == old(mem[..])
  {
    if offset + 4 > mem.Length {
      return false;
    }
    CopyIn(mem, offset, LeBytes(v));
    ok := true;
  }

  /** A stored word reads back. */
  lemma WordRoundTrip(mem: seq<byte>, offset: nat, v: u32)
    requires offset + 4 <= |mem|
    ensures ReadU32Le(Patch(mem, offset, LeBytes(v)), offset) == Some(v)
  {
    PatchedWord(mem, offset, LeBytes(v));
    LeValue(v);
  }

  lemma PatchedWord(mem: seq<byte>, offset: nat, bs: seq<byte>)
    requires offset + 4 <= |mem| && |bs| == 4
    ensures var m := Patch(mem, offset, bs);
            m[offset] == bs[0] && m[offset + 1] == bs[1] && m[offset + 2] == bs[2] && m[offset + 3] == bs[3]
  {
  }

  lemma LeValue(v: u32)
    ensures var bs := LeBytes(v);
            (bs[0] as int) + 0x100 * (bs[1] as int) + 0x1_0000 * (bs[2] as int) + 0x100_0000 * (bs[3] as int) == v
  {
  }

  /** A word no patched byte belongs to still reads the same. */
  lemma WordUntouched(mem: seq<byte>, at: nat, bytes: seq<byte>, offset: nat)
    requires at + |bytes| <= |mem|
    requires offset + 4 <= at || at + |bytes| <= offset
    ensures ReadU32Le(Patch(mem, at, bytes), offset) == ReadU32Le(mem, offset)
  {
  }

  function Slice(mem: seq<byte>, v: Iovec): Option<seq<byte>> {
    if v.ptr + v.len <= |mem| then Some(mem[v.ptr..v.ptr + v.len]) else None
  }

  /** Entry `i` of the iovec array at `iovs`: two words. */
  function IovecAt(mem: seq<byte>, iovs: nat, i: nat): Option<Iovec> {
    var ptr := ReadU32Le(mem, iovs + i * 8);
    var len := ReadU32Le(mem, iovs + i * 8 + 4);
    if ptr.Some? && len.Some? then Some(Iovec(ptr.value, len.value)) else None
  }
}
