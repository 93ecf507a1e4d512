/** Types shared by every component. */
module Base {

  type byte = x: int | 0 <= x < 256

  /** 32-bit unsigned values, as used for guest descriptors and guest pointers. */
  const U32_SIZE: int := 0x1_0000_0000
  type u32 = x: int | 0 <= x < 0x1_0000_0000

  /** 64-bit signed values, as used for seek offsets. */
  const I64_LIMIT: int := 0x8000_0000_0000_0000
  type i64 = x: int | -0x8000_0000_0000_0000 <= x < 0x8000_0000_0000_0000

  /** Lengths and offsets of a 64-bit machine. */
  const U64_SIZE: int := 0x1_0000_0000_0000_0000
  type usize = x: int | 0 <= x < 0x1_0000_0000_0000_0000

  datatype Option<+T> = None | Some(value: T)

  datatype Result<+T, +E> = Ok(value: T) | Err(error: E)

  function Min(a: int, b: int): (m: int)
    ensures m <= a && m <= b && (m == a || m == b)
  {
    if a <= b then a else b
  }

  function Max(a: int, b: int): (m: int)
    ensures a <= m && b <= m && (m == a || m == b)
  {
    if a <= b then b else a
  }

  /** End-to-end concatenation. */
  function Concat(parts: seq<seq<byte>>): seq<byte> {
    if parts == [] then [] else parts[0] + Concat(parts[1..])
  }

  lemma {:induction false} ConcatAdd(a: seq<seq<byte>>, b: seq<seq<byte>>)
    ensures Concat(a + b) == Concat(a) + Concat(b)
  {
    if a == [] {
      assert a + b == b;
    } else {
      assert (a + b)[1..] == a[1..] + b;
      ConcatAdd(a[1..], b);
      assert a[0] + (Concat(a[1..]) + Concat(b)) == (a[0] + Concat(a[1..])) + Concat(b);
    }
  }

  lemma ConcatOne(p: seq<byte>)
    ensures Concat([p]) == p
  {
    assert [p][1..] == [];
  }
}
