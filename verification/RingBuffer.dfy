/**
 The stdout/stderr capture buffer of the worker's VFS (`RingBuffer`).

 `write` computes the free room as `capacity - buf.len()` on 64-bit unsigned
 values, so after a single write longer than the capacity the subtraction wraps
 and nothing is evicted any more until the next drain. The run theorems say
 exactly what the buffer holds, and exactly when that is the documented
 "most recent `capacity` bytes".
 */
module RingBuffers {
  import opened Base

  function Last(n: nat, s: seq<byte>): seq<byte> {
    if |s| <= n then s else s[|s| - n..]
  }

  /** The buffer after one write. */
  function AfterWrite(capacity: nat, buf: seq<byte>, data: seq<byte>): seq<byte> {
    if |buf| > capacity then buf + data
    else if |data| <= capacity then Last(capacity, buf + data)
    else data
  }

  class RingBuffer {
    var buf: seq<byte>
    const capacity: usize
    var written: nat

    constructor (capacity: usize)
      ensures this.capacity == capacity && buf == [] && written == 0
    {
      this.capacity := capacity;
      buf := [];
      written := 0;
    }

    /** The lengths are those of byte vectors in one 64-bit address space. */
    method Write(data: seq<byte>)
      requires |buf| + |data| < U64_SIZE
      modifies this
      ensures buf == AfterWrite(capacity, old(buf), data)
      ensures written == old(written) + |data|
    {
      var available := (capacity - |buf|) % U64_SIZE;
      assert available == if |buf| <= capacity then capacity - |buf| else U64_SIZE + capacity - |buf|;
      if |data| <= available {
        buf := buf + data;
      } else {
        var needed := |data| - available;
        var bufLen := |buf|;
        buf := buf[Min(needed, bufLen)..];
        buf := buf + data;
      }
      written := written + |data|;
    }

    method Drain() returns (out: seq<byte>)
      modifies this`buf
      ensures out == old(buf) && buf == []
    {
      out := buf;
      buf := [];
    }
  }

  // ---- Every run of writes and drains ---------------------------------------

  datatype Event = Put(data: seq<byte>) | Take

  /** The buffer after a run from creation. */
  function Held(capacity: nat, es: seq<Event>): seq<byte> {
    if es == [] then []
    else match es[|es| - 1]
      case Put(data) => AfterWrite(capacity, Held(capacity, es[..|es| - 1]), data)
      case Take => []
  }

  /** Everything the drains of the run returned, in order. */
  function Drained(capacity: nat, es: seq<Event>): seq<byte> {
    if es == [] then []
    else
      var before := es[..|es| - 1];
      Drained(capacity, before) + if es[|es| - 1].Take? then Held(capacity, before) else []
  }

  /** The bytes written since the last drain. */
  function Since(es: seq<Event>): seq<byte> {
    if es == [] then []
    else match es[|es| - 1]
      case Put(data) => Since(es[..|es| - 1]) + data
      case Take => []
  }

  /** All bytes ever written. */
  function Stream(es: seq<Event>): seq<byte> {
    if es == [] then []
    else match es[|es| - 1]
      case Put(data) => Stream(es[..|es| - 1]) + data
      case Take => Stream(es[..|es| - 1])
  }

  /** No write since the last drain was longer than the capacity. */
  predicate FitsSince(capacity: nat, es: seq<Event>) {
    es == [] || match es[|es| - 1]
      case Put(data) => |data| <= capacity && FitsSince(capacity, es[..|es| - 1])
      case Take => true
  }

  ghost predicate TailOf(buf: seq<byte>, s: seq<byte>) {
    |buf| <= |s| && buf == s[|s| - |buf|..]
  }

  lemma WriteKeepsTail(capacity: nat, buf: seq<byte>, since: seq<byte>, data: seq<byte>)
    requires TailOf(buf, since)
    requires |buf| <= capacity ==> |buf| == |Last(capacity, since)|
    ensures var after := AfterWrite(capacity, buf, data);
            && TailOf(after, since + data)
            && (|after| <= capacity <==> |data| <= capacity && |buf| <= capacity)
            && (|after| <= capacity ==> |after| == |Last(capacity, since + data)|)
  {
    var k := |since| - |buf|;
    assert since == since[..k] + buf;
    assert since + data == since[..k] + (buf + data);
  }

  /**
   The buffer always holds an end piece of the stream since the last drain; it
   is exactly the most recent `capacity` bytes if and only if no write since that
   drain was longer than the capacity, and otherwise it has outgrown the capacity.
   */
  lemma {:induction false} HoldsMostRecent(capacity: nat, es: seq<Event>)
    ensures TailOf(Held(capacity, es), Since(es))
    ensures Held(capacity, es) == Last(capacity, Since(es)) <==> FitsSince(capacity, es)
    ensures |Held(capacity, es)| <= capacity <==> FitsSince(capacity, es)
  {
    if es != [] && es[|es| - 1].Put? {
      var before := es[..|es| - 1];
      HoldsMostRecent(capacity, before);
      WriteKeepsTail(capacity, Held(capacity, before), Since(before), es[|es| - 1].data);
    }
  }

  /** A write loses nothing if it finds the buffer empty, already over its capacity, or with room for the data. */
  predicate LosesNothing(capacity: nat, held: nat, n: nat) {
    held == 0 || held > capacity || held + n <= capacity
  }

  /** Every write of the run loses nothing of what was written since the last drain before it. */
  predicate NothingEvicted(capacity: nat, es: seq<Event>) {
    es == [] ||
    var before := es[..|es| - 1];
    && NothingEvicted(capacity, before)
    && (es[|es| - 1].Put? ==> LosesNothing(capacity, |Since(before)|, |es[|es| - 1].data|))
  }

  lemma WriteLoses(capacity: nat, buf: seq<byte>, data: seq<byte>)
    ensures |AfterWrite(capacity, buf, data)| <= |buf + data|
    ensures AfterWrite(capacity, buf, data) == buf + data <==> LosesNothing(capacity, |buf|, |data|)
    ensures |AfterWrite(capacity, buf, data)| == |buf + data| <==> LosesNothing(capacity, |buf|, |data|)
  {
    if buf == [] { assert buf + data == data; }
  }

  /**
   Drains and buffer together are the whole stream, in order, exactly when no write of
   the run evicts anything; otherwise they are shorter, and stay so.
   */
  lemma {:induction false} DrainsLoseNothingIff(capacity: nat, es: seq<Event>)
    ensures Drained(capacity, es) + Held(capacity, es) == Stream(es) <==> NothingEvicted(capacity, es)
    ensures |Drained(capacity, es)| + |Held(capacity, es)| <= |Stream(es)|
    ensures |Drained(capacity, es)| + |Held(capacity, es)| == |Stream(es)| ==> NothingEvicted(capacity, es)
    ensures NothingEvicted(capacity, es) ==> Held(capacity, es) == Since(es)
  {
    if es != [] {
      var before := es[..|es| - 1];
      DrainsLoseNothingIff(capacity, before);
      var out, held := Drained(capacity, before), Held(capacity, before);
      match es[|es| - 1]
      case Put(data) =>
        WriteLoses(capacity, held, data);
        assert Drained(capacity, es) == out;
        assert out + (held + data) == (out + held) + data;
      case Take =>
        assert (out + held) + [] == out + held;
    }
  }
}
