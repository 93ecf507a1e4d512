/**
 Output on its way to the browser: the orchestrator cuts stdout and stderr into
 frames, the terminal buffers frames and writes them out on animation frames, a
 bounded number of bytes at a time, with a synchronous drain when the exit frame
 arrives or the session is cleaned up.
 */
module Streaming {
  import opened Base

  const CHUNK_SIZE: nat := 4096
  const MAX_BYTES_PER_FRAME: nat := 32768

  /** ANSI red, and reset. */
  const RED: seq<byte> := [0x1b, 0x5b, 0x33, 0x31, 0x6d]
  const RESET: seq<byte> := [0x1b, 0x5b, 0x30, 0x6d]

  // ---- Cutting output into frames ---------------------------------------------------------

  function Chunks(s: seq<byte>): seq<seq<byte>>
    decreases |s|
  {
    if s == [] then []
    else
      var n := Min(CHUNK_SIZE, |s|);
      [s[..n]] + Chunks(s[n..])
  }

  /** The chunks are the bytes in order, each of 1 to 4096 bytes and all but the last full. */
  lemma {:induction false} ChunksCover(s: seq<byte>)
    ensures Concat(Chunks(s)) == s
    ensures forall i :: 0 <= i < |Chunks(s)| ==> 1 <= |Chunks(s)[i]| <= 4096
    ensures forall i :: 0 <= i < |Chunks(s)| - 1 ==> |Chunks(s)[i]| == 4096
    decreases |s|
  {
    if s != [] {
      var n := Min(CHUNK_SIZE, |s|);
      ChunksCover(s[n..]);
      assert Chunks(s)[1..] == Chunks(s[n..]);
      assert s == s[..n] + s[n..];
    }
  }

  function Wrapped(chunks: seq<seq<byte>>): (fs: seq<seq<byte>>)
    ensures |fs| == |chunks|
  {
    seq(|chunks|, i requires 0 <= i < |chunks| => RED + chunks[i] + RESET)
  }

  function Frames(stdout: seq<byte>, stderr: seq<byte>): seq<seq<byte>> {
    Chunks(stdout) + Wrapped(Chunks(stderr))
  }

  /** A frame in red: the escape sequence for red, the text, the escape sequence that resets. */
  predicate InRed(frame: seq<byte>) {
    && |frame| >= 9
    && frame[..5] == [0x1b, 0x5b, 0x33, 0x31, 0x6d]
    && frame[|frame| - 4..] == [0x1b, 0x5b, 0x30, 0x6d]
  }

  /** The text of frames in red. */
  function Plain(frames: seq<seq<byte>>): (texts: seq<seq<byte>>)
    requires forall i :: 0 <= i < |frames| ==> InRed(frames[i])
    ensures |texts| == |frames|
  {
    seq(|frames|, i requires 0 <= i < |frames| && InRed(frames[i]) => frames[i][5..|frames[i]| - 4])
  }

  lemma WrappedText(chunks: seq<seq<byte>>)
    ensures forall i :: 0 <= i < |chunks| ==> InRed(Wrapped(chunks)[i]) && |Wrapped(chunks)[i]| == |chunks[i]| + 9
    ensures Plain(Wrapped(chunks)) == chunks
  {
    forall i | 0 <= i < |chunks|
      ensures InRed(Wrapped(chunks)[i]) && Wrapped(chunks)[i][5..|Wrapped(chunks)[i]| - 4] == chunks[i]
    {
      var frame := Wrapped(chunks)[i];
      assert frame == RED + chunks[i] + RESET;
    }
  }

  /**
   The frames are first stdout in pieces of at most 4096 bytes, and then frames in red
   whose text is stderr in such pieces: taking the colours off gives it back byte for byte.
   */
  lemma FramesCarry(stdout: seq<byte>, stderr: seq<byte>) returns (k: nat)
    ensures k == |Chunks(stdout)| <= |Frames(stdout, stderr)| && Concat(Frames(stdout, stderr)[..k]) == stdout
    ensures forall i :: 0 <= i < k ==> 1 <= |Frames(stdout, stderr)[i]| <= 4096
    ensures var red := Frames(stdout, stderr)[k..];
            && (forall i :: 0 <= i < |red| ==> InRed(red[i]) && 10 <= |red[i]| <= 4105)
            && Concat(Plain(red)) == stderr
  {
    k := |Chunks(stdout)|;
    var red := Wrapped(Chunks(stderr));
    assert Frames(stdout, stderr)[..k] == Chunks(stdout) && Frames(stdout, stderr)[k..] == red;
    ChunksCover(stdout);
    ChunksCover(stderr);
    WrappedText(Chunks(stderr));
  }

  function Dressed(wrap: bool, chunks: seq<seq<byte>>): (fs: seq<seq<byte>>)
    ensures |fs| == |chunks|
  {
    if wrap then Wrapped(chunks) else chunks
  }

  /** One of the two loops; the connection accepts `budget` more frames before a write fails. */
  method SendChunks(data: seq<byte>, wrap: bool, budget: nat) returns (sent: seq<seq<byte>>, ok: bool)
    ensures var all := Dressed(wrap, Chunks(data));
            (ok <==> |all| <= budget) && sent == all[..Min(budget, |all|)]
  {
    sent := [];
    ghost var chunks := Chunks(data);
    var i := 0;
    ghost var k := 0;
    assert data[0..] == data;
    while i < |data|
      invariant 0 <= i && 0 <= k <= |chunks| && k <= budget
      invariant Chunks(if i <= |data| then data[i..] else []) == chunks[k..]
      invariant sent == Dressed(wrap, chunks)[..k]
      decreases |data| - i
    {
      var end := i + CHUNK_SIZE;
      if end > |data| {
        end := |data|;
      }
      var frame := data[i..end];
      NextChunk(data, chunks, i, k);
      if wrap {
        frame := RED + frame + RESET;
      }
      if |sent| == budget {
        return sent, false;
      }
      sent := sent + [frame];
      k := k + 1;
      i := i + CHUNK_SIZE;
    }
    assert k == |chunks|;
    ok := true;
  }

  /** The slice the loop takes next is the next chunk, and the rest stays the rest. */
  lemma NextChunk(data: seq<byte>, chunks: seq<seq<byte>>, i: nat, k: nat)
    requires i < |data| && k <= |chunks| && Chunks(data[i..]) == chunks[k..]
    ensures k < |chunks| && chunks[k] == data[i..Min(i + CHUNK_SIZE, |data|)]
    ensures Chunks(if i + CHUNK_SIZE <= |data| then data[i + CHUNK_SIZE..] else []) == chunks[k + 1..]
  {
    var n := Min(CHUNK_SIZE, |data| - i);
    assert data[i..][..n] == data[i..i + n] && data[i..][n..] == data[i + n..];
    assert chunks[k..][1..] == chunks[k + 1..];
  }

  /** Stdout first, then stderr; a failed write ends the stream. */
  method StreamOutput(stdout: seq<byte>, stderr: seq<byte>, budget: nat) returns (sent: seq<seq<byte>>, ok: bool)
    ensures ok <==> |Frames(stdout, stderr)| <= budget
    ensures sent == Frames(stdout, stderr)[..Min(budget, |Frames(stdout, stderr)|)]
  {
    sent, ok := SendChunks(stdout, false, budget);
    if ok && |stderr| > 0 {
      var more;
      more, ok := SendChunks(stderr, true, budget - |sent|);
      sent := sent + more;
    }
  }

  // ---- The terminal -------------------------------------------------------------------------

  /** `ready`: xterm is loaded; `scheduled`: an animation frame is requested. */
  datatype Term = Term(screen: seq<byte>, buffer: seq<seq<byte>>, pending: int, scheduled: bool, ready: bool)

  const Blank := Term([], [], 0, false, false)

  datatype Event =
    | Arrive(data: seq<byte>)  // enqueue
    | Animate                  // the requested animation frame fires flushBuffer
    | Ready                    // xterm has loaded
    | Drain                    // exit frame or cleanup

  /** How many chunks one flush takes: it goes on while the bytes written are below the limit. */
  function FlushCount(buffer: seq<seq<byte>>, written: nat): (n: nat)
    ensures n <= |buffer|
  {
    if buffer == [] || written >= MAX_BYTES_PER_FRAME then 0
    else 1 + FlushCount(buffer[1..], written + |buffer[0]|)
  }

  function Step(t: Term, e: Event): Term {
    match e
    case Arrive(data) => t.(buffer := t.buffer + [data], pending := t.pending + |data|, scheduled := true)
    case Animate =>
      if !t.scheduled then t
      else if !t.ready then t.(scheduled := false)
      else
        var n := FlushCount(t.buffer, 0);
        var out := Concat(t.buffer[..n]);
        t.(screen := t.screen + out, buffer := t.buffer[n..], pending := t.pending - |out|, scheduled := n < |t.buffer|)
    case Ready => t.(ready := true)
    case Drain =>
      Term(t.screen + if t.ready then Concat(t.buffer) else [], [], 0, false, t.ready)
  }

  class Terminal {
    var screen: seq<byte>
    var bufferRef: seq<seq<byte>>
    var pendingBytesRef: int
    var rafRef: bool
    var xtermRef: bool

    ghost function View(): Term
      reads this
    {
      Term(screen, bufferRef, pendingBytesRef, rafRef, xtermRef)
    }

    constructor ()
      ensures View() == Blank
    {
      screen, bufferRef, pendingBytesRef, rafRef, xtermRef := [], [], 0, false, false;
    }

    method Enqueue(data: seq<byte>)
      modifies this
      ensures View() == Step(old(View()), Arrive(data))
    {
      bufferRef := bufferRef + [data];
      pendingBytesRef := pendingBytesRef + |data|;
      if !rafRef {
        rafRef := true;
      }
    }

    method FlushBuffer()
      requires rafRef
      modifies this
      ensures View() == Step(old(View()), Animate)
    {
      rafRef := false;
      if !xtermRef {
        return;
      }
      var written := 0;
      ghost var n := FlushCount(bufferRef, 0);
      ghost var k := 0;
      while |bufferRef| > 0 && written < MAX_BYTES_PER_FRAME
        invariant 0 <= k <= n && bufferRef == old(bufferRef)[k..] && written >= 0
        invariant n == k + FlushCount(bufferRef, written)
        invariant screen == old(screen) + Concat(old(bufferRef)[..k])
        invariant pendingBytesRef == old(pendingBytesRef) - |Concat(old(bufferRef)[..k])|
        invariant !rafRef && xtermRef
        decreases |bufferRef|
      {
        var chunk := bufferRef[0];
        bufferRef := bufferRef[1..];
        screen := screen + chunk;
        written := written + |chunk|;
        pendingBytesRef := pendingBytesRef - |chunk|;
        assert old(bufferRef)[..k + 1] == old(bufferRef)[..k] + [chunk];
        ConcatAdd(old(bufferRef)[..k], [chunk]);
        ConcatOne(chunk);
        k := k + 1;
      }
      if |bufferRef| > 0 {
        rafRef := true;
      }
    }

    method DrainAll()
      modifies this
      ensures View() == Step(old(View()), Drain)
    {
      if rafRef {
        rafRef := false;
      }
      if xtermRef {
        for i := 0 to |bufferRef|
          invariant bufferRef == old(bufferRef) && !rafRef && xtermRef == old(xtermRef)
          invariant screen == old(screen) + Concat(bufferRef[..i])
        {
          screen := screen + bufferRef[i];
          assert bufferRef[..i + 1] == bufferRef[..i] + [bufferRef[i]];
          ConcatAdd(bufferRef[..i], [bufferRef[i]]);
          ConcatOne(bufferRef[i]);
        }
        assert bufferRef[..|bufferRef|] == bufferRef;
      }
      bufferRef := [];
      pendingBytesRef := 0;
    }
  }

  // ---- Every schedule ------------------------------------------------------------------------

  function Run(t: Term, es: seq<Event>): Term {
    if es == [] then t else Step(Run(t, es[..|es| - 1]), es[|es| - 1])
  }

  /** The frames that arrived, in order. */
  function Arrived(es: seq<Event>): seq<seq<byte>> {
    if es == [] then []
    else Arrived(es[..|es| - 1]) + if es[|es| - 1].Arrive? then [es[|es| - 1].data] else []
  }

  /** Screen and buffer together are what arrived; the pending count is exact; nothing waits unscheduled. */
  ghost predicate Kept(t: Term, arrived: seq<seq<byte>>) {
    && t.ready
    && t.screen + Concat(t.buffer) == Concat(arrived)
    && t.pending == |Concat(t.buffer)|
    && (t.buffer != [] ==> t.scheduled)
  }

  lemma StepKept(t: Term, e: Event, arrived: seq<seq<byte>>)
    requires Kept(t, arrived)
    ensures Kept(Step(t, e), arrived + if e.Arrive? then [e.data] else [])
  {
    match e
    case Arrive(data) =>
      ConcatAdd(arrived, [data]);
      ConcatAdd(t.buffer, [data]);
      ConcatOne(data);
      assert t.screen + (Concat(t.buffer) + data) == t.screen + Concat(t.buffer) + data;
    case Animate =>
      assert arrived + [] == arrived;
      if t.scheduled {
        FrontMoves(t.screen, t.buffer, FlushCount(t.buffer, 0));
      }
    case Ready => assert arrived + [] == arrived;
    case Drain => assert arrived + [] == arrived;
  }

  /** Under every schedule of arrivals, animation frames and drains with xterm loaded, no byte is lost or reordered. */
  lemma {:induction false} RunKept(es: seq<Event>)
    ensures Kept(Run(Blank.(ready := true), es), Arrived(es))
  {
    if es != [] {
      RunKept(es[..|es| - 1]);
      StepKept(Run(Blank.(ready := true), es[..|es| - 1]), es[|es| - 1], Arrived(es[..|es| - 1]));
    }
  }

  /** One animation frame writes less than the limit plus one chunk, and stops only for the limit or an empty buffer. */
  lemma {:induction false} FlushBounded(buffer: seq<seq<byte>>, written: nat)
    ensures var n := FlushCount(buffer, written);
            && (n > 0 ==> written + |Concat(buffer[..n - 1])| < 32768)
            && (n < |buffer| ==> written + |Concat(buffer[..n])| >= 32768)
    decreases |buffer|
  {
    var n := FlushCount(buffer, written);
    if n > 0 {
      FlushBounded(buffer[1..], written + |buffer[0]|);
      assert buffer[..n][1..] == buffer[1..][..n - 1];
      if n > 1 { assert buffer[..n - 1][1..] == buffer[1..][..n - 2]; }
    }
  }

  /**
   With xterm loaded an animation frame writes a front piece of the buffer: enough to
   reach 32768 bytes or all of it, and no chunk after the limit is reached. It asks for
   another frame exactly when something is left.
   */
  lemma AnimateWrites(t: Term) returns (n: nat)
    requires t.ready && t.scheduled
    ensures n <= |t.buffer| && (t.buffer != [] ==> n >= 1)
    ensures n > 0 ==> |Concat(t.buffer[..n - 1])| < 32768
    ensures n < |t.buffer| ==> |Concat(t.buffer[..n])| >= 32768
    ensures var after := Step(t, Animate);
            && after.screen == t.screen + Concat(t.buffer[..n]) && after.buffer == t.buffer[n..]
            && after.pending == t.pending - |Concat(t.buffer[..n])|
            && (after.scheduled <==> after.buffer != []) && after.ready
  {
    n := FlushCount(t.buffer, 0);
    FlushBounded(t.buffer, 0);
  }

  /** A frame keeps screen and buffer together what they are, and shortens the buffer. */
  lemma AnimateProgress(t: Term)
    requires t.ready && (t.buffer != [] ==> t.scheduled)
    ensures var after := Step(t, Animate);
            && after.ready && (after.buffer != [] ==> after.scheduled)
            && after.screen + Concat(after.buffer) == t.screen + Concat(t.buffer)
            && (|after.buffer| < |t.buffer| || t.buffer == [] == after.buffer)
  {
    if t.scheduled {
      var n := AnimateWrites(t);
      FrontMoves(t.screen, t.buffer, n);
    }
  }

  lemma FrontMoves(screen: seq<byte>, buffer: seq<seq<byte>>, n: nat)
    requires n <= |buffer|
    ensures (screen + Concat(buffer[..n])) + Concat(buffer[n..]) == screen + Concat(buffer)
  {
    assert buffer == buffer[..n] + buffer[n..];
    ConcatAdd(buffer[..n], buffer[n..]);
    Associates(screen, Concat(buffer[..n]), Concat(buffer[n..]));
  }

  lemma Associates(a: seq<byte>, b: seq<byte>, c: seq<byte>)
    ensures (a + b) + c == a + (b + c)
  {
  }

  /** As many frames as there are chunks show everything, without a drain. */
  lemma {:induction false} FramesShowAll(t: Term, es: seq<Event>)
    requires t.ready && (t.buffer != [] ==> t.scheduled)
    requires |es| >= |t.buffer| && forall k :: 0 <= k < |es| ==> es[k] == Animate
    ensures Run(t, es).buffer == [] && Run(t, es).screen == t.screen + Concat(t.buffer)
    decreases |es|
  {
    if es == [] {
      assert t.screen + [] == t.screen;
    } else {
      AnimateProgress(t);
      RunFirst(t, es);
      FramesShowAll(Step(t, Animate), es[1..]);
    }
  }

  lemma {:induction false} RunFirst(t: Term, es: seq<Event>)
    requires es != []
    ensures Run(t, es) == Run(Step(t, es[0]), es[1..])
    decreases |es|
  {
    if |es| > 1 {
      RunFirst(t, es[..|es| - 1]);
      assert es[..|es| - 1][1..] == es[1..][..|es| - 2];
    } else {
      assert es[..0] == [] && es[1..] == [];
    }
  }

  /**
   From the server's buffers to the screen: after the drain it shows stdout, then frames
   in red whose text is stderr.
   */
  lemma EndToEnd(es: seq<Event>, stdout: seq<byte>, stderr: seq<byte>) returns (red: seq<seq<byte>>)
    requires Arrived(es) == Frames(stdout, stderr)
    ensures Step(Run(Blank.(ready := true), es), Drain).screen == stdout + Concat(red)
    ensures red == Wrapped(Chunks(stderr))
    ensures forall i :: 0 <= i < |red| ==> InRed(red[i])
    ensures Concat(Plain(red)) == stderr
  {
    RunKept(es);
    var k := FramesCarry(stdout, stderr);
    var frames := Frames(stdout, stderr);
    red := frames[k..];
    assert frames == frames[..k] + red;
    ConcatAdd(frames[..k], red);
  }

  // ---- Before xterm is loaded -----------------------------------------------------------------

  /** Bytes thrown away by drains that came before xterm was loaded. */
  function Discarded(es: seq<Event>): nat {
    if es == [] then 0
    else
      var t := Run(Blank, es[..|es| - 1]);
      Discarded(es[..|es| - 1]) + if es[|es| - 1].Drain? && !t.ready then |Concat(t.buffer)| else 0
  }

  ghost function Shown(t: Term): seq<byte> {
    t.screen + Concat(t.buffer)
  }

  lemma StepShown(t: Term, e: Event)
    ensures var out := if e.Drain? && !t.ready then t.screen else Shown(t);
            Shown(Step(t, e)) == out + if e.Arrive? then e.data else []
  {
    match e
    case Arrive(data) =>
      ConcatAdd(t.buffer, [data]);
      ConcatOne(data);
      assert t.screen + (Concat(t.buffer) + data) == t.screen + Concat(t.buffer) + data;
    case Animate =>
      if t.scheduled && t.ready {
        FrontMoves(t.screen, t.buffer, FlushCount(t.buffer, 0));
      }
      assert Shown(t) + [] == Shown(t);
    case Ready => assert Shown(t) + [] == Shown(t);
    case Drain => assert Shown(t) + [] == Shown(t);
  }

  /** Whenever xterm loads: all that arrived is on screen or buffered, in order, exactly when nothing was discarded. */
  lemma {:induction false} ShownIff(es: seq<Event>)
    ensures |Shown(Run(Blank, es))| + Discarded(es) == |Concat(Arrived(es))|
    ensures Shown(Run(Blank, es)) == Concat(Arrived(es)) <==> Discarded(es) == 0
  {
    if es != [] {
      var before, e := es[..|es| - 1], es[|es| - 1];
      var t := Run(Blank, before);
      ShownIff(before);
      StepShown(t, e);
      ConcatAdd(Arrived(before), if e.Arrive? then [e.data] else []);
      if e.Arrive? { ConcatOne(e.data); }
    }
  }

  /** The `j`-th event is an arrival with no drain after it. */
  ghost predicate Undrained(es: seq<Event>, j: nat) {
    j < |es| && es[j].Arrive? && forall i :: j < i < |es| ==> !es[i].Drain?
  }

  ghost predicate Loaded(es: seq<Event>) {
    exists i :: 0 <= i < |es| && es[i].Ready?
  }

  /**
   At the `k`-th event an animation frame fires before xterm is loaded, with the `j`-th
   event's bytes waiting; no drain takes them away, and nothing arrives to ask for
   another frame.
   */
  ghost predicate Missed(es: seq<Event>, j: nat, k: nat) {
    && j < k < |es| && Undrained(es, j)
    && es[k].Animate? && !Loaded(es[..k])
    && forall i :: k < i < |es| ==> !es[i].Arrive?
  }

  ghost predicate Stalled(es: seq<Event>) {
    exists j, k :: Missed(es, j, k)
  }

  lemma LoadedSnoc(es: seq<Event>)
    requires es != []
    ensures Loaded(es) <==> Loaded(es[..|es| - 1]) || es[|es| - 1].Ready?
  {
    var before := es[..|es| - 1];
    if Loaded(before) {
      var i :| 0 <= i < |before| && before[i].Ready?;
      assert es[i].Ready?;
    }
  }

  lemma UndrainedSnoc(es: seq<Event>, j: nat)
    requires es != []
    ensures Undrained(es, j) <==>
      if j == |es| - 1 then es[j].Arrive? else Undrained(es[..|es| - 1], j) && !es[|es| - 1].Drain?
  {
    var before := es[..|es| - 1];
    if j < |before| && Undrained(es, j) {
      forall i | j < i < |before| ensures !before[i].Drain? { assert !es[i].Drain?; }
    }
  }

  /** Until xterm loads, the buffer is what arrived since the last drain. */
  lemma {:induction false} BeforeReady(es: seq<Event>)
    ensures Run(Blank, es).ready <==> Loaded(es)
    ensures !Loaded(es) ==> (Run(Blank, es).buffer != [] <==> exists j :: Undrained(es, j))
  {
    if es != [] {
      var before, last := es[..|es| - 1], |es| - 1;
      BeforeReady(before);
      LoadedSnoc(es);
      UndrainedSnoc(es, last);
      forall j: nat ensures Undrained(es, j) <==>
        if j == last then es[j].Arrive? else Undrained(before, j) && !es[last].Drain?
      {
        UndrainedSnoc(es, j);
      }
    }
  }

  lemma MissedSnoc(es: seq<Event>, j: nat, k: nat)
    requires es != []
    ensures Missed(es, j, k) <==>
      var before, e := es[..|es| - 1], es[|es| - 1];
      if k == |es| - 1 then e.Animate? && !Loaded(before) && Undrained(before, j)
      else Missed(before, j, k) && !e.Drain? && !e.Arrive?
  {
    var before, e := es[..|es| - 1], es[|es| - 1];
    UndrainedSnoc(es, j);
    if k < |es| - 1 {
      assert before[..k] == es[..k];
      if Missed(es, j, k) {
        forall i | k < i < |before| ensures !before[i].Arrive? { assert !es[i].Arrive?; }
        assert !es[|es| - 1].Arrive?;
      }
    }
  }

  /** In every run, bytes wait in the buffer with no flush requested exactly when a frame fired too early for them. */
  lemma {:induction false} StalledIff(es: seq<Event>)
    ensures Run(Blank, es).buffer != [] && !Run(Blank, es).scheduled <==> Stalled(es)
  {
    if es != [] {
      var before, e, last := es[..|es| - 1], es[|es| - 1], |es| - 1;
      StalledIff(before);
      BeforeReady(before);
      forall j: nat, k: nat ensures Missed(es, j, k) <==>
        if k == last then e.Animate? && !Loaded(before) && Undrained(before, j)
        else Missed(before, j, k) && !e.Drain? && !e.Arrive?
      {
        MissedSnoc(es, j, k);
      }
      if e.Animate? && !Loaded(before) && exists j :: Undrained(before, j) {
        var j :| Undrained(before, j);
        assert Missed(es, j, last);
      }
      if !e.Drain? && !e.Arrive? && Stalled(before) {
        var j, k :| Missed(before, j, k);
        assert Missed(es, j, k);
      }
    }
  }

  /** One such run: a frame that fires before xterm is loaded forgets the schedule, and loading does not renew it. */
  lemma UnscheduledBeforeReady(data: seq<byte>)
    ensures var early := Step(Step(Step(Blank, Arrive(data)), Animate), Ready);
            early.ready && early.buffer == [data] && !early.scheduled && Step(early, Animate) == early
  {
  }

  /** The `j`-th event brings bytes. */
  predicate Brings(es: seq<Event>, j: nat) {
    j < |es| && es[j].Arrive? && es[j].data != []
  }

  /** Bytes arrive, and later a drain comes while xterm is still not loaded. */
  ghost predicate DrainedEarly(es: seq<Event>, j: nat, k: nat) {
    j < k < |es| && Brings(es, j) && es[k].Drain? && !Loaded(es[..k])
  }

  lemma {:induction false} SomeArrived(es: seq<Event>)
    ensures Concat(Arrived(es)) != [] <==> exists j :: Brings(es, j)
  {
    if es != [] {
      var before, e, last := es[..|es| - 1], es[|es| - 1], |es| - 1;
      SomeArrived(before);
      ConcatAdd(Arrived(before), if e.Arrive? then [e.data] else []);
      if e.Arrive? { ConcatOne(e.data); }
      forall j: nat ensures Brings(es, j) <==> Brings(before, j) || (j == last && e.Arrive? && e.data != []) {}
      assert Brings(es, last) <==> e.Arrive? && e.data != [];
    }
  }

  lemma {:induction false} NothingShownEarly(es: seq<Event>)
    requires !Loaded(es)
    ensures Run(Blank, es).screen == []
  {
    if es != [] {
      LoadedSnoc(es);
      NothingShownEarly(es[..|es| - 1]);
      BeforeReady(es[..|es| - 1]);
    }
  }

  lemma DrainedEarlySnoc(es: seq<Event>, j: nat, k: nat)
    requires es != []
    ensures var before, e := es[..|es| - 1], es[|es| - 1];
            DrainedEarly(es, j, k) <==>
              if k == |es| - 1 then Brings(before, j) && e.Drain? && !Loaded(before) else DrainedEarly(before, j, k)
  {
    if k < |es| - 1 { assert es[..|es| - 1][..k] == es[..k]; }
  }

  /** A drain before xterm is loaded throws bytes away that no earlier drain did, or there were none at all. */
  lemma EarlyDrain(es: seq<Event>)
    requires !Loaded(es)
    ensures Discarded(es) + |Concat(Run(Blank, es).buffer)| > 0 <==> exists j :: Brings(es, j)
  {
    NothingShownEarly(es);
    ShownIff(es);
    SomeArrived(es);
  }

  /** Bytes are thrown away exactly when some arrived and a drain followed before xterm was loaded. */
  lemma {:induction false} DiscardedIff(es: seq<Event>)
    ensures Discarded(es) > 0 <==> exists j, k :: DrainedEarly(es, j, k)
  {
    if es != [] {
      var before, e, last := es[..|es| - 1], es[|es| - 1], |es| - 1;
      DiscardedIff(before);
      BeforeReady(before);
      forall j: nat, k: nat ensures DrainedEarly(es, j, k) <==>
        if k == last then Brings(before, j) && e.Drain? && !Loaded(before) else DrainedEarly(before, j, k)
      {
        DrainedEarlySnoc(es, j, k);
      }
      if Discarded(before) > 0 {
        var j, k :| DrainedEarly(before, j, k);
        assert DrainedEarly(es, j, k);
      }
      if e.Drain? && !Loaded(before) {
        EarlyDrain(before);
        if j :| Brings(before, j) { assert DrainedEarly(es, j, last); }
      }
    }
  }
}
