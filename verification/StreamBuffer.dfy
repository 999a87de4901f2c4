// The splitter of src/Util/StreamBuffer.cpp, which cuts a byte stream that
// arrives in chunks into frames of one fixed length, each opened by a header.

module FrameSpec {
  import opened Bytes

  predicate HeadAt(head: seq<Byte>, s: seq<Byte>) {
    |head| <= |s| && s[..|head|] == head
  }

  /** The header is at the start if and only if every byte of it is. */
  lemma HeadAtIff(head: seq<Byte>, s: seq<Byte>)
    ensures HeadAt(head, s) <==> |head| <= |s| && forall j | 0 <= j < |head| :: s[j] == head[j]
  {
    if |head| <= |s| && forall j | 0 <= j < |head| :: s[j] == head[j] {
      assert s[..|head|] == head;
    }
    if HeadAt(head, s) {
      assert forall j | 0 <= j < |head| :: s[j] == s[..|head|][j];
    }
  }

  /**
   * The frames in a whole stream: skip to the next header, take n bytes, go on
   * behind them.  A header with fewer than n bytes behind it ends the scan.
   */
  function Frames(head: seq<Byte>, n: nat, s: seq<Byte>): seq<seq<Byte>>
    requires n > 0
    decreases |s|
  {
    if s == [] then []
    else if !HeadAt(head, s) then Frames(head, n, s[1..])
    else if n <= |s| then [s[..n]] + Frames(head, n, s[n..])
    else []
  }

  /** Every frame has the fixed length and, when the header fits in it, opens with the header. */
  lemma {:induction false} FramesOpenWithHead(head: seq<Byte>, n: nat, s: seq<Byte>)
    requires n > 0
    ensures forall f | f in Frames(head, n, s) :: |f| == n && (|head| <= n ==> HeadAt(head, f))
    ensures forall f, j | f in Frames(head, n, s) && 0 <= j < |head| && j < n :: f[j] == head[j]
    decreases |s|
  {
    if s == [] {
    } else if !HeadAt(head, s) {
      FramesOpenWithHead(head, n, s[1..]);
    } else if n <= |s| {
      FramesOpenWithHead(head, n, s[n..]);
      if |head| <= n {
        assert s[..n][..|head|] == s[..|head|];
      }
      forall j | 0 <= j < |head| && j < n
        ensures s[..n][j] == head[j]
      {
        assert s[..|head|][j] == head[j];
      }
    }
  }

  /**
   * Whatever follows, the frames of the stream are those already handed out and
   * then those of the window.
   */
  ghost predicate Splits(head: seq<Byte>, n: nat, stream: seq<Byte>, emitted: seq<seq<Byte>>, window: seq<Byte>)
    requires n > 0
  {
    forall x: seq<Byte> :: Frames(head, n, stream + x) == emitted + Frames(head, n, window + x)
  }

  lemma FramesSkip(head: seq<Byte>, n: nat, w: seq<Byte>, x: seq<Byte>)
    requires n > 0 && w != [] && |head| <= |w| && !HeadAt(head, w)
    ensures Frames(head, n, w + x) == Frames(head, n, w[1..] + x)
  {
    assert (w + x)[..|head|] == w[..|head|];
    assert (w + x)[1..] == w[1..] + x;
  }

  lemma FramesTake(head: seq<Byte>, n: nat, w: seq<Byte>, x: seq<Byte>)
    requires n > 0 && n <= |w| && HeadAt(head, w)
    ensures Frames(head, n, w + x) == [w[..n]] + Frames(head, n, w[n..] + x)
  {
    assert (w + x)[..|head|] == w[..|head|];
    assert (w + x)[..n] == w[..n];
    assert (w + x)[n..] == w[n..] + x;
  }

  /** A position whose header is known to be missing can be dropped. */
  lemma SplitsSkip(head: seq<Byte>, n: nat, stream: seq<Byte>, emitted: seq<seq<Byte>>, window: seq<Byte>)
    requires n > 0 && Splits(head, n, stream, emitted, window)
    requires window != [] && |head| <= |window| && !HeadAt(head, window)
    ensures Splits(head, n, stream, emitted, window[1..])
    ensures Frames(head, n, window) == Frames(head, n, window[1..])
  {
    hide Frames, HeadAt;
    forall x: seq<Byte>
      ensures Frames(head, n, stream + x) == emitted + Frames(head, n, window[1..] + x)
    {
      FramesSkip(head, n, window, x);
    }
    FramesSkip(head, n, window, []);
    assert window + [] == window && window[1..] + [] == window[1..];
  }

  lemma SplitsTake(head: seq<Byte>, n: nat, stream: seq<Byte>, emitted: seq<seq<Byte>>, window: seq<Byte>)
    requires n > 0 && Splits(head, n, stream, emitted, window)
    requires HeadAt(head, window) && n <= |window|
    ensures Splits(head, n, stream, emitted + [window[..n]], window[n..])
    ensures Frames(head, n, window) == [window[..n]] + Frames(head, n, window[n..])
  {
    hide Frames, HeadAt;
    var frame := window[..n];
    forall x: seq<Byte>
      ensures Frames(head, n, stream + x) == emitted + [frame] + Frames(head, n, window[n..] + x)
    {
      FramesTake(head, n, window, x);
      Associate(emitted, [frame], Frames(head, n, window[n..] + x));
    }
    FramesTake(head, n, window, []);
    assert window + [] == window && window[n..] + [] == window[n..];
  }

  lemma SplitsAppend(head: seq<Byte>, n: nat, stream: seq<Byte>, emitted: seq<seq<Byte>>, window: seq<Byte>,
                     data: seq<Byte>)
    requires n > 0 && Splits(head, n, stream, emitted, window)
    ensures Splits(head, n, stream + data, emitted, window + data)
  {
    hide Frames;
    forall x: seq<Byte>
      ensures Frames(head, n, stream + data + x) == emitted + Frames(head, n, window + data + x)
    {
      Associate(stream, data, x);
      Associate(window, data, x);
    }
  }

  lemma Associate<T>(a: seq<T>, b: seq<T>, c: seq<T>)
    ensures a + b + c == a + (b + c)
  {
  }

  lemma SplitsWhole(head: seq<Byte>, n: nat, stream: seq<Byte>, emitted: seq<seq<Byte>>, window: seq<Byte>)
    requires n > 0 && Splits(head, n, stream, emitted, window)
    ensures Frames(head, n, stream) == emitted + Frames(head, n, window)
  {
    assert stream + [] == stream && window + [] == window;
  }

  // ---- The bytes that are kept ----

  /** The window after a search: from the next header on, or what is too short for one. */
  function Searched(head: seq<Byte>, w: seq<Byte>): seq<Byte> {
    if |w| < |head| || w == [] || HeadAt(head, w) then w else Searched(head, w[1..])
  }

  /**
   * What is left of a window when its frames have been taken out.  No search is made
   * in fewer than n bytes.
   */
  function Residue(head: seq<Byte>, n: nat, w: seq<Byte>): seq<Byte>
    requires n > 0
    decreases |w|
  {
    if |w| < n then w
    else
      var v := Searched(head, w);
      SearchedIsShorter(head, w);
      if |v| < n || !HeadAt(head, v) then v else Residue(head, n, v[n..])
  }

  lemma SearchedStep(head: seq<Byte>, w: seq<Byte>)
    ensures |w| < |head| || HeadAt(head, w) ==> Searched(head, w) == w
    ensures |w| >= |head| > 0 && !HeadAt(head, w) ==> Searched(head, w) == Searched(head, w[1..])
  {
  }

  lemma ResidueStep(head: seq<Byte>, n: nat, w: seq<Byte>)
    requires n > 0
    ensures |w| < n ==> Residue(head, n, w) == w
    ensures var v := Searched(head, w);
      |w| >= n && (|v| < n || |v| < |head|) ==> Residue(head, n, w) == v
    ensures var v := Searched(head, w);
      |w| >= n && |v| >= n && HeadAt(head, v) ==> Residue(head, n, w) == Residue(head, n, v[n..])
  {
  }

  lemma {:induction false} SearchedIsShorter(head: seq<Byte>, w: seq<Byte>)
    ensures |Searched(head, w)| <= |w|
  {
    if !(|w| < |head| || w == [] || HeadAt(head, w)) {
      SearchedIsShorter(head, w[1..]);
    }
  }

  /** A residue is too short for a frame or for a header. */
  lemma {:induction false} ResidueIsShort(head: seq<Byte>, n: nat, w: seq<Byte>)
    requires n > 0
    ensures |Residue(head, n, w)| < n || |Residue(head, n, w)| < |head|
    decreases |w|
  {
    if |w| >= n {
      var v := Searched(head, w);
      SearchedIsShorter(head, w);
      SearchedStops(head, w);
      if |v| >= n && HeadAt(head, v) {
        ResidueIsShort(head, n, v[n..]);
      }
    }
  }

  lemma {:induction false} SearchedStops(head: seq<Byte>, w: seq<Byte>)
    ensures HeadAt(head, Searched(head, w)) || |Searched(head, w)| < |head|
  {
    if !(|w| < |head| || w == [] || HeadAt(head, w)) {
      SearchedStops(head, w[1..]);
    }
  }

  /**
   * What is kept depends on how the stream was cut: without a header in it, a window
   * of a frame's length is searched through and a shorter one is not.
   */
  lemma ResidueDependsOnCut(a: Byte, b: Byte)
    requires a != b
    ensures Residue([a], 2, Residue([a], 2, [b]) + [b]) == []
    ensures Residue([a], 2, Residue([a], 2, [b, b]) + [b]) == [b]
    ensures Residue([a], 2, [b, b, b]) == []
  {
    assert [b] + [b] == [b, b] && [] + [b] == [b];
    assert [b][..1][0] == b && [b, b][..1][0] == b && [b, b, b][..1][0] == b;
    assert [b, b, b][1..] == [b, b] && [b, b][1..] == [b] && [b][1..] == [];
    assert Searched([a], []) == [] && Searched([a], [b]) == [];
    assert Searched([a], [b, b]) == [] && Searched([a], [b, b, b]) == [];
    hide Searched;
  }

  /** Too few bytes for a header or for a frame: no frame yet. */
  lemma {:induction false} ShortHasNoFrame(head: seq<Byte>, n: nat, s: seq<Byte>)
    requires n > 0 && (|s| < n || |s| < |head|)
    ensures Frames(head, n, s) == []
  {
    if s != [] && !HeadAt(head, s) {
      ShortHasNoFrame(head, n, s[1..]);
    }
  }
}

module StreamBuffer {
  import opened Bytes
  import opened FrameSpec

  const MAX_BUFFER_LEN: int := 1024 * 80

  /** The bytes that append takes in: it drops a chunk as long as the whole buffer. */
  function Taken(chunk: seq<Byte>): seq<Byte> {
    if |chunk| < MAX_BUFFER_LEN then chunk else []
  }

  lemma TakenIff(chunk: seq<Byte>)
    ensures Taken(chunk) == if |chunk| >= 81920 then [] else chunk
  {
  }

  /** The stream that a row of chunks makes up. */
  function Stream(chunks: seq<seq<Byte>>): seq<Byte> {
    if chunks == [] then [] else Stream(chunks[..|chunks| - 1]) + Taken(chunks[|chunks| - 1])
  }

  /** What the buffer keeps after receiving the chunks and draining after each, from window w. */
  function Kept(head: seq<Byte>, n: nat, w: seq<Byte>, chunks: seq<seq<Byte>>): seq<Byte>
    requires n > 0
  {
    if chunks == [] then w
    else Residue(head, n, Kept(head, n, w, chunks[..|chunks| - 1]) + Taken(chunks[|chunks| - 1]))
  }

  /** Every chunk fits behind what is kept of the ones before it. */
  predicate Fit(head: seq<Byte>, n: nat, w: seq<Byte>, chunks: seq<seq<Byte>>)
    requires n > 0
  {
    forall i | 0 <= i < |chunks| :: |Kept(head, n, w, chunks[..i])| + |Taken(chunks[i])| <= MAX_BUFFER_LEN
  }

  lemma StreamSnoc(chunks: seq<seq<Byte>>, i: nat)
    requires i < |chunks|
    ensures Stream(chunks[..i + 1]) == Stream(chunks[..i]) + Taken(chunks[i])
  {
    assert chunks[..i + 1][..i] == chunks[..i];
  }

  lemma KeptSnoc(head: seq<Byte>, n: nat, w: seq<Byte>, chunks: seq<seq<Byte>>, i: nat)
    requires n > 0
    ensures Kept(head, n, w, []) == w
    ensures i < |chunks| ==>
      Kept(head, n, w, chunks[..i + 1]) == Residue(head, n, Kept(head, n, w, chunks[..i]) + Taken(chunks[i]))
  {
    if i < |chunks| {
      assert chunks[..i + 1][..i] == chunks[..i];
    }
  }

  lemma FitAt(head: seq<Byte>, n: nat, w: seq<Byte>, chunks: seq<seq<Byte>>, i: nat)
    requires n > 0 && i < |chunks| && Fit(head, n, w, chunks)
    ensures |Kept(head, n, w, chunks[..i])| + |Taken(chunks[i])| <= MAX_BUFFER_LEN
  {
  }

  lemma {:induction false} KeptIsShort(head: seq<Byte>, n: nat, w: seq<Byte>, chunks: seq<seq<Byte>>)
    requires n > 0 && (|w| < n || |w| < |head|)
    ensures |Kept(head, n, w, chunks)| < n || |Kept(head, n, w, chunks)| < |head|
  {
    if chunks != [] {
      var most := chunks[..|chunks| - 1];
      ResidueIsShort(head, n, Kept(head, n, w, most) + Taken(chunks[|chunks| - 1]));
    }
  }

  /** Chunks that leave room for the longest residue fit, whatever their contents. */
  lemma ShortChunksFit(head: seq<Byte>, n: nat, w: seq<Byte>, chunks: seq<seq<Byte>>)
    requires n > 0 && (|w| < n || |w| < |head|)
    requires forall c | c in chunks :: |c| + n <= MAX_BUFFER_LEN + 1 && |c| + |head| <= MAX_BUFFER_LEN + 1
    ensures Fit(head, n, w, chunks)
  {
    forall i | 0 <= i < |chunks|
      ensures |Kept(head, n, w, chunks[..i])| + |Taken(chunks[i])| <= MAX_BUFFER_LEN
    {
      KeptIsShort(head, n, w, chunks[..i]);
    }
  }

  /** Where append's copy ends: behind the window, which is moved to the front if need be. */
  function CopyEnd(startPos: int, endPos: int, dataLen: int): int {
    if MAX_BUFFER_LEN - endPos >= dataLen then endPos + dataLen else endPos - startPos + dataLen
  }

  /** The copy stays in the buffer if and only if the chunk fits behind the bytes kept. */
  lemma CopyOverrunsIffNotFits(startPos: int, endPos: int, dataLen: int)
    requires 0 <= startPos <= endPos <= MAX_BUFFER_LEN && 0 <= dataLen
    ensures CopyEnd(startPos, endPos, dataLen) > MAX_BUFFER_LEN <==> endPos - startPos + dataLen > MAX_BUFFER_LEN
  {
  }

  class StreamBuffer {
    var head: seq<Byte> // m_head[..m_headValidLen]
    var frameLen: int
    const dataBuffer: array<Byte>
    var startPos: int
    var endPos: int
    const totalBufferLen: int := MAX_BUFFER_LEN
    ghost var stream: seq<Byte> // every byte accepted so far
    ghost var emitted: seq<seq<Byte>> // every frame handed out so far

    ghost predicate InRange()
      reads this
    {
      dataBuffer.Length == totalBufferLen && 0 <= startPos <= endPos <= totalBufferLen && frameLen > 0
    }

    ghost function Window(): seq<Byte>
      requires InRange()
      reads this, dataBuffer
    {
      dataBuffer[startPos..endPos]
    }

    ghost predicate Valid()
      reads this, dataBuffer
    {
      InRange() && Splits(head, frameLen, stream, emitted, Window())
    }

    /** Nothing is left to hand out: the window is too short for a frame or for a header. */
    ghost predicate Drained()
      reads this, dataBuffer
    {
      Valid() && (|Window()| < frameLen || |Window()| < |head|)
    }

    /** A buffer after a successful init. */
    constructor (header: seq<Byte>, length: int)
      requires length > 0
      ensures Drained() && fresh(dataBuffer) && head == header && frameLen == length
      ensures stream == [] && emitted == []
    {
      head, frameLen, startPos, endPos := header, length, 0, 0;
      dataBuffer := new Byte[MAX_BUFFER_LEN](_ => 0);
      stream, emitted := [], [];
    }

    /** memcpy to the end of the window. */
    method CopyIn(data: seq<Byte>)
      requires InRange() && endPos + |data| <= totalBufferLen
      modifies this`endPos, dataBuffer
      ensures InRange() && Window() == old(Window()) + data && endPos == old(endPos) + |data|
    {
      forall i | 0 <= i < |data| {
        dataBuffer[endPos + i] := data[i];
      }
      endPos := endPos + |data|;
      assert dataBuffer[startPos..endPos] == old(dataBuffer[startPos..endPos]) + data;
    }

    /** memmove of the window to the front of the buffer. */
    method Compact()
      requires InRange()
      modifies this`startPos, this`endPos, dataBuffer
      ensures InRange() && startPos == 0 && Window() == old(Window())
    {
      var count := endPos - startPos;
      if 0 < count {
        forall i | 0 <= i < count {
          dataBuffer[i] := dataBuffer[startPos + i];
        }
        endPos := count;
        startPos := 0;
        assert dataBuffer[..count] == old(dataBuffer[startPos..endPos]);
      } else {
        startPos := 0;
        endPos := 0;
      }
    }

    /** Compacts if the chunk does not fit behind the window. */
    method MakeRoom(dataLen: int)
      requires InRange() && 0 <= dataLen
      modifies this`startPos, this`endPos, dataBuffer
      ensures InRange() && Window() == old(Window()) && endPos + dataLen == old(CopyEnd(startPos, endPos, dataLen))
    {
      var remain := totalBufferLen - endPos;
      if remain < dataLen {
        Compact();
      }
    }

    /**
     * Takes in a chunk; one as long as the whole buffer is dropped.  The source does
     * not check that a chunk fits behind the bytes it keeps, which is what keeps the
     * copy inside the buffer (CopyOverrunsIffNotFits).
     */
    method Append(data: seq<Byte>)
      requires Valid()
      requires |data| < totalBufferLen ==> CopyEnd(startPos, endPos, |data|) <= totalBufferLen
      modifies this`startPos, this`endPos, this`stream, dataBuffer
      ensures Valid()
      ensures stream == old(stream) + Taken(data) && Window() == old(Window()) + Taken(data)
      ensures |data| < totalBufferLen ==> endPos == old(CopyEnd(startPos, endPos, |data|))
    {
      hide Splits, Frames, Taken, CopyEnd;
      TakenIff(data);
      if |data| >= totalBufferLen {
        assert stream + [] == stream && Window() + [] == Window();
        return;
      }
      CopyChunk(data);
    }

    method CopyChunk(data: seq<Byte>)
      requires Valid() && CopyEnd(startPos, endPos, |data|) <= totalBufferLen
      modifies this`startPos, this`endPos, this`stream, dataBuffer
      ensures Valid() && stream == old(stream) + data && Window() == old(Window()) + data
      ensures endPos == old(CopyEnd(startPos, endPos, |data|))
    {
      hide Splits, Frames, CopyEnd;
      SplitsAppend(head, frameLen, stream, emitted, Window(), data);
      MakeRoom(|data|);
      CopyIn(data);
      stream := stream + data;
    }

    /** memcmp at the start of the window. */
    method MatchesHead() returns (matches: bool)
      requires InRange() && |head| <= endPos - startPos
      ensures matches <==> HeadAt(head, Window())
    {
      assert dataBuffer[startPos..startPos + |head|] == Window()[..|head|];
      matches := dataBuffer[startPos..startPos + |head|] == head;
    }

    /** One step of the search, past a place where the header is not. */
    method SkipOne()
      requires Valid() && 0 < |head| <= |Window()| && !HeadAt(head, Window())
      modifies this`startPos
      ensures Valid() && startPos == old(startPos) + 1
      ensures Frames(head, frameLen, Window()) == old(Frames(head, frameLen, Window()))
      ensures Searched(head, Window()) == old(Searched(head, Window()))
    {
      hide Splits, Frames, Searched;
      SplitsSkip(head, frameLen, stream, emitted, Window());
      SearchedStep(head, Window());
      assert Window()[1..] == dataBuffer[startPos + 1..endPos];
      startPos := startPos + 1;
    }

    /** Moves the start of the window to the next header, or past every place it could begin. */
    method FindStartFrameHeaderPos() returns (found: bool)
      requires Valid()
      modifies this`startPos
      ensures Valid() && old(startPos) <= startPos
      ensures Frames(head, frameLen, Window()) == old(Frames(head, frameLen, Window()))
      ensures Window() == old(Searched(head, Window()))
      ensures found ==> HeadAt(head, Window())
      ensures !found ==> |Window()| < |head|
    {
      SearchedStep(head, Window());
      if |head| == 0 {
        return true;
      }
      hide Splits, Frames, Searched, HeadAt;
      var stopPos := endPos - |head|;
      while startPos <= stopPos
        invariant Valid() && old(startPos) <= startPos
        invariant Frames(head, frameLen, Window()) == old(Frames(head, frameLen, Window()))
        invariant Searched(head, Window()) == old(Searched(head, Window()))
      {
        var matches := MatchesHead();
        if matches {
          SearchedStep(head, Window());
          return true;
        }
        SkipOne();
      }
      SearchedStep(head, Window());
      return false;
    }

    /** Moves the start of the window behind the frame it opens with. */
    method TakeFrame()
      requires Valid() && HeadAt(head, Window()) && frameLen <= |Window()|
      modifies this`startPos, this`emitted
      ensures Valid() && startPos == old(startPos) + frameLen
      ensures Window() == old(Window())[frameLen..]
      ensures old(Frames(head, frameLen, Window()))
           == [dataBuffer[old(startPos)..startPos]] + Frames(head, frameLen, Window())
      ensures emitted == old(emitted) + [dataBuffer[old(startPos)..startPos]]
    {
      hide Splits, Frames, HeadAt;
      SplitsTake(head, frameLen, stream, emitted, Window());
      assert Window()[..frameLen] == dataBuffer[startPos..startPos + frameLen];
      assert Window()[frameLen..] == dataBuffer[startPos + frameLen..endPos];
      emitted := emitted + [Window()[..frameLen]];
      startPos := startPos + frameLen;
    }

    /** Hands out the next frame of the stream, as a place in the buffer, if it is complete. */
    method GetNextFrame() returns (found: bool, frame: int, length: int)
      requires Valid()
      modifies this`startPos, this`emitted
      ensures Valid() && stream == old(stream)
      ensures found <==> old(Frames(head, frameLen, Window())) != []
      ensures found ==> 0 <= frame && length == frameLen && frame + length <= totalBufferLen
      ensures found ==>
        old(Frames(head, frameLen, Window())) == [dataBuffer[frame..frame + length]] + Frames(head, frameLen, Window())
      ensures found ==> emitted == old(emitted) + [dataBuffer[frame..frame + length]]
      ensures !found ==> Drained() && emitted == old(emitted)
      ensures if found then |Window()| < |old(Window())| else |Window()| <= |old(Window())|
      ensures old(Residue(head, frameLen, Window()))
           == if found then Residue(head, frameLen, Window()) else Window()
    {
      hide Splits, Frames, HeadAt, Residue, Searched;
      ResidueStep(head, frameLen, Window());
      found, frame, length := false, 0, 0;
      if frameLen > endPos - startPos {
        ShortHasNoFrame(head, frameLen, Window());
        return;
      }
      var ready := FindStartFrameHeaderPos();
      if ready {
        if frameLen > endPos - startPos {
          ShortHasNoFrame(head, frameLen, Window());
          return;
        }
        found, frame, length := true, startPos, frameLen;
        TakeFrame();
        return;
      }
      ShortHasNoFrame(head, frameLen, Window());
    }

    /** Takes every complete frame, as callers do after each append. */
    method Drain() returns (frames: seq<seq<Byte>>)
      requires Valid()
      modifies this`startPos, this`emitted
      ensures Drained() && stream == old(stream) && emitted == old(emitted) + frames
      ensures frames == old(Frames(head, frameLen, Window()))
      ensures Window() == old(Residue(head, frameLen, Window()))
    {
      hide Splits, Frames, Residue;
      frames := [];
      var found, frame, length := GetNextFrame();
      while found
        invariant Valid() && stream == old(stream)
        invariant found ==> 0 <= frame && length == frameLen && frame + length <= totalBufferLen
        invariant found ==> emitted == old(emitted) + frames + [dataBuffer[frame..frame + length]]
        invariant found ==>
          old(Frames(head, frameLen, Window()))
          == frames + [dataBuffer[frame..frame + length]] + Frames(head, frameLen, Window())
        invariant !found ==> emitted == old(emitted) + frames && Drained()
        invariant !found ==> old(Frames(head, frameLen, Window())) == frames
        invariant old(Residue(head, frameLen, Window()))
               == if found then Residue(head, frameLen, Window()) else Window()
        decreases |Window()|, found
      {
        frames := frames + [dataBuffer[frame..frame + length]];
        found, frame, length := GetNextFrame();
      }
    }

    /** One chunk received and everything complete taken out. */
    method Receive(data: seq<Byte>) returns (frames: seq<seq<Byte>>)
      requires Drained() && |Window()| + |Taken(data)| <= MAX_BUFFER_LEN
      modifies this`startPos, this`endPos, this`stream, this`emitted, dataBuffer
      ensures InRange() && Drained() && stream == old(stream) + Taken(data) && emitted == old(emitted) + frames
      ensures Window() == old(Residue(head, frameLen, Window() + Taken(data)))
    {
      hide Splits, Frames, Residue;
      Append(data);
      frames := Drain();
    }

    /** After the first i chunks, from window w, with `before` accepted and `out` handed out at the start. */
    ghost predicate Fed(chunks: seq<seq<Byte>>, i: nat, w: seq<Byte>, before: seq<Byte>, out: seq<seq<Byte>>,
                        frames: seq<seq<Byte>>)
      reads this, dataBuffer
    {
      && i <= |chunks| && Drained()
      && Window() == Kept(head, frameLen, w, chunks[..i])
      && stream == before + Stream(chunks[..i])
      && emitted == out + frames
    }

    method FeedOne(chunks: seq<seq<Byte>>, i: nat, ghost w: seq<Byte>, ghost before: seq<Byte>,
                   ghost out: seq<seq<Byte>>, frames0: seq<seq<Byte>>)
      returns (frames: seq<seq<Byte>>)
      requires i < |chunks| && Fed(chunks, i, w, before, out, frames0) && Fit(head, frameLen, w, chunks)
      modifies this`startPos, this`endPos, this`stream, this`emitted, dataBuffer
      ensures Fed(chunks, i + 1, w, before, out, frames)
    {
      hide Splits, Frames, Residue, Taken, Kept, Stream, Fit;
      StreamSnoc(chunks, i);
      KeptSnoc(head, frameLen, w, chunks, i);
      FitAt(head, frameLen, w, chunks, i);
      var more := Receive(chunks[i]);
      frames := frames0 + more;
    }

    lemma FedNothing(chunks: seq<seq<Byte>>)
      requires Drained()
      ensures Fed(chunks, 0, Window(), stream, emitted, [])
    {
      assert chunks[..0] == [] && stream + [] == stream && emitted + [] == emitted;
    }

    lemma FedAll(chunks: seq<seq<Byte>>, w: seq<Byte>, before: seq<Byte>, out: seq<seq<Byte>>, frames: seq<seq<Byte>>)
      requires Fed(chunks, |chunks|, w, before, out, frames)
      ensures Drained() && stream == before + Stream(chunks)
      ensures out + frames == emitted == Frames(head, frameLen, stream)
      ensures Window() == Kept(head, frameLen, w, chunks)
    {
      hide Splits, Frames, Kept, Stream;
      assert chunks[..|chunks|] == chunks;
      ShortHasNoFrame(head, frameLen, Window());
      SplitsWhole(head, frameLen, stream, emitted, Window());
    }

    /**
     * A stream received in chunks: however it is cut, the frames handed out are those
     * of one scan over everything received.  All that is asked of the chunks is that
     * no append runs over the end of the buffer.
     */
    method Feed(chunks: seq<seq<Byte>>) returns (frames: seq<seq<Byte>>)
      requires Drained() && Fit(head, frameLen, Window(), chunks)
      modifies this`startPos, this`endPos, this`stream, this`emitted, dataBuffer
      ensures Drained() && stream == old(stream) + Stream(chunks)
      ensures old(emitted) + frames == emitted == Frames(head, frameLen, stream)
      ensures Window() == old(Kept(head, frameLen, Window(), chunks))
    {
      hide Fed, Fit, Kept, Stream, Splits, Frames;
      frames := [];
      ghost var w := Window();
      FedNothing(chunks);
      for i := 0 to |chunks|
        invariant Fed(chunks, i, w, old(stream), old(emitted), frames)
      {
        frames := FeedOne(chunks, i, w, old(stream), old(emitted), frames);
      }
      FedAll(chunks, w, old(stream), old(emitted), frames);
    }
  }
}
