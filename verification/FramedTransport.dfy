/**
 The framed transport: every flush sends what was written since the last one as a frame, and
 reading turns the frames back into a stream of bytes.
 */
module FramedTransport {
  import opened Wrappers
  import opened WireTypes
  import opened Varint
  import opened WireTheorems
  import HeaderFormat

  // ---------- reading, as a function ----------

  /** The unread rest of the current frame, `None` between frames, and the unread input. */
  datatype Reader = Reader(buf: Option<seq<byte>>, input: seq<byte>)

  /** Copies the next frame out of the input; the error cases leave what was copied so far. */
  function NextFrame(input: seq<byte>, maxFrame: nat): (Outcome, Reader) {
    if |input| < 4 then (Fail(EndOfFile), Reader(Some([]), []))
    else
      var size := FromBigEndian(input[..4]);
      if size > maxFrame then (Fail(SizeLimit), Reader(Some([]), input[4..]))
      else if |input| - 4 < size then (Fail(EndOfFile), Reader(Some(input[4..]), []))
      else (Pass, Reader(Some(input[4..4 + size]), input[4 + size..]))
  }

  /** A finished frame's buffer goes back to the pool. */
  function Settled(r: Reader): Reader {
    if r.buf == Some([]) then r.(buf := None) else r
  }

  function Min(a: nat, b: nat): nat {
    if a < b then a else b
  }

  /** A call reading at most `n` bytes. */
  function ReadFrom(r: Reader, n: nat, maxFrame: nat): (Result<seq<byte>>, Reader)
    decreases |r.input|
  {
    if r.buf.Some? && (r.buf.value != [] || n == 0) then
      var k := Min(n, |r.buf.value|);
      (Ok(r.buf.value[..k]), Settled(r.(buf := Some(r.buf.value[k..]))))
    else
      var (o, next) := NextFrame(r.input, maxFrame);
      if o.Fail? then (Err(o.error), Settled(next)) else ReadFrom(next, n, maxFrame)
  }

  /** Putting a buffer back once more on the way out of the nested calls changes nothing. */
  lemma {:induction false} ReadsSettle(r: Reader, n: nat, maxFrame: nat)
    ensures var r' := ReadFrom(r, n, maxFrame).1; Settled(r') == r'
    decreases |r.input|
  {
    if !(r.buf.Some? && (r.buf.value != [] || n == 0)) {
      var (o, next) := NextFrame(r.input, maxFrame);
      if o.Pass? {
        ReadsSettle(next, n, maxFrame);
      }
    }
  }

  // ---------- the transport ----------

  class TFramedTransport {
    const maxFrameSize: nat

    // The underlying transport: bytes not yet read from it, bytes written to it.
    var input: seq<byte>
    var output: seq<byte>
    var readBuf: Option<seq<byte>>
    var writeBuf: Option<seq<byte>>

    constructor (input: seq<byte>, maxFrameSize: nat)
      ensures this.input == input && this.maxFrameSize == maxFrameSize
      ensures output == [] && readBuf == None && writeBuf == None
    {
      this.input, output := input, [];
      this.maxFrameSize := maxFrameSize;
      readBuf, writeBuf := None, None;
    }

    function Now(): Reader
      reads this
    {
      Reader(readBuf, input)
    }

    method Read(n: nat) returns (r: Result<seq<byte>>)
      modifies this`readBuf, this`input
      ensures (r, Now()) == ReadFrom(old(Now()), n, maxFrameSize)
      decreases |input|
    {
      if readBuf.Some? {
        var buf := readBuf.value;
        if buf != [] || n == 0 {
          var k := if n < |buf| then n else |buf|;
          readBuf := Some(buf[k..]);
          PutBack();
          return Ok(buf[..k]);
        }
      }
      var o := ReadFrame();
      if o.Fail? {
        PutBack();
        return Err(o.error);
      }
      ghost var next := Now();
      r := Read(n);
      ReadsSettle(next, n, maxFrameSize);
      PutBack();
    }

    method PutBack()
      modifies this`readBuf
      ensures Now() == Settled(old(Now()))
    {
      if readBuf.Some? && |readBuf.value| == 0 {
        readBuf := None;
      }
    }

    method ReadFrame() returns (o: Outcome)
      modifies this`readBuf, this`input
      ensures (o, Now()) == NextFrame(old(input), maxFrameSize)
      ensures o == Pass ==> |input| < |old(input)|
    {
      readBuf := Some([]);
      if |input| < 4 {
        input := [];
        return Fail(EndOfFile);
      }
      var size := FromBigEndian(input[..4]);
      input := input[4..];
      if size > maxFrameSize {
        return Fail(SizeLimit);
      }
      if |input| < size {
        assert [] + input == input;
        readBuf := Some([] + input);
        input := [];
        return Fail(EndOfFile);
      }
      assert [] + input[..size] == old(input)[4..4 + size] && input[size..] == old(input)[4 + size..];
      readBuf := Some([] + input[..size]);
      input := input[size..];
      return Pass;
    }

    method Write(p: seq<byte>)
      modifies this`writeBuf
      ensures writeBuf == Some(Written(old(writeBuf)) + p)
    {
      if writeBuf.None? {
        writeBuf := Some([]);
      }
      writeBuf := Some(writeBuf.value + p);
    }

    /** Needs a write since the last flush: there is no buffer to measure otherwise. */
    method Flush()
      requires writeBuf.Some?
      modifies this`writeBuf, this`output
      ensures writeBuf == None && output == old(output) + HeaderFormat.Framed(old(writeBuf).value)
    {
      var size := |writeBuf.value|;
      output := output + BigEndian(size % TWO32, 4);
      if size > 0 {
        output := output + writeBuf.value;
      }
      Associate(old(output), BigEndian(size % TWO32, 4), writeBuf.value);
      writeBuf := None;
    }
  }

  function Written(buf: Option<seq<byte>>): seq<byte> {
    if buf.Some? then buf.value else []
  }

  // ---------- what a run of writes and flushes sends ----------

  datatype Call = WriteCall(bytes: seq<byte>) | FlushCall

  /** The frames that `calls` complete, when `pending` was written before them. */
  function Payloads(calls: seq<Call>, pending: Option<seq<byte>>): seq<seq<byte>> {
    if calls == [] then []
    else match calls[0]
      case WriteCall(p) => Payloads(calls[1..], Some(Written(pending) + p))
      case FlushCall => [Written(pending)] + Payloads(calls[1..], None)
  }

  /** No flush without a write since the one before. */
  predicate FlushesAfterWrites(calls: seq<Call>, pending: bool) {
    calls == [] || if calls[0].FlushCall? then pending && FlushesAfterWrites(calls[1..], false)
                   else FlushesAfterWrites(calls[1..], true)
  }

  function Stream(frames: seq<seq<byte>>): seq<byte> {
    if frames == [] then [] else HeaderFormat.Framed(frames[0]) + Stream(frames[1..])
  }

  function Concat(chunks: seq<seq<byte>>): seq<byte> {
    if chunks == [] then [] else chunks[0] + Concat(chunks[1..])
  }

  method Perform(t: TFramedTransport, calls: seq<Call>)
    requires FlushesAfterWrites(calls, t.writeBuf.Some?)
    modifies t`writeBuf, t`output
    ensures t.output == old(t.output) + Stream(Payloads(calls, old(t.writeBuf)))
  {
    ghost var sent := Stream(Payloads(calls, t.writeBuf));
    ghost var left := calls;
    assert old(t.output) + sent == t.output + sent;
    for i := 0 to |calls|
      invariant left == calls[i..] && FlushesAfterWrites(left, t.writeBuf.Some?)
      invariant old(t.output) + sent == t.output + Stream(Payloads(left, t.writeBuf))
    {
      ghost var before, pending := t.output, t.writeBuf;
      assert left[0] == calls[i] && FlushesAfterWrites(left[1..], !left[0].FlushCall?);
      match calls[i] {
        case WriteCall(p) =>
          t.Write(p);
        case FlushCall =>
          t.Flush();
          Associate(before, HeaderFormat.Framed(pending.value), Stream(Payloads(left[1..], None)));
          assert Payloads(left, pending)[1..] == Payloads(left[1..], None);
      }
      left := left[1..];
      assert left == calls[i + 1..];
    }
    assert Stream(Payloads(left, t.writeBuf)) == [];
  }

  // ---------- reading back ----------

  predicate WithinLimit(frames: seq<seq<byte>>, maxFrame: nat) {
    maxFrame < TWO32 && forall i :: 0 <= i < |frames| ==> |frames[i]| <= maxFrame
  }

  /** `r` has exactly `frames` before it, the first of them possibly begun. */
  predicate Holds(r: Reader, frames: seq<seq<byte>>) {
    (r.buf == None && r.input == Stream(frames)) ||
    (frames != [] && frames[0] != [] && r.buf == Some(frames[0]) && r.input == Stream(frames[1..]))
  }

  function DropEmpty(frames: seq<seq<byte>>): seq<seq<byte>> {
    if frames != [] && frames[0] == [] then DropEmpty(frames[1..]) else frames
  }

  /** The frames without the first `k` bytes of the first one. */
  function Chop(frames: seq<seq<byte>>, k: nat): seq<seq<byte>>
    requires frames != [] && k <= |frames[0]|
  {
    if k == |frames[0]| then frames[1..] else [frames[0][k..]] + frames[1..]
  }

  lemma NextFrameOf(frame: seq<byte>, rest: seq<byte>, maxFrame: nat)
    requires |frame| <= maxFrame < TWO32
    ensures NextFrame(HeaderFormat.Framed(frame) + rest, maxFrame) == (Pass, Reader(Some(frame), rest))
  {
    var s := HeaderFormat.Framed(frame) + rest;
    assert s[..4] == BigEndian(|frame|, 4);
    FourBytes(|frame|);
    assert s[4..4 + |frame|] == frame && s[4 + |frame|..] == rest;
  }

  /**
   Reading at most `n > 0` bytes gives a nonempty piece of the first nonempty frame and nothing
   beyond it, however many empty frames come first; it fails only when every frame is used up.
   */
  lemma {:induction false} ReadWithinFrame(r: Reader, frames: seq<seq<byte>>, n: nat, maxFrame: nat)
    requires Holds(r, frames) && WithinLimit(frames, maxFrame) && n > 0
    ensures var (result, r') := ReadFrom(r, n, maxFrame);
            var left := DropEmpty(frames);
            if left == [] then result == Err(EndOfFile) && Holds(r', [])
            else
              var k := Min(n, |left[0]|);
              result == Ok(left[0][..k]) && Holds(r', Chop(left, k))
    decreases |r.input|
  {
    if r.buf.Some? {
      var k := Min(n, |frames[0]|);
      if k < |frames[0]| {
        assert Chop(frames, k)[1..] == frames[1..];
      } else {
        assert frames[0][k..] == [];
      }
    } else if frames != [] {
      NextFrameOf(frames[0], Stream(frames[1..]), maxFrame);
      var next := Reader(Some(frames[0]), Stream(frames[1..]));
      assert ReadFrom(r, n, maxFrame) == ReadFrom(next, n, maxFrame);
      if frames[0] != [] {
        ReadWithinFrame(next, frames, n, maxFrame);
      } else {
        assert WithinLimit(frames[1..], maxFrame);
        EmptyFrameSkipped(Stream(frames[1..]), n, maxFrame);
        ReadWithinFrame(next.(buf := None), frames[1..], n, maxFrame);
      }
    }
  }

  lemma EmptyFrameSkipped(input: seq<byte>, n: nat, maxFrame: nat)
    requires n > 0
    ensures ReadFrom(Reader(Some([]), input), n, maxFrame) == ReadFrom(Reader(None, input), n, maxFrame)
  {
  }

  /** The chunks that calls asking for `sizes` bytes return, up to the first error, and the reader after them. */
  function ReadChunks(r: Reader, sizes: seq<nat>, maxFrame: nat): (seq<seq<byte>>, Reader)
    decreases sizes
  {
    if sizes == [] then ([], r)
    else
      var (result, r') := ReadFrom(r, sizes[0], maxFrame);
      if result.Err? then ([], r')
      else
        var (chunks, end) := ReadChunks(r', sizes[1..], maxFrame);
        ([result.value] + chunks, end)
  }

  ghost predicate PieceOf(chunk: seq<byte>, frame: seq<byte>) {
    exists a: nat, b: nat {:trigger frame[a..b]} :: a <= b <= |frame| && chunk == frame[a..b]
  }

  ghost predicate InsideOneFrame(chunk: seq<byte>, frames: seq<seq<byte>>) {
    exists i :: 0 <= i < |frames| && PieceOf(chunk, frames[i])
  }

  lemma {:induction false} InsideDropped(chunk: seq<byte>, frames: seq<seq<byte>>)
    requires InsideOneFrame(chunk, DropEmpty(frames))
    ensures InsideOneFrame(chunk, frames)
    decreases frames
  {
    if frames != [] && frames[0] == [] {
      InsideDropped(chunk, frames[1..]);
      var i :| 0 <= i < |frames[1..]| && PieceOf(chunk, frames[1..][i]);
      assert PieceOf(chunk, frames[i + 1]);
    }
  }

  lemma InsideChopped(chunk: seq<byte>, frames: seq<seq<byte>>, k: nat)
    requires frames != [] && k <= |frames[0]| && InsideOneFrame(chunk, Chop(frames, k))
    ensures InsideOneFrame(chunk, frames)
  {
    var rest := Chop(frames, k);
    var i :| 0 <= i < |rest| && PieceOf(chunk, rest[i]);
    if k == |frames[0]| {
      assert rest[i] == frames[i + 1];
    } else if i == 0 {
      var a: nat, b: nat :| a <= b <= |rest[0]| && chunk == rest[0][a..b];
      assert chunk == frames[0][k + a..k + b];
    } else {
      assert rest[i] == frames[i];
    }
  }

  lemma {:induction false} DropEmptyKeeps(frames: seq<seq<byte>>, maxFrame: nat)
    ensures Concat(DropEmpty(frames)) == Concat(frames)
    ensures WithinLimit(frames, maxFrame) ==> WithinLimit(DropEmpty(frames), maxFrame)
    ensures DropEmpty(frames) == [] <==> Concat(frames) == []
    decreases frames
  {
    if frames != [] && frames[0] == [] {
      DropEmptyKeeps(frames[1..], maxFrame);
    }
  }

  lemma ChopKeeps(frames: seq<seq<byte>>, k: nat, maxFrame: nat)
    requires frames != [] && k <= |frames[0]|
    ensures frames[0][..k] + Concat(Chop(frames, k)) == Concat(frames)
    ensures WithinLimit(frames, maxFrame) ==> WithinLimit(Chop(frames, k), maxFrame)
  {
    var rest := Concat(frames[1..]);
    Associate(frames[0][..k], frames[0][k..], rest);
    assert frames[0][..k] + frames[0][k..] == frames[0];
    if k < |frames[0]| {
      assert Chop(frames, k)[1..] == frames[1..];
    }
  }

  /**
   With any nonzero chunk sizes: what is read, followed by the frames still ahead, is the
   concatenation of all payloads; every chunk is nonempty and lies inside one frame; and reading
   stops early only when everything has been delivered.
   */
  lemma {:induction false} ReadingYieldsThePayloads(r: Reader, frames: seq<seq<byte>>, sizes: seq<nat>, maxFrame: nat)
      returns (left: seq<seq<byte>>)
    requires Holds(r, frames) && WithinLimit(frames, maxFrame)
    requires forall i :: 0 <= i < |sizes| ==> sizes[i] > 0
    ensures var (chunks, end) := ReadChunks(r, sizes, maxFrame);
            Holds(end, left) && Concat(chunks) + Concat(left) == Concat(frames) &&
            (|chunks| < |sizes| ==> Concat(left) == []) &&
            forall c :: c in chunks ==> c != [] && InsideOneFrame(c, frames)
    decreases sizes
  {
    if sizes == [] {
      return frames;
    }
    ReadWithinFrame(r, frames, sizes[0], maxFrame);
    DropEmptyKeeps(frames, maxFrame);
    var ahead := DropEmpty(frames);
    if ahead == [] {
      return [];
    }
    DropEmptyFirst(frames);
    var k := Min(sizes[0], |ahead[0]|);
    var r' := ReadFrom(r, sizes[0], maxFrame).1;
    ChopKeeps(ahead, k, maxFrame);
    left := ReadingYieldsThePayloads(r', Chop(ahead, k), sizes[1..], maxFrame);
    var first := ahead[0][..k];
    var (more, end) := ReadChunks(r', sizes[1..], maxFrame);
    assert ReadChunks(r, sizes, maxFrame) == ([first] + more, end);
    assert Concat([first] + more) == first + Concat(more) by {
      assert ([first] + more)[1..] == more;
    }
    Associate(first, Concat(more), Concat(left));
    FirstInside(frames, ahead, k);
    forall c | c in [first] + more
      ensures c != [] && InsideOneFrame(c, frames)
    {
      if c in more {
        InsideChopped(c, ahead, k);
        InsideDropped(c, frames);
      }
    }
  }

  lemma FirstInside(frames: seq<seq<byte>>, ahead: seq<seq<byte>>, k: nat)
    requires ahead == DropEmpty(frames) && ahead != [] && k <= |ahead[0]|
    ensures InsideOneFrame(ahead[0][..k], frames)
  {
    assert ahead[0][..k] == ahead[0][0..k];
    assert PieceOf(ahead[0][..k], ahead[0]);
    InsideDropped(ahead[0][..k], frames);
  }

  lemma {:induction false} DropEmptyFirst(frames: seq<seq<byte>>)
    ensures DropEmpty(frames) != [] ==> DropEmpty(frames)[0] != []
    decreases frames
  {
    if frames != [] && frames[0] == [] {
      DropEmptyFirst(frames[1..]);
    }
  }

  /** Enough calls deliver everything. */
  lemma {:induction false} NonemptyChunks(chunks: seq<seq<byte>>)
    requires forall c :: c in chunks ==> c != []
    ensures |Concat(chunks)| >= |chunks|
    decreases chunks
  {
    if chunks != [] {
      assert chunks[0] in chunks && forall c :: c in chunks[1..] ==> c in chunks;
      NonemptyChunks(chunks[1..]);
    }
  }

  lemma EverythingArrives(frames: seq<seq<byte>>, sizes: seq<nat>, maxFrame: nat)
    requires WithinLimit(frames, maxFrame) && |sizes| > |Concat(frames)|
    requires forall i :: 0 <= i < |sizes| ==> sizes[i] > 0
    ensures Concat(ReadChunks(Reader(None, Stream(frames)), sizes, maxFrame).0) == Concat(frames)
  {
    var r := Reader(None, Stream(frames));
    var left := ReadingYieldsThePayloads(r, frames, sizes, maxFrame);
    var chunks := ReadChunks(r, sizes, maxFrame).0;
    NonemptyChunks(chunks);
    if Concat(left) == [] {
      assert Concat(chunks) + Concat(left) == Concat(chunks);
    }
  }
}
