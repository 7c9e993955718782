/**
 The THeader transport: it wraps what is written into frames, and on reading finds out which of
 five dialects the peer speaks and answers in the same one.
 */
module HeaderTransport {
  import opened Wrappers
  import opened WireTypes
  import opened Varint
  import opened WireFormat
  import opened WireTheorems
  import opened HeaderFormat
  import opened CompactProtocol

  const PROTOCOL_BINARY: int32 := 0x00
  const PROTOCOL_COMPACT: int32 := 0x02

  class THeaderTransport {
    const maxFrameSize: nat
    const maxMessageSize: nat

    var SequenceID: int32
    var Flags: nat
    var readHeaders: HeaderMap
    var writeHeaders: HeaderMap
    // The underlying connection: bytes not yet read from it, bytes written to it.
    var input: seq<byte>
    var output: seq<byte>
    // The rest of the current frame, and the transforms its readers undo; `None` between frames.
    var frameBuffer: seq<byte>
    var frameReader: Option<seq<int32>>
    var writeBuffer: seq<byte>
    var writeTransforms: seq<int32>
    var clientType: ClientType
    var protocolID: int32

    /** `AddTransform` refuses any other id. */
    ghost predicate Valid()
      reads this
    {
      forall i :: 0 <= i < |writeTransforms| ==> Supported(writeTransforms[i])
    }

    constructor (input: seq<byte>, protocolID: int32, maxFrameSize: nat, maxMessageSize: nat)
      ensures Valid() && this.input == input && this.protocolID == protocolID
      ensures this.maxFrameSize == maxFrameSize && this.maxMessageSize == maxMessageSize
      ensures output == [] && frameBuffer == [] && frameReader == None && writeBuffer == [] && writeTransforms == []
      ensures clientType == Unknown && readHeaders == map[] && writeHeaders == map[] && SequenceID == 0 && Flags == 0
    {
      this.input, output := input, [];
      this.protocolID := protocolID;
      this.maxFrameSize, this.maxMessageSize := maxFrameSize, maxMessageSize;
      SequenceID, Flags := 0, 0;
      readHeaders, writeHeaders := map[], map[];
      frameBuffer, frameReader := [], None;
      writeBuffer, writeTransforms := [], [];
      clientType := Unknown;
    }

    method AddTransform(id: int32) returns (o: Outcome)
      requires Valid()
      modifies this`writeTransforms
      ensures Valid()
      ensures o == if Supported(id) then Pass else Fail(NotImplemented)
      ensures writeTransforms == old(writeTransforms) + if Supported(id) then [id] else []
    {
      if !(id == TRANSFORM_NONE || id == TRANSFORM_ZLIB) {
        return Fail(NotImplemented);
      }
      writeTransforms := writeTransforms + [id];
      return Pass;
    }

    /** After a binary or compact message its protocol, whatever the header says; otherwise the header's. */
    function Protocol(): (id: int32)
      reads this
      ensures clientType.FramedBinary? || clientType.UnframedBinary? ==> id == 0x00
      ensures clientType.FramedCompact? || clientType.UnframedCompact? ==> id == 0x02
      ensures clientType.Headers? || clientType.Unknown? ==> id == protocolID
    {
      match clientType
      case FramedBinary => PROTOCOL_BINARY
      case UnframedBinary => PROTOCOL_BINARY
      case FramedCompact => PROTOCOL_COMPACT
      case UnframedCompact => PROTOCOL_COMPACT
      case _ => protocolID
    }

    // ---------- reading ----------

    predicate NeedReadFrame()
      reads this
    {
      clientType.Unknown? || (IsFramed(clientType) && frameReader.None?)
    }

    /**
     Looks at the first bytes of a new message. `leftover` is what the pooled frame buffer holds
     beyond its length. What an earlier frame that was cut short left in the buffer comes first.
     */
    method ReadFrame(zlib: Zlib, leftover: seq<byte>) returns (o: Outcome)
      requires Valid() && |leftover| >= 4
      modifies this
      ensures Valid() && output == old(output) && writeBuffer == old(writeBuffer)
      ensures writeHeaders == old(writeHeaders) && writeTransforms == old(writeTransforms)
      ensures !old(NeedReadFrame()) ==>
                o == Pass && input == old(input) && frameBuffer == old(frameBuffer) &&
                frameReader == old(frameReader) && clientType == old(clientType)
      ensures old(NeedReadFrame()) ==>
                match Arrive(old(input), maxFrameSize)
                case Err(e) =>
                  o == Fail(e) && clientType == old(clientType) && frameReader == old(frameReader) &&
                  (frameBuffer, input) == (old(frameBuffer) + CutShort(old(input), maxFrameSize).0,
                                           CutShort(old(input), maxFrameSize).1)
                case Ok(Unframed(c)) =>
                  o == Pass && clientType == c && input == old(input) && frameReader == old(frameReader)
                case Ok(Frame(content, rest)) =>
                  input == rest &&
                  var buffer := old(frameBuffer) + content;
                  match FrameClient(buffer, leftover)
                  case Err(e) => o == Fail(e) && frameReader == None && frameBuffer == []
                  case Ok(Headers) => clientType == Headers && HeaderRead(zlib, buffer, |content|, o)
                  case Ok(c) =>
                    o == Pass && clientType == c && frameBuffer == buffer && frameReader == Some([])
    {
      if !NeedReadFrame() {
        return Pass;
      }
      var framed := NextFrame();
      if framed.Err? {
        return Fail(framed.error);
      }
      if framed.value.None? {
        return Pass;
      }
      o := OpenFrame(zlib, framed.value.value, leftover);
    }

    /** Copies the next frame into the frame buffer and gives its size, or nothing for an unframed message. */
    method NextFrame() returns (r: Result<Option<nat>>)
      modifies this`clientType, this`input, this`frameBuffer, this`frameReader
      ensures match Arrive(old(input), maxFrameSize)
              case Err(e) =>
                r == Err(e) && clientType == old(clientType) && frameReader == old(frameReader) &&
                (frameBuffer, input) == (old(frameBuffer) + CutShort(old(input), maxFrameSize).0,
                                         CutShort(old(input), maxFrameSize).1)
              case Ok(Unframed(c)) =>
                r == Ok(None) && clientType == c && input == old(input) && frameBuffer == old(frameBuffer) &&
                frameReader == old(frameReader)
              case Ok(Frame(content, rest)) =>
                r == Ok(Some(|content|)) && |content| < TWO32 && input == rest &&
                frameBuffer == old(frameBuffer) + content &&
                frameReader == Some([])
    {
      assert frameBuffer + [] == frameBuffer;
      if |input| < 4 {
        return Err(EndOfFile);
      }
      var frameSize := FromBigEndian(input[..4]);
      if frameSize / TWO16 == VERSION_1_HIGH {
        clientType := UnframedBinary;
        return Ok(None);
      }
      if input[0] == PROTOCOL_ID && input[1] % 32 == VERSION {
        clientType := UnframedCompact;
        return Ok(None);
      }
      if frameSize > MAX_FRAME_SIZE || frameSize > maxFrameSize {
        return Err(SizeLimit);
      }
      ghost var s := input;
      input := input[4..];
      if |input| < frameSize {
        frameBuffer := frameBuffer + input;
        input := [];
        return Err(EndOfFile);
      }
      frameBuffer := frameBuffer + input[..frameSize];
      input := input[frameSize..];
      frameReader := Some([]);
      assert input == s[4 + frameSize..] && s[4..][..frameSize] == s[4..4 + frameSize];
      return Ok(Some(frameSize));
    }

    /** Judges a frame by its first four bytes. */
    method OpenFrame(zlib: Zlib, frameSize: nat, leftover: seq<byte>) returns (o: Outcome)
      requires frameReader == Some([]) && |leftover| >= 4
      modifies this`clientType, this`frameBuffer, this`frameReader, this`Flags, this`SequenceID, this`protocolID,
               this`readHeaders
      ensures match FrameClient(old(frameBuffer), leftover)
              case Err(e) => o == Fail(e) && frameReader == None && frameBuffer == []
              case Ok(Headers) => clientType == Headers && HeaderRead(zlib, old(frameBuffer), frameSize, o)
              case Ok(c) => o == Pass && clientType == c && frameBuffer == old(frameBuffer) && frameReader == Some([])
    {
      var buf := frameBuffer + leftover;
      var version := FromBigEndian(buf[..4]);
      if version / TWO16 == HEADER_MAGIC {
        clientType := Headers;
        o := ParseHeaders(zlib, frameSize);
        return;
      }
      if version / TWO16 == VERSION_1_HIGH {
        clientType := FramedBinary;
        return Pass;
      }
      if buf[0] == PROTOCOL_ID && buf[1] % 32 == VERSION {
        clientType := FramedCompact;
        return Pass;
      }
      EndOfFrame();
      return Fail(NotImplemented);
    }

    method EndOfFrame()
      modifies this`frameBuffer, this`frameReader
      ensures frameBuffer == [] && frameReader == None
    {
      frameBuffer := [];
      frameReader := None;
    }

    /** The state after parsing the headers of a frame of that size in `buffer`. */
    ghost predicate HeaderRead(zlib: Zlib, buffer: seq<byte>, frameSize: nat, o: Outcome)
      reads this
    {
      match TakeHeader(zlib, buffer, frameSize, maxMessageSize)
      case Err(e) => o == Fail(e)
      case Ok((h, raw)) =>
        o == Pass && h == Header(Flags, SequenceID, protocolID, h.transforms, readHeaders) &&
        frameReader == Some(h.transforms) && frameBuffer == raw
    }

    method ParseHeaders(zlib: Zlib, frameSize: nat) returns (o: Outcome)
      requires frameReader == Some([])
      modifies this`frameBuffer, this`frameReader, this`Flags, this`SequenceID, this`protocolID, this`readHeaders
      ensures HeaderRead(zlib, old(frameBuffer), frameSize, o)
    {
      if |frameBuffer| < META_SIZE {
        return Fail(EndOfFile);
      }
      var meta := frameBuffer[..META_SIZE];
      frameBuffer := frameBuffer[META_SIZE..];
      Flags := FromBigEndian(meta[..4]) % TWO16;
      SequenceID := ToInt32(FromBigEndian(meta[4..8]));
      var headerLength := FromBigEndian(meta[8..10]) * 4;
      if (frameSize - META_SIZE) % TWO32 < headerLength {
        return Fail(SizeLimit);
      }
      if |frameBuffer| < headerLength {
        return Fail(EndOfFile);
      }
      var section := frameBuffer[..headerLength];
      frameBuffer := frameBuffer[headerLength..];
      var hp := new TCompactProtocol(section, maxMessageSize);
      var parsed := ParseSection(zlib, hp, frameBuffer);
      if parsed.Err? {
        return Fail(parsed.error);
      }
      protocolID := parsed.value.0;
      if |parsed.value.1| > 0 {
        frameReader := Some(parsed.value.1);
      }
      readHeaders := parsed.value.2;
      return Pass;
    }

    static method ParseSection(zlib: Zlib, hp: TCompactProtocol, raw: seq<byte>)
        returns (r: Result<(int32, seq<int32>, HeaderMap)>)
      modifies hp
      ensures r == TakeSection(zlib, old(hp.trans), raw, hp.maxMessageSize)
    {
      var protocolId := hp.ReadVarint32();
      if protocolId.Err? {
        return Err(protocolId.error);
      }
      var count := hp.ReadVarint32();
      if count.Err? {
        return Err(count.error);
      }
      var ids := ReadIds(hp, count.value);
      if ids.Err? {
        return Err(ids.error);
      }
      var stacked := StackReaders(zlib, ids.value, raw);
      if stacked.Fail? {
        return Err(stacked.error);
      }
      var headers := ReadInfo(hp);
      if headers.Err? {
        return Err(headers.error);
      }
      return Ok((protocolId.value, ids.value, headers.value));
    }

    /** The ids were added in writing order, so the readers are stacked in reverse. */
    static method StackReaders(zlib: Zlib, ids: seq<int32>, raw: seq<byte>) returns (o: Outcome)
      ensures o == OpenReaders(zlib, ids, raw)
    {
      var i, stream := |ids|, raw;
      assert ids[..i] == ids;
      while i > 0
        invariant 0 <= i <= |ids| && OpenReaders(zlib, ids, raw) == OpenReaders(zlib, ids[..i], stream)
      {
        i := i - 1;
        assert ids[..i + 1][..i] == ids[..i];
        if ids[i] == TRANSFORM_ZLIB {
          if !zlib.starts(stream) {
            return Fail(Other);
          }
          stream := zlib.prefix(stream);
        } else if ids[i] != TRANSFORM_NONE {
          return Fail(InvalidTransform);
        }
      }
      return Pass;
    }

    static method ReadIds(hp: TCompactProtocol, count: int) returns (r: Result<seq<int32>>)
      modifies hp
      ensures match TakeIds(count, old(hp.trans))
              case Ok((ids, rest)) => r == Ok(ids) && hp.trans == rest
              case Err(e) => r == Err(e)
    {
      var ids: seq<int32> := [];
      ghost var start := hp.trans;
      ghost var all := TakeIds(count, start);
      assert all.Ok? ==> ids + all.value.0 == all.value.0;
      var i := 0;
      while i < count
        invariant 0 <= i && (count >= 0 ==> i <= count) && (count < 0 ==> i == 0)
        invariant match TakeIds(count - i, hp.trans)
                  case Ok((more, rest)) => TakeIds(count, start) == Ok((ids + more, rest))
                  case Err(e) => TakeIds(count, start) == Err(e)
      {
        ghost var before := hp.trans;
        var id := hp.ReadVarint32();
        if id.Err? {
          return Err(id.error);
        }
        ghost var tail := TakeIds(count - i - 1, hp.trans);
        if tail.Ok? {
          assert ids + ([id.value] + tail.value.0) == ids + [id.value] + tail.value.0;
        }
        ids := ids + [id.value];
        i := i + 1;
      }
      assert TakeIds(count - i, hp.trans) == Ok(([], hp.trans)) && ids + [] == ids;
      return Ok(ids);
    }

    static method ReadInfo(hp: TCompactProtocol) returns (r: Result<HeaderMap>)
      modifies hp
      ensures r == TakeInfo(old(hp.trans), map[], hp.maxMessageSize)
    {
      var headers: HeaderMap := map[];
      while true
        invariant TakeInfo(old(hp.trans), map[], hp.maxMessageSize) == TakeInfo(hp.trans, headers, hp.maxMessageSize)
        decreases |hp.trans|
      {
        var infoType := hp.ReadVarint32();
        if infoType.Err? {
          break;
        }
        if infoType.value != INFO_KEY_VALUE {
          break;
        }
        var count := hp.ReadVarint32();
        if count.Err? {
          return Err(count.error);
        }
        var more := ReadPairs(hp, count.value, headers);
        if more.Err? {
          return Err(more.error);
        }
        headers := more.value;
      }
      return Ok(headers);
    }

    static method ReadPairs(hp: TCompactProtocol, count: int, start: HeaderMap) returns (r: Result<HeaderMap>)
      modifies hp
      ensures match TakePairs(count, old(hp.trans), start, hp.maxMessageSize)
              case Ok((m, rest)) => r == Ok(m) && hp.trans == rest
              case Err(e) => r == Err(e)
    {
      var headers := start;
      ghost var all := TakePairs(count, hp.trans, start, hp.maxMessageSize);
      ghost var left := count;
      var i := 0;
      while i < count
        invariant left == count - i
        invariant all == TakePairs(left, hp.trans, headers, hp.maxMessageSize)
      {
        ghost var before := hp.trans;
        var pair := ReadPair(hp);
        TakePairsStep(left, before, headers, hp.maxMessageSize);
        if pair.Err? {
          return Err(pair.error);
        }
        headers := headers[pair.value.0 := pair.value.1];
        i, left := i + 1, left - 1;
      }
      return Ok(headers);
    }

    static method ReadPair(hp: TCompactProtocol) returns (r: Result<Pair>)
      modifies hp
      ensures match TakePair(old(hp.trans), hp.maxMessageSize)
              case Ok((p, rest)) => r == Ok(p) && hp.trans == rest
              case Err(e) => r == Err(e)
    {
      var key := ReadString(hp);
      if key.Err? {
        return Err(key.error);
      }
      var value := ReadString(hp);
      if value.Err? {
        return Err(value.error);
      }
      return Ok((key.value, value.value));
    }

    static method ReadString(hp: TCompactProtocol) returns (r: Result<seq<byte>>)
      modifies hp
      ensures match TakeString(old(hp.trans), hp.maxMessageSize)
              case Ok((s, rest)) => r == Ok(s) && hp.trans == rest
              case Err(e) => r == Err(e)
    {
      var v := hp.ReadScalar(STRING);
      return if v.Err? then Err(v.error) else Ok(v.value.s);
    }

    // ---------- writing ----------

    method Write(p: seq<byte>)
      modifies this`writeBuffer
      ensures writeBuffer == old(writeBuffer) + p
    {
      writeBuffer := writeBuffer + p;
    }

    /**
     Sends what was written, in the dialect of the last message read, as a THeader frame if none
     was read yet. `order` is the order in which the header map happened to be iterated.
     */
    method Flush(zlib: Zlib) returns (ghost order: seq<Pair>)
      requires Valid()
      modifies this`writeBuffer, this`clientType, this`output
      ensures writeBuffer == []
      ensures old(writeBuffer) == [] ==> output == old(output) && clientType == old(clientType)
      ensures old(writeBuffer) != [] && (old(clientType).Unknown? || old(clientType).Headers?) ==>
                clientType == Headers && Enumerates(order, writeHeaders) &&
                output == old(output) +
                          Framed(Content(Flags, SequenceID, protocolID, writeTransforms, order,
                                         Wrap(zlib, writeTransforms, old(writeBuffer))))
      ensures old(writeBuffer) != [] && !(old(clientType).Unknown? || old(clientType).Headers?) ==>
                clientType == old(clientType) && output == old(output) + Reply(clientType, old(writeBuffer))
    {
      order := [];
      if |writeBuffer| == 0 {
        return;
      }
      if clientType.Unknown? || clientType.Headers? {
        clientType := Headers;
        var payload: seq<byte>;
        payload, order := BuildContent(zlib);
        WriteFrame(payload);
      } else if clientType.FramedBinary? || clientType.FramedCompact? {
        WriteFrame(writeBuffer);
      } else {
        output := output + writeBuffer;
      }
      writeBuffer := [];
    }

    method WriteFrame(payload: seq<byte>)
      modifies this`output
      ensures output == old(output) + Framed(payload)
    {
      output := output + BigEndian(|payload| % TWO32, 4);
      output := output + payload;
      Associate(old(output), BigEndian(|payload| % TWO32, 4), payload);
    }

    method BuildContent(zlib: Zlib) returns (payload: seq<byte>, ghost order: seq<Pair>)
      ensures Enumerates(order, writeHeaders)
      ensures payload == Content(Flags, SequenceID, protocolID, writeTransforms, order,
                                 Wrap(zlib, writeTransforms, writeBuffer))
    {
      var hp := new TCompactProtocol([], maxMessageSize);
      order := WriteSection(hp);
      var section := hp.trans;
      section := section + Padding(|section|);
      payload := MetaBytes(Flags, SequenceID, |section| / 4) + section;
      payload := payload + Wrap(zlib, writeTransforms, writeBuffer);
    }

    method WriteSection(hp: TCompactProtocol) returns (ghost order: seq<Pair>)
      requires hp.trans == []
      modifies hp
      ensures Enumerates(order, writeHeaders)
      ensures hp.trans == SectionBytes(protocolID, writeTransforms, order)
    {
      hp.WriteVarint(protocolID % TWO32);
      hp.WriteVarint(|writeTransforms| % TWO32);
      ghost var head := VarintBytes(protocolID % TWO32) + VarintBytes(|writeTransforms| % TWO32);
      assert hp.trans == head;
      for i := 0 to |writeTransforms|
        invariant hp.trans + IdsBytes(writeTransforms[i..]) == head + IdsBytes(writeTransforms)
      {
        assert writeTransforms[i..][1..] == writeTransforms[i + 1..];
        ghost var before := hp.trans;
        hp.WriteVarint(writeTransforms[i] % TWO32);
        Associate(before, VarintBytes(writeTransforms[i] % TWO32), IdsBytes(writeTransforms[i + 1..]));
      }
      assert hp.trans == head + IdsBytes(writeTransforms);
      order := [];
      if |writeHeaders| > 0 {
        order := WritePairs(hp);
      } else {
        assert InfoBytes(order) == [];
      }
      assert hp.trans == (head + IdsBytes(writeTransforms)) + InfoBytes(order);
      Flatten(VarintBytes(protocolID % TWO32), VarintBytes(|writeTransforms| % TWO32), IdsBytes(writeTransforms),
              InfoBytes(order));
    }

    /** Iterates over the map in an order of the runtime's choosing. */
    method WritePairs(hp: TCompactProtocol) returns (ghost order: seq<Pair>)
      requires |writeHeaders| > 0
      modifies hp
      ensures Enumerates(order, writeHeaders)
      ensures hp.trans == old(hp.trans) + InfoBytes(order)
    {
      ghost var before := hp.trans;
      hp.WriteVarint(INFO_KEY_VALUE);
      hp.WriteVarint(|writeHeaders| % TWO32);
      ghost var head := [INFO_KEY_VALUE] + VarintBytes(|writeHeaders| % TWO32);
      Associate(before, [INFO_KEY_VALUE], VarintBytes(|writeHeaders| % TWO32));
      order := WriteEach(hp, writeHeaders, before + head);
      Associate(before, head, PairsBytes(order));
    }

    static method WriteEach(hp: TCompactProtocol, headers: HeaderMap, ghost head: seq<byte>)
        returns (ghost order: seq<Pair>)
      requires hp.trans == head
      modifies hp
      ensures Enumerates(order, headers)
      ensures hp.trans == head + PairsBytes(order)
    {
      order := [];
      var left := headers.Keys;
      while left != {}
        invariant left <= headers.Keys
        invariant |order| + |left| == |headers|
        invariant MapOf(order) == headers - left
        invariant hp.trans == head + PairsBytes(order)
        decreases left
      {
        var key :| key in left;
        WritePair(hp, key, headers[key], head, order);
        OneLess(headers, left, key);
        order := order + [(key, headers[key])];
        left := left - {key};
      }
      assert headers - left == headers;
    }

    static method WritePair(hp: TCompactProtocol, key: seq<byte>, value: seq<byte>, ghost head: seq<byte>,
                            ghost order: seq<Pair>)
      requires hp.trans == head + PairsBytes(order)
      modifies hp
      ensures hp.trans == head + PairsBytes(order + [(key, value)])
      ensures MapOf(order + [(key, value)]) == MapOf(order)[key := value]
    {
      ghost var before := hp.trans;
      hp.WriteScalar(StringV(key));
      hp.WriteScalar(StringV(value));
      Associate(before, StringBytes(key), StringBytes(value));
      PairsSnoc(order, (key, value));
      Associate(head, PairsBytes(order), StringBytes(key) + StringBytes(value));
    }
  }

  lemma OneLess(m: HeaderMap, left: set<seq<byte>>, key: seq<byte>)
    requires key in left && left <= m.Keys
    ensures (m - left)[key := m[key]] == m - (left - {key})
  {
  }

  lemma {:induction false} PairsSnoc(pairs: seq<Pair>, p: Pair)
    ensures PairsBytes(pairs + [p]) == PairsBytes(pairs) + (StringBytes(p.0) + StringBytes(p.1))
    ensures MapOf(pairs + [p]) == MapOf(pairs)[p.0 := p.1]
    decreases pairs
  {
    assert (pairs + [p])[..|pairs|] == pairs;
    if pairs == [] {
      assert PairsBytes([p][1..]) == [];
    } else {
      assert (pairs + [p])[1..] == pairs[1..] + [p];
      PairsSnoc(pairs[1..], p);
      Associate(StringBytes(pairs[0].0) + StringBytes(pairs[0].1), PairsBytes(pairs[1..]),
                StringBytes(p.0) + StringBytes(p.1));
    }
  }

  lemma Flatten(a: seq<byte>, b: seq<byte>, c: seq<byte>, d: seq<byte>)
    ensures ((a + b) + c) + d == a + (b + (c + d))
  {
  }

  // ---------- two ends of a connection ----------

  /** The limits within which a sender's frame fits. */
  ghost predicate Fits(t: THeaderTransport, order: seq<Pair>, raw: seq<byte>, maxFrame: nat, max: nat)
    reads t
  {
    WithinSize(order, max) && max <= MAX_SIZE && |order| <= MAX_SIZE && |t.writeTransforms| <= MAX_SIZE &&
    |Padded(SectionBytes(t.protocolID, t.writeTransforms, order))| / 4 < TWO16 &&
    var content := Content(t.Flags, t.SequenceID, t.protocolID, t.writeTransforms, order, raw);
    |content| <= MAX_FRAME_SIZE && |content| <= maxFrame
  }

  /** What a clean receiver finds when the content of a header frame arrives. */
  lemma HeaderArrives(z: Zlib, h: Header, order: seq<Pair>, raw: seq<byte>, leftover: seq<byte>, maxFrame: nat,
                      max: nat)
    requires Enumerates(order, h.headers) && |leftover| >= 4 && OpenReaders(z, h.transforms, raw) == Pass
    requires WithinSize(order, max) && max <= MAX_SIZE && |order| <= MAX_SIZE && |h.transforms| <= MAX_SIZE
    requires |Padded(SectionBytes(h.protocolId, h.transforms, order))| / 4 < TWO16
    requires var content := Content(h.flags, h.sequenceId, h.protocolId, h.transforms, order, raw);
             |content| <= MAX_FRAME_SIZE && |content| <= maxFrame
    ensures var content := Content(h.flags, h.sequenceId, h.protocolId, h.transforms, order, raw);
            Arrive(Framed(content), maxFrame) == Ok(Frame(content, [])) &&
            FrameClient([] + content, leftover) == Ok(Headers) &&
            TakeHeader(z, [] + content, |content|, max) == Ok((h.(flags := h.flags % TWO16), raw))
  {
    var content := Content(h.flags, h.sequenceId, h.protocolId, h.transforms, order, raw);
    ContentHasHeaderMagic(h.flags, h.sequenceId, h.protocolId, h.transforms, order, raw);
    DialectsToldApart(content, leftover, [], maxFrame);
    HeaderRoundTrip(z, h, order, raw, max);
    assert Framed(content) + [] == Framed(content) && [] + content == content;
  }

  /**
   A sender that speaks the header dialect, or nothing yet, flushes, and a receiver between frames reads
   what it sent: the sequence id, the low 16 flag bits, the protocol, the transforms and the whole header
   map come over, and undoing the transforms on the rest of the frame gives the payload.
   */
  method SendAndReceive(sender: THeaderTransport, receiver: THeaderTransport, zlib: Zlib, leftover: seq<byte>)
    returns (o: Outcome, ghost order: seq<Pair>)
    requires sender != receiver && sender.Valid() && receiver.Valid() && LawfulZlib(zlib) && |leftover| >= 4
    requires (sender.clientType.Unknown? || sender.clientType.Headers?) && sender.writeBuffer != [] &&
             sender.output == []
    requires receiver.NeedReadFrame() && receiver.frameBuffer == []
    modifies sender`writeBuffer, sender`clientType, sender`output, receiver
    ensures sender.Valid() && sender.clientType == Headers && Enumerates(order, sender.writeHeaders)
    ensures var payload := old(sender.writeBuffer);
            Fits(sender, order, Wrap(zlib, sender.writeTransforms, payload), receiver.maxFrameSize,
                 receiver.maxMessageSize) ==>
              o == Pass && receiver.input == [] && receiver.clientType == Headers &&
              receiver.SequenceID == sender.SequenceID && receiver.Flags == sender.Flags % TWO16 &&
              receiver.protocolID == sender.protocolID && receiver.readHeaders == sender.writeHeaders &&
              receiver.frameReader == Some(sender.writeTransforms) &&
              Unwrap(zlib, sender.writeTransforms, receiver.frameBuffer) == Some(payload)
  {
    ghost var payload := sender.writeBuffer;
    order := sender.Flush(zlib);
    receiver.input := sender.output;
    ghost var raw := Wrap(zlib, sender.writeTransforms, payload);
    ghost var h := Header(sender.Flags, sender.SequenceID, sender.protocolID, sender.writeTransforms,
                          sender.writeHeaders);
    assert receiver.input == Framed(Content(h.flags, h.sequenceId, h.protocolId, h.transforms, order, raw));
    TransformsUndone(zlib, sender.writeTransforms, payload);
    ReadersOpen(zlib, sender.writeTransforms, payload);
    if Fits(sender, order, raw, receiver.maxFrameSize, receiver.maxMessageSize) {
      HeaderArrives(zlib, h, order, raw, leftover, receiver.maxFrameSize, receiver.maxMessageSize);
    }
    o := receiver.ReadFrame(zlib, leftover);
  }

  /** A sender that has settled on one of the other dialects replies in it, and the receiver finds that dialect. */
  method ReplyAndReceive(sender: THeaderTransport, receiver: THeaderTransport, zlib: Zlib, leftover: seq<byte>)
      returns (o: Outcome)
    requires sender != receiver && sender.Valid() && receiver.Valid() && |leftover| >= 4
    requires !sender.clientType.Headers? && InDialect(sender.clientType, sender.writeBuffer) && sender.output == []
    requires receiver.NeedReadFrame() && receiver.frameBuffer == []
    requires IsFramed(sender.clientType) ==>
             |sender.writeBuffer| <= MAX_FRAME_SIZE && |sender.writeBuffer| <= receiver.maxFrameSize
    modifies sender`writeBuffer, sender`clientType, sender`output, receiver
    ensures o == Pass && sender.clientType == old(sender.clientType) && receiver.clientType == sender.clientType
    ensures IsFramed(sender.clientType) ==> receiver.frameBuffer == old(sender.writeBuffer)
  {
    ghost var c, p := sender.clientType, sender.writeBuffer;
    var order := sender.Flush(zlib);
    receiver.input := sender.output;
    assert receiver.input == Reply(c, p);
    RepliesInKind(c, p, leftover, receiver.maxFrameSize);
    assert [] + p == p;
    o := receiver.ReadFrame(zlib, leftover);
  }

  /** The protocol a message is in: the dialect says it, or the header of the frame does. */
  ghost predicate SpeaksProtocol(zlib: Zlib, c: ClientType, p: seq<byte>, max: nat, id: int32) {
    match c
    case FramedBinary | UnframedBinary => id == 0x00
    case FramedCompact | UnframedCompact => id == 0x02
    case Headers => var h := TakeHeader(zlib, p, |p|, max); h.Ok? && id == h.value.0.protocolId
    case Unknown => false
  }

  /**
   A fresh server reads a message in any of the five dialects and knows its protocol, unless the headers of a
   frame cannot be read.
   */
  method ReceiveFirst(server: THeaderTransport, ghost c: ClientType, ghost p: seq<byte>, zlib: Zlib,
                      leftover: seq<byte>)
    returns (o: Outcome)
    requires server.Valid() && |leftover| >= 4 && server.clientType.Unknown? && server.frameBuffer == []
    requires InDialect(c, p) && server.input == Reply(c, p)
    requires IsFramed(c) ==> |p| <= MAX_FRAME_SIZE && |p| <= server.maxFrameSize
    modifies server
    ensures server.Valid() && server.clientType == c
    ensures o == if c.Headers? && TakeHeader(zlib, p, |p|, server.maxMessageSize).Err?
                 then Fail(TakeHeader(zlib, p, |p|, server.maxMessageSize).error) else Pass
    ensures o == Pass ==> SpeaksProtocol(zlib, c, p, server.maxMessageSize, server.Protocol())
    ensures server.output == old(server.output) && server.writeBuffer == old(server.writeBuffer)
    ensures server.writeHeaders == old(server.writeHeaders) && server.writeTransforms == old(server.writeTransforms)
    ensures c.Headers? && o == Pass ==>
            server.SequenceID == TakeHeader(zlib, p, |p|, server.maxMessageSize).value.0.sequenceId
  {
    RepliesInKind(c, p, leftover, server.maxFrameSize);
    assert [] + p == p;
    o := server.ReadFrame(zlib, leftover);
  }

  /**
   A whole exchange in any of the five dialects: a fresh server reads the request, names its protocol,
   writes a reply and flushes it, and the client finds the reply in the dialect of the request. In the
   header dialect the reply carries the request's sequence id and protocol.
   */
  method AnswerInKind(server: THeaderTransport, client: THeaderTransport, ghost c: ClientType, ghost p: seq<byte>,
                      reply: seq<byte>, zlib: Zlib, leftover: seq<byte>)
    returns (protocol: int32, o: Outcome, ghost order: seq<Pair>)
    requires server != client && server.Valid() && client.Valid() && LawfulZlib(zlib) && |leftover| >= 4
    requires server.clientType.Unknown? && server.frameBuffer == [] && server.output == [] && server.writeBuffer == []
    requires InDialect(c, p) && server.input == Reply(c, p)
    requires IsFramed(c) ==> |p| <= MAX_FRAME_SIZE && |p| <= server.maxFrameSize
    requires c.Headers? ==> TakeHeader(zlib, p, |p|, server.maxMessageSize).Ok?
    requires client.NeedReadFrame() && client.frameBuffer == [] && reply != []
    requires !c.Headers? ==>
               InDialect(c, reply) &&
               (IsFramed(c) ==> |reply| <= MAX_FRAME_SIZE && |reply| <= client.maxFrameSize)
    modifies server, client
    ensures server.clientType == c && SpeaksProtocol(zlib, c, p, server.maxMessageSize, protocol)
    ensures !c.Headers? ==> o == Pass && client.clientType == c
    ensures c.Headers? && Fits(server, order, Wrap(zlib, server.writeTransforms, reply), client.maxFrameSize,
                               client.maxMessageSize) ==>
              o == Pass && client.clientType == c && client.Protocol() == protocol &&
              client.SequenceID == TakeHeader(zlib, p, |p|, server.maxMessageSize).value.0.sequenceId &&
              client.readHeaders == server.writeHeaders &&
              Unwrap(zlib, server.writeTransforms, client.frameBuffer) == Some(reply)
  {
    var first := ReceiveFirst(server, c, p, zlib, leftover);
    protocol := server.Protocol();
    server.Write(reply);
    assert server.writeBuffer == reply;
    o, order := Answer(server, client, zlib, leftover);
  }

  /** The second half: the reply is written in whatever dialect the server has settled on. */
  method Answer(server: THeaderTransport, client: THeaderTransport, zlib: Zlib, leftover: seq<byte>)
    returns (o: Outcome, ghost order: seq<Pair>)
    requires server != client && server.Valid() && client.Valid() && LawfulZlib(zlib) && |leftover| >= 4
    requires server.output == [] && server.writeBuffer != [] && client.NeedReadFrame() && client.frameBuffer == []
    requires !server.clientType.Headers? ==>
               InDialect(server.clientType, server.writeBuffer) &&
               (IsFramed(server.clientType) ==>
                |server.writeBuffer| <= MAX_FRAME_SIZE && |server.writeBuffer| <= client.maxFrameSize)
    modifies server`writeBuffer, server`clientType, server`output, client
    ensures server.clientType == old(server.clientType)
    ensures !server.clientType.Headers? ==> o == Pass && client.clientType == server.clientType
    ensures var reply := old(server.writeBuffer);
            server.clientType.Headers? &&
            Fits(server, order, Wrap(zlib, server.writeTransforms, reply), client.maxFrameSize,
                 client.maxMessageSize) ==>
              o == Pass && client.clientType == Headers && client.protocolID == server.protocolID &&
              client.SequenceID == server.SequenceID && client.readHeaders == server.writeHeaders &&
              Unwrap(zlib, server.writeTransforms, client.frameBuffer) == Some(reply)
  {
    order := [];
    if server.clientType.Headers? {
      o, order := SendAndReceive(server, client, zlib, leftover);
    } else {
      o := ReplyAndReceive(server, client, zlib, leftover);
    }
  }
}
