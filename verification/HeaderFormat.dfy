/**
 Layout of THeader frames, and how a receiver tells the five dialects apart from the first bytes.
 */
module HeaderFormat {
  import opened Wrappers
  import opened WireTypes
  import opened Varint
  import opened WireFormat
  import opened WireTheorems
  import BinaryProtocol
  import CompactProtocol

  const HEADER_MAGIC := 0x0fff
  const VERSION_1_HIGH := 0x8001
  const MAX_FRAME_SIZE := 0x3fff_ffff
  const META_SIZE := 10
  const INFO_KEY_VALUE := 1
  const TRANSFORM_NONE: int32 := 0
  const TRANSFORM_ZLIB: int32 := 1

  type Pair = (seq<byte>, seq<byte>)
  type HeaderMap = map<seq<byte>, seq<byte>>

  // ---------- transforms ----------

  /**
   The compressor and the decompressor. A decompressing reader is refused when the stream does not start
   as a compressed one; `prefix` is what it yields before an error or the end.
   */
  datatype Zlib = Zlib(
    deflate: seq<byte> -> seq<byte>, inflate: seq<byte> -> Option<seq<byte>>,
    starts: seq<byte> -> bool, prefix: seq<byte> -> seq<byte>)

  ghost predicate LawfulZlib(z: Zlib) {
    forall b {:trigger z.deflate(b)} ::
      z.inflate(z.deflate(b)) == Some(b) && z.starts(z.deflate(b)) && z.prefix(z.deflate(b)) == b
  }

  predicate Supported(id: int32) {
    id == TRANSFORM_NONE || id == TRANSFORM_ZLIB
  }

  /**
   What reaches the base writer. Each transform added wraps the writer built so far, so the data
   goes through the last one first.
   */
  function Wrap(z: Zlib, ids: seq<int32>, data: seq<byte>): seq<byte> {
    if ids == [] then data
    else
      var inner := Wrap(z, ids[1..], data);
      if ids[0] == TRANSFORM_ZLIB then z.deflate(inner) else inner
  }

  /**
   What the stack of readers yields. The ids are added from the last to the first, each around
   the reader built so far, so the last id is undone first.
   */
  function Unwrap(z: Zlib, ids: seq<int32>, raw: seq<byte>): Option<seq<byte>> {
    if ids == [] then Some(raw)
    else
      var last := ids[|ids| - 1];
      if last != TRANSFORM_ZLIB then Unwrap(z, ids[..|ids| - 1], raw)
      else
        var once := z.inflate(raw);
        if once.None? then None else Unwrap(z, ids[..|ids| - 1], once.value)
  }

  function ZlibLayers(ids: seq<int32>): nat {
    if ids == [] then 0 else (if ids[0] == TRANSFORM_ZLIB then 1 else 0) + ZlibLayers(ids[1..])
  }

  function Deflated(z: Zlib, n: nat, data: seq<byte>): seq<byte> {
    if n == 0 then data else z.deflate(Deflated(z, n - 1, data))
  }

  lemma {:induction false} WrapIsLayers(z: Zlib, ids: seq<int32>, data: seq<byte>)
    ensures Wrap(z, ids, data) == Deflated(z, ZlibLayers(ids), data)
    decreases ids
  {
    if ids != [] {
      WrapIsLayers(z, ids[1..], data);
    }
  }

  lemma {:induction false} LayersFromTheEnd(ids: seq<int32>)
    requires ids != []
    ensures ZlibLayers(ids) == ZlibLayers(ids[..|ids| - 1]) + (if ids[|ids| - 1] == TRANSFORM_ZLIB then 1 else 0)
    decreases ids
  {
    if |ids| > 1 {
      assert ids[1..][..|ids| - 2] == ids[..|ids| - 1][1..];
      LayersFromTheEnd(ids[1..]);
    }
  }

  lemma {:induction false} UnwrapLayers(z: Zlib, ids: seq<int32>, data: seq<byte>)
    requires LawfulZlib(z)
    ensures Unwrap(z, ids, Deflated(z, ZlibLayers(ids), data)) == Some(data)
    decreases ids
  {
    if ids != [] {
      LayersFromTheEnd(ids);
      UnwrapLayers(z, ids[..|ids| - 1], data);
    }
  }

  /** The reversed reader stack undoes the writer stack, for any list of the supported transforms. */
  lemma TransformsUndone(z: Zlib, ids: seq<int32>, data: seq<byte>)
    requires LawfulZlib(z)
    ensures Unwrap(z, ids, Wrap(z, ids, data)) == Some(data)
  {
    WrapIsLayers(z, ids, data);
    UnwrapLayers(z, ids, data);
  }

  /** Stacking the readers, from the last id to the first, each on what those before it yield. */
  function OpenReaders(z: Zlib, ids: seq<int32>, stream: seq<byte>): Outcome {
    if ids == [] then Pass
    else
      var init, last := ids[..|ids| - 1], ids[|ids| - 1];
      if !Supported(last) then Fail(InvalidTransform)
      else if last == TRANSFORM_NONE then OpenReaders(z, init, stream)
      else if !z.starts(stream) then Fail(Other)
      else OpenReaders(z, init, z.prefix(stream))
  }

  lemma {:induction false} LayersOpen(z: Zlib, ids: seq<int32>, data: seq<byte>)
    requires LawfulZlib(z) && forall i :: 0 <= i < |ids| ==> Supported(ids[i])
    ensures OpenReaders(z, ids, Deflated(z, ZlibLayers(ids), data)) == Pass
    decreases ids
  {
    if ids != [] {
      LayersFromTheEnd(ids);
      LayersOpen(z, ids[..|ids| - 1], data);
    }
  }

  /** No reader is refused on what the writers made. */
  lemma ReadersOpen(z: Zlib, ids: seq<int32>, data: seq<byte>)
    requires LawfulZlib(z) && forall i :: 0 <= i < |ids| ==> Supported(ids[i])
    ensures OpenReaders(z, ids, Wrap(z, ids, data)) == Pass
  {
    WrapIsLayers(z, ids, data);
    LayersOpen(z, ids, data);
  }

  // ---------- header section ----------

  function StringBytes(s: seq<byte>): seq<byte> {
    LengthBytes(Compact, |s|) + s
  }

  function PairsBytes(pairs: seq<Pair>): seq<byte> {
    if pairs == [] then [] else StringBytes(pairs[0].0) + StringBytes(pairs[0].1) + PairsBytes(pairs[1..])
  }

  function InfoBytes(pairs: seq<Pair>): seq<byte> {
    if pairs == [] then [] else [INFO_KEY_VALUE] + VarintBytes(|pairs| % TWO32) + PairsBytes(pairs)
  }

  function IdsBytes(ids: seq<int32>): seq<byte> {
    if ids == [] then [] else VarintBytes(ids[0] % TWO32) + IdsBytes(ids[1..])
  }

  /** Protocol id, transforms and key-value pairs in the order they happen to be iterated. */
  function SectionBytes(protocolId: int32, ids: seq<int32>, pairs: seq<Pair>): seq<byte> {
    VarintBytes(protocolId % TWO32) + (VarintBytes(|ids| % TWO32) + (IdsBytes(ids) + InfoBytes(pairs)))
  }

  function Padding(length: nat): (p: seq<byte>)
    ensures (length + |p|) % 4 == 0 && |p| < 4
    ensures forall i :: 0 <= i < |p| ==> p[i] == 0
  {
    match length % 4
    case 0 => []
    case 1 => [0, 0, 0]
    case 2 => [0, 0]
    case _ => [0]
  }

  function Padded(section: seq<byte>): (p: seq<byte>)
    ensures |p| % 4 == 0
  {
    section + Padding(|section|)
  }

  datatype Header = Header(flags: nat, sequenceId: int32, protocolId: int32, transforms: seq<int32>, headers: HeaderMap)

  function MetaBytes(flags: nat, sequenceId: int32, words: nat): (m: seq<byte>)
    ensures |m| == META_SIZE
  {
    BigEndian(HEADER_MAGIC * TWO16 + flags % TWO16, 4) + BigEndian(sequenceId % TWO32, 4) + BigEndian(words % TWO16, 2)
  }

  /** The frame after its size: meta, padded header section, transformed payload. */
  function Content(flags: nat, sequenceId: int32, protocolId: int32, ids: seq<int32>, pairs: seq<Pair>,
                   raw: seq<byte>): seq<byte> {
    var section := Padded(SectionBytes(protocolId, ids, pairs));
    MetaBytes(flags, sequenceId, |section| / 4) + section + raw
  }

  /** The map a sequence of assignments builds. */
  function MapOf(pairs: seq<Pair>): HeaderMap {
    if pairs == [] then map[] else MapOf(pairs[..|pairs| - 1])[pairs[|pairs| - 1].0 := pairs[|pairs| - 1].1]
  }

  /** One of the orders in which Go may iterate over `m`. */
  ghost predicate Enumerates(pairs: seq<Pair>, m: HeaderMap) {
    |pairs| == |m| && MapOf(pairs) == m
  }

  function TakeIds(n: int, s: seq<byte>): (r: Result<(seq<int32>, seq<byte>)>)
    ensures r.Ok? ==> |r.value.1| <= |s|
    decreases n
  {
    if n <= 0 then Ok(([], s))
    else
      var (id, rest) :- TakeVarint32(s);
      var (ids, rest) :- TakeIds(n - 1, rest);
      Ok(([id] + ids, rest))
  }

  function TakeString(s: seq<byte>, max: nat): (r: Result<(seq<byte>, seq<byte>)>)
    ensures r.Ok? ==> |r.value.1| < |s|
  {
    var (n, rest) :- TakeLength(Compact, s, max);
    TakeBytes(rest, n)
  }

  function TakePair(s: seq<byte>, max: nat): (r: Result<(Pair, seq<byte>)>)
    ensures r.Ok? ==> |r.value.1| < |s|
  {
    var (key, rest) :- TakeString(s, max);
    var (value, rest) :- TakeString(rest, max);
    Ok(((key, value), rest))
  }

  function TakePairs(n: int, s: seq<byte>, acc: HeaderMap, max: nat): (r: Result<(HeaderMap, seq<byte>)>)
    ensures r.Ok? ==> |r.value.1| <= |s|
    decreases n
  {
    if n <= 0 then Ok((acc, s))
    else
      var (pair, rest) :- TakePair(s, max);
      TakePairs(n - 1, rest, acc[pair.0 := pair.1], max)
  }

  lemma TakePairsStep(n: int, s: seq<byte>, acc: HeaderMap, max: nat)
    requires n > 0
    ensures match TakePair(s, max)
            case Ok((p, rest)) => TakePairs(n, s, acc, max) == TakePairs(n - 1, rest, acc[p.0 := p.1], max)
            case Err(e) => TakePairs(n, s, acc, max) == Err(e)
  {
  }

  /** Info blocks until the section ends or a block of another type, padding included, begins. */
  function TakeInfo(s: seq<byte>, acc: HeaderMap, max: nat): Result<HeaderMap>
    decreases |s|
  {
    var infoType := TakeVarint32(s);
    if infoType.Err? || infoType.value.0 != INFO_KEY_VALUE then Ok(acc)
    else
      var (count, rest) :- TakeVarint32(infoType.value.1);
      var (acc', rest) :- TakePairs(count, rest, acc, max);
      TakeInfo(rest, acc', max)
  }

  /** The readers are stacked on the payload, `raw`, before the info blocks are read. */
  function TakeSection(z: Zlib, s: seq<byte>, raw: seq<byte>, max: nat): Result<(int32, seq<int32>, HeaderMap)> {
    var (protocolId, rest) :- TakeVarint32(s);
    var (count, rest) :- TakeVarint32(rest);
    var (ids, rest) :- TakeIds(count, rest);
    var stacked := OpenReaders(z, ids, raw);
    if stacked.Fail? then Err(stacked.error)
    else
      var headers :- TakeInfo(rest, map[], max);
      Ok((protocolId, ids, headers))
  }

  /**
   What `parseHeaders` makes of the frame buffer, and the raw bytes it leaves there. The size of the frame
   is a 32-bit number from which the size of the meta part is taken off.
   */
  function TakeHeader(z: Zlib, buffer: seq<byte>, frameSize: nat, max: nat): Result<(Header, seq<byte>)> {
    var (meta, rest) :- TakeBytes(buffer, META_SIZE);
    var length := FromBigEndian(meta[8..10]) * 4;
    if (frameSize - META_SIZE) % TWO32 < length then Err(SizeLimit)
    else
      var (section, raw) :- TakeBytes(rest, length);
      var (protocolId, ids, headers) :- TakeSection(z, section, raw, max);
      var flags := FromBigEndian(meta[..4]) % TWO16;
      Ok((Header(flags, ToInt32(FromBigEndian(meta[4..8])), protocolId, ids, headers), raw))
  }

  lemma VarintInt32RoundTrip(x: int32, rest: seq<byte>)
    ensures TakeVarint32(VarintBytes(x % TWO32) + rest) == Ok((x, rest))
  {
    VarintRoundTrip(x % TWO32, rest);
    SignedRoundTrip(x);
  }

  lemma {:induction false} IdsRoundTrip(ids: seq<int32>, rest: seq<byte>)
    ensures TakeIds(|ids|, IdsBytes(ids) + rest) == Ok((ids, rest))
    decreases ids
  {
    if ids == [] {
      assert IdsBytes(ids) + rest == rest;
    } else {
      var tail := IdsBytes(ids[1..]) + rest;
      Associate(VarintBytes(ids[0] % TWO32), IdsBytes(ids[1..]), rest);
      VarintInt32RoundTrip(ids[0], tail);
      IdsRoundTrip(ids[1..], rest);
      assert [ids[0]] + ids[1..] == ids;
    }
  }

  lemma StringBytesRoundTrip(s: seq<byte>, rest: seq<byte>, max: nat)
    requires |s| <= max <= MAX_SIZE
    ensures TakeString(StringBytes(s) + rest, max) == Ok((s, rest))
  {
    assert StringBytes(s) + rest == LengthBytes(Compact, |s|) + (s + rest);
    LengthRoundTrip(Compact, |s|, s + rest, max);
    TakeBytesOf(s, rest);
  }

  predicate WithinSize(pairs: seq<Pair>, max: nat) {
    forall i :: 0 <= i < |pairs| ==> |pairs[i].0| <= max && |pairs[i].1| <= max
  }

  function Assign(m: HeaderMap, pairs: seq<Pair>): HeaderMap
    decreases pairs
  {
    if pairs == [] then m else Assign(m[pairs[0].0 := pairs[0].1], pairs[1..])
  }

  lemma {:induction false} PairsRoundTrip(pairs: seq<Pair>, rest: seq<byte>, acc: HeaderMap, max: nat)
    requires WithinSize(pairs, max) && max <= MAX_SIZE
    ensures TakePairs(|pairs|, PairsBytes(pairs) + rest, acc, max) == Ok((Assign(acc, pairs), rest))
    decreases pairs
  {
    if pairs == [] {
      assert PairsBytes(pairs) + rest == rest;
    } else {
      var (k, v) := pairs[0];
      var tail := PairsBytes(pairs[1..]) + rest;
      assert PairsBytes(pairs) + rest == StringBytes(k) + (StringBytes(v) + tail);
      StringBytesRoundTrip(k, StringBytes(v) + tail, max);
      StringBytesRoundTrip(v, tail, max);
      assert TakePair(PairsBytes(pairs) + rest, max) == Ok((pairs[0], tail));
      PairsRoundTrip(pairs[1..], rest, acc[k := v], max);
    }
  }

  lemma {:induction false} AssignSnoc(m: HeaderMap, pairs: seq<Pair>, p: Pair)
    ensures Assign(m, pairs + [p]) == Assign(m, pairs)[p.0 := p.1]
    decreases pairs
  {
    if pairs == [] {
      assert Assign(m, [p]) == Assign(m[p.0 := p.1], [p][1..]);
    } else {
      assert (pairs + [p])[1..] == pairs[1..] + [p];
      AssignSnoc(m[pairs[0].0 := pairs[0].1], pairs[1..], p);
    }
  }

  lemma {:induction false} AssignIsMapOf(pairs: seq<Pair>)
    ensures Assign(map[], pairs) == MapOf(pairs)
    decreases pairs
  {
    if pairs != [] {
      var init, last := pairs[..|pairs| - 1], pairs[|pairs| - 1];
      AssignIsMapOf(init);
      AssignSnoc(map[], init, last);
      assert init + [last] == pairs;
    }
  }

  /** Padding is at most three zero bytes, and a zero byte is not an info block. */
  lemma PaddingIsNoInfo(length: nat, acc: HeaderMap, max: nat)
    ensures TakeInfo(Padding(length), acc, max) == Ok(acc)
  {
  }

  lemma TakeInfoStep(s: seq<byte>, acc: HeaderMap, max: nat, counted: seq<byte>, count: int32, body: seq<byte>)
    requires TakeVarint32(s) == Ok((INFO_KEY_VALUE, counted)) && TakeVarint32(counted) == Ok((count, body))
    ensures match TakePairs(count, body, acc, max)
            case Ok((acc', rest)) => TakeInfo(s, acc, max) == TakeInfo(rest, acc', max)
            case Err(e) => TakeInfo(s, acc, max) == Err(e)
  {
  }

  lemma InfoRoundTrip(pairs: seq<Pair>, length: nat, max: nat)
    requires WithinSize(pairs, max) && max <= MAX_SIZE && |pairs| <= MAX_SIZE
    ensures TakeInfo(InfoBytes(pairs) + Padding(length), map[], max) == Ok(MapOf(pairs))
  {
    var padding := Padding(length);
    if pairs == [] {
      assert InfoBytes(pairs) + padding == padding;
      PaddingIsNoInfo(length, map[], max);
    } else {
      var count := VarintBytes(|pairs| % TWO32);
      var body := PairsBytes(pairs) + padding;
      InfoNests(pairs, padding);
      VarintInt32RoundTrip(INFO_KEY_VALUE, count + body);
      VarintInt32RoundTrip(|pairs|, body);
      TakeInfoStep(InfoBytes(pairs) + padding, map[], max, count + body, |pairs|, body);
      PairsRoundTrip(pairs, padding, map[], max);
      AssignIsMapOf(pairs);
      PaddingIsNoInfo(length, MapOf(pairs), max);
    }
  }

  lemma InfoNests(pairs: seq<Pair>, rest: seq<byte>)
    requires pairs != []
    ensures InfoBytes(pairs) + rest
            == VarintBytes(INFO_KEY_VALUE % TWO32) + (VarintBytes(|pairs| % TWO32) + (PairsBytes(pairs) + rest))
  {
    assert VarintBytes(INFO_KEY_VALUE % TWO32) == [INFO_KEY_VALUE];
    Associate([INFO_KEY_VALUE], VarintBytes(|pairs| % TWO32), PairsBytes(pairs));
    Associate(VarintBytes(|pairs| % TWO32), PairsBytes(pairs), rest);
    Associate([INFO_KEY_VALUE], VarintBytes(|pairs| % TWO32) + PairsBytes(pairs), rest);
  }

  lemma SectionRoundTrip(z: Zlib, protocolId: int32, ids: seq<int32>, pairs: seq<Pair>, raw: seq<byte>, max: nat)
    requires |ids| <= MAX_SIZE && |pairs| <= MAX_SIZE
    requires WithinSize(pairs, max) && max <= MAX_SIZE
    ensures TakeSection(z, Padded(SectionBytes(protocolId, ids, pairs)), raw, max)
         == match OpenReaders(z, ids, raw) case Pass => Ok((protocolId, ids, MapOf(pairs))) case Fail(e) => Err(e)
  {
    var section := SectionBytes(protocolId, ids, pairs);
    var info := InfoBytes(pairs) + Padding(|section|);
    IdsListRoundTrip(protocolId, ids, pairs);
    InfoRoundTrip(pairs, |section|, max);
  }

  lemma IdsListRoundTrip(protocolId: int32, ids: seq<int32>, pairs: seq<Pair>)
    requires |ids| <= MAX_SIZE
    ensures var section := SectionBytes(protocolId, ids, pairs);
            var info := InfoBytes(pairs) + Padding(|section|);
            var r0 := TakeVarint32(Padded(section));
            r0.Ok? && r0.value.0 == protocolId &&
            var r1 := TakeVarint32(r0.value.1);
            r1.Ok? && r1.value.0 == |ids| && TakeIds(|ids|, r1.value.1) == Ok((ids, info))
  {
    var section := SectionBytes(protocolId, ids, pairs);
    var info := InfoBytes(pairs) + Padding(|section|);
    var listed := IdsBytes(ids) + info;
    var counted := VarintBytes(|ids| % TWO32) + listed;
    Nested(VarintBytes(protocolId % TWO32), VarintBytes(|ids| % TWO32), IdsBytes(ids), InfoBytes(pairs),
           Padding(|section|));
    VarintInt32RoundTrip(protocolId, counted);
    VarintInt32RoundTrip(|ids|, listed);
    IdsRoundTrip(ids, info);
  }

  lemma Nested(a: seq<byte>, b: seq<byte>, c: seq<byte>, d: seq<byte>, e: seq<byte>)
    ensures (a + (b + (c + d))) + e == a + (b + (c + (d + e)))
  {
    assert (c + d) + e == c + (d + e);
    assert (b + (c + d)) + e == b + ((c + d) + e);
  }

  lemma MetaRoundTrip(flags: nat, sequenceId: int32, words: nat)
    requires words < TWO16
    ensures var m := MetaBytes(flags, sequenceId, words);
            FromBigEndian(m[..4]) % TWO16 == flags % TWO16 &&
            ToInt32(FromBigEndian(m[4..8])) == sequenceId &&
            FromBigEndian(m[8..10]) == words
  {
    var magic := HEADER_MAGIC * TWO16 + flags % TWO16;
    SequenceIdRoundTrip(sequenceId);
    FlagsRoundTrip(flags);
    TwoBytes(words);
    MetaSlices(BigEndian(magic, 4), BigEndian(sequenceId % TWO32, 4), BigEndian(words, 2));
  }

  lemma FlagsRoundTrip(flags: nat)
    ensures FromBigEndian(BigEndian(HEADER_MAGIC * TWO16 + flags % TWO16, 4)) % TWO16 == flags % TWO16
  {
    FourBytes(HEADER_MAGIC * TWO16 + flags % TWO16);
    LowHalf(HEADER_MAGIC, flags % TWO16);
  }

  lemma SequenceIdRoundTrip(x: int32)
    ensures ToInt32(FromBigEndian(BigEndian(x % TWO32, 4))) == x
  {
    FourBytes(x % TWO32);
    SignedRoundTrip(x);
  }

  lemma TwoBytes(n: nat)
    requires n < TWO16
    ensures FromBigEndian(BigEndian(n, 2)) == n
  {
    Pow256Values();
    BigEndianRoundTrip(n, 2);
  }

  lemma MetaSlices(a: seq<byte>, b: seq<byte>, c: seq<byte>)
    requires |a| == 4 && |b| == 4 && |c| == 2
    ensures var m := a + b + c; m[..4] == a && m[4..8] == b && m[8..10] == c
  {
  }

  lemma LowHalf(high: nat, low: nat)
    requires low < TWO16
    ensures (high * TWO16 + low) % TWO16 == low
  {
  }

  /**
   A frame gives back its sequence id, the low 16 flag bits, the protocol id, the transforms and
   the whole map, in whatever order the map was written, and leaves the reader at the payload; if the
   readers of the transforms cannot be stacked on that payload, parsing fails.
   */
  lemma HeaderRoundTrip(z: Zlib, h: Header, pairs: seq<Pair>, raw: seq<byte>, max: nat)
    requires Enumerates(pairs, h.headers)
    requires |h.transforms| <= MAX_SIZE && |pairs| <= MAX_SIZE
    requires WithinSize(pairs, max) && max <= MAX_SIZE
    requires |Padded(SectionBytes(h.protocolId, h.transforms, pairs))| / 4 < TWO16
    requires |Content(h.flags, h.sequenceId, h.protocolId, h.transforms, pairs, raw)| < TWO32
    ensures var content := Content(h.flags, h.sequenceId, h.protocolId, h.transforms, pairs, raw);
            TakeHeader(z, content, |content|, max)
            == match OpenReaders(z, h.transforms, raw) case Pass => Ok((h.(flags := h.flags % TWO16), raw))
                case Fail(e) => Err(e)
  {
    var section := Padded(SectionBytes(h.protocolId, h.transforms, pairs));
    var words := |section| / 4;
    var meta := MetaBytes(h.flags, h.sequenceId, words);
    Associate(meta, section, raw);
    MetaRoundTrip(h.flags, h.sequenceId, words);
    SectionRoundTrip(z, h.protocolId, h.transforms, pairs, raw, max);
    HeaderInSteps(z, h, meta, section, raw, max);
  }

  lemma HeaderInSteps(z: Zlib, h: Header, meta: seq<byte>, section: seq<byte>, raw: seq<byte>, max: nat)
    requires |meta| == META_SIZE && FromBigEndian(meta[..4]) % TWO16 == h.flags % TWO16
    requires ToInt32(FromBigEndian(meta[4..8])) == h.sequenceId && FromBigEndian(meta[8..10]) * 4 == |section|
    requires META_SIZE + |section| + |raw| < TWO32
    requires TakeSection(z, section, raw, max)
          == match OpenReaders(z, h.transforms, raw) case Pass => Ok((h.protocolId, h.transforms, h.headers))
              case Fail(e) => Err(e)
    ensures TakeHeader(z, meta + (section + raw), META_SIZE + |section| + |raw|, max)
         == match OpenReaders(z, h.transforms, raw) case Pass => Ok((h.(flags := h.flags % TWO16), raw))
             case Fail(e) => Err(e)
  {
    TakeBytesOf(meta, section + raw);
    TakeBytesOf(section, raw);
  }

  // ---------- telling the dialects apart ----------

  datatype ClientType = Unknown | Headers | FramedBinary | UnframedBinary | FramedCompact | UnframedCompact

  predicate IsFramed(c: ClientType) {
    c.Headers? || c.FramedBinary? || c.FramedCompact?
  }

  predicate HasBinaryVersion(b: seq<byte>)
    requires |b| >= 4
  {
    FromBigEndian(b[..4]) / TWO16 == VERSION_1_HIGH
  }

  predicate HasCompactVersion(b: seq<byte>)
    requires |b| >= 4
  {
    b[0] == CompactProtocol.PROTOCOL_ID && b[1] % 32 == CompactProtocol.VERSION
  }

  predicate HasHeaderMagic(b: seq<byte>)
    requires |b| >= 4
  {
    FromBigEndian(b[..4]) / TWO16 == HEADER_MAGIC
  }

  /** Where a received stream starts: in an unframed message, or with a frame of a known size. */
  datatype Arrival = Unframed(client: ClientType) | Frame(content: seq<byte>, rest: seq<byte>)

  function Arrive(s: seq<byte>, maxFrame: nat): Result<Arrival> {
    if |s| < 4 then Err(EndOfFile)
    else if HasBinaryVersion(s) then Ok(Unframed(UnframedBinary))
    else if HasCompactVersion(s) then Ok(Unframed(UnframedCompact))
    else
      var size := FromBigEndian(s[..4]);
      if size > MAX_FRAME_SIZE || size > maxFrame then Err(SizeLimit)
      else if |s| - 4 < size then Err(EndOfFile)
      else Ok(Frame(s[4..4 + size], s[4 + size..]))
  }

  /**
   What a read that fails adds to the frame buffer, and what it leaves of the input: a frame cut short goes
   into the buffer.
   */
  function CutShort(s: seq<byte>, maxFrame: nat): (seq<byte>, seq<byte>) {
    if |s| < 4 then ([], s)
    else
      var size := FromBigEndian(s[..4]);
      if size > MAX_FRAME_SIZE || size > maxFrame then ([], s) else (s[4..], [])
  }

  /**
   The dialect inside a frame, judged by four bytes of the frame buffer. The buffer comes from a
   pool, so a shorter frame is followed there by `leftover` bytes of an earlier one.
   */
  function FrameClient(content: seq<byte>, leftover: seq<byte>): Result<ClientType>
    requires |leftover| >= 4
  {
    var b := content + leftover;
    if HasHeaderMagic(b) then Ok(Headers)
    else if HasBinaryVersion(b) then Ok(FramedBinary)
    else if HasCompactVersion(b) then Ok(FramedCompact)
    else Err(NotImplemented)
  }

  lemma FourByteNumber(b: seq<byte>)
    requires |b| >= 4
    ensures FromBigEndian(b[..4]) == 256 * (256 * (256 * (b[0] as int) + b[1]) + b[2]) + b[3]
    ensures FromBigEndian(b[..4]) / TWO16 == 256 * (b[0] as int) + b[1]
  {
    assert b[..4][..3] == b[..3] && b[..3][..2] == b[..2] && b[..2][..1] == b[..1];
    assert FromBigEndian(b[..1]) == 256 * FromBigEndian(b[..1][..0]) + b[0];
    assert FromBigEndian(b[..2]) == 256 * (b[0] as int) + b[1];
    assert FromBigEndian(b[..3]) == 256 * (256 * (b[0] as int) + b[1]) + b[2];
  }

  /** The three marks are told apart by the first byte. */
  lemma MarksByFirstBytes(b: seq<byte>)
    requires |b| >= 4
    ensures HasBinaryVersion(b) <==> b[0] == 0x80 && b[1] == 0x01
    ensures HasHeaderMagic(b) <==> b[0] == 0x0f && b[1] == 0xff
    ensures HasCompactVersion(b) <==> b[0] == 0x82 && b[1] % 32 == 1
  {
    FourByteNumber(b);
  }

  /**
   What is left in the pooled buffer never matters exactly when the frame has two bytes, or one
   byte that begins none of the three marks.
   */
  lemma LeftoverMatters(content: seq<byte>)
    ensures (forall a: seq<byte>, b: seq<byte> {:trigger FrameClient(content, a), FrameClient(content, b)} ::
               |a| >= 4 && |b| >= 4 ==> FrameClient(content, a) == FrameClient(content, b))
            <==> |content| >= 2 || (|content| == 1 && content[0] != 0x80 && content[0] != 0x82 && content[0] != 0x0f)
  {
    if |content| >= 2 || (|content| == 1 && content[0] != 0x80 && content[0] != 0x82 && content[0] != 0x0f) {
      forall a: seq<byte>, b: seq<byte> {:trigger FrameClient(content, a), FrameClient(content, b)}
        | |a| >= 4 && |b| >= 4
        ensures FrameClient(content, a) == FrameClient(content, b)
      {
        MarksByFirstBytes(content + a);
        MarksByFirstBytes(content + b);
      }
    } else {
      var second: byte := if |content| == 1 && content[0] == 0x0f then 0xff else 0x01;
      var a: seq<byte> := if content == [] then [0x80, second, 0, 0] else [second, 0, 0, 0];
      var b: seq<byte> := [0, 0, 0, 0];
      MarksByFirstBytes(content + a);
      MarksByFirstBytes(content + b);
      assert FrameClient(content, a) != FrameClient(content, b);
    }
  }

  /**
   A frame that was cut short stays in the buffer, and the next one is appended to it. The next frame is
   judged by its own bytes, whatever they are, exactly when nothing was left of the cut one.
   */
  lemma CutFrameMatters(cut: seq<byte>)
    ensures (forall content: seq<byte>, leftover: seq<byte> {:trigger FrameClient(cut + content, leftover)} ::
               |leftover| >= 4 ==> FrameClient(cut + content, leftover) == FrameClient(content, leftover))
            <==> cut == []
  {
    if cut == [] {
      forall content: seq<byte>, leftover: seq<byte> {:trigger FrameClient(cut + content, leftover)} | |leftover| >= 4
        ensures FrameClient(cut + content, leftover) == FrameClient(content, leftover)
      {
        assert cut + content == content;
      }
    } else {
      var leftover: seq<byte> := [0, 0, 0, 0];
      var content := Misjudged(cut);
      assert FrameClient(cut + content, leftover) != FrameClient(content, leftover);
    }
  }

  /** A header frame behind what was left, or a binary message when what was left begins a header frame. */
  lemma Misjudged(cut: seq<byte>) returns (content: seq<byte>)
    requires cut != []
    ensures FrameClient(cut + content, [0, 0, 0, 0]) != FrameClient(content, [0, 0, 0, 0])
  {
    content := if |cut| >= 2 && cut[0] == 0x0f && cut[1] == 0xff then [0x80, 0x01, 0, 0] else [0x0f, 0xff, 0, 0];
    MarksByFirstBytes(cut + content + [0, 0, 0, 0]);
    MarksByFirstBytes(content + [0, 0, 0, 0]);
  }

  /** Once four bytes of the cut frame are there they decide alone, whatever the next frame is. */
  lemma CutFrameDecides(cut: seq<byte>, content: seq<byte>, leftover: seq<byte>, other: seq<byte>)
    requires |cut| >= 4 && |leftover| >= 4 && |other| >= 4
    ensures FrameClient(cut + content, leftover) == FrameClient(cut, other)
  {
    MarksByFirstBytes(cut + content + leftover);
    MarksByFirstBytes(cut + other);
  }

  // ---------- what each sender puts on the wire ----------

  /** A strict binary message and a compact message, each with an arbitrary body. */
  predicate IsBinaryMessage(p: seq<byte>) {
    |p| >= 4 && HasBinaryVersion(p)
  }

  predicate IsCompactMessage(p: seq<byte>) {
    |p| >= 4 && HasCompactVersion(p)
  }

  lemma MessagesStartWithTheirMark(b: BinaryProtocol.Message, c: CompactProtocol.Message, body: seq<byte>)
    ensures IsBinaryMessage(BinaryProtocol.MessageBytes(b, true) + body) <==> BinaryProtocol.KeepsVersion(b.typeId)
    ensures IsCompactMessage(CompactProtocol.MessageBytes(c) + body)
  {
    var p := BinaryProtocol.MessageBytes(b, true) + body;
    var word := BinaryProtocol.VersionWord(b.typeId);
    assert p[..4] == BigEndian(word, 4);
    FourBytes(word);
    BinaryProtocol.VersionWordRead(b.typeId);
    VarintFits(c.seqId % TWO32);
    VarintFits(|c.name| % TWO32);
    var q := CompactProtocol.MessageBytes(c) + body;
    var versionAndType: byte := 1 + (c.typeId % 8) * 32;
    assert q[0] == CompactProtocol.PROTOCOL_ID && q[1] == versionAndType;
  }

  /** A size prefix and the frame. */
  function Framed(content: seq<byte>): seq<byte> {
    BigEndian(|content| % TWO32, 4) + content
  }

  /**
   What a transport that has settled on a dialect puts on the wire for a message or, in the header dialect, a
   frame's content.
   */
  function Reply(c: ClientType, payload: seq<byte>): seq<byte> {
    if IsFramed(c) then Framed(payload) else payload
  }

  /** The message or content begins with the mark of the dialect. */
  predicate InDialect(c: ClientType, p: seq<byte>) {
    match c
    case Unknown => false
    case Headers => |p| >= 4 && HasHeaderMagic(p)
    case FramedBinary | UnframedBinary => IsBinaryMessage(p)
    case FramedCompact | UnframedCompact => IsCompactMessage(p)
  }

  lemma FrameArrives(content: seq<byte>, rest: seq<byte>, maxFrame: nat)
    requires |content| <= MAX_FRAME_SIZE && |content| <= maxFrame
    ensures Arrive(Framed(content) + rest, maxFrame) == Ok(Frame(content, rest))
  {
    var s := Framed(content) + rest;
    FrameParts(content, rest);
    FourBytes(|content|);
    SizesAreNoMarks(s);
  }

  lemma FrameParts(content: seq<byte>, rest: seq<byte>)
    requires |content| < TWO32
    ensures var s, n := Framed(content) + rest, |content|;
            |s| >= 4 + n && s[..4] == BigEndian(n, 4) && s[4..4 + n] == content && s[4 + n..] == rest
  {
  }

  /** The largest frame size is below what any unframed mark would be as a number. */
  lemma SizesAreNoMarks(s: seq<byte>)
    requires |s| >= 4 && FromBigEndian(s[..4]) <= MAX_FRAME_SIZE
    ensures !HasBinaryVersion(s) && !HasCompactVersion(s)
  {
    FourByteNumber(s);
    MarksByFirstBytes(s);
    assert s[0] < 0x40;
  }

  /**
   Every binary and compact message, unframed or framed, and every THeader frame is classified as
   what it is, whatever the pooled buffer held before.
   */
  lemma DialectsToldApart(p: seq<byte>, leftover: seq<byte>, rest: seq<byte>, maxFrame: nat)
    requires |leftover| >= 4
    ensures IsBinaryMessage(p) ==> Arrive(p + rest, maxFrame) == Ok(Unframed(UnframedBinary))
    ensures IsCompactMessage(p) ==> Arrive(p + rest, maxFrame) == Ok(Unframed(UnframedCompact))
    ensures |p| <= MAX_FRAME_SIZE && |p| <= maxFrame ==> Arrive(Framed(p) + rest, maxFrame) == Ok(Frame(p, rest))
    ensures IsBinaryMessage(p) ==> FrameClient(p, leftover) == Ok(FramedBinary)
    ensures IsCompactMessage(p) ==> FrameClient(p, leftover) == Ok(FramedCompact)
    ensures |p| >= 4 && HasHeaderMagic(p) ==> FrameClient(p, leftover) == Ok(Headers)
  {
    if |p| <= MAX_FRAME_SIZE && |p| <= maxFrame {
      FrameArrives(p, rest, maxFrame);
    }
    if |p| >= 4 {
      MarksByFirstBytes(p);
      MarksByFirstBytes(p + rest);
      MarksByFirstBytes(p + leftover);
    }
  }

  lemma ContentHasHeaderMagic(flags: nat, sequenceId: int32, protocolId: int32, ids: seq<int32>, pairs: seq<Pair>,
                              raw: seq<byte>)
    ensures var c := Content(flags, sequenceId, protocolId, ids, pairs, raw); |c| >= 4 && HasHeaderMagic(c)
  {
    var magic := HEADER_MAGIC * TWO16 + flags % TWO16;
    assert Content(flags, sequenceId, protocolId, ids, pairs, raw)[..4] == BigEndian(magic, 4);
    FourBytes(magic);
  }

  /** A reply is classified by the peer as the dialect it answers. */
  lemma RepliesInKind(c: ClientType, p: seq<byte>, leftover: seq<byte>, maxFrame: nat)
    requires |leftover| >= 4 && InDialect(c, p)
    requires IsFramed(c) ==> |p| <= MAX_FRAME_SIZE && |p| <= maxFrame
    ensures var a := Arrive(Reply(c, p), maxFrame);
            a.Ok? && (if IsFramed(c) then a.value == Frame(p, []) && FrameClient(p, leftover) == Ok(c)
                      else a.value == Unframed(c))
  {
    DialectsToldApart(p, leftover, [], maxFrame);
    assert Framed(p) + [] == Framed(p) && p + [] == p;
  }
}
