/** The bytes on the wire, number by number: the type codes, the headers and a few whole encodings. */
module WireBytes {
  import opened Wrappers
  import opened WireTypes
  import opened Varint
  import opened WireFormat
  import opened WireTheorems
  import CompactProtocol
  import BinaryProtocol
  import HeaderFormat

  /** The compact code of each Thrift type, a boolean outside a field header included. */
  const COMPACT_CODES: map<int, int> :=
    map[2 := 0x01, 3 := 0x03, 6 := 0x04, 8 := 0x05, 10 := 0x06, 4 := 0x07,
        11 := 0x08, 15 := 0x09, 14 := 0x0A, 13 := 0x0B, 12 := 0x0C, 16 := 0x0D]

  /** The Thrift type of each compact code; both boolean codes are booleans. */
  const THRIFT_TYPES: map<int, int> :=
    map[0x01 := 2, 0x02 := 2, 0x03 := 3, 0x04 := 6, 0x05 := 8, 0x06 := 10, 0x07 := 4,
        0x08 := 11, 0x09 := 15, 0x0A := 14, 0x0B := 13, 0x0C := 12, 0x0D := 16]

  // ---------- what the compact writer puts there ----------

  /**
   A compact field header: the type's code in the low half of a byte, or for a boolean field its value; in
   the high half the step from the last field id, or else a zigzag varint of the id behind it.
   */
  lemma FieldHeaderOnTheWire(t: TType, id: int16, lastId: int, carried: Option<bool>)
    requires t in COMPACT_CODES && (carried.Some? ==> t == 2)
    ensures var bytes := FieldHeaderBytes(Compact, t, id, lastId, carried);
            var code := match carried case Some(true) => 0x01 case Some(false) => 0x02 case None => COMPACT_CODES[t];
            if 1 <= id - lastId <= 15 then bytes == [(id - lastId) * 16 + code]
            else bytes == [code] + VarintBytes(if id >= 0 then 2 * id else -2 * id - 1)
  {
  }

  /** A compact list or set header: the element's code low, the size high up to 14, or else 15 and a varint. */
  lemma ListHeaderOnTheWire(t: TType, n: nat)
    requires t in COMPACT_CODES && n < TWO32
    ensures ListHeaderBytes(Compact, t, n)
         == if n < 15 then [n * 16 + COMPACT_CODES[t]] else [0xf0 + COMPACT_CODES[t]] + VarintBytes(n)
  {
    CodeWritten(t);
    LengthIsVarint(n);
    ListHeaderOf(t, n, COMPACT_CODES[t]);
  }

  lemma ListHeaderOf(t: TType, n: nat, code: byte)
    requires CompactType(t) == code < 16 && LengthBytes(Compact, n) == VarintBytes(n)
    ensures ListHeaderBytes(Compact, t, n) == if n < 15 then [n * 16 + code] else [0xf0 + code] + VarintBytes(n)
  {
  }

  /**
   A compact map header: a zero for an empty map, or else the size and a byte with the key's code high, the
   value's low.
   */
  lemma MapHeaderOnTheWire(kt: TType, vt: TType, n: nat)
    requires kt in COMPACT_CODES && vt in COMPACT_CODES && n < TWO32
    ensures MapHeaderBytes(Compact, kt, vt, n)
         == if n == 0 then [0] else VarintBytes(n) + [COMPACT_CODES[kt] * 16 + COMPACT_CODES[vt]]
  {
    CodeWritten(kt);
    CodeWritten(vt);
    LengthIsVarint(n);
    MapHeaderOf(kt, vt, n, COMPACT_CODES[kt], COMPACT_CODES[vt]);
  }

  lemma CodeWritten(t: TType)
    requires t in COMPACT_CODES
    ensures CompactType(t) == COMPACT_CODES[t] < 16
  {
  }

  lemma LengthIsVarint(n: nat)
    requires n < TWO32
    ensures LengthBytes(Compact, n) == VarintBytes(n)
  {
    SmallRemainder(n);
  }

  lemma SmallRemainder(n: nat)
    requires n < TWO32
    ensures n % TWO32 == n
  {
  }

  lemma MapHeaderOf(kt: TType, vt: TType, n: nat, k: byte, v: byte)
    requires CompactType(kt) == k < 16 && CompactType(vt) == v < 16 && LengthBytes(Compact, n) == VarintBytes(n)
    ensures MapHeaderBytes(Compact, kt, vt, n) == if n == 0 then [0] else VarintBytes(n) + [k * 16 + v]
  {
  }

  // ---------- what the compact reader makes of it ----------

  /** Each of the thirteen codes in a field header gives its type, zero ends the struct, and the other two fail. */
  lemma FieldHeaderRead(b: byte, rest: seq<byte>, lastId: int)
    requires b >= 16
    ensures var code := b % 16;
            TakeFieldHeader(Compact, [b] + rest, lastId) ==
            if code == 0 then Ok((StopField, rest))
            else if code in THRIFT_TYPES then
              Ok((FieldHeader.FieldHeader(THRIFT_TYPES[code], ToInt16(lastId + b / 16),
                                          if code == 1 then Some(true) else if code == 2 then Some(false)
                                                                            else None), rest))
            else Err(Other)
  {
    TakeByteOf(b, rest);
    CodeRead(b);
  }

  lemma CodeRead(b: byte)
    ensures b % 16 in THRIFT_TYPES ==> FromCompactType(b) == Ok(THRIFT_TYPES[b % 16])
    ensures b % 16 == 0 ==> FromCompactType(b) == Ok(0)
    ensures b % 16 >= 14 ==> FromCompactType(b) == Err(Other)
  {
  }

  /** The same of a short list header, whose size is within the bounds. */
  lemma ListHeaderRead(b: byte, rest: seq<byte>, max: nat)
    requires b / 16 < 15 && b / 16 <= max && b % 16 != 0
    ensures TakeListHeader(Compact, [b] + rest, max)
         == if b % 16 in THRIFT_TYPES then Ok(((THRIFT_TYPES[b % 16], b / 16), rest)) else Err(Other)
  {
    TakeByteOf(b, rest);
    CodeRead(b);
  }

  /** Of a map's type byte each half gives its type, or nothing when it is no code. */
  lemma MapTypesRead(n: nat, b: byte, rest: seq<byte>, max: nat)
    requires 0 < n <= max <= MAX_SIZE
    ensures TakeMapHeader(Compact, VarintBytes(n) + ([b] + rest), max)
         == Ok(((if b / 16 in THRIFT_TYPES then THRIFT_TYPES[b / 16] else 0,
                 if b % 16 in THRIFT_TYPES then THRIFT_TYPES[b % 16] else 0, n), rest))
  {
    LengthRoundTrip(Compact, n, [b] + rest, max);
    TakeByteOf(b, rest);
    TypeOrStop(b / 16);
    TypeOrStop(b % 16);
    LengthIsVarint(n);
    MapTypesTaken(n, b, [b] + rest, rest, max);
  }

  lemma MapTypesTaken(n: nat, b: byte, tail: seq<byte>, rest: seq<byte>, max: nat)
    requires 0 < n <= max <= MAX_SIZE && TakeLength(Compact, LengthBytes(Compact, n) + tail, max) == Ok((n, tail))
    requires TakeByte(tail) == Ok((b, rest)) && LengthBytes(Compact, n) == VarintBytes(n)
    ensures TakeMapHeader(Compact, VarintBytes(n) + tail, max)
         == Ok(((CompactTypeOrStop(b / 16), CompactTypeOrStop(b % 16), n), rest))
  {
  }

  lemma TypeOrStop(code: byte)
    requires code < 16
    ensures CompactTypeOrStop(code) == if code in THRIFT_TYPES then THRIFT_TYPES[code] else 0
  {
    CodeRead(code);
  }

  // ---------- integers ----------

  /** Seven bits a byte, the lowest first, the top bit set on all but the last, and no byte too many. */
  lemma {:induction false} VarintMeans(u: nat, i: nat)
    requires i < |VarintBytes(u)|
    ensures VarintBytes(u)[i] % 128 == u / Pow128(i) % 128
    ensures VarintBytes(u)[i] >= 128 <==> i + 1 < |VarintBytes(u)|
    ensures i > 0 ==> u >= Pow128(i)
    decreases u
  {
    if i > 0 {
      VarintMeans(u / 128, i - 1);
      DivideTwice(u, 128, Pow128(i - 1));
      assert u >= 128 * (u / 128);
    }
  }

  lemma DivideTwice(u: nat, a: nat, b: nat)
    requires a > 0 && b > 0
    ensures a * b > 0 && u / a / b == u / (a * b)
  {
    var q, r := u / a, u % a;
    var p, t := q / b, q % b;
    Distributed(a, b, p, t);
    QuotientIs(u, a * b, p, a * t + r);
  }

  lemma Distributed(a: nat, b: nat, p: nat, t: nat)
    requires a > 0 && t < b
    ensures a * b > 0 && a * (b * p + t) == (a * b) * p + a * t && a * t <= a * b - a
  {
    Split(a, b * p, t);
    Regroup(a, b, p);
    Split(a, b - 1 - t, t + 1);
    assert a * (t + 1) == a * t + a;
  }

  lemma Split(a: nat, x: nat, y: nat)
    ensures a * (x + y) == a * x + a * y
  {
  }

  lemma Regroup(a: nat, b: nat, p: nat)
    ensures a * (b * p) == (a * b) * p
  {
  }

  lemma QuotientIs(u: nat, d: nat, q: nat, r: nat)
    requires d > 0 && u == d * q + r && r < d
    ensures u / d == q
  {
    DivModUnique(u, d, q, r);
  }

  /** The most significant byte first. */
  lemma {:induction false} BigEndianMeans(u: nat, n: nat, i: nat)
    requires i < n
    ensures BigEndian(u, n)[i] == u / Pow256(n - 1 - i) % 256
    decreases n
  {
    if i < n - 1 {
      BigEndianMeans(u / 256, n - 1, i);
      DivideTwice(u, 256, Pow256(n - 2 - i));
    }
  }

  /** The least significant byte first. */
  lemma {:induction false} LittleEndianMeans(u: nat, n: nat, i: nat)
    requires i < n
    ensures LittleEndian(u, n)[i] == u / Pow256(i) % 256
    decreases n
  {
    if i > 0 {
      LittleEndianMeans(u / 256, n - 1, i - 1);
      DivideTwice(u, 256, Pow256(i - 1));
    }
  }

  /** The sign is the lowest bit; the others are the number, or for a negative one its complement. */
  lemma ZigZagMeans(n: int)
    ensures ZigZag(n) % 2 == 1 <==> n < 0
    ensures ZigZag(n) / 2 == if n < 0 then -n - 1 else n
  {
    if n < 0 {
      assert ZigZag(n) == 2 * (-n - 1) + 1;
    }
  }

  // ---------- the binary protocol's headers ----------

  /** The type's own number, and two or four bytes, the most significant first. */
  lemma BinaryHeadersOnTheWire(t: TType, vt: TType, id: int16, lastId: int, n: nat)
    requires n < TWO32
    ensures FieldHeaderBytes(Binary, t, id, lastId, None) == [t, id % 0x1_0000 / 256, id % 256]
    ensures ListHeaderBytes(Binary, t, n) == [t, n / 0x100_0000, n / 0x1_0000 % 256, n / 256 % 256, n % 256]
    ensures MapHeaderBytes(Binary, t, vt, n) == [t, vt, n / 0x100_0000, n / 0x1_0000 % 256, n / 256 % 256, n % 256]
  {
    TwoBytesAre(id % TWO16);
    FourBytesAre(n);
    LowByteOf(id);
    assert n % TWO32 == n;
  }

  lemma LowByteOf(id: int)
    ensures (id % 0x1_0000) % 256 == id % 256
  {
    assert id == id % 0x1_0000 + 256 * (256 * (id / 0x1_0000));
  }

  lemma TwoBytesAre(u: nat)
    requires u < TWO16
    ensures BigEndian(u, 2) == [u / 256, u % 256]
  {
    assert BigEndian(u / 256, 1) == [] + [u / 256 % 256];
  }

  lemma FourBytesAre(u: nat)
    requires u < TWO32
    ensures BigEndian(u, 4) == [u / 0x100_0000, u / 0x1_0000 % 256, u / 256 % 256, u % 256]
  {
    var v := u / 256;
    var w := v / 256;
    TwoBytesAre(w);
    assert BigEndian(v, 3) == BigEndian(w, 2) + [v % 256];
    assert BigEndian(u, 4) == BigEndian(v, 3) + [u % 256];
    DivideTwice(u, 256, 256);
    DivideTwice(u, 0x1_0000, 256);
  }

  // ---------- a few whole encodings ----------

  /** A struct whose field 1 is the 32-bit number 5. */
  lemma StructExample()
    ensures var v := StructV([Field(1, I32V(5))]);
            Encode(Compact, v) == [0x15, 0x0a, 0x00] &&
            Encode(Binary, v) == [0x08, 0x00, 0x01, 0x00, 0x00, 0x00, 0x05, 0x00]
  {
    CompactFieldExample();
    BinaryFieldExample();
    OneField(Compact, Field(1, I32V(5)));
    OneField(Binary, Field(1, I32V(5)));
  }

  lemma OneField(d: Dialect, f: Field)
    ensures Encode(d, StructV([f])) == EncodeField(d, f, 0) + [0]
  {
    assert [f][1..] == [];
    assert EncodeFields(d, [], f.id) == [0];
    assert EncodeFields(d, [f], 0) == EncodeField(d, f, 0) + EncodeFields(d, [f][1..], f.id);
  }

  lemma CompactFieldExample()
    ensures EncodeField(Compact, Field(1, I32V(5)), 0) == [0x15, 0x0a]
  {
    FieldHeaderOnTheWire(8, 1, 0, None);
  }

  lemma BinaryFieldExample()
    ensures EncodeField(Binary, Field(1, I32V(5)), 0) == [0x08, 0x00, 0x01, 0x00, 0x00, 0x00, 0x05]
  {
    BinaryHeadersOnTheWire(8, 8, 1, 0, 0);
    FourBytesAre(5);
  }

  /** Scalars as the compact protocol writes them. */
  lemma CompactScalarExamples()
    ensures ScalarBytes(Compact, BoolV(true)) == [1] && ScalarBytes(Compact, BoolV(false)) == [2]
    ensures ScalarBytes(Compact, ByteV(-1)) == [0xff]
    ensures ScalarBytes(Compact, I16V(-1)) == [1] && ScalarBytes(Compact, I32V(1)) == [2]
    ensures ScalarBytes(Compact, I64V(300)) == [0xd8, 0x04]
    ensures ScalarBytes(Compact, DoubleV(0x0102)) == [0x02, 0x01, 0, 0, 0, 0, 0, 0]
    ensures ScalarBytes(Compact, StringV([0x61])) == [1, 0x61]
  {
    assert VarintBytes(600) == [0xd8] + VarintBytes(4);
    EightLittle(0x0102);
  }

  lemma EightLittle(u: nat)
    requires u < 0x1_0000
    ensures LittleEndian(u, 8) == [u % 256, u / 256, 0, 0, 0, 0, 0, 0]
  {
    assert LittleEndian(0, 2) == [0, 0] by { assert LittleEndian(0, 1) == [0] + []; }
    assert LittleEndian(0, 4) == [0] + ([0] + LittleEndian(0, 2));
    assert LittleEndian(0, 6) == [0] + ([0] + LittleEndian(0, 4));
    assert LittleEndian(u, 8) == [u % 256] + ([u / 256 % 256] + LittleEndian(u / 256 / 256, 6));
  }

  /** And as the binary protocol does. */
  lemma BinaryScalarExamples()
    ensures ScalarBytes(Binary, BoolV(true)) == [1] && ScalarBytes(Binary, BoolV(false)) == [0]
    ensures ScalarBytes(Binary, ByteV(-1)) == [0xff]
    ensures ScalarBytes(Binary, I16V(-2)) == [0xff, 0xfe] && ScalarBytes(Binary, I32V(0x1234)) == [0, 0, 0x12, 0x34]
    ensures ScalarBytes(Binary, I64V(0x1234)) == [0, 0, 0, 0, 0, 0, 0x12, 0x34]
    ensures ScalarBytes(Binary, DoubleV(0x1234)) == [0, 0, 0, 0, 0, 0, 0x12, 0x34]
    ensures ScalarBytes(Binary, StringV([0x61])) == [0, 0, 0, 1, 0x61]
  {
    TwoBytesAre(0xfffe);
    FourBytesAre(0x1234);
    FourBytesAre(1);
    EightBig(0x1234);
  }

  lemma EightBig(u: nat)
    requires u < 0x1_0000
    ensures BigEndian(u, 8) == [0, 0, 0, 0, 0, 0, u / 256, u % 256]
  {
    assert BigEndian(0, 2) == [0, 0] by { assert BigEndian(0, 1) == [] + [0]; }
    assert BigEndian(0, 4) == (BigEndian(0, 2) + [0]) + [0];
    assert BigEndian(0, 6) == (BigEndian(0, 4) + [0]) + [0];
    assert BigEndian(u, 8) == (BigEndian(u / 256 / 256, 6) + [u / 256 % 256]) + [u % 256];
  }

  const PING: seq<byte> := [0x70, 0x69, 0x6e, 0x67]

  /** A call named `ping` with sequence id 7. */
  lemma CompactMessageExample()
    ensures CompactProtocol.MessageBytes(CompactProtocol.Message(PING, 1, 7)) == [0x82, 0x21, 0x07, 0x04] + PING
  {
  }

  lemma BinaryMessageExample()
    ensures BinaryProtocol.MessageBytes(BinaryProtocol.Message(PING, 1, 7), true)
         == [0x80, 0x01, 0x00, 0x01, 0, 0, 0, 4] + PING + [0, 0, 0, 7]
    ensures BinaryProtocol.MessageBytes(BinaryProtocol.Message(PING, 1, 7), false)
         == [0, 0, 0, 4] + PING + [1, 0, 0, 0, 7]
  {
    MessageParts();
    FourBytesAre(7);
    FourBytesAre(0x8001_0001);
  }

  lemma MessageParts()
    ensures BinaryProtocol.VersionWord(1) == 0x8001_0001 && LengthBytes(Binary, 4) == [0, 0, 0, 4] && |PING| == 4
  {
    FourBytesAre(4);
  }

  // ---------- frames ----------

  /** A frame is its size in four bytes and its content. */
  lemma FrameOnTheWire(content: seq<byte>)
    requires |content| < TWO32
    ensures var n := |content|;
            HeaderFormat.Framed(content) == [n / 0x100_0000, n / 0x1_0000 % 256, n / 256 % 256, n % 256] + content
  {
    FourBytesAre(|content|);
    assert |content| % TWO32 == |content|;
  }

  /** The longest frame that is accepted. */
  lemma LongestFrame(s: seq<byte>, maxFrame: nat)
    requires |s| >= 4 && s[0] != 0x80 && s[0] != 0x82
    ensures var n := FromBigEndian(s[..4]);
            HeaderFormat.Arrive(s, maxFrame) == Err(SizeLimit) <==> n > 0x3fff_ffff || n > maxFrame
  {
    HeaderFormat.MarksByFirstBytes(s);
  }

  /** A frame refused for its size is still all in the input; one cut short is in the frame buffer, but for its size. */
  lemma FailedFrame(s: seq<byte>, maxFrame: nat)
    ensures match HeaderFormat.Arrive(s, maxFrame)
            case Ok(_) => true
            case Err(EndOfFile) => HeaderFormat.CutShort(s, maxFrame) == if |s| < 4 then ([], s) else (s[4..], [])
            case Err(e) => e == SizeLimit && HeaderFormat.CutShort(s, maxFrame) == ([], s)
  {
  }

  /** The meta part of a header frame: magic and flags, sequence id, and the words of the header section. */
  lemma MetaOnTheWire(flags: nat, sequenceId: nat, words: nat)
    requires flags < TWO16 && sequenceId < 0x8000_0000 && words < TWO16
    ensures HeaderFormat.MetaBytes(flags, sequenceId, words)
         == [0x0f, 0xff, flags / 256, flags % 256] +
            [sequenceId / 0x100_0000, sequenceId / 0x1_0000 % 256, sequenceId / 256 % 256, sequenceId % 256] +
            [words / 256, words % 256]
  {
    MagicAndFlags(flags);
    FourBytesAre(sequenceId);
    TwoBytesAre(words);
    assert flags % TWO16 == flags && sequenceId % TWO32 == sequenceId && words % TWO16 == words;
  }

  lemma MagicAndFlags(flags: nat)
    requires flags < TWO16
    ensures BigEndian(0x0fff_0000 + flags, 4) == [0x0f, 0xff, flags / 256, flags % 256]
  {
    var u := 0x0fff_0000 + flags;
    FourBytesAre(u);
    assert u / 0x1_0000 == 0x0fff && u / 0x100_0000 == 0x0f;
    assert u / 256 == 0x0fff00 + flags / 256 && u % 256 == flags % 256;
  }

  /** Protocol 2, one zlib transform, one pair `a` to `b`; padded with three zeros to three words. */
  lemma SectionExample()
    ensures HeaderFormat.Padded(HeaderFormat.SectionBytes(2, [1], [([0x61], [0x62])]))
         == [2, 1, 1, 1, 1, 1, 0x61, 1, 0x62] + [0, 0, 0]
  {
    var pairs: seq<HeaderFormat.Pair> := [([0x61], [0x62])];
    assert pairs[1..] == [];
    assert HeaderFormat.PairsBytes(pairs) == [1, 0x61] + [1, 0x62] + [];
    assert HeaderFormat.InfoBytes(pairs) == [1] + [1] + [1, 0x61, 1, 0x62];
    var ids: seq<int32> := [1];
    assert ids[1..] == [];
    assert HeaderFormat.IdsBytes(ids) == [1] + [];
  }

  /** Transform 0 does nothing, 1 is zlib, and there are no others. */
  lemma TransformsAre(z: HeaderFormat.Zlib, id: int32, data: seq<byte>)
    ensures HeaderFormat.Wrap(z, [0], data) == data && HeaderFormat.Wrap(z, [1], data) == z.deflate(data)
    ensures HeaderFormat.Unwrap(z, [0], data) == Some(data) && HeaderFormat.Unwrap(z, [1], data) == z.inflate(data)
    ensures HeaderFormat.OpenReaders(z, [id], data)
         == if id == 0 || (id == 1 && z.starts(data)) then Pass else if id == 1 then Fail(Other)
                                                                     else Fail(InvalidTransform)
  {
    var none: seq<int32> := [];
    assert [0 as int32][1..] == none && [1 as int32][1..] == none;
    assert [0 as int32][..0] == none && [1 as int32][..0] == none && [id][..0] == none;
  }

  /** A size is refused exactly when it is negative or beyond the maximum. */
  lemma SizesRefused(size: int, max: nat)
    ensures CheckSize(size, max) == Err(NegativeSize) <==> size < 0
    ensures CheckSize(size, max) == Err(SizeLimit) <==> size > max
    ensures 0 <= size <= max ==> CheckSize(size, max) == Ok(size)
  {
  }

  // ---------- what is refused ----------

  /**
   A compact message is of the wrong version exactly when its first byte is not 0x82 or the second's low five
   bits are not 1.
   */
  lemma CompactVersions(a: byte, b: byte, rest: seq<byte>, max: nat)
    ensures CompactProtocol.TakeMessage([a, b] + rest, max) == Err(BadVersion) <==> a != 0x82 || b % 32 != 1
  {
    TakeByteOf(a, [b] + rest);
    TakeByteOf(b, rest);
    assert [a] + ([b] + rest) == [a, b] + rest;
    SeqIdAndNameKeepVersion(b / 32, rest, max);
  }

  lemma SeqIdAndNameKeepVersion(typeId: int32, s: seq<byte>, max: nat)
    ensures CompactProtocol.TakeSeqIdAndName(typeId, s, max) != Err(BadVersion)
  {
    VarintKeepsVersion(s);
    var seqId := TakeVarint32(s);
    if seqId.Ok? {
      LengthKeepsVersion(seqId.value.1, max);
    }
  }

  lemma {:induction false} VarintKeepsVersion(s: seq<byte>)
    ensures ReadVarint(s) != Err(BadVersion)
  {
    if s != [] {
      VarintKeepsVersion(s[1..]);
    }
  }

  lemma LengthKeepsVersion(s: seq<byte>, max: nat)
    ensures TakeLength(Compact, s, max) != Err(BadVersion)
  {
    VarintKeepsVersion(s);
  }

  /**
   A binary one exactly when it starts with a negative word other than 0x8001 and a type, or with no such word
   and is read strictly.
   */
  lemma BinaryVersions(a: byte, b: byte, c: byte, d: byte, rest: seq<byte>, strict: bool, max: nat)
    ensures BinaryProtocol.TakeMessage([a, b, c, d] + rest, strict, max) == Err(BadVersion)
            <==> if a >= 0x80 then a != 0x80 || b != 0x01 else strict
  {
    var word := a * 0x100_0000 + b * 0x1_0000 + c * 0x100 + d;
    FirstWord(a, b, c, d, rest);
    assert word % TWO32 == word && word / TWO16 == a * 0x100 + b;
    assert ToInt32(word) < 0 <==> a >= 0x80;
    assert ToInt32(word) % TWO32 == word;
  }

  lemma FirstWord(a: byte, b: byte, c: byte, d: byte, rest: seq<byte>)
    ensures TakeBigEndian32([a, b, c, d] + rest)
         == Ok((ToInt32(a * 0x100_0000 + b * 0x1_0000 + c * 0x100 + d), rest))
  {
    TakeBytesOf([a, b, c, d], rest);
    FourBytesRead(a, b, c, d);
  }

  lemma FourBytesRead(a: byte, b: byte, c: byte, d: byte)
    ensures FromBigEndian([a, b, c, d]) == a * 0x100_0000 + b * 0x1_0000 + c * 0x100 + d
  {
    assert [a, b, c, d][..3] == [a, b, c] && [a, b, c][..2] == [a, b] && [a, b][..1] == [a];
    assert FromBigEndian([a]) == 256 * FromBigEndian([a][..0]) + a;
    assert FromBigEndian([a, b]) == 256 * a + b;
    assert FromBigEndian([a, b, c]) == 256 * FromBigEndian([a, b]) + c;
    assert FromBigEndian([a, b, c, d]) == 256 * FromBigEndian([a, b, c]) + d;
  }

  /** A byte read as a boolean is true exactly when it is 1. */
  lemma BooleansRead(d: Dialect, b: byte, rest: seq<byte>, max: nat)
    ensures TakeScalar(d, BOOL, [b] + rest, max) == Ok((BoolV(b == 1), rest))
  {
    TakeByteOf(b, rest);
  }
}
