/** The binary protocol over the same in-memory transport as the compact one. */
module BinaryProtocol {
  import opened Wrappers
  import opened WireTypes
  import opened Varint
  import opened WireFormat
  import opened WireTheorems

  const VERSION_1 := 0x8001_0000

  datatype Message = Message(name: seq<byte>, typeId: int32, seqId: int32)

  /** With a version word in front (strict), or the name first as in the earliest format. */
  function MessageBytes(m: Message, strict: bool): seq<byte> {
    if strict then
      BigEndian(VersionWord(m.typeId), 4) + LengthBytes(Binary, |m.name|) + m.name + BigEndian(m.seqId % TWO32, 4)
    else
      LengthBytes(Binary, |m.name|) + m.name + [m.typeId % TWO8] + BigEndian(m.seqId % TWO32, 4)
  }

  /** `VERSION_1 | uint32(typeId)`: two bits of the upper half are set, whatever the type has there. */
  function VersionWord(typeId: int32): (w: nat)
    ensures w < TWO32
  {
    var u := typeId % TWO32;
    WithVersion(u / TWO16) * TWO16 + u % TWO16
  }

  /** `0x8001 | high` for a 16-bit number. */
  function WithVersion(high: nat): (w: nat)
    requires high < TWO16
    ensures 0x8000 <= w < TWO16
  {
    high + (if high % 2 == 0 then 1 else 0) + (if high < 0x8000 then 0x8000 else 0)
  }

  /** Types whose upper half has no bit beside the version's: the reader recognises the version. */
  predicate KeepsVersion(typeId: int32) {
    var high := typeId % TWO32 / TWO16;
    high == 0 || high == 1 || high == 0x8000 || high == 0x8001
  }

  lemma VersionWordRead(typeId: int32)
    ensures var size := ToInt32(VersionWord(typeId));
            size < 0 && size % TWO32 == VersionWord(typeId) &&
            VersionWord(typeId) / TWO16 == WithVersion(typeId % TWO32 / TWO16) &&
            ((size % TWO32) / TWO16 == VERSION_1 / TWO16 <==> KeepsVersion(typeId)) && size % 0x100 == typeId % 0x100
  {
    var u := typeId % TWO32;
    var high := WithVersion(u / TWO16);
    DivModUnique(VersionWord(typeId), TWO16, high, u % TWO16);
    LowByte(high, u, typeId);
  }

  /** Multiples of 256 do not reach the low byte. */
  lemma LowByte(high: nat, u: nat, typeId: int)
    requires u == typeId % TWO32 && high < TWO16
    ensures (high * TWO16 + u % TWO16) % 0x100 == typeId % 0x100
    ensures (high * TWO16 + u % TWO16 - TWO32) % 0x100 == typeId % 0x100
  {
    var low, above := u % TWO16, u / TWO16;
    assert u == low + (above * 0x100) * 0x100;
    AddMultiple(low, above * 0x100);
    assert typeId == u + (typeId / TWO32 * 0x100_0000) * 0x100;
    AddMultiple(u, typeId / TWO32 * 0x100_0000);
    AddMultiple(low, high * 0x100);
    AddMultiple(low, high * 0x100 - 0x100_0000);
  }

  lemma AddMultiple(x: int, k: int)
    ensures (x + k * 0x100) % 0x100 == x % 0x100
  {
  }

  function TakeMessage(s: seq<byte>, strict: bool, max: nat): (r: Result<(Message, seq<byte>)>)
    ensures r.Ok? ==> |r.value.1| < |s|
  {
    var (size, rest) :- TakeBigEndian32(s);
    if size < 0 then
      if (size % TWO32) / TWO16 != VERSION_1 / TWO16 then Err(BadVersion)
      else
        var (n, rest) :- TakeLength(Binary, rest, max);
        var (name, rest) :- TakeBytes(rest, n);
        var (seqId, rest) :- TakeBigEndian32(rest);
        Ok((Message(name, size % 0x100, seqId), rest))
    else if strict then Err(BadVersion)
    else
      var (name, rest) :- TakeBytes(rest, size);
      var (typeId, rest) :- TakeByte(rest);
      var (seqId, rest) :- TakeBigEndian32(rest);
      Ok((Message(name, ToInt8(typeId), seqId), rest))
  }

  lemma BigEndian32RoundTrip(x: nat, rest: seq<byte>)
    requires x < TWO32
    ensures TakeBigEndian32(BigEndian(x, 4) + rest) == Ok((ToInt32(x), rest))
  {
    Pow256Values();
    BigEndianRoundTrip(x, 4);
    TakeBytesOf(BigEndian(x, 4), rest);
  }

  /** The type a header comes back with, if its reader takes it at all. */
  function TypeRead(typeId: int32, strictWrite: bool, strictRead: bool): Option<int32> {
    if strictWrite then (if KeepsVersion(typeId) then Some(typeId % 0x100) else None)
    else if strictRead then None
    else Some(ToInt8(typeId % TWO8))
  }

  /**
   What comes back of any header: a lenient reader takes both forms, a strict one only the strict
   form, and the type is cut to eight bits.
   */
  lemma MessageRoundTrip(m: Message, strictWrite: bool, strictRead: bool, rest: seq<byte>, max: nat)
    requires |m.name| <= max <= MAX_SIZE
    ensures TakeMessage(MessageBytes(m, strictWrite) + rest, strictRead, max)
         == match TypeRead(m.typeId, strictWrite, strictRead)
            case Some(t) => Ok((m.(typeId := t), rest))
            case None => Err(BadVersion)
  {
    if strictWrite {
      StrictMessageRoundTrip(m, strictRead, rest, max);
    } else {
      SimpleMessageRoundTrip(m, strictRead, rest, max);
    }
  }

  /** A header comes back as it was exactly when its form is accepted and its type fits the form. */
  lemma MessageKeptExactlyWhen(m: Message, strictWrite: bool, strictRead: bool, rest: seq<byte>, max: nat)
    requires |m.name| <= max <= MAX_SIZE
    ensures TakeMessage(MessageBytes(m, strictWrite) + rest, strictRead, max) == Ok((m, rest))
            <==> if strictWrite then 0 <= m.typeId < 0x100 else !strictRead && -0x80 <= m.typeId < 0x80
  {
    MessageRoundTrip(m, strictWrite, strictRead, rest, max);
    TypeKept(m.typeId, strictWrite, strictRead);
  }

  lemma TypeKept(typeId: int32, strictWrite: bool, strictRead: bool)
    ensures TypeRead(typeId, strictWrite, strictRead) == Some(typeId)
            <==> if strictWrite then 0 <= typeId < 0x100 else !strictRead && -0x80 <= typeId < 0x80
  {
  }

  lemma SimpleMessageRoundTrip(m: Message, strictRead: bool, rest: seq<byte>, max: nat)
    requires |m.name| <= max <= MAX_SIZE
    ensures TakeMessage(MessageBytes(m, false) + rest, strictRead, max)
         == if strictRead then Err(BadVersion) else Ok((m.(typeId := ToInt8(m.typeId % TWO8)), rest))
  {
    var seqBytes, t := BigEndian(m.seqId % TWO32, 4), m.typeId % TWO8;
    var tail := m.name + ([t] + (seqBytes + rest));
    assert MessageBytes(m, false) + rest == BigEndian(|m.name|, 4) + tail;
    BigEndian32RoundTrip(|m.name|, tail);
    assert ToInt32(|m.name|) == |m.name|;
    TakeBytesOf(m.name, [t] + (seqBytes + rest));
    TakeByteOf(t, seqBytes + rest);
    SequenceRoundTrip(m.seqId, rest);
  }

  lemma SequenceRoundTrip(seqId: int32, rest: seq<byte>)
    ensures TakeBigEndian32(BigEndian(seqId % TWO32, 4) + rest) == Ok((seqId, rest))
  {
    BigEndian32RoundTrip(seqId % TWO32, rest);
    SignedRoundTrip(seqId);
  }

  lemma StrictMessageRoundTrip(m: Message, strictRead: bool, rest: seq<byte>, max: nat)
    requires |m.name| <= max <= MAX_SIZE
    ensures TakeMessage(MessageBytes(m, true) + rest, strictRead, max)
         == if KeepsVersion(m.typeId) then Ok((m.(typeId := m.typeId % 0x100), rest)) else Err(BadVersion)
  {
    var seqBytes := BigEndian(m.seqId % TWO32, 4);
    var tail := LengthBytes(Binary, |m.name|) + (m.name + (seqBytes + rest));
    assert MessageBytes(m, true) + rest == BigEndian(VersionWord(m.typeId), 4) + tail;
    BigEndian32RoundTrip(VersionWord(m.typeId), tail);
    VersionWordRead(m.typeId);
    LengthRoundTrip(Binary, |m.name|, m.name + (seqBytes + rest), max);
    TakeBytesOf(m.name, seqBytes + rest);
    SequenceRoundTrip(m.seqId, rest);
  }

  class TBinaryProtocol {
    const maxMessageSize: nat
    const strictRead: bool
    const strictWrite: bool

    var trans: seq<byte>

    constructor (input: seq<byte>, maxMessageSize: nat, strictRead: bool, strictWrite: bool)
      ensures trans == input && this.maxMessageSize == maxMessageSize
      ensures this.strictRead == strictRead && this.strictWrite == strictWrite
    {
      trans := input;
      this.maxMessageSize := maxMessageSize;
      this.strictRead, this.strictWrite := strictRead, strictWrite;
    }

    // ---------- writing ----------

    method Write(bytes: seq<byte>)
      modifies this
      ensures trans == old(trans) + bytes
    {
      trans := trans + bytes;
    }

    method WriteMessageBegin(m: Message)
      modifies this
      ensures trans == old(trans) + MessageBytes(m, strictWrite)
    {
      if strictWrite {
        Write(BigEndian(VersionWord(m.typeId), 4));
        WriteScalar(StringV(m.name));
        Write(BigEndian(m.seqId % TWO32, 4));
      } else {
        WriteScalar(StringV(m.name));
        Write([m.typeId % TWO8]);
        Write(BigEndian(m.seqId % TWO32, 4));
      }
      assert trans == old(trans) + MessageBytes(m, strictWrite);
    }

    method WriteFieldBegin(t: TType, id: int16)
      modifies this
      ensures trans == old(trans) + FieldHeaderBytes(Binary, t, id, 0, None)
    {
      Write([t]);
      Write(BigEndian(id % TWO16, 2));
      assert trans == old(trans) + ([t] + BigEndian(id % TWO16, 2));
    }

    method WriteFieldStop()
      modifies this
      ensures trans == old(trans) + [STOP]
    {
      Write([STOP]);
    }

    method WriteMapBegin(kt: TType, vt: TType, size: nat)
      modifies this
      ensures trans == old(trans) + MapHeaderBytes(Binary, kt, vt, size)
    {
      Write([kt]);
      Write([vt]);
      Write(BigEndian(size % TWO32, 4));
      assert trans == old(trans) + ([kt, vt] + LengthBytes(Binary, size));
    }

    method WriteCollectionBegin(t: TType, size: nat)
      modifies this
      ensures trans == old(trans) + ListHeaderBytes(Binary, t, size)
    {
      Write([t]);
      Write(BigEndian(size % TWO32, 4));
      assert trans == old(trans) + ([t] + LengthBytes(Binary, size));
    }

    method WriteScalar(v: Value)
      requires IsScalar(v)
      modifies this
      ensures trans == old(trans) + ScalarBytes(Binary, v)
    {
      match v
      case BoolV(b) => Write([if b then 1 else 0]);
      case ByteV(x) => Write([x % 256]);
      case I16V(x) => Write(BigEndian(x % TWO16, 2));
      case I32V(x) => Write(BigEndian(x % TWO32, 4));
      case I64V(x) => Write(BigEndian(x % TWO64, 8));
      case DoubleV(bits) => Write(BigEndian(bits, 8));
      case StringV(s) =>
        Write(BigEndian(|s| % TWO32, 4));
        Write(s);
        assert trans == old(trans) + (LengthBytes(Binary, |s|) + s);
      case UuidV(u) => Write(u);
    }

    // ---------- reading ----------

    method ReadByte() returns (r: Result<byte>)
      modifies this
      ensures match TakeByte(old(trans))
              case Ok((b, rest)) => r == Ok(b) && trans == rest
              case Err(e) => r == Err(e)
    {
      if |trans| == 0 {
        return Err(EndOfFile);
      }
      r := Ok(trans[0]);
      trans := trans[1..];
    }

    method ReadAll(n: nat) returns (r: Result<seq<byte>>)
      modifies this
      ensures match TakeBytes(old(trans), n)
              case Ok((b, rest)) => r == Ok(b) && trans == rest
              case Err(e) => r == Err(e)
    {
      if |trans| < n {
        trans := [];
        return Err(EndOfFile);
      }
      r := Ok(trans[..n]);
      trans := trans[n..];
    }

    method ReadI32() returns (r: Result<int32>)
      modifies this
      ensures match TakeBigEndian32(old(trans))
              case Ok((v, rest)) => r == Ok(v) && trans == rest
              case Err(e) => r == Err(e)
    {
      var body := ReadAll(4);
      return if body.Err? then Err(body.error) else Ok(ToInt32(FromBigEndian(body.value)));
    }

    method ReadMessageBegin() returns (r: Result<Message>)
      modifies this
      ensures match TakeMessage(old(trans), strictRead, maxMessageSize)
              case Ok((m, rest)) => r == Ok(m) && trans == rest
              case Err(e) => r == Err(e)
    {
      var size := ReadI32();
      if size.Err? {
        return Err(size.error);
      }
      if size.value < 0 {
        if (size.value % TWO32) / TWO16 != VERSION_1 / TWO16 {
          return Err(BadVersion);
        }
        var name := ReadScalar(STRING);
        if name.Err? {
          return Err(name.error);
        }
        var seqId := ReadI32();
        if seqId.Err? {
          return Err(seqId.error);
        }
        return Ok(Message(name.value.s, size.value % 0x100, seqId.value));
      }
      if strictRead {
        return Err(BadVersion);
      }
      var name := ReadAll(size.value);
      if name.Err? {
        return Err(name.error);
      }
      var typeId := ReadByte();
      if typeId.Err? {
        return Err(typeId.error);
      }
      var seqId := ReadI32();
      if seqId.Err? {
        return Err(seqId.error);
      }
      return Ok(Message(name.value, ToInt8(typeId.value), seqId.value));
    }

    method ReadFieldBegin() returns (r: Result<(TType, int16)>)
      modifies this
      ensures match TakeFieldHeader(Binary, old(trans), 0)
              case Err(e) => r == Err(e)
              case Ok((h, rest)) =>
                trans == rest && r == (if h.StopField? then Ok((STOP, 0)) else Ok((h.t, h.id)))
    {
      var t := ReadByte();
      if t.Err? {
        return Err(t.error);
      }
      if t.value == STOP {
        return Ok((STOP, 0));
      }
      var id := ReadAll(2);
      return if id.Err? then Err(id.error) else Ok((t.value, ToInt16(FromBigEndian(id.value))));
    }

    method ReadLength() returns (r: Result<nat>)
      modifies this
      ensures match TakeLength(Binary, old(trans), maxMessageSize)
              case Ok((n, rest)) => r == Ok(n) && trans == rest
              case Err(e) => r == Err(e)
    {
      var size := ReadI32();
      return if size.Err? then Err(size.error) else CheckSize(size.value, maxMessageSize);
    }

    method ReadMapBegin() returns (r: Result<(TType, TType, nat)>)
      modifies this
      ensures match TakeMapHeader(Binary, old(trans), maxMessageSize)
              case Ok((h, rest)) => r == Ok(h) && trans == rest
              case Err(e) => r == Err(e)
    {
      var k := ReadByte();
      if k.Err? {
        return Err(k.error);
      }
      var v := ReadByte();
      if v.Err? {
        return Err(v.error);
      }
      var size := ReadLength();
      return if size.Err? then Err(size.error) else Ok((k.value, v.value, size.value));
    }

    method ReadListBegin() returns (r: Result<(TType, nat)>)
      modifies this
      ensures match TakeListHeader(Binary, old(trans), maxMessageSize)
              case Ok((h, rest)) => r == Ok(h) && trans == rest
              case Err(e) => r == Err(e)
    {
      var t := ReadByte();
      if t.Err? {
        return Err(t.error);
      }
      var size := ReadLength();
      return if size.Err? then Err(size.error) else Ok((t.value, size.value));
    }

    method ReadScalar(t: TType) returns (r: Result<Value>)
      requires IsScalarType(t)
      modifies this
      ensures match TakeScalar(Binary, t, old(trans), maxMessageSize)
              case Ok((v, rest)) => r == Ok(v) && trans == rest
              case Err(e) => r == Err(e)
    {
      if t == BOOL || t == BYTE {
        var b := ReadByte();
        if b.Err? {
          return Err(b.error);
        }
        return Ok(if t == BOOL then BoolV(b.value == 1) else ByteV(ToInt8(b.value)));
      }
      var n: nat;
      if t == STRING {
        var size := ReadLength();
        if size.Err? {
          return Err(size.error);
        }
        n := size.value;
      } else {
        n := if t == UUID then 16 else if t == I16 then 2 else if t == I32 then 4 else 8;
      }
      var body := ReadAll(n);
      if body.Err? {
        return Err(body.error);
      }
      return Ok(
        if t == STRING then StringV(body.value)
        else if t == UUID then UuidV(body.value)
        else if t == I16 then I16V(ToInt16(FromBigEndian(body.value)))
        else if t == I32 then I32V(ToInt32(FromBigEndian(body.value)))
        else if t == I64 then I64V(ToInt64(FromBigEndian(body.value)))
        else DoubleV(FromBigEndian(body.value) % TWO64));
    }
  }
}
