/**
 The compact protocol over an in-memory transport: writes append to `trans`, reads take from its
 front. Each method is proved against the byte layout of `WireFormat`.
 */
module CompactProtocol {
  import opened Wrappers
  import opened WireTypes
  import opened Varint
  import opened WireFormat
  import opened WireTheorems

  const PROTOCOL_ID: byte := 0x82
  const VERSION: byte := 1

  /** The fields of a protocol object, as one value. */
  datatype State = State(
    trans: seq<byte>,
    lastField: seq<int16>,
    lastFieldId: int16,
    booleanFieldId: int16,
    booleanFieldPending: bool,
    boolValue: bool,
    boolValueIsNotNull: bool)

  // ---------- message headers ----------

  /** Message types are three bits on the wire: call, reply, exception, oneway and reserved ones. */
  datatype Message = Message(name: seq<byte>, typeId: int32, seqId: int32)

  function MessageBytes(m: Message): seq<byte> {
    [PROTOCOL_ID, (VERSION % 32) + (m.typeId % 8) * 32] + VarintBytes(m.seqId % TWO32) +
    LengthBytes(Compact, |m.name|) + m.name
  }

  function TakeMessage(s: seq<byte>, max: nat): (r: Result<(Message, seq<byte>)>)
    ensures r.Ok? ==> |r.value.1| < |s|
  {
    var (id, rest) :- TakeByte(s);
    if id != PROTOCOL_ID then Err(BadVersion)
    else
      var (versionAndType, rest) :- TakeByte(rest);
      if versionAndType % 32 != VERSION then Err(BadVersion)
      else TakeSeqIdAndName(versionAndType / 32, rest, max)
  }

  function TakeSeqIdAndName(typeId: int32, s: seq<byte>, max: nat): (r: Result<(Message, seq<byte>)>)
    ensures r.Ok? ==> |r.value.1| < |s|
  {
    var (seqId, rest) :- TakeVarint32(s);
    var (n, rest) :- TakeLength(Compact, rest, max);
    var (name, rest) :- TakeBytes(rest, n);
    Ok((Message(name, typeId, seqId), rest))
  }

  /** A message header comes back with its type cut to three bits, so as it was exactly when the type fits them. */
  lemma MessageRoundTrip(m: Message, rest: seq<byte>, max: nat)
    requires |m.name| <= max <= MAX_SIZE
    ensures TakeMessage(MessageBytes(m) + rest, max) == Ok((m.(typeId := m.typeId % 8), rest))
    ensures TakeMessage(MessageBytes(m) + rest, max) == Ok((m, rest)) <==> 0 <= m.typeId < 8
  {
    var versionAndType: byte := VERSION % 32 + (m.typeId % 8) * 32;
    var tail := LengthBytes(Compact, |m.name|) + (m.name + rest);
    var afterType := VarintBytes(m.seqId % TWO32) + tail;
    MessageNests(m, rest);
    TakeByteOf(PROTOCOL_ID, [versionAndType] + afterType);
    TakeByteOf(versionAndType, afterType);
    assert versionAndType % 32 == VERSION && versionAndType / 32 == m.typeId % 8;
    SeqIdAndNameRoundTrip(m.(typeId := m.typeId % 8), rest, max);
  }

  lemma SeqIdAndNameRoundTrip(m: Message, rest: seq<byte>, max: nat)
    requires |m.name| <= max <= MAX_SIZE
    ensures TakeSeqIdAndName(m.typeId,
                             VarintBytes(m.seqId % TWO32) + (LengthBytes(Compact, |m.name|) + (m.name + rest)), max)
            == Ok((m, rest))
  {
    VarintRoundTrip(m.seqId % TWO32, LengthBytes(Compact, |m.name|) + (m.name + rest));
    SignedRoundTrip(m.seqId);
    LengthRoundTrip(Compact, |m.name|, m.name + rest, max);
    TakeBytesOf(m.name, rest);
  }

  lemma MessageNests(m: Message, rest: seq<byte>)
    ensures var versionAndType: byte := VERSION % 32 + (m.typeId % 8) * 32;
            MessageBytes(m) + rest
            == [PROTOCOL_ID] + ([versionAndType] +
                                (VarintBytes(m.seqId % TWO32) + (LengthBytes(Compact, |m.name|) + (m.name + rest))))
  {
  }

  class TCompactProtocol {
    const maxMessageSize: nat

    var trans: seq<byte>
    // Field ids of the enclosing structs, for the delta encoding of nested ones.
    var lastField: seq<int16>
    var lastFieldId: int16
    // A boolean field whose header waits for its value.
    var booleanFieldId: int16
    var booleanFieldPending: bool
    // A boolean read with its header and not yet asked for.
    var boolValue: bool
    var boolValueIsNotNull: bool

    ghost function Now(): State
      reads this
    {
      State(trans, lastField, lastFieldId, booleanFieldId, booleanFieldPending, boolValue, boolValueIsNotNull)
    }

    constructor (input: seq<byte>, maxMessageSize: nat)
      ensures this.maxMessageSize == maxMessageSize
      ensures Now() == State(input, [], 0, 0, false, false, false)
    {
      this.maxMessageSize := maxMessageSize;
      trans := input;
      lastField, lastFieldId := [], 0;
      booleanFieldId, booleanFieldPending := 0, false;
      boolValue, boolValueIsNotNull := false, false;
    }

    // ---------- writing ----------

    method Write(bytes: seq<byte>)
      modifies this`trans
      ensures Now() == old(Now()).(trans := old(trans) + bytes)
    {
      trans := trans + bytes;
    }

    /** Seven bits at a time through a small buffer; `n` is an int32 or int64 read as unsigned. */
    method WriteVarint(n: nat)
      modifies this`trans
      ensures Now() == old(Now()).(trans := old(trans) + VarintBytes(n))
    {
      var buf: seq<byte> := [];
      var u := n;
      while u >= 128
        invariant buf + VarintBytes(u) == VarintBytes(n)
      {
        assert VarintBytes(u) == [u % 128 + 128] + VarintBytes(u / 128);
        buf := buf + [u % 128 + 128];
        u := u / 128;
      }
      buf := buf + [u];
      Write(buf);
    }

    method WriteMessageBegin(m: Message)
      modifies this`trans
      ensures Now() == old(Now()).(trans := old(trans) + MessageBytes(m))
    {
      ghost var before := trans;
      var versionAndType: byte := (VERSION % 32) + (m.typeId % 8) * 32;
      Write([PROTOCOL_ID]);
      Write([versionAndType]);
      assert trans == before + [PROTOCOL_ID, versionAndType];
      WriteVarint(m.seqId % TWO32);
      ghost var head := [PROTOCOL_ID, versionAndType] + VarintBytes(m.seqId % TWO32);
      assert trans == before + head;
      WriteScalar(StringV(m.name));
      assert trans == before + (head + (LengthBytes(Compact, |m.name|) + m.name));
      assert head + (LengthBytes(Compact, |m.name|) + m.name) == head + LengthBytes(Compact, |m.name|) + m.name;
    }

    method WriteStructBegin()
      modifies this
      ensures Now() == old(Now()).(lastField := old(lastField) + [old(lastFieldId)], lastFieldId := 0)
    {
      lastField := lastField + [lastFieldId];
      lastFieldId := 0;
    }

    method WriteStructEnd() returns (o: Outcome)
      modifies this
      ensures old(lastField) == [] ==> o == Fail(InvalidData) && Now() == old(Now())
      ensures old(lastField) != [] ==>
                var top := |old(lastField)| - 1;
                o == Pass &&
                Now() == old(Now()).(lastField := old(lastField)[..top], lastFieldId := old(lastField)[top])
    {
      if |lastField| <= 0 {
        return Fail(InvalidData);
      }
      lastFieldId := lastField[|lastField| - 1];
      lastField := lastField[..|lastField| - 1];
      return Pass;
    }

    /** A boolean's header waits for the value; any other header is written at once. */
    method WriteFieldBegin(t: TType, id: int16)
      modifies this
      ensures t == BOOL ==> Now() == old(Now()).(booleanFieldId := id, booleanFieldPending := true)
      ensures t != BOOL ==>
                Now() == old(Now()).(
                           trans := old(trans) + FieldHeaderBytes(Compact, t, id, old(lastFieldId), None),
                           lastFieldId := id)
    {
      if t == BOOL {
        booleanFieldId, booleanFieldPending := id, true;
        return;
      }
      WriteFieldBeginInternal(t, id, 0xFF);
    }

    method WriteFieldBeginInternal(t: TType, id: int16, typeOverride: byte)
      requires typeOverride == 0xFF || typeOverride == 0x01 || typeOverride == 0x02
      modifies this
      ensures var carried := if typeOverride == 0xFF then None else Some(typeOverride == 0x01);
              Now() == old(Now()).(
                         trans := old(trans) + FieldHeaderBytes(Compact, t, id, old(lastFieldId), carried),
                         lastFieldId := id)
    {
      var typeToWrite := if typeOverride == 0xFF then CompactType(t) else typeOverride;
      if id > lastFieldId && id - lastFieldId <= 15 {
        Write([(id - lastFieldId) * 16 + typeToWrite]);
      } else {
        Write([typeToWrite]);
        assert trans == old(trans) + [typeToWrite];
        WriteI16(id);
        assert trans == old(trans) + ([typeToWrite] + VarintBytes(ZigZag(id)));
      }
      lastFieldId := id;
    }

    method WriteFieldStop()
      modifies this`trans
      ensures Now() == old(Now()).(trans := old(trans) + [STOP])
    {
      Write([STOP]);
    }

    method WriteMapBegin(kt: TType, vt: TType, size: nat)
      modifies this`trans
      ensures Now() == old(Now()).(trans := old(trans) + MapHeaderBytes(Compact, kt, vt, size))
    {
      if size == 0 {
        Write([0]);
        return;
      }
      WriteVarint(size % TWO32);
      assert trans == old(trans) + LengthBytes(Compact, size);
      Write([CompactType(kt) * 16 + CompactType(vt)]);
    }

    /** Lists and sets differ only in the type their field header names. */
    method WriteCollectionBegin(t: TType, size: nat)
      modifies this`trans
      ensures Now() == old(Now()).(trans := old(trans) + ListHeaderBytes(Compact, t, size))
    {
      if size <= 14 {
        Write([size * 16 + CompactType(t)]);
        return;
      }
      Write([0xf0 + CompactType(t)]);
      assert trans == old(trans) + [0xf0 + CompactType(t)];
      WriteVarint(size % TWO32);
    }

    /** The value of a pending boolean field goes into its header; any other boolean is a byte. */
    method WriteBool(value: bool)
      modifies this
      ensures old(booleanFieldPending) ==>
                Now() == old(Now()).(
                           trans := old(trans) + FieldHeaderBytes(Compact, BOOL, old(booleanFieldId), old(lastFieldId),
                                                                  Some(value)),
                           lastFieldId := old(booleanFieldId),
                           booleanFieldPending := false)
      ensures !old(booleanFieldPending) ==>
                Now() == old(Now()).(trans := old(trans) + ScalarBytes(Compact, BoolV(value)))
    {
      var v: byte := if value then 0x01 else 0x02;
      if booleanFieldPending {
        WriteFieldBeginInternal(BOOL, booleanFieldId, v);
        booleanFieldPending := false;
        return;
      }
      Write([v]);
    }

    method WriteI16(value: int16)
      modifies this`trans
      ensures Now() == old(Now()).(trans := old(trans) + VarintBytes(ZigZag(value)))
    {
      WriteVarint(ZigZag(value));
    }

    /** Scalars other than booleans: bytes, integers as zigzag varints, doubles, strings, UUIDs. */
    method WriteScalar(v: Value)
      requires IsScalar(v) && !v.BoolV?
      modifies this`trans
      ensures Now() == old(Now()).(trans := old(trans) + ScalarBytes(Compact, v))
    {
      match v
      case ByteV(x) => Write([x % 256]);
      case I16V(x) => WriteI16(x);
      case I32V(x) => WriteVarint(ZigZag(x));
      case I64V(x) => WriteVarint(ZigZag(x));
      case DoubleV(bits) => Write(LittleEndian(bits, 8));
      case StringV(s) =>
        WriteVarint(|s| % TWO32);
        assert trans == old(trans) + LengthBytes(Compact, |s|);
        if |s| > 0 {
          Write(s);
        }
        assert trans == old(trans) + (LengthBytes(Compact, |s|) + s);
      case UuidV(u) => Write(u);
    }

    // ---------- reading ----------

    method ReadByteDirect() returns (r: Result<byte>)
      modifies this`trans
      ensures match TakeByte(old(trans))
              case Ok((b, rest)) => r == Ok(b) && Now() == old(Now()).(trans := rest)
              case Err(e) => r == Err(e) && Now() == old(Now())
    {
      if |trans| == 0 {
        return Err(EndOfFile);
      }
      r := Ok(trans[0]);
      trans := trans[1..];
    }

    method ReadFull(n: nat) returns (r: Result<seq<byte>>)
      modifies this`trans
      ensures match TakeBytes(old(trans), n)
              case Ok((b, rest)) => r == Ok(b) && Now() == old(Now()).(trans := rest)
              case Err(e) => r == Err(e) && Now() == old(Now()).(trans := [])
    {
      if |trans| < n {
        trans := [];
        return Err(EndOfFile);
      }
      r := Ok(trans[..n]);
      trans := trans[n..];
    }

    /**
     Accumulates seven-bit groups into a 64-bit result until a byte without the top bit. The groups
     occupy disjoint bits, so `|=` is addition; groups shifted beyond the width vanish.
     */
    method ReadVarint64() returns (r: Result<nat>)
      modifies this`trans
      ensures match ReadVarint(old(trans))
              case Ok((u, rest)) => r == Ok(u % TWO64) && Now() == old(Now()).(trans := rest)
              case Err(e) => r == Err(e) && Now() == old(Now()).(trans := [])
    {
      var scale: nat := 1;  // 2 to the power of the shift
      var result: nat := 0;
      ghost var sum: nat := 0;
      while true
        invariant Now() == old(Now()).(trans := trans)
        invariant scale > 0 && result == sum % TWO64
        invariant Partial(old(trans), trans, sum, scale)
        decreases |trans|
      {
        ghost var unread := trans;
        var t := ReadByteDirect();
        if t.Err? {
          return Err(t.error);
        }
        var group: nat := t.value % 128;
        PartialStep(old(trans), unread, sum, scale);
        ModSum(sum, group * scale);
        result := (result + group * scale) % TWO64;
        sum := sum + group * scale;
        if t.value < 128 {
          return Ok(result);
        }
        scale := 128 * scale;
      }
    }

    /** The low 32 bits of a varint, as a signed number. */
    method ReadVarint32() returns (r: Result<int32>)
      modifies this`trans
      ensures match TakeVarint32(old(trans))
              case Ok((v, rest)) => r == Ok(v) && Now() == old(Now()).(trans := rest)
              case Err(e) => r == Err(e) && Now() == old(Now()).(trans := [])
    {
      var v := ReadVarint64();
      if v.Err? {
        return Err(v.error);
      }
      ghost var u := ReadVarint(old(trans)).value.0;
      LowBits(u);
      return Ok(ToInt32(v.value));
    }

    method ReadMessageBegin() returns (r: Result<Message>)
      modifies this`trans
      ensures match TakeMessage(old(trans), maxMessageSize)
              case Ok((m, rest)) => r == Ok(m) && Now() == old(Now()).(trans := rest)
              case Err(e) => r == Err(e) && Now() == old(Now()).(trans := trans)
    {
      var id := ReadByteDirect();
      if id.Err? {
        return Err(id.error);
      }
      if id.value != PROTOCOL_ID {
        return Err(BadVersion);
      }
      var versionAndType := ReadByteDirect();
      if versionAndType.Err? {
        return Err(versionAndType.error);
      }
      if versionAndType.value % 32 != VERSION {
        return Err(BadVersion);
      }
      r := ReadSeqIdAndName(versionAndType.value / 32);
    }

    method ReadSeqIdAndName(typeId: int32) returns (r: Result<Message>)
      modifies this`trans
      ensures match TakeSeqIdAndName(typeId, old(trans), maxMessageSize)
              case Ok((m, rest)) => r == Ok(m) && Now() == old(Now()).(trans := rest)
              case Err(e) => r == Err(e) && Now() == old(Now()).(trans := trans)
    {
      var seqId := ReadVarint32();
      if seqId.Err? {
        return Err(seqId.error);
      }
      var name := ReadScalar(STRING);
      if name.Err? {
        return Err(name.error);
      }
      return Ok(Message(name.value.s, typeId, seqId.value));
    }

    method ReadStructBegin()
      modifies this
      ensures Now() == old(Now()).(lastField := old(lastField) + [old(lastFieldId)], lastFieldId := 0)
    {
      lastField := lastField + [lastFieldId];
      lastFieldId := 0;
    }

    method ReadStructEnd() returns (o: Outcome)
      modifies this
      ensures old(lastField) == [] ==> o == Fail(InvalidData) && Now() == old(Now())
      ensures old(lastField) != [] ==>
                var top := |old(lastField)| - 1;
                o == Pass &&
                Now() == old(Now()).(lastField := old(lastField)[..top], lastFieldId := old(lastField)[top])
    {
      if |lastField| <= 0 {
        return Fail(InvalidData);
      }
      lastFieldId := lastField[|lastField| - 1];
      lastField := lastField[..|lastField| - 1];
      return Pass;
    }

    /** The next header, remembering the id for later deltas and the value of a boolean field. */
    method ReadFieldBegin() returns (r: Result<(TType, int16)>)
      modifies this
      ensures lastField == old(lastField)
      ensures match TakeFieldHeader(Compact, old(trans), old(lastFieldId))
              case Err(e) => r == Err(e)
              case Ok((h, rest)) =>
                if h.StopField? then r == Ok((STOP, 0)) && Now() == old(Now()).(trans := rest)
                else
                  r == Ok((h.t, h.id)) && h.t != STOP &&
                  Now() == old(Now()).(
                             trans := rest,
                             lastFieldId := h.id,
                             boolValue := if h.carried.Some? then h.carried.value else old(boolValue),
                             boolValueIsNotNull := if h.carried.Some? then true else old(boolValueIsNotNull))
    {
      var first := ReadByteDirect();
      if first.Err? {
        return Err(first.error);
      }
      var b := first.value;
      if b % 16 == STOP {
        return Ok((STOP, 0));
      }
      var id := ReadFieldId(b / 16);
      if id.Err? {
        return Err(id.error);
      }
      var t := FromCompactType(b);
      if t.Err? {
        return Err(t.error);
      }
      if b % 16 == 0x01 || b % 16 == 0x02 {
        boolValue := b % 16 == 0x01;
        boolValueIsNotNull := true;
      }
      lastFieldId := id.value;
      return Ok((t.value, id.value));
    }

    /** A delta of zero says that the id itself follows. */
    method ReadFieldId(modifier: nat) returns (r: Result<int16>)
      modifies this`trans
      ensures match TakeFieldId(modifier, old(trans), lastFieldId)
              case Ok((v, rest)) => r == Ok(v) && Now() == old(Now()).(trans := rest)
              case Err(e) => r == Err(e)
    {
      if modifier == 0 {
        r := ReadI16();
      } else {
        r := Ok(ToInt16(lastFieldId + modifier));
      }
    }

    method ReadI16() returns (r: Result<int16>)
      modifies this`trans
      ensures match TakeFieldId(0, old(trans), 0)
              case Ok((v, rest)) => r == Ok(v) && Now() == old(Now()).(trans := rest)
              case Err(e) => r == Err(e) && Now() == old(Now()).(trans := [])
    {
      var v := ReadVarint64();
      if v.Err? {
        return Err(v.error);
      }
      LowBits(ReadVarint(old(trans)).value.0);
      return Ok(ToInt16(ZigZagInt32(v.value)));
    }

    method ReadLength() returns (r: Result<nat>)
      modifies this`trans
      ensures match TakeLength(Compact, old(trans), maxMessageSize)
              case Ok((n, rest)) => r == Ok(n) && Now() == old(Now()).(trans := rest)
              case Err(e) => r == Err(e) && Now() == old(Now()).(trans := trans)
    {
      var size := ReadVarint32();
      if size.Err? {
        return Err(size.error);
      }
      return CheckSize(size.value, maxMessageSize);
    }

    /** Unknown key or value types are not errors here: they come back as STOP. */
    method ReadMapBegin() returns (r: Result<(TType, TType, nat)>)
      modifies this`trans
      ensures match TakeMapHeader(Compact, old(trans), maxMessageSize)
              case Ok((h, rest)) => r == Ok(h) && Now() == old(Now()).(trans := rest)
              case Err(e) => r == Err(e) && Now() == old(Now()).(trans := trans)
    {
      var size := ReadLength();
      if size.Err? {
        return Err(size.error);
      }
      var types: byte := STOP;
      if size.value != 0 {
        var b := ReadByteDirect();
        if b.Err? {
          return Err(b.error);
        }
        types := b.value;
      }
      return Ok((CompactTypeOrStop(types / 16), CompactTypeOrStop(types % 16), size.value));
    }

    method ReadListBegin() returns (r: Result<(TType, nat)>)
      modifies this`trans
      ensures match TakeListHeader(Compact, old(trans), maxMessageSize)
              case Ok((h, rest)) => r == Ok(h) && Now() == old(Now()).(trans := rest)
              case Err(e) => r == Err(e) && Now() == old(Now()).(trans := trans)
    {
      var b := ReadByteDirect();
      if b.Err? {
        return Err(b.error);
      }
      var size: int := b.value / 16;
      if size == 15 {
        var size2 := ReadVarint32();
        if size2.Err? {
          return Err(size2.error);
        }
        size := size2.value;
      }
      var n := CheckSize(size, maxMessageSize);
      if n.Err? {
        return Err(n.error);
      }
      var t := FromCompactType(b.value);
      if t.Err? {
        return Err(t.error);
      }
      return Ok((t.value, n.value));
    }

    /** The boolean that came with the field header if there is one, otherwise the next byte. */
    method ReadBool() returns (r: Result<bool>)
      modifies this
      ensures old(boolValueIsNotNull) ==>
                r == Ok(old(boolValue)) && Now() == old(Now()).(boolValueIsNotNull := false)
      ensures !old(boolValueIsNotNull) ==>
                match TakeByte(old(trans))
                case Ok((b, rest)) => r == Ok(b == 1) && Now() == old(Now()).(trans := rest)
                case Err(e) => r == Err(e) && Now() == old(Now())
    {
      if boolValueIsNotNull {
        boolValueIsNotNull := false;
        return Ok(boolValue);
      }
      var v := ReadByteDirect();
      if v.Err? {
        return Err(v.error);
      }
      return Ok(v.value == 0x01);
    }

    /** Scalars other than booleans. */
    method ReadScalar(t: TType) returns (r: Result<Value>)
      requires IsScalarType(t) && t != BOOL
      modifies this`trans
      ensures match TakeScalar(Compact, t, old(trans), maxMessageSize)
              case Ok((v, rest)) => r == Ok(v) && Now() == old(Now()).(trans := rest)
              case Err(e) => r == Err(e) && Now() == old(Now()).(trans := trans)
    {
      if t == BYTE {
        var b := ReadByteDirect();
        return if b.Err? then Err(b.error) else Ok(ByteV(ToInt8(b.value)));
      } else if t == STRING {
        var n := ReadLength();
        if n.Err? {
          return Err(n.error);
        }
        var body := ReadFull(n.value);
        return if body.Err? then Err(body.error) else Ok(StringV(body.value));
      } else if t == UUID {
        var body := ReadFull(16);
        return if body.Err? then Err(body.error) else Ok(UuidV(body.value));
      } else if t == DOUBLE {
        var body := ReadFull(8);
        return if body.Err? then Err(body.error) else Ok(DoubleV(FromLittleEndian(body.value) % TWO64));
      }
      r := ReadNumber(t);
    }

    method ReadNumber(t: TType) returns (r: Result<Value>)
      requires t == I16 || t == I32 || t == I64
      modifies this`trans
      ensures match TakeScalar(Compact, t, old(trans), maxMessageSize)
              case Ok((v, rest)) => r == Ok(v) && Now() == old(Now()).(trans := rest)
              case Err(e) => r == Err(e) && Now() == old(Now()).(trans := trans)
    {
      var v := ReadVarint64();
      if v.Err? {
        return Err(v.error);
      }
      LowBits(ReadVarint(old(trans)).value.0);
      if t == I16 {
        return Ok(I16V(ToInt16(ZigZagInt32(v.value))));
      } else if t == I32 {
        return Ok(I32V(ZigZagInt32(v.value)));
      }
      return Ok(I64V(ZigZagInt64(v.value)));
    }
  }

  lemma ModSum(x: nat, y: nat)
    ensures (x % TWO64 + y) % TWO64 == (x + y) % TWO64
  {
    assert x + y == TWO64 * (x / TWO64) + (x % TWO64 + y);
    ModAdd(x / TWO64, x % TWO64 + y, TWO64);
  }

  /** The varint at `from` is the one at `s` scaled up and added to `sum`. */
  ghost predicate Partial(from: seq<byte>, s: seq<byte>, sum: nat, scale: nat) {
    match ReadVarint(s)
    case Ok((u, rest)) => ReadVarint(from) == Ok((sum + scale * u, rest))
    case Err(e) => ReadVarint(from) == Err(e)
  }

  lemma PartialStep(from: seq<byte>, s: seq<byte>, sum: nat, scale: nat)
    requires s != [] && Partial(from, s, sum, scale)
    ensures s[0] < 128 ==> ReadVarint(from) == Ok((sum + (s[0] % 128) * scale, s[1..]))
    ensures s[0] >= 128 ==> Partial(from, s[1..], sum + (s[0] % 128) * scale, 128 * scale)
  {
    var more := ReadVarint(s[1..]);
    if s[0] >= 128 && more.Ok? {
      Distribute(scale, s[0] - 128, more.value.0);
    }
  }

  lemma Distribute(p: nat, low: nat, high: nat)
    ensures p * (low + 128 * high) == low * p + (128 * p) * high
  {
    assert p * (low + 128 * high) == p * low + p * (128 * high);
  }
}
