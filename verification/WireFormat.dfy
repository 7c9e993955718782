/**
 The byte layout of the compact and the binary protocol, as functions: what each writes for a
 value and what each makes of any input. The protocol classes are proved against these.
 */
module WireFormat {
  import opened Wrappers
  import opened WireTypes
  import opened Varint

  datatype Dialect = Compact | Binary

  // ---------- bytes and sizes ----------

  function TakeByte(s: seq<byte>): (r: Result<(byte, seq<byte>)>) {
    if s == [] then Err(EndOfFile) else Ok((s[0], s[1..]))
  }

  function TakeBytes(s: seq<byte>, n: nat): (r: Result<(seq<byte>, seq<byte>)>) {
    if |s| < n then Err(EndOfFile) else Ok((s[..n], s[n..]))
  }

  /** A size read off the wire must be non-negative and within the configured message size. */
  function CheckSize(size: int, max: nat): (r: Result<nat>) {
    if size < 0 then Err(NegativeSize)
    else if size > max then Err(SizeLimit)
    else Ok(size)
  }

  function TakeVarint32(s: seq<byte>): (r: Result<(int32, seq<byte>)>)
    ensures r.Ok? ==> |r.value.1| < |s|
  {
    var (u, rest) :- ReadVarint(s);
    Ok((ToInt32(u), rest))
  }

  function TakeBigEndian32(s: seq<byte>): (r: Result<(int32, seq<byte>)>)
    ensures r.Ok? ==> |r.value.1| < |s|
  {
    var (b, rest) :- TakeBytes(s, 4);
    Ok((ToInt32(FromBigEndian(b)), rest))
  }

  // ---------- type codes of the compact protocol ----------

  function CompactType(t: TType): byte {
    if t == BOOL then 0x01
    else if t == BYTE then 0x03
    else if t == I16 then 0x04
    else if t == I32 then 0x05
    else if t == I64 then 0x06
    else if t == DOUBLE then 0x07
    else if t == STRING then 0x08
    else if t == LIST then 0x09
    else if t == SET then 0x0A
    else if t == MAP then 0x0B
    else if t == STRUCT then 0x0C
    else if t == UUID then 0x0D
    else 0x00
  }

  /** The type named by the low four bits of `c`. */
  function FromCompactType(c: byte): Result<TType> {
    match c % 16
    case 0x00 => Ok(STOP)
    case 0x01 => Ok(BOOL)
    case 0x02 => Ok(BOOL)
    case 0x03 => Ok(BYTE)
    case 0x04 => Ok(I16)
    case 0x05 => Ok(I32)
    case 0x06 => Ok(I64)
    case 0x07 => Ok(DOUBLE)
    case 0x08 => Ok(STRING)
    case 0x09 => Ok(LIST)
    case 0x0A => Ok(SET)
    case 0x0B => Ok(MAP)
    case 0x0C => Ok(STRUCT)
    case 0x0D => Ok(UUID)
    case _ => Err(Other)
  }

  function CompactTypeOrStop(c: byte): TType {
    var t := FromCompactType(c);
    if t.Ok? then t.value else STOP
  }

  // ---------- scalars ----------

  function LengthBytes(d: Dialect, n: nat): seq<byte> {
    match d
    case Compact => VarintBytes(n % TWO32)
    case Binary => BigEndian(n % TWO32, 4)
  }

  function TakeLength(d: Dialect, s: seq<byte>, max: nat): (r: Result<(nat, seq<byte>)>)
    ensures r.Ok? ==> |r.value.1| < |s| && r.value.0 <= max
  {
    var (size, rest) :- if d.Compact? then TakeVarint32(s) else TakeBigEndian32(s);
    var n :- CheckSize(size, max);
    Ok((n, rest))
  }

  function ScalarBytes(d: Dialect, v: Value): (bytes: seq<byte>)
    requires IsScalar(v)
  {
    match v
    case BoolV(b) => if d.Compact? then [if b then 1 else 2] else [if b then 1 else 0]
    case ByteV(x) => [x % 256]
    case I16V(x) => if d.Compact? then VarintBytes(ZigZag(x)) else BigEndian(x % TWO16, 2)
    case I32V(x) => if d.Compact? then VarintBytes(ZigZag(x)) else BigEndian(x % TWO32, 4)
    case I64V(x) => if d.Compact? then VarintBytes(ZigZag(x)) else BigEndian(x % TWO64, 8)
    case DoubleV(bits) => if d.Compact? then LittleEndian(bits, 8) else BigEndian(bits, 8)
    case StringV(s) => LengthBytes(d, |s|) + s
    case UuidV(u) => u
  }

  function ZigZagInt32(u: nat): int32 {
    UnZigZag(u % TWO32)
  }

  function ZigZagInt64(u: nat): int64 {
    UnZigZag(u % TWO64)
  }

  function TakeScalar(d: Dialect, t: TType, s: seq<byte>, max: nat): (r: Result<(Value, seq<byte>)>)
    requires IsScalarType(t)
    ensures r.Ok? ==> |r.value.1| < |s| && TypeOf(r.value.0) == t
  {
    if t == BOOL then
      var (b, rest) :- TakeByte(s);
      Ok((BoolV(b == 1), rest))
    else if t == BYTE then
      var (b, rest) :- TakeByte(s);
      Ok((ByteV(ToInt8(b)), rest))
    else if t == STRING then
      var (n, rest) :- TakeLength(d, s, max);
      var (body, rest') :- TakeBytes(rest, n);
      Ok((StringV(body), rest'))
    else if t == UUID then
      var (body, rest) :- TakeBytes(s, 16);
      Ok((UuidV(body), rest))
    else if d.Compact? then
      TakeCompactNumber(t, s)
    else
      TakeBinaryNumber(t, s)
  }

  function TakeCompactNumber(t: TType, s: seq<byte>): (r: Result<(Value, seq<byte>)>)
    requires t == I16 || t == I32 || t == I64 || t == DOUBLE
    ensures r.Ok? ==> |r.value.1| < |s| && TypeOf(r.value.0) == t
  {
    if t == DOUBLE then
      var (body, rest) :- TakeBytes(s, 8);
      Ok((DoubleV(FromLittleEndian(body) % TWO64), rest))
    else
      var (u, rest) :- ReadVarint(s);
      if t == I16 then Ok((I16V(ToInt16(ZigZagInt32(u))), rest))
      else if t == I32 then Ok((I32V(ZigZagInt32(u)), rest))
      else Ok((I64V(ZigZagInt64(u)), rest))
  }

  function TakeBinaryNumber(t: TType, s: seq<byte>): (r: Result<(Value, seq<byte>)>)
    requires t == I16 || t == I32 || t == I64 || t == DOUBLE
    ensures r.Ok? ==> |r.value.1| < |s| && TypeOf(r.value.0) == t
  {
    if t == I16 then
      var (body, rest) :- TakeBytes(s, 2);
      Ok((I16V(ToInt16(FromBigEndian(body))), rest))
    else if t == I32 then
      var (body, rest) :- TakeBytes(s, 4);
      Ok((I32V(ToInt32(FromBigEndian(body))), rest))
    else
      var (body, rest) :- TakeBytes(s, 8);
      if t == I64 then Ok((I64V(ToInt64(FromBigEndian(body))), rest))
      else Ok((DoubleV(FromBigEndian(body) % TWO64), rest))
  }

  // ---------- headers ----------

  /** `carried` is the value of a compact boolean field, which travels in the header itself. */
  datatype FieldHeader = StopField | FieldHeader(t: TType, id: int16, carried: Option<bool>)

  function FieldHeaderBytes(d: Dialect, t: TType, id: int16, lastId: int, carried: Option<bool>): seq<byte> {
    match d
    case Binary => [t] + BigEndian(id % TWO16, 2)
    case Compact =>
      var code: byte := if carried.Some? then (if carried.value then 0x01 else 0x02) else CompactType(t);
      if lastId < id <= lastId + 15 then [(id - lastId) * 16 + code]
      else [code] + VarintBytes(ZigZag(id))
  }

  function TakeFieldHeader(d: Dialect, s: seq<byte>, lastId: int): (r: Result<(FieldHeader, seq<byte>)>)
    ensures r.Ok? ==> |r.value.1| < |s|
    ensures r.Ok? && r.value.0.FieldHeader? && r.value.0.carried.Some? ==> r.value.0.t == BOOL
  {
    var (b, rest) :- TakeByte(s);
    match d
    case Binary =>
      if b == STOP then Ok((StopField, rest))
      else
        var (body, rest') :- TakeBytes(rest, 2);
        Ok((FieldHeader.FieldHeader(b, ToInt16(FromBigEndian(body)), None), rest'))
    case Compact =>
      if b % 16 == 0 then Ok((StopField, rest))
      else
        var (id, rest') :- TakeFieldId(b / 16, rest, lastId);
        var t :- FromCompactType(b);
        var carried := if b % 16 == 1 then Some(true) else if b % 16 == 2 then Some(false) else None;
        Ok((FieldHeader.FieldHeader(t, id, carried), rest'))
  }

  function TakeFieldId(modifier: nat, s: seq<byte>, lastId: int): (r: Result<(int16, seq<byte>)>)
    ensures r.Ok? ==> |r.value.1| <= |s|
  {
    if modifier == 0 then
      var (u, rest) :- ReadVarint(s);
      Ok((ToInt16(ZigZagInt32(u)), rest))
    else
      Ok((ToInt16(lastId + modifier), s))
  }

  function ListHeaderBytes(d: Dialect, t: TType, n: nat): seq<byte> {
    match d
    case Binary => [t] + LengthBytes(d, n)
    case Compact =>
      if n <= 14 then [n * 16 + CompactType(t)] else [0xf0 + CompactType(t)] + LengthBytes(d, n)
  }

  function TakeListHeader(d: Dialect, s: seq<byte>, max: nat): (r: Result<((TType, nat), seq<byte>)>)
    ensures r.Ok? ==> |r.value.1| < |s|
  {
    var (b, rest) :- TakeByte(s);
    match d
    case Binary =>
      var (n, rest') :- TakeLength(d, rest, max);
      Ok(((b, n), rest'))
    case Compact =>
      var (size, rest') :- if b / 16 == 15 then TakeVarint32(rest) else Ok((b / 16, rest));
      var n :- CheckSize(size, max);
      var t :- FromCompactType(b);
      Ok(((t, n), rest'))
  }

  function MapHeaderBytes(d: Dialect, kt: TType, vt: TType, n: nat): seq<byte> {
    match d
    case Binary => [kt, vt] + LengthBytes(d, n)
    case Compact =>
      if n == 0 then [0] else LengthBytes(d, n) + [CompactType(kt) * 16 + CompactType(vt)]
  }

  function TakeMapHeader(d: Dialect, s: seq<byte>, max: nat): (r: Result<((TType, TType, nat), seq<byte>)>)
    ensures r.Ok? ==> |r.value.1| < |s|
  {
    match d
    case Binary =>
      var (types, rest) :- TakeBytes(s, 2);
      var (n, rest') :- TakeLength(d, rest, max);
      Ok(((types[0], types[1], n), rest'))
    case Compact =>
      var (n, rest) :- TakeLength(d, s, max);
      var (b, rest') :- if n == 0 then Ok((STOP, rest)) else TakeByte(rest);
      Ok(((CompactTypeOrStop(b / 16), CompactTypeOrStop(b % 16), n), rest'))
  }

  // ---------- whole values ----------

  /** What the protocol writes for `v`. */
  function Encode(d: Dialect, v: Value): seq<byte>
    decreases v
  {
    match v
    case StructV(fields) => EncodeFields(d, fields, 0)
    case ListV(et, elems) => ListHeaderBytes(d, et, |elems|) + EncodeElems(d, elems)
    case SetV(et, elems) => ListHeaderBytes(d, et, |elems|) + EncodeElems(d, elems)
    case MapV(kt, vt, entries) => MapHeaderBytes(d, kt, vt, |entries|) + EncodeEntries(d, entries)
    case _ => ScalarBytes(d, v)
  }

  function EncodeFields(d: Dialect, fields: seq<Field>, lastId: int): seq<byte>
    decreases fields
  {
    if fields == [] then [STOP]
    else EncodeField(d, fields[0], lastId) + EncodeFields(d, fields[1..], fields[0].id)
  }

  function EncodeField(d: Dialect, f: Field, lastId: int): seq<byte>
    decreases f
  {
    if d.Compact? && f.value.BoolV? then
      FieldHeaderBytes(d, BOOL, f.id, lastId, Some(f.value.b))
    else
      FieldHeaderBytes(d, TypeOf(f.value), f.id, lastId, None) + Encode(d, f.value)
  }

  function EncodeElems(d: Dialect, elems: seq<Value>): seq<byte>
    decreases elems
  {
    if elems == [] then [] else Encode(d, elems[0]) + EncodeElems(d, elems[1..])
  }

  function EncodeEntries(d: Dialect, entries: seq<Entry>): seq<byte>
    decreases entries
  {
    if entries == [] then [] else EncodeEntry(d, entries[0]) + EncodeEntries(d, entries[1..])
  }

  function EncodeEntry(d: Dialect, e: Entry): seq<byte>
    decreases e
  {
    Encode(d, e.key) + Encode(d, e.value)
  }

  /** The value of type `t` at the front of `s` and what follows it, for any input whatever. */
  function Decode(d: Dialect, t: TType, s: seq<byte>, max: nat): (r: Result<(Value, seq<byte>)>)
    ensures r.Ok? ==> |r.value.1| < |s| && TypeOf(r.value.0) == t
    decreases |s|, 1
  {
    if IsScalarType(t) then TakeScalar(d, t, s, max)
    else if t == STRUCT then
      var (fields, rest) :- DecodeFields(d, s, 0, max);
      Ok((StructV(fields), rest))
    else if t == LIST || t == SET then
      var ((et, n), rest) :- TakeListHeader(d, s, max);
      var (elems, rest') :- DecodeElems(d, et, n, rest, max);
      Ok((if t == LIST then ListV(et, elems) else SetV(et, elems), rest'))
    else if t == MAP then
      var ((kt, vt, n), rest) :- TakeMapHeader(d, s, max);
      var (entries, rest') :- DecodeEntries(d, kt, vt, n, rest, max);
      Ok((MapV(kt, vt, entries), rest'))
    else Err(InvalidData)
  }

  function DecodeFields(d: Dialect, s: seq<byte>, lastId: int, max: nat): (r: Result<(seq<Field>, seq<byte>)>)
    ensures r.Ok? ==> |r.value.1| < |s|
    decreases |s|, 0
  {
    var (h, rest) :- TakeFieldHeader(d, s, lastId);
    if h.StopField? then Ok(([], rest))
    else
      var (v, rest') :- if h.carried.Some? then Ok((BoolV(h.carried.value), rest)) else Decode(d, h.t, rest, max);
      var (fields, rest'') :- DecodeFields(d, rest', h.id, max);
      Ok(([Field(h.id, v)] + fields, rest''))
  }

  function DecodeElems(d: Dialect, et: TType, n: nat, s: seq<byte>, max: nat): (r: Result<(seq<Value>, seq<byte>)>)
    ensures r.Ok? ==> |r.value.1| <= |s|
    decreases |s|, 2
  {
    if n == 0 then Ok(([], s))
    else
      var (v, rest) :- Decode(d, et, s, max);
      var (elems, rest') :- DecodeElems(d, et, n - 1, rest, max);
      Ok(([v] + elems, rest'))
  }

  function DecodeEntries(d: Dialect, kt: TType, vt: TType, n: nat, s: seq<byte>, max: nat):
      (r: Result<(seq<Entry>, seq<byte>)>)
    ensures r.Ok? ==> |r.value.1| <= |s|
    decreases |s|, 2
  {
    if n == 0 then Ok(([], s))
    else
      var (k, rest) :- Decode(d, kt, s, max);
      var (v, rest') :- Decode(d, vt, rest, max);
      var (entries, rest'') :- DecodeEntries(d, kt, vt, n - 1, rest', max);
      Ok(([Entry(k, v)] + entries, rest''))
  }
}
