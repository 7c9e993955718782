/** Type codes and the values that generated code hands to a Thrift protocol. */
module WireTypes {

  type byte = x: int | 0 <= x < 256
  type int8 = x: int | -0x80 <= x < 0x80
  type int16 = x: int | -0x8000 <= x < 0x8000
  type int32 = x: int | -0x8000_0000 <= x < 0x8000_0000
  type int64 = x: int | -0x8000_0000_0000_0000 <= x < 0x8000_0000_0000_0000
  type uint64 = x: int | 0 <= x < 0x1_0000_0000_0000_0000

  /** The wire code of a Thrift type. */
  type TType = byte

  const STOP: TType := 0
  const BOOL: TType := 2
  const BYTE: TType := 3
  const DOUBLE: TType := 4
  const I16: TType := 6
  const I32: TType := 8
  const I64: TType := 10
  const STRING: TType := 11
  const STRUCT: TType := 12
  const MAP: TType := 13
  const SET: TType := 14
  const LIST: TType := 15
  const UUID: TType := 16

  predicate IsScalarType(t: TType) {
    t == BOOL || t == BYTE || t == DOUBLE || t == I16 || t == I32 || t == I64 || t == STRING || t == UUID
  }

  predicate IsValueType(t: TType) {
    IsScalarType(t) || t == STRUCT || t == MAP || t == SET || t == LIST
  }

  /** A value in the shape generated code writes and reads it. Doubles are their 64 bits. */
  datatype Value =
    | BoolV(b: bool)
    | ByteV(i8: int8)
    | I16V(i16: int16)
    | I32V(i32: int32)
    | I64V(i64: int64)
    | DoubleV(bits: uint64)
    | StringV(s: seq<byte>)
    | UuidV(u: seq<byte>)
    | StructV(fields: seq<Field>)
    | ListV(elemType: TType, elems: seq<Value>)
    | SetV(elemType: TType, elems: seq<Value>)
    | MapV(keyType: TType, valueType: TType, entries: seq<Entry>)

  datatype Field = Field(id: int16, value: Value)

  datatype Entry = Entry(key: Value, value: Value)

  function TypeOf(v: Value): TType {
    match v
    case BoolV(_) => BOOL
    case ByteV(_) => BYTE
    case I16V(_) => I16
    case I32V(_) => I32
    case I64V(_) => I64
    case DoubleV(_) => DOUBLE
    case StringV(_) => STRING
    case UuidV(_) => UUID
    case StructV(_) => STRUCT
    case ListV(_, _) => LIST
    case SetV(_, _) => SET
    case MapV(_, _, _) => MAP
  }

  predicate IsScalar(v: Value) {
    IsScalarType(TypeOf(v))
  }

  /** Homogeneous containers of declared types, and every length within the configured maximum. */
  predicate WellTyped(v: Value, max: nat) {
    match v
    case StringV(s) => |s| <= max
    case UuidV(u) => |u| == 16
    case StructV(fields) => forall i :: 0 <= i < |fields| ==> WellTyped(fields[i].value, max)
    case ListV(et, elems) =>
      IsValueType(et) && |elems| <= max &&
      forall i :: 0 <= i < |elems| ==> TypeOf(elems[i]) == et && WellTyped(elems[i], max)
    case SetV(et, elems) =>
      IsValueType(et) && |elems| <= max &&
      forall i :: 0 <= i < |elems| ==> TypeOf(elems[i]) == et && WellTyped(elems[i], max)
    case MapV(kt, vt, entries) =>
      IsValueType(kt) && IsValueType(vt) && |entries| <= max &&
      forall i :: 0 <= i < |entries| ==>
        TypeOf(entries[i].key) == kt && WellTyped(entries[i].key, max) &&
        TypeOf(entries[i].value) == vt && WellTyped(entries[i].value, max)
    case _ => true
  }

  function Max(a: int, b: int): int {
    if a < b then b else a
  }

  /** Levels of `Skip` recursion a value needs: one for a scalar, one more per enclosing container. */
  function Depth(v: Value): nat
    decreases v
  {
    match v
    case StructV(fields) => 1 + FieldsDepth(fields)
    case ListV(_, elems) => 1 + ElemsDepth(elems)
    case SetV(_, elems) => 1 + ElemsDepth(elems)
    case MapV(_, _, entries) => 1 + EntriesDepth(entries)
    case _ => 1
  }

  function FieldsDepth(fields: seq<Field>): nat
    decreases fields
  {
    if fields == [] then 0 else Max(FieldDepth(fields[0]), FieldsDepth(fields[1..]))
  }

  function FieldDepth(f: Field): nat
    decreases f
  {
    Depth(f.value)
  }

  function ElemsDepth(elems: seq<Value>): nat
    decreases elems
  {
    if elems == [] then 0 else Max(Depth(elems[0]), ElemsDepth(elems[1..]))
  }

  function EntriesDepth(entries: seq<Entry>): nat
    decreases entries
  {
    if entries == [] then 0 else Max(EntryDepth(entries[0]), EntriesDepth(entries[1..]))
  }

  function EntryDepth(e: Entry): nat
    decreases e
  {
    Max(Depth(e.key), Depth(e.value))
  }

}
