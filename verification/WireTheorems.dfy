/** Round trips of the two wire formats. */
module WireTheorems {
  import opened Wrappers
  import opened WireTypes
  import opened Varint
  import opened WireFormat

  // ---------- what reading back gives: the value, up to the types of empty compact maps ----------

  function Canon(d: Dialect, v: Value): Value
    decreases v
  {
    match v
    case StructV(fields) => StructV(CanonFields(d, fields))
    case ListV(et, elems) => ListV(et, CanonElems(d, elems))
    case SetV(et, elems) => SetV(et, CanonElems(d, elems))
    case MapV(kt, vt, entries) =>
      if d.Compact? && entries == [] then MapV(STOP, STOP, []) else MapV(kt, vt, CanonEntries(d, entries))
    case _ => v
  }

  function CanonFields(d: Dialect, fields: seq<Field>): seq<Field>
    decreases fields
  {
    if fields == [] then [] else [CanonField(d, fields[0])] + CanonFields(d, fields[1..])
  }

  function CanonField(d: Dialect, f: Field): Field
    decreases f
  {
    Field(f.id, Canon(d, f.value))
  }

  function CanonElems(d: Dialect, elems: seq<Value>): seq<Value>
    decreases elems
  {
    if elems == [] then [] else [Canon(d, elems[0])] + CanonElems(d, elems[1..])
  }

  function CanonEntries(d: Dialect, entries: seq<Entry>): seq<Entry>
    decreases entries
  {
    if entries == [] then [] else [CanonEntry(d, entries[0])] + CanonEntries(d, entries[1..])
  }

  function CanonEntry(d: Dialect, e: Entry): Entry
    decreases e
  {
    Entry(Canon(d, e.key), Canon(d, e.value))
  }

  /** No empty map anywhere inside. */
  predicate NoEmptyMap(v: Value)
    decreases v
  {
    match v
    case StructV(fields) => forall i :: 0 <= i < |fields| ==> NoEmptyMap(fields[i].value)
    case ListV(_, elems) => forall i :: 0 <= i < |elems| ==> NoEmptyMap(elems[i])
    case SetV(_, elems) => forall i :: 0 <= i < |elems| ==> NoEmptyMap(elems[i])
    case MapV(_, _, entries) =>
      entries != [] &&
      forall i :: 0 <= i < |entries| ==> NoEmptyMap(entries[i].key) && NoEmptyMap(entries[i].value)
    case _ => true
  }

  /** The binary protocol loses nothing; the compact protocol loses only the types of empty maps. */
  lemma {:induction false} CanonIdentity(d: Dialect, v: Value)
    requires d.Binary? || NoEmptyMap(v)
    ensures Canon(d, v) == v
    decreases v
  {
    match v
    case StructV(fields) => CanonFieldsIdentity(d, fields);
    case ListV(_, elems) => CanonElemsIdentity(d, elems);
    case SetV(_, elems) => CanonElemsIdentity(d, elems);
    case MapV(_, _, entries) => CanonEntriesIdentity(d, entries);
    case _ =>
  }

  lemma {:induction false} CanonFieldsIdentity(d: Dialect, fields: seq<Field>)
    requires d.Binary? || forall i :: 0 <= i < |fields| ==> NoEmptyMap(fields[i].value)
    ensures CanonFields(d, fields) == fields
    decreases fields
  {
    if fields != [] {
      CanonFieldIdentity(d, fields[0]);
      CanonFieldsIdentity(d, fields[1..]);
    }
  }

  lemma {:induction false} CanonFieldIdentity(d: Dialect, f: Field)
    requires d.Binary? || NoEmptyMap(f.value)
    ensures CanonField(d, f) == f
    decreases f
  {
    CanonIdentity(d, f.value);
  }

  lemma {:induction false} CanonElemsIdentity(d: Dialect, elems: seq<Value>)
    requires d.Binary? || forall i :: 0 <= i < |elems| ==> NoEmptyMap(elems[i])
    ensures CanonElems(d, elems) == elems
    decreases elems
  {
    if elems != [] {
      CanonIdentity(d, elems[0]);
      CanonElemsIdentity(d, elems[1..]);
    }
  }

  lemma {:induction false} CanonEntriesIdentity(d: Dialect, entries: seq<Entry>)
    requires d.Binary? ||
             forall i :: 0 <= i < |entries| ==> NoEmptyMap(entries[i].key) && NoEmptyMap(entries[i].value)
    ensures CanonEntries(d, entries) == entries
    decreases entries
  {
    if entries != [] {
      CanonEntryIdentity(d, entries[0]);
      CanonEntriesIdentity(d, entries[1..]);
    }
  }

  lemma {:induction false} CanonEntryIdentity(d: Dialect, e: Entry)
    requires d.Binary? || (NoEmptyMap(e.key) && NoEmptyMap(e.value))
    ensures CanonEntry(d, e) == e
    decreases e
  {
    CanonIdentity(d, e.key);
    CanonIdentity(d, e.value);
  }

  // ---------- headers and scalars ----------

  const MAX_SIZE := 0x7fff_ffff

  lemma TakeBytesOf(body: seq<byte>, rest: seq<byte>)
    ensures TakeBytes(body + rest, |body|) == Ok((body, rest))
  {
    assert (body + rest)[..|body|] == body;
    assert (body + rest)[|body|..] == rest;
  }

  lemma Associate(a: seq<byte>, b: seq<byte>, c: seq<byte>)
    ensures (a + b) + c == a + (b + c)
  {
  }

  lemma TakeByteOf(b: byte, rest: seq<byte>)
    ensures TakeByte([b] + rest) == Ok((b, rest))
  {
  }

  lemma LengthRoundTrip(d: Dialect, n: nat, rest: seq<byte>, max: nat)
    requires n <= max <= MAX_SIZE
    ensures TakeLength(d, LengthBytes(d, n) + rest, max) == Ok((n, rest))
  {
    assert n % TWO32 == n && ToInt32(n) == n;
    if d.Compact? {
      VarintRoundTrip(n, rest);
    } else {
      FourBytes(n);
      TakeBytesOf(BigEndian(n, 4), rest);
    }
  }

  lemma FourBytes(n: nat)
    requires n < TWO32
    ensures FromBigEndian(BigEndian(n, 4)) == n
  {
    Pow256Values();
    BigEndianRoundTrip(n, 4);
  }

  lemma CompactTypeInverse(t: TType)
    requires IsValueType(t)
    ensures 0 < CompactType(t) < 14 && CompactType(t) != 2
    ensures forall hi: byte :: hi < 16 ==> FromCompactType(hi * 16 + CompactType(t)) == Ok(t)
    ensures CompactTypeOrStop(CompactType(t)) == t
  {
  }

  lemma NumberRoundTrip(d: Dialect, v: Value, rest: seq<byte>, max: nat)
    requires v.I16V? || v.I32V? || v.I64V? || v.DoubleV?
    ensures TakeScalar(d, TypeOf(v), ScalarBytes(d, v) + rest, max) == Ok((v, rest))
  {
    match v
    case DoubleV(bits) => DoubleRoundTrip(d, bits, rest);
    case _ => if d.Compact? { CompactIntegerRoundTrip(v, rest); } else { BinaryIntegerRoundTrip(v, rest); }
  }

  lemma DoubleRoundTrip(d: Dialect, bits: uint64, rest: seq<byte>)
    ensures d.Compact? ==> TakeCompactNumber(DOUBLE, LittleEndian(bits, 8) + rest) == Ok((DoubleV(bits), rest))
    ensures d.Binary? ==> TakeBinaryNumber(DOUBLE, BigEndian(bits, 8) + rest) == Ok((DoubleV(bits), rest))
  {
    EightBytes(bits);
    if d.Compact? {
      TakeBytesOf(LittleEndian(bits, 8), rest);
    } else {
      TakeBytesOf(BigEndian(bits, 8), rest);
    }
  }

  lemma EightBytes(bits: uint64)
    ensures FromLittleEndian(LittleEndian(bits, 8)) % TWO64 == bits
    ensures FromBigEndian(BigEndian(bits, 8)) % TWO64 == bits
  {
    Pow256Values();
    LittleEndianRoundTrip(bits, 8);
    BigEndianRoundTrip(bits, 8);
  }

  /** A signed number written as a zigzag varint is read back by every reader wide enough for it. */
  lemma ZigZagVarintRoundTrip(x: int, rest: seq<byte>)
    ensures ReadVarint(VarintBytes(ZigZag(x)) + rest) == Ok((ZigZag(x), rest))
    ensures -0x8000 <= x < 0x8000 ==> ToInt16(ZigZagInt32(ZigZag(x))) == x
    ensures -0x8000_0000 <= x < 0x8000_0000 ==> ZigZagInt32(ZigZag(x)) == x
    ensures -0x8000_0000_0000_0000 <= x < 0x8000_0000_0000_0000 ==> ZigZagInt64(ZigZag(x)) == x
  {
    VarintRoundTrip(ZigZag(x), rest);
    ZigZagWidths(x);
  }

  lemma ZigZagWidths(x: int)
    ensures -0x8000 <= x < 0x8000 ==> ToInt16(ZigZagInt32(ZigZag(x))) == x
    ensures -0x8000_0000 <= x < 0x8000_0000 ==> ZigZagInt32(ZigZag(x)) == x
    ensures -0x8000_0000_0000_0000 <= x < 0x8000_0000_0000_0000 ==> ZigZagInt64(ZigZag(x)) == x
  {
    var u := ZigZag(x);
    assert UnZigZag(u) == x by { UnZigZagged(x); }
    assert u < TWO32 ==> u % TWO32 == u;
    assert u < TWO64 ==> u % TWO64 == u;
  }

  lemma CompactIntegerRoundTrip(v: Value, rest: seq<byte>)
    requires v.I16V? || v.I32V? || v.I64V?
    ensures TakeCompactNumber(TypeOf(v), ScalarBytes(Compact, v) + rest) == Ok((v, rest))
  {
    match v
    case I16V(x) => ZigZagVarintRoundTrip(x, rest);
    case I32V(x) => ZigZagVarintRoundTrip(x, rest);
    case I64V(x) => ZigZagVarintRoundTrip(x, rest);
  }

  lemma BinaryIntegerRoundTrip(v: Value, rest: seq<byte>)
    requires v.I16V? || v.I32V? || v.I64V?
    ensures TakeBinaryNumber(TypeOf(v), ScalarBytes(Binary, v) + rest) == Ok((v, rest))
  {
    match v
    case I16V(x) => BinaryWidthRoundTrip(x, 2, rest); SignedRoundTrip(x);
    case I32V(x) => BinaryWidthRoundTrip(x, 4, rest); SignedRoundTrip(x);
    case I64V(x) => BinaryWidthRoundTrip(x, 8, rest); SignedRoundTrip(x);
  }

  lemma BinaryWidthRoundTrip(x: int, width: nat, rest: seq<byte>)
    requires width == 2 || width == 4 || width == 8
    ensures var m := if width == 2 then TWO16 else if width == 4 then TWO32 else TWO64;
            var body := BigEndian(x % m, width);
            FromBigEndian(body) == x % m && TakeBytes(body + rest, width) == Ok((body, rest))
  {
    Pow256Values();
    BigEndianRoundTrip(x % Pow256(width), width);
    TakeBytesOf(BigEndian(x % Pow256(width), width), rest);
  }

  lemma OneByteRoundTrip(d: Dialect, v: Value, rest: seq<byte>, max: nat)
    requires v.BoolV? || v.ByteV?
    ensures TakeScalar(d, TypeOf(v), ScalarBytes(d, v) + rest, max) == Ok((v, rest))
  {
    TakeByteOf(ScalarBytes(d, v)[0], rest);
    assert ScalarBytes(d, v) == [ScalarBytes(d, v)[0]];
    if v.ByteV? {
      SignedRoundTrip(v.i8);
    }
  }

  lemma StringRoundTrip(d: Dialect, s: seq<byte>, rest: seq<byte>, max: nat)
    requires |s| <= max <= MAX_SIZE
    ensures TakeScalar(d, STRING, ScalarBytes(d, StringV(s)) + rest, max) == Ok((StringV(s), rest))
  {
    assert ScalarBytes(d, StringV(s)) + rest == LengthBytes(d, |s|) + (s + rest);
    LengthRoundTrip(d, |s|, s + rest, max);
    TakeBytesOf(s, rest);
  }

  lemma ScalarRoundTrip(d: Dialect, v: Value, rest: seq<byte>, max: nat)
    requires IsScalar(v) && WellTyped(v, max) && max <= MAX_SIZE
    ensures TakeScalar(d, TypeOf(v), ScalarBytes(d, v) + rest, max) == Ok((v, rest))
  {
    if v.BoolV? || v.ByteV? {
      OneByteRoundTrip(d, v, rest, max);
    } else if v.StringV? {
      StringRoundTrip(d, v.s, rest, max);
    } else if v.UuidV? {
      TakeBytesOf(v.u, rest);
    } else {
      NumberRoundTrip(d, v, rest, max);
    }
  }

  lemma StopRoundTrip(d: Dialect, lastId: int, rest: seq<byte>)
    ensures TakeFieldHeader(d, [STOP] + rest, lastId) == Ok((StopField, rest))
  {
  }

  /** Any int16 id after any other: as a delta when it is 1 to 15 above, spelled out otherwise. */
  lemma FieldHeaderRoundTrip(d: Dialect, t: TType, id: int16, lastId: int16, carried: Option<bool>, rest: seq<byte>)
    requires IsValueType(t)
    requires if d.Compact? && t == BOOL then carried.Some? else carried.None?
    ensures TakeFieldHeader(d, FieldHeaderBytes(d, t, id, lastId, carried) + rest, lastId)
            == Ok((FieldHeader.FieldHeader(t, id, carried), rest))
  {
    if d.Binary? {
      var s := FieldHeaderBytes(d, t, id, lastId, carried) + rest;
      assert s[1..] == BigEndian(id % TWO16, 2) + rest;
      BinaryWidthRoundTrip(id, 2, rest);
      SignedRoundTrip(id);
    } else {
      CompactTypeInverse(t);
      var code: byte := if carried.Some? then (if carried.value then 0x01 else 0x02) else CompactType(t);
      CompactFieldHeaderRoundTrip(t, code, id, lastId, rest);
    }
  }

  lemma CompactFieldHeaderRoundTrip(t: TType, code: byte, id: int16, lastId: int16, rest: seq<byte>)
    requires 0 < code < 14 && FromCompactType(code) == Ok(t)
    ensures var s := (if lastId < id <= lastId + 15 then [(id - lastId) * 16 + code]
                      else [code] + VarintBytes(ZigZag(id)))
                     + rest;
            var carried := if code == 1 then Some(true) else if code == 2 then Some(false) else None;
            TakeFieldHeader(Compact, s, lastId) == Ok((FieldHeader.FieldHeader(t, id, carried), rest))
  {
    if lastId < id <= lastId + 15 {
      var b: byte := (id - lastId) * 16 + code;
      CompactHeaderByte(id - lastId, code);
      assert FromCompactType(b) == FromCompactType(code);
      FieldIdRoundTrip(id, lastId, rest);
      TakeByteOf(b, rest);
    } else {
      var tail := VarintBytes(ZigZag(id)) + rest;
      assert [code] + VarintBytes(ZigZag(id)) + rest == [code] + tail;
      TakeByteOf(code, tail);
      FieldIdRoundTrip(id, lastId, rest);
    }
  }

  lemma FieldIdRoundTrip(id: int16, lastId: int16, rest: seq<byte>)
    ensures lastId < id <= lastId + 15 ==> TakeFieldId(id - lastId, rest, lastId) == Ok((id, rest))
    ensures TakeFieldId(0, VarintBytes(ZigZag(id)) + rest, lastId) == Ok((id, rest))
  {
    ZigZagVarintRoundTrip(id, rest);
    SignedRoundTrip(id);
  }

  lemma CompactHeaderByte(hi: nat, lo: nat)
    requires hi < 16 && lo < 16
    ensures (hi * 16 + lo) / 16 == hi && (hi * 16 + lo) % 16 == lo
  {
  }

  lemma ListHeaderRoundTrip(d: Dialect, t: TType, n: nat, rest: seq<byte>, max: nat)
    requires IsValueType(t) && n <= max <= MAX_SIZE
    ensures TakeListHeader(d, ListHeaderBytes(d, t, n) + rest, max) == Ok(((t, n), rest))
  {
    if d.Binary? {
      Associate([t], LengthBytes(d, n), rest);
      TakeByteOf(t, LengthBytes(d, n) + rest);
      LengthRoundTrip(d, n, rest, max);
    } else if n <= 14 {
      ShortListHeader(t, n, rest, max);
    } else {
      Associate([0xf0 + CompactType(t)], LengthBytes(d, n), rest);
      LongListHeader(t, n, rest, max);
    }
  }

  lemma ShortListHeader(t: TType, n: nat, rest: seq<byte>, max: nat)
    requires IsValueType(t) && n <= 14 && n <= max
    ensures TakeListHeader(Compact, [n * 16 + CompactType(t)] + rest, max) == Ok(((t, n), rest))
  {
    CompactTypeInverse(t);
    CompactHeaderByte(n, CompactType(t));
    TakeByteOf(n * 16 + CompactType(t), rest);
  }

  lemma LongListHeader(t: TType, n: nat, rest: seq<byte>, max: nat)
    requires IsValueType(t) && n <= max <= MAX_SIZE
    ensures TakeListHeader(Compact, [0xf0 + CompactType(t)] + (LengthBytes(Compact, n) + rest), max)
            == Ok(((t, n), rest))
  {
    var b, tail := 0xf0 + CompactType(t), LengthBytes(Compact, n) + rest;
    CompactTypeInverse(t);
    CompactHeaderByte(15, CompactType(t));
    TakeByteOf(b, tail);
    LengthRoundTrip(Compact, n, rest, max);
    VarintRoundTrip(n, rest);
  }

  /** The types come back unless a compact map is empty. */
  lemma MapHeaderRoundTrip(d: Dialect, kt: TType, vt: TType, n: nat, rest: seq<byte>, max: nat)
    requires IsValueType(kt) && IsValueType(vt) && n <= max <= MAX_SIZE
    ensures TakeMapHeader(d, MapHeaderBytes(d, kt, vt, n) + rest, max)
            == Ok((if d.Compact? && n == 0 then (STOP, STOP, 0) else (kt, vt, n), rest))
  {
    if d.Binary? {
      assert MapHeaderBytes(d, kt, vt, n) + rest == [kt, vt] + (LengthBytes(d, n) + rest);
      TakeBytesOf([kt, vt], LengthBytes(d, n) + rest);
      LengthRoundTrip(d, n, rest, max);
    } else if n == 0 {
      assert LengthBytes(d, 0) == [0];
      LengthRoundTrip(d, 0, rest, max);
    } else {
      CompactMapHeaderRoundTrip(kt, vt, n, rest, max);
    }
  }

  lemma CompactMapHeaderRoundTrip(kt: TType, vt: TType, n: nat, rest: seq<byte>, max: nat)
    requires IsValueType(kt) && IsValueType(vt) && 0 < n <= max <= MAX_SIZE
    ensures TakeMapHeader(Compact, MapHeaderBytes(Compact, kt, vt, n) + rest, max) == Ok(((kt, vt, n), rest))
  {
    CompactTypeInverse(kt);
    CompactTypeInverse(vt);
    var b: byte := CompactType(kt) * 16 + CompactType(vt);
    CompactHeaderByte(CompactType(kt), CompactType(vt));
    assert MapHeaderBytes(Compact, kt, vt, n) + rest == LengthBytes(Compact, n) + ([b] + rest);
    LengthRoundTrip(Compact, n, [b] + rest, max);
    TakeByteOf(b, rest);
  }

  // ---------- round trip of whole values ----------

  /** Writing any well-typed nested value and reading it back gives the value and leaves what follows it. */
  lemma {:induction false} RoundTrip(d: Dialect, v: Value, rest: seq<byte>, max: nat)
    requires WellTyped(v, max) && max <= MAX_SIZE
    ensures Decode(d, TypeOf(v), Encode(d, v) + rest, max) == Ok((Canon(d, v), rest))
    decreases v
  {
    match v
    case StructV(fields) =>
      RoundTripFields(d, fields, 0, rest, max);
    case ListV(et, elems) =>
      RoundTripList(d, et, elems, rest, max);
    case SetV(et, elems) =>
      RoundTripList(d, et, elems, rest, max);
    case MapV(kt, vt, entries) =>
      RoundTripMap(d, kt, vt, entries, rest, max);
    case _ =>
      ScalarRoundTrip(d, v, rest, max);
  }

  lemma {:induction false} RoundTripList(d: Dialect, et: TType, elems: seq<Value>, rest: seq<byte>, max: nat)
    requires IsValueType(et) && |elems| <= max <= MAX_SIZE
    requires forall i :: 0 <= i < |elems| ==> TypeOf(elems[i]) == et && WellTyped(elems[i], max)
    ensures var s := ListHeaderBytes(d, et, |elems|) + EncodeElems(d, elems) + rest;
            TakeListHeader(d, s, max) == Ok(((et, |elems|), EncodeElems(d, elems) + rest)) &&
            DecodeElems(d, et, |elems|, EncodeElems(d, elems) + rest, max) == Ok((CanonElems(d, elems), rest))
    decreases elems, 1
  {
    var body := EncodeElems(d, elems) + rest;
    assert ListHeaderBytes(d, et, |elems|) + EncodeElems(d, elems) + rest == ListHeaderBytes(d, et, |elems|) + body;
    ListHeaderRoundTrip(d, et, |elems|, body, max);
    RoundTripElems(d, et, elems, rest, max);
  }

  lemma {:induction false} RoundTripMap(d: Dialect, kt: TType, vt: TType, entries: seq<Entry>, rest: seq<byte>,
                                        max: nat)
    requires WellTyped(MapV(kt, vt, entries), max) && max <= MAX_SIZE
    ensures Decode(d, MAP, MapHeaderBytes(d, kt, vt, |entries|) + EncodeEntries(d, entries) + rest, max)
            == Ok((Canon(d, MapV(kt, vt, entries)), rest))
    decreases entries, 1
  {
    var body := EncodeEntries(d, entries) + rest;
    var s := MapHeaderBytes(d, kt, vt, |entries|) + body;
    assert MapHeaderBytes(d, kt, vt, |entries|) + EncodeEntries(d, entries) + rest == s;
    MapHeaderRoundTrip(d, kt, vt, |entries|, body, max);
    if d.Compact? && entries == [] {
      assert body == rest;
      MapInSteps(d, STOP, STOP, 0, [], s, body, rest, max);
    } else {
      RoundTripEntries(d, kt, vt, entries, rest, max);
      MapInSteps(d, kt, vt, |entries|, CanonEntries(d, entries), s, body, rest, max);
    }
  }

  lemma MapInSteps(d: Dialect, kt: TType, vt: TType, n: nat, entries: seq<Entry>, s0: seq<byte>, s1: seq<byte>,
                   s2: seq<byte>, max: nat)
    requires TakeMapHeader(d, s0, max) == Ok(((kt, vt, n), s1)) &&
             DecodeEntries(d, kt, vt, n, s1, max) == Ok((entries, s2))
    ensures Decode(d, MAP, s0, max) == Ok((MapV(kt, vt, entries), s2))
  {
  }

  lemma {:induction false} RoundTripElems(d: Dialect, et: TType, elems: seq<Value>, rest: seq<byte>, max: nat)
    requires max <= MAX_SIZE
    requires forall i :: 0 <= i < |elems| ==> TypeOf(elems[i]) == et && WellTyped(elems[i], max)
    ensures DecodeElems(d, et, |elems|, EncodeElems(d, elems) + rest, max) == Ok((CanonElems(d, elems), rest))
    decreases elems, 0
  {
    if elems == [] {
      assert EncodeElems(d, elems) + rest == rest;
    } else {
      var tail := EncodeElems(d, elems[1..]) + rest;
      assert EncodeElems(d, elems) + rest == Encode(d, elems[0]) + tail;
      RoundTrip(d, elems[0], tail, max);
      RoundTripElems(d, et, elems[1..], rest, max);
    }
  }

  ghost predicate EntriesTyped(kt: TType, vt: TType, entries: seq<Entry>, max: nat) {
    forall i :: 0 <= i < |entries| ==>
      TypeOf(entries[i].key) == kt && WellTyped(entries[i].key, max) &&
      TypeOf(entries[i].value) == vt && WellTyped(entries[i].value, max)
  }

  lemma FirstEntryTyped(kt: TType, vt: TType, e: Entry, more: seq<Entry>, entries: seq<Entry>, max: nat)
    requires EntriesTyped(kt, vt, entries, max) && entries != [] && e == entries[0] && more == entries[1..]
    ensures TypeOf(e.key) == kt && WellTyped(e.key, max) && TypeOf(e.value) == vt && WellTyped(e.value, max)
    ensures EntriesTyped(kt, vt, more, max)
  {
  }

  lemma {:induction false} RoundTripEntries(d: Dialect, kt: TType, vt: TType, entries: seq<Entry>, rest: seq<byte>,
                                            max: nat)
    requires max <= MAX_SIZE && EntriesTyped(kt, vt, entries, max)
    ensures DecodeEntries(d, kt, vt, |entries|, EncodeEntries(d, entries) + rest, max)
            == Ok((CanonEntries(d, entries), rest))
    decreases entries, 0
  {
    if entries == [] {
      assert EncodeEntries(d, entries) + rest == rest;
    } else {
      var e, more := entries[0], entries[1..];
      FirstEntryTyped(kt, vt, e, more, entries, max);
      RoundTripEntries(d, kt, vt, more, rest, max);
      EntryThenMore(d, e, |more|, EncodeEntries(d, more), CanonEntries(d, more), rest, max);
    }
  }

  lemma {:induction false} EntryThenMore(d: Dialect, e: Entry, n: nat, others: seq<byte>, more: seq<Entry>,
                                         rest: seq<byte>, max: nat)
    requires WellTyped(e.key, max) && WellTyped(e.value, max) && max <= MAX_SIZE
    requires DecodeEntries(d, TypeOf(e.key), TypeOf(e.value), n, others + rest, max) == Ok((more, rest))
    ensures DecodeEntries(d, TypeOf(e.key), TypeOf(e.value), n + 1, (EncodeEntry(d, e) + others) + rest, max)
         == Ok(([CanonEntry(d, e)] + more, rest))
    decreases e, 1
  {
    var tail := others + rest;
    EntryNests(Encode(d, e.key), Encode(d, e.value), others, rest);
    RoundTripEntry(d, e, tail, max);
    EntriesInSteps(d, TypeOf(e.key), TypeOf(e.value), CanonEntry(d, e), more, max, n,
                   Encode(d, e.key) + (Encode(d, e.value) + tail), Encode(d, e.value) + tail, tail, rest);
  }

  lemma EntryNests(key: seq<byte>, value: seq<byte>, others: seq<byte>, rest: seq<byte>)
    ensures ((key + value) + others) + rest == key + (value + (others + rest))
  {
  }

  lemma EntriesInSteps(d: Dialect, kt: TType, vt: TType, e: Entry, more: seq<Entry>, max: nat, n: nat,
                       s0: seq<byte>, s1: seq<byte>, s2: seq<byte>, s3: seq<byte>)
    requires Decode(d, kt, s0, max) == Ok((e.key, s1)) && Decode(d, vt, s1, max) == Ok((e.value, s2))
    requires DecodeEntries(d, kt, vt, n, s2, max) == Ok((more, s3))
    ensures DecodeEntries(d, kt, vt, n + 1, s0, max) == Ok(([e] + more, s3))
  {
  }

  lemma {:induction false} RoundTripEntry(d: Dialect, e: Entry, rest: seq<byte>, max: nat)
    requires WellTyped(e.key, max) && WellTyped(e.value, max) && max <= MAX_SIZE
    ensures Decode(d, TypeOf(e.key), Encode(d, e.key) + (Encode(d, e.value) + rest), max)
            == Ok((Canon(d, e.key), Encode(d, e.value) + rest))
    ensures Decode(d, TypeOf(e.value), Encode(d, e.value) + rest, max) == Ok((Canon(d, e.value), rest))
    decreases e, 0
  {
    RoundTrip(d, e.key, Encode(d, e.value) + rest, max);
    RoundTrip(d, e.value, rest, max);
  }

  lemma {:induction false} RoundTripFields(d: Dialect, fields: seq<Field>, lastId: int16, rest: seq<byte>, max: nat)
    requires forall i :: 0 <= i < |fields| ==> WellTyped(fields[i].value, max)
    requires max <= MAX_SIZE
    ensures DecodeFields(d, EncodeFields(d, fields, lastId) + rest, lastId, max) == Ok((CanonFields(d, fields), rest))
    decreases fields
  {
    if fields == [] {
      StopRoundTrip(d, lastId, rest);
    } else {
      var f := fields[0];
      var tail := EncodeFields(d, fields[1..], f.id) + rest;
      assert EncodeFields(d, fields, lastId) + rest == EncodeField(d, f, lastId) + tail;
      RoundTripField(d, f, lastId, tail, max);
      RoundTripFields(d, fields[1..], f.id, rest, max);
    }
  }

  /** A field header followed by its value; a compact boolean is all header. */
  lemma {:induction false} RoundTripField(d: Dialect, f: Field, lastId: int16, rest: seq<byte>, max: nat)
    requires WellTyped(f.value, max) && max <= MAX_SIZE
    ensures var h := TakeFieldHeader(d, EncodeField(d, f, lastId) + rest, lastId);
            h.Ok? && h.value.0.FieldHeader? && h.value.0.id == f.id &&
            (if h.value.0.carried.Some? then Canon(d, f.value) == BoolV(h.value.0.carried.value) && h.value.1 == rest
             else Decode(d, h.value.0.t, h.value.1, max) == Ok((Canon(d, f.value), rest)))
    decreases f
  {
    if d.Compact? && f.value.BoolV? {
      FieldHeaderRoundTrip(d, BOOL, f.id, lastId, Some(f.value.b), rest);
    } else {
      var t := TypeOf(f.value);
      var tail := Encode(d, f.value) + rest;
      assert EncodeField(d, f, lastId) + rest == FieldHeaderBytes(d, t, f.id, lastId, None) + tail;
      FieldHeaderRoundTrip(d, t, f.id, lastId, None, tail);
      RoundTrip(d, f.value, rest, max);
    }
  }
}
