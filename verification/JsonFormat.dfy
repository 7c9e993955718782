/**
 The JSON protocol as functions: a writer and a reader that each keep a stack of contexts, which say
 whether a comma, a colon or nothing separates the next value.
 */
module JsonFormat {
  import opened Wrappers
  import opened WireTypes
  import opened Varint
  import opened WireFormat
  import opened JsonText

  datatype Context = TopLevel | ListFirst | InList | ObjectFirst | NextKey | NextValue

  datatype Writer = Writer(out: seq<byte>, stack: seq<Context>)
  datatype Reader = Reader(input: seq<byte>, stack: seq<Context>)

  const VOID: TType := 1

  /** How a context moves on when a value has been written or read in it. */
  function Next(c: Context): Context {
    match c
    case TopLevel => TopLevel
    case ListFirst => InList
    case InList => InList
    case ObjectFirst => NextValue
    case NextKey => NextValue
    case NextValue => NextKey
  }

  function Separator(c: Context): seq<byte> {
    match c
    case InList => [COMMA]
    case NextKey => [COMMA]
    case NextValue => [COLON]
    case _ => []
  }

  /** In key position numbers are quoted. */
  predicate IsKey(c: Context) {
    c == ObjectFirst || c == NextKey
  }

  function Pop(stack: seq<Context>): Result<(Context, seq<Context>)> {
    if stack == [] then Err(InvalidData) else Ok((stack[|stack| - 1], stack[..|stack| - 1]))
  }

  function Advance(stack: seq<Context>): Result<seq<Context>> {
    var (c, below) :- Pop(stack);
    Ok(below + [Next(c)])
  }

  // ---------- writing ----------

  function OutputPreValue(w: Writer): Result<Writer> {
    var (c, _) :- Pop(w.stack);
    Ok(w.(out := w.out + Separator(c)))
  }

  function OutputPostValue(w: Writer): Result<Writer> {
    var stack :- Advance(w.stack);
    Ok(w.(stack := stack))
  }

  function Emit(w: Writer, text: seq<byte>): Writer {
    w.(out := w.out + text)
  }

  function OutputI64(w: Writer, n: int64): Result<Writer> {
    var w :- OutputPreValue(w);
    var (c, _) :- Pop(w.stack);
    OutputPostValue(Emit(w, if IsKey(c) then [QUOTE] + FormatInt(n) + [QUOTE] else FormatInt(n)))
  }

  function OutputString(codec: Codec, w: Writer, s: seq<byte>): Result<Writer> {
    var w :- OutputPreValue(w);
    OutputPostValue(Emit(w, codec.quote(s)))
  }

  function OutputBegin(w: Writer, bracket: byte, inside: Context): Result<Writer> {
    var w :- OutputPreValue(w);
    Ok(Writer(w.out + [bracket], w.stack + [inside]))
  }

  function OutputEnd(w: Writer, bracket: byte): Result<Writer> {
    var w := Emit(w, [bracket]);
    var (_, below) :- Pop(w.stack);
    OutputPostValue(w.(stack := below))
  }

  function TypeName(t: TType): Option<seq<byte>> {
    if t == BOOL then Some([0x74, 0x66])
    else if t == BYTE then Some([0x69, 0x38])
    else if t == I16 then Some([0x69, 0x31, 0x36])
    else if t == I32 then Some([0x69, 0x33, 0x32])
    else if t == I64 then Some([0x69, 0x36, 0x34])
    else if t == DOUBLE then Some([0x64, 0x62, 0x6c])
    else if t == STRING then Some([0x73, 0x74, 0x72])
    else if t == STRUCT then Some([0x72, 0x65, 0x63])
    else if t == MAP then Some([0x6d, 0x61, 0x70])
    else if t == SET then Some([0x73, 0x65, 0x74])
    else if t == LIST then Some([0x6c, 0x73, 0x74])
    else if t == UUID then Some([0x75, 0x69, 0x64])
    else None
  }

  function TypeIdToString(t: TType): Result<seq<byte>> {
    if TypeName(t).Some? then Ok(TypeName(t).value) else Err(InvalidData)
  }

  function StringToTypeId(s: seq<byte>): Result<TType> {
    if s == [0x74, 0x66] then Ok(BOOL)
    else if s == [0x69, 0x38] then Ok(BYTE)
    else if s == [0x69, 0x31, 0x36] then Ok(I16)
    else if s == [0x69, 0x33, 0x32] then Ok(I32)
    else if s == [0x69, 0x36, 0x34] then Ok(I64)
    else if s == [0x64, 0x62, 0x6c] then Ok(DOUBLE)
    else if s == [0x73, 0x74, 0x72] then Ok(STRING)
    else if s == [0x72, 0x65, 0x63] then Ok(STRUCT)
    else if s == [0x6d, 0x61, 0x70] then Ok(MAP)
    else if s == [0x73, 0x65, 0x74] then Ok(SET)
    else if s == [0x6c, 0x73, 0x74] then Ok(LIST)
    else if s == [0x75, 0x69, 0x64] then Ok(UUID)
    else Err(InvalidData)
  }

  function WriteElemListBegin(codec: Codec, w: Writer, t: TType, size: int64): Result<Writer> {
    var w :- OutputBegin(w, LBRACKET, ListFirst);
    var name :- TypeIdToString(t);
    var w :- OutputString(codec, w, name);
    OutputI64(w, size)
  }

  function WriteFieldBegin(codec: Codec, w: Writer, t: TType, id: int16): Result<Writer> {
    var w :- OutputI64(w, id);
    var w :- OutputBegin(w, LBRACE, ObjectFirst);
    var name :- TypeIdToString(t);
    OutputString(codec, w, name)
  }

  function WriteMapBegin(codec: Codec, w: Writer, kt: TType, vt: TType, size: int64): Result<Writer> {
    var w :- OutputBegin(w, LBRACKET, ListFirst);
    var name :- TypeIdToString(kt);
    var w :- OutputString(codec, w, name);
    var name :- TypeIdToString(vt);
    var w :- OutputString(codec, w, name);
    var w :- OutputI64(w, size);
    OutputBegin(w, LBRACE, ObjectFirst)
  }

  /** The number a value of an integral type is written as. */
  function IntOf(v: Value): Option<int64> {
    match v
    case BoolV(b) => Some(if b then 1 else 0)
    case ByteV(i) => Some(i)
    case I16V(i) => Some(i)
    case I32V(i) => Some(i)
    case I64V(i) => Some(i)
    case _ => None
  }

  predicate FitsInt64(n: nat) {
    n <= MAX_INT64
  }

  /** Writes a value; doubles are not modelled. */
  function WriteValue(codec: Codec, w: Writer, v: Value): Result<Writer>
    decreases v
  {
    match v
    case StringV(s) => OutputString(codec, w, s)
    case UuidV(u) => OutputString(codec, w, codec.uuidText(u))
    case StructV(fields) => WriteStruct(codec, w, fields)
    case ListV(t, elems) => WriteList(codec, w, t, elems)
    case SetV(t, elems) => WriteList(codec, w, t, elems)
    case MapV(kt, vt, entries) => WriteMap(codec, w, kt, vt, entries)
    case DoubleV(_) => Err(NotImplemented)
    case _ => OutputI64(w, IntOf(v).value)
  }

  function WriteStruct(codec: Codec, w: Writer, fields: seq<Field>): Result<Writer>
    decreases fields, 1
  {
    var w :- OutputBegin(w, LBRACE, ObjectFirst);
    var w :- WriteFields(codec, w, fields);
    OutputEnd(w, RBRACE)
  }

  function WriteMap(codec: Codec, w: Writer, kt: TType, vt: TType, entries: seq<Entry>): Result<Writer>
    decreases entries, 1
  {
    if !FitsInt64(|entries|) then Err(NotImplemented)
    else
      var w :- WriteMapBegin(codec, w, kt, vt, |entries|);
      var w :- WriteEntries(codec, w, entries);
      var w :- OutputEnd(w, RBRACE);
      OutputEnd(w, RBRACKET)
  }

  function WriteList(codec: Codec, w: Writer, t: TType, elems: seq<Value>): Result<Writer>
    decreases elems, 1
  {
    if !FitsInt64(|elems|) then Err(NotImplemented)
    else
      var w :- WriteElemListBegin(codec, w, t, |elems|);
      var w :- WriteElems(codec, w, elems);
      OutputEnd(w, RBRACKET)
  }

  function WriteFields(codec: Codec, w: Writer, fields: seq<Field>): Result<Writer>
    decreases fields, 0
  {
    if fields == [] then Ok(w)
    else
      var w :- WriteField(codec, w, fields[0]);
      WriteFields(codec, w, fields[1..])
  }

  function WriteField(codec: Codec, w: Writer, f: Field): Result<Writer>
    decreases f
  {
    var w :- WriteFieldBegin(codec, w, TypeOf(f.value), f.id);
    var w :- WriteValue(codec, w, f.value);
    OutputEnd(w, RBRACE)
  }

  function WriteElems(codec: Codec, w: Writer, elems: seq<Value>): Result<Writer>
    decreases elems, 0
  {
    if elems == [] then Ok(w)
    else
      var w :- WriteValue(codec, w, elems[0]);
      WriteElems(codec, w, elems[1..])
  }

  function WriteEntries(codec: Codec, w: Writer, entries: seq<Entry>): Result<Writer>
    decreases entries, 0
  {
    if entries == [] then Ok(w)
    else
      var w :- WriteEntry(codec, w, entries[0]);
      WriteEntries(codec, w, entries[1..])
  }

  function WriteEntry(codec: Codec, w: Writer, e: Entry): Result<Writer>
    decreases e
  {
    var w :- WriteValue(codec, w, e.key);
    WriteValue(codec, w, e.value)
  }

  const VERSION: int64 := 1

  datatype Message = Message(name: seq<byte>, typeId: int32, seqId: int32)

  /** A message is a list at top level, whatever the stack held before. */
  function WriteMessageBegin(codec: Codec, w: Writer, m: Message): Result<Writer> {
    var w :- OutputBegin(w.(stack := [TopLevel]), LBRACKET, ListFirst);
    var w :- OutputI64(w, VERSION);
    var w :- OutputString(codec, w, m.name);
    var w :- OutputI64(w, ToInt8(m.typeId));
    OutputI64(w, m.seqId)
  }

  // ---------- reading ----------

  function AfterSeparator(s: seq<byte>, separator: byte, end: Option<byte>): (r: Result<seq<byte>>)
    ensures r.Ok? ==> |r.value| <= |s|
  {
    if s == [] then Ok(s)
    else if s[0] == separator then Ok(SkipSpace(s[1..]))
    else if end == Some(s[0]) then Ok(s)
    else Err(InvalidData)
  }

  function ParsePreValue(r: Reader): (p: Result<Reader>)
    ensures p.Ok? ==> |p.value.input| <= |r.input| && p.value.stack == r.stack
  {
    var s := SkipSpace(r.input);
    var (c, _) :- Pop(r.stack);
    var s :- match c
             case InList => AfterSeparator(s, COMMA, Some(RBRACKET))
             case NextKey => AfterSeparator(s, COMMA, Some(RBRACE))
             case NextValue => AfterSeparator(s, COLON, None)
             case _ => Ok(s);
    Ok(r.(input := s))
  }

  function ParsePostValue(r: Reader): (p: Result<Reader>)
    ensures p.Ok? ==> |p.value.input| <= |r.input|
  {
    var stack :- Advance(r.stack);
    Ok(Reader(SkipSpace(r.input), stack))
  }

  predicate HasNull(s: seq<byte>) {
    NULL <= s
  }

  /** Skips white space, and a null if one follows. */
  function ReadIfNull(s: seq<byte>): (r: (bool, seq<byte>))
    ensures |r.1| <= |s| && (r.0 ==> |r.1| < |s|)
  {
    var s := SkipSpace(s);
    if HasNull(s) then (true, s[4..]) else (false, s)
  }

  function Int64(codec: Codec, n: Numeric): int64 {
    match n
    case Number(chars) => ParseInt(chars)
    case Named(special) => codec.special(special)
  }

  function ParseI64(codec: Codec, r: Reader): (p: Result<(int64, Reader)>)
    ensures p.Ok? ==> |p.value.1.input| < |r.input|
  {
    var r :- ParsePreValue(r);
    if HasNull(r.input) then
      var r :- ParsePostValue(r.(input := r.input[4..]));
      Ok((0, r))
    else
      var (n, rest) :- ScanNumber(r.input, START);
      ScanConsumes(r.input, START);
      var r :- ParsePostValue(r.(input := rest));
      Ok((Int64(codec, n), r))
  }

  function ReadString(codec: Codec, r: Reader): (p: Result<(seq<byte>, Reader)>)
    ensures p.Ok? ==> |p.value.1.input| < |r.input|
  {
    var r :- ParsePreValue(r);
    var s := r.input;
    if s != [] && s[0] == QUOTE then
      var (text, rest) :- StringBody(codec, s[1..]);
      var r :- ParsePostValue(r.(input := rest));
      Ok((text, r))
    else if s != [] && s[0] == NULL[0] && HasNull(s) then
      var r :- ParsePostValue(r.(input := s[4..]));
      Ok(([], r))
    else Err(InvalidData)
  }

  function ReadUuid(codec: Codec, r: Reader): (p: Result<(seq<byte>, Reader)>)
    ensures p.Ok? ==> |p.value.1.input| < |r.input|
  {
    var (text, r) :- ReadString(codec, r);
    var u := codec.parseUuid(text);
    if u.None? then Err(InvalidData) else Ok((u.value, r))
  }

  /** The start of an object or a list; a null is noticed but left for the end to read. */
  function ParseBegin(r: Reader, bracket: byte, inside: Context): (p: Result<(bool, Reader)>)
    ensures p.Ok? ==> |p.value.1.input| <= |r.input| && (p.value.0 || |p.value.1.input| < |r.input|)
  {
    var r :- ParsePreValue(r);
    if r.input == [] then Err(EndOfFile)
    else if r.input[0] == bracket then Ok((false, Reader(r.input[1..], r.stack + [inside])))
    else if HasNull(r.input) then Ok((true, r))
    else Err(InvalidData)
  }

  predicate SpaceUpTo(line: seq<byte>, bracket: byte) {
    forall i :: 0 <= i < |line| ==> IsSpace(line[i]) || line[i] == bracket
  }

  /** Reads up to the closing bracket and gives what follows, or notices a null instead. */
  function ParseClose(r: Reader, bracket: byte, inside: set<Context>): (p: Result<(bool, Reader)>)
    ensures p.Ok? ==> |p.value.1.input| < |r.input|
  {
    var (isNull, s) := ReadIfNull(r.input);
    if isNull then Ok((true, r.(input := s)))
    else if r.stack == [] || r.stack[|r.stack| - 1] !in inside then Err(InvalidData)
    else
      var (line, rest) :- ReadUntil(s, bracket);
      if !SpaceUpTo(line, bracket) then Err(InvalidData)
      else
        assert |line| + |rest| == |s|;
        Ok((false, Reader(rest, r.stack[..|r.stack| - 1])))
  }

  function ParseObjectEnd(r: Reader): (p: Result<Reader>)
    ensures p.Ok? ==> |p.value.input| < |r.input|
  {
    var (isNull, r) :- ParseClose(r, RBRACE, {ObjectFirst, NextKey});
    if isNull then Ok(r) else ParsePostValue(r)
  }

  /** At top level what follows the list is not looked at. */
  function ParseListEnd(r: Reader): (p: Result<Reader>)
    ensures p.Ok? ==> |p.value.input| < |r.input|
  {
    var (isNull, r) :- ParseClose(r, RBRACKET, {InList});
    if isNull then Ok(r)
    else
      var (c, _) :- Pop(r.stack);
      if c == TopLevel then Ok(r) else ParsePostValue(r)
  }

  /** The size is checked as 32 bits and used as 64. */
  function ReadSize(codec: Codec, r: Reader, max: nat): (p: Result<(int64, Reader)>)
    ensures p.Ok? ==> |p.value.1.input| < |r.input|
  {
    var (n, r) :- ParseI64(codec, r);
    var _ :- CheckSize(ToInt32(n), max);
    Ok((n, r))
  }

  function ReadType(codec: Codec, r: Reader): (p: Result<(TType, Reader)>)
    ensures p.Ok? ==> |p.value.1.input| < |r.input|
  {
    var (name, r) :- ReadString(codec, r);
    var t :- StringToTypeId(name);
    Ok((t, r))
  }

  function ReadElemListBegin(codec: Codec, r: Reader, max: nat): (p: Result<(TType, int64, Reader)>)
    ensures p.Ok? ==> |p.value.2.input| <= |r.input| && (p.value.1 == 0 || |p.value.2.input| < |r.input|)
  {
    var (isNull, r) :- ParseBegin(r, LBRACKET, ListFirst);
    if isNull then Ok((VOID, 0, r))
    else
      var (t, r) :- ReadType(codec, r);
      var (n, r) :- ReadSize(codec, r, max);
      Ok((t, n, r))
  }

  function ReadMapBegin(codec: Codec, r: Reader, max: nat): (p: Result<(TType, TType, int64, Reader)>)
    ensures p.Ok? ==> |p.value.3.input| <= |r.input| && (p.value.2 == 0 || |p.value.3.input| < |r.input|)
  {
    var (isNull, r) :- ParseBegin(r, LBRACKET, ListFirst);
    if isNull then Ok((VOID, VOID, 0, r))
    else
      var (kt, r) :- ReadType(codec, r);
      var (vt, r) :- ReadType(codec, r);
      var (n, r) :- ReadSize(codec, r, max);
      var (_, r) :- ParseBegin(r, LBRACE, ObjectFirst);
      Ok((kt, vt, n, r))
  }

  function ReadFieldBegin(codec: Codec, r: Reader): (p: Result<(TType, int16, Reader)>)
    ensures p.Ok? ==> |p.value.2.input| <= |r.input| && (p.value.0 != STOP ==> |p.value.2.input| < |r.input|)
  {
    if r.input == [] || r.input[0] == RBRACE || r.input[0] == RBRACKET then Ok((STOP, -1, r))
    else
      var (id, r) :- ParseI64(codec, r);
      var (_, r) :- ParseBegin(r, LBRACE, ObjectFirst);
      var (t, r) :- ReadType(codec, r);
      Ok((t, ToInt16(id), r))
  }

  predicate IsIntType(t: TType) {
    t == BOOL || t == BYTE || t == I16 || t == I32 || t == I64
  }

  function IntValue(t: TType, n: int64): Value
    requires IsIntType(t)
  {
    if t == BOOL then BoolV(ToInt32(n) != 0)
    else if t == BYTE then ByteV(ToInt8(n))
    else if t == I16 then I16V(ToInt16(n))
    else if t == I32 then I32V(ToInt32(n))
    else I64V(n)
  }

  /** Reads a value of a type found on the wire. */
  function ReadValue(codec: Codec, t: TType, r: Reader, max: nat): (p: Result<(Value, Reader)>)
    ensures p.Ok? ==> |p.value.1.input| < |r.input|
    decreases |r.input|, 1, 0
  {
    if IsIntType(t) then
      var (n, r) :- ParseI64(codec, r);
      Ok((IntValue(t, n), r))
    else if t == STRING then
      var (s, r) :- ReadString(codec, r);
      Ok((StringV(s), r))
    else if t == UUID then
      var (u, r) :- ReadUuid(codec, r);
      Ok((UuidV(u), r))
    else if t == STRUCT then ReadStruct(codec, r, max)
    else if t == LIST || t == SET then ReadList(codec, t, r, max)
    else if t == MAP then ReadMap(codec, r, max)
    else Err(NotImplemented)
  }

  function ReadStruct(codec: Codec, r: Reader, max: nat): (p: Result<(Value, Reader)>)
    ensures p.Ok? ==> |p.value.1.input| < |r.input|
    decreases |r.input|, 0, 1
  {
    var (_, r1) :- ParseBegin(r, LBRACE, ObjectFirst);
    var (fields, r2) :- ReadFields(codec, r1, max);
    var r3 :- ParseObjectEnd(r2);
    Ok((StructV(fields), r3))
  }

  function ReadList(codec: Codec, t: TType, r: Reader, max: nat): (p: Result<(Value, Reader)>)
    ensures p.Ok? ==> |p.value.1.input| < |r.input|
    decreases |r.input|, 0, 1
  {
    var (et, n, r1) :- ReadElemListBegin(codec, r, max);
    var (elems, r2) :- ReadElems(codec, et, n, r1, max);
    var r3 :- ParseListEnd(r2);
    Ok((if t == LIST then ListV(et, elems) else SetV(et, elems), r3))
  }

  function ReadMap(codec: Codec, r: Reader, max: nat): (p: Result<(Value, Reader)>)
    ensures p.Ok? ==> |p.value.1.input| < |r.input|
    decreases |r.input|, 0, 1
  {
    var (kt, vt, n, r1) :- ReadMapBegin(codec, r, max);
    var (entries, r2) :- ReadEntries(codec, kt, vt, n, r1, max);
    var r3 :- ParseObjectEnd(r2);
    var r4 :- ParseListEnd(r3);
    Ok((MapV(kt, vt, entries), r4))
  }

  function ReadFields(codec: Codec, r: Reader, max: nat): (p: Result<(seq<Field>, Reader)>)
    ensures p.Ok? ==> |p.value.1.input| <= |r.input|
    decreases |r.input|, 0, 0
  {
    var (t, id, r1) :- ReadFieldBegin(codec, r);
    if t == STOP then Ok(([], r1))
    else
      var (v, r2) :- ReadValue(codec, t, r1, max);
      var r3 :- ParseObjectEnd(r2);
      var (more, r4) :- ReadFields(codec, r3, max);
      Ok(([Field(id, v)] + more, r4))
  }

  function ReadElems(codec: Codec, t: TType, n: int, r: Reader, max: nat): (p: Result<(seq<Value>, Reader)>)
    ensures p.Ok? ==> |p.value.1.input| <= |r.input|
    decreases |r.input|, if n > 0 then 2 else 0, 0
  {
    if n <= 0 then Ok(([], r))
    else
      var (v, r) :- ReadValue(codec, t, r, max);
      var (more, r) :- ReadElems(codec, t, n - 1, r, max);
      Ok(([v] + more, r))
  }

  function ReadEntries(codec: Codec, kt: TType, vt: TType, n: int, r: Reader,
                       max: nat): (p: Result<(seq<Entry>, Reader)>)
    ensures p.Ok? ==> |p.value.1.input| <= |r.input|
    decreases |r.input|, if n > 0 then 2 else 0, 0
  {
    if n <= 0 then Ok(([], r))
    else
      var (k, r) :- ReadValue(codec, kt, r, max);
      var (v, r) :- ReadValue(codec, vt, r, max);
      var (more, r) :- ReadEntries(codec, kt, vt, n - 1, r, max);
      Ok(([Entry(k, v)] + more, r))
  }

  function ReadMessageBegin(codec: Codec, r: Reader): Result<(Message, Reader)> {
    var (isNull, r) :- ParseBegin(r.(stack := [TopLevel]), LBRACKET, ListFirst);
    if isNull then Ok((Message([], 0, 0), r))
    else
      var (version, r) :- ParseI64(codec, r);
      if ToInt32(version) != VERSION then Err(InvalidData) else ReadMessageRest(codec, r)
  }

  function ReadMessageRest(codec: Codec, r: Reader): Result<(Message, Reader)> {
    var (name, r) :- ReadString(codec, r);
    var (typeId, r) :- ParseI64(codec, r);
    var (seqId, r) :- ParseI64(codec, r);
    Ok((Message(name, ToInt8(typeId), ToInt32(seqId)), r))
  }

  /** A message with one value as its body, from beginning to end. */
  function WriteMessage(codec: Codec, w: Writer, m: Message, v: Value): Result<Writer> {
    var w :- WriteMessageBegin(codec, w, m);
    var w :- WriteValue(codec, w, v);
    OutputEnd(w, RBRACKET)
  }

  function ReadMessage(codec: Codec, t: TType, r: Reader, max: nat): Result<(Message, Value, Reader)> {
    var (m, r) :- ReadMessageBegin(codec, r);
    var (v, r) :- ReadValue(codec, t, r, max);
    var r :- ParseListEnd(r);
    Ok((m, v, r))
  }
}
