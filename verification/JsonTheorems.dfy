/** The JSON writer and reader move in lockstep: what is written is read back, context by context. */
module JsonTheorems {
  import opened Wrappers
  import opened WireTypes
  import opened Varint
  import opened WireTheorems
  import opened JsonText
  import opened JsonFormat

  // ---------- the text of a value ----------

  function IntBody(n: int64, c: Context): seq<byte> {
    if IsKey(c) then [QUOTE] + FormatInt(n) + [QUOTE] else FormatInt(n)
  }

  function IntText(n: int64, c: Context): seq<byte> {
    Separator(c) + IntBody(n, c)
  }

  function StringText(codec: Codec, s: seq<byte>, c: Context): seq<byte> {
    Separator(c) + codec.quote(s)
  }

  /** Values the protocol is modelled for: text the library can encode, and no doubles. */
  predicate Textual(codec: Codec, v: Value)
    decreases v
  {
    match v
    case StringV(s) => codec.valid(s)
    case DoubleV(_) => false
    case StructV(fields) => forall i :: 0 <= i < |fields| ==> Textual(codec, fields[i].value)
    case ListV(_, elems) => forall i :: 0 <= i < |elems| ==> Textual(codec, elems[i])
    case SetV(_, elems) => forall i :: 0 <= i < |elems| ==> Textual(codec, elems[i])
    case MapV(_, _, entries) =>
      forall i :: 0 <= i < |entries| ==> Textual(codec, entries[i].key) && Textual(codec, entries[i].value)
    case _ => true
  }

  function NameOf(t: TType): seq<byte> {
    if TypeName(t).Some? then TypeName(t).value else []
  }

  /** The text a value has in a context, its separator included. */
  function Text(codec: Codec, v: Value, c: Context): seq<byte>
    decreases v, 1
  {
    Separator(c) + Body(codec, v, c)
  }

  function Body(codec: Codec, v: Value, c: Context): seq<byte>
    decreases v, 0
  {
    match v
    case StringV(s) => codec.quote(s)
    case UuidV(u) => codec.quote(codec.uuidText(u))
    case StructV(fields) => StructBody(codec, fields)
    case ListV(t, elems) => ListBody(codec, t, elems)
    case SetV(t, elems) => ListBody(codec, t, elems)
    case MapV(kt, vt, entries) => MapBody(codec, kt, vt, entries)
    case DoubleV(_) => []
    case _ => IntBody(IntOf(v).value, c)
  }

  function SizeOf(n: nat): int64 {
    if FitsInt64(n) then n else 0
  }

  function StructBody(codec: Codec, fields: seq<Field>): seq<byte>
    decreases fields, 1
  {
    [LBRACE] + (FieldsText(codec, fields, ObjectFirst) + [RBRACE])
  }

  function MapBody(codec: Codec, kt: TType, vt: TType, entries: seq<Entry>): seq<byte>
    decreases entries, 1
  {
    [LBRACKET] + (StringText(codec, NameOf(kt), ListFirst) + (StringText(codec, NameOf(vt), InList) +
    (IntText(SizeOf(|entries|), InList) +
     ([COMMA, LBRACE] + (EntriesText(codec, entries, ObjectFirst) + [RBRACE, RBRACKET])))))
  }

  function ListBody(codec: Codec, t: TType, elems: seq<Value>): seq<byte>
    decreases elems, 1
  {
    [LBRACKET] + (StringText(codec, NameOf(t), ListFirst) +
    (IntText(SizeOf(|elems|), InList) + (ElemsText(codec, elems) + [RBRACKET])))
  }

  function FieldsText(codec: Codec, fields: seq<Field>, c: Context): seq<byte>
    decreases fields, 0
  {
    if fields == [] then [] else FieldText(codec, fields[0], c) + FieldsText(codec, fields[1..], NextKey)
  }

  function FieldText(codec: Codec, f: Field, c: Context): seq<byte>
    decreases f
  {
    IntText(f.id, c) +
    ([COLON, LBRACE] + (StringText(codec, NameOf(TypeOf(f.value)), ObjectFirst) +
                        (Text(codec, f.value, NextValue) + [RBRACE])))
  }

  function ElemsText(codec: Codec, elems: seq<Value>): seq<byte>
    decreases elems, 0
  {
    if elems == [] then [] else Text(codec, elems[0], InList) + ElemsText(codec, elems[1..])
  }

  function EntriesText(codec: Codec, entries: seq<Entry>, c: Context): seq<byte>
    decreases entries, 0
  {
    if entries == [] then [] else EntryText(codec, entries[0], c) + EntriesText(codec, entries[1..], NextKey)
  }

  function EntryText(codec: Codec, e: Entry, c: Context): seq<byte>
    decreases e
  {
    Text(codec, e.key, c) + Text(codec, e.value, NextValue)
  }

  // ---------- writing ----------

  /** `w` has written `text` more and its innermost context is now `c`. */
  predicate Wrote(r: Result<Writer>, out: seq<byte>, text: seq<byte>, below: seq<Context>, c: Context) {
    r == Ok(Writer(out + text, below + [c]))
  }

  lemma PopOf(below: seq<Context>, c: Context)
    ensures Pop(below + [c]) == Ok((c, below)) && Advance(below + [c]) == Ok(below + [Next(c)])
  {
  }

  lemma WroteInt(out: seq<byte>, below: seq<Context>, c: Context, n: int64)
    ensures Wrote(OutputI64(Writer(out, below + [c]), n), out, IntText(n, c), below, Next(c))
  {
    PopOf(below, c);
    Associate(out, Separator(c), IntBody(n, c));
  }

  lemma WroteString(codec: Codec, out: seq<byte>, below: seq<Context>, c: Context, s: seq<byte>)
    ensures Wrote(OutputString(codec, Writer(out, below + [c]), s), out, StringText(codec, s, c), below, Next(c))
  {
    PopOf(below, c);
    Associate(out, Separator(c), codec.quote(s));
  }

  lemma WroteBegin(out: seq<byte>, below: seq<Context>, c: Context, bracket: byte, inside: Context)
    ensures Wrote(OutputBegin(Writer(out, below + [c]), bracket, inside), out, Separator(c) + [bracket], below + [c],
                  inside)
  {
    PopOf(below, c);
    Associate(out, Separator(c), [bracket]);
  }

  lemma WroteEnd(out: seq<byte>, below: seq<Context>, c: Context, bracket: byte, inside: Context)
    ensures Wrote(OutputEnd(Writer(out, (below + [c]) + [inside]), bracket), out, [bracket], below, Next(c))
  {
    PopOf(below + [c], inside);
    PopOf(below, c);
  }

  lemma NamesInverse(t: TType)
    requires IsValueType(t)
    ensures TypeIdToString(t) == Ok(NameOf(t)) && StringToTypeId(NameOf(t)) == Ok(t)
  {
  }

  lemma NamesPlain(t: TType)
    ensures IsPlain(NameOf(t))
  {
  }

  /** The context after the fields or entries of an object. */
  function AfterItems(n: nat, c: Context): Context {
    if n == 0 then c else NextKey
  }

  lemma {:induction false} WriterEmits(codec: Codec, v: Value, out: seq<byte>, below: seq<Context>, c: Context,
                                       max: nat)
    requires WellTyped(v, max) && Textual(codec, v) && max <= MAX_SIZE
    ensures Wrote(WriteValue(codec, Writer(out, below + [c]), v), out, Text(codec, v, c), below, Next(c))
    decreases v, 2
  {
    match v {
      case StringV(s) => WroteString(codec, out, below, c, s);
      case UuidV(u) => WroteString(codec, out, below, c, codec.uuidText(u));
      case StructV(fields) => WriterEmitsStruct(codec, fields, out, below, c, max);
      case ListV(t, elems) => WriterEmitsList(codec, t, elems, out, below, c, max);
      case SetV(t, elems) => WriterEmitsList(codec, t, elems, out, below, c, max);
      case MapV(kt, vt, entries) => WriterEmitsMap(codec, kt, vt, entries, out, below, c, max);
      case BoolV(_) | ByteV(_) | I16V(_) | I32V(_) | I64V(_) => WroteInt(out, below, c, IntOf(v).value);
      case DoubleV(_) =>
    }
  }

  lemma {:induction false} WriterEmitsStruct(codec: Codec, fields: seq<Field>, out: seq<byte>, below: seq<Context>,
                                             c: Context, max: nat)
    requires forall i :: 0 <= i < |fields| ==> WellTyped(fields[i].value, max) && Textual(codec, fields[i].value)
    requires max <= MAX_SIZE
    ensures Wrote(WriteStruct(codec, Writer(out, below + [c]), fields), out, Separator(c) + StructBody(codec, fields),
                  below, Next(c))
    decreases fields, 1
  {
    var start := Separator(c) + [LBRACE];
    var items := FieldsText(codec, fields, ObjectFirst);
    WroteBegin(out, below, c, LBRACE, ObjectFirst);
    WriterEmitsFields(codec, fields, out + start, below + [c], ObjectFirst, max);
    WroteEnd(out + start + items, below, c, RBRACE, AfterItems(|fields|, ObjectFirst));
    assert out + start + items + [RBRACE] == out + (Separator(c) + ([LBRACE] + (items + [RBRACE])));
  }

  lemma {:induction false} WriterEmitsFields(codec: Codec, fields: seq<Field>, out: seq<byte>, below: seq<Context>,
                                             c: Context, max: nat)
    requires forall i :: 0 <= i < |fields| ==> WellTyped(fields[i].value, max) && Textual(codec, fields[i].value)
    requires max <= MAX_SIZE && IsKey(c)
    ensures Wrote(WriteFields(codec, Writer(out, below + [c]), fields), out, FieldsText(codec, fields, c), below,
                  AfterItems(|fields|, c))
    decreases fields, 0
  {
    if fields == [] {
      assert out + [] == out;
    } else {
      var f := fields[0];
      var first := FieldText(codec, f, c);
      WriterEmitsField(codec, f, out, below, c, max);
      WriterEmitsFields(codec, fields[1..], out + first, below, NextKey, max);
      Associate(out, first, FieldsText(codec, fields[1..], NextKey));
    }
  }

  lemma {:induction false} WriterEmitsField(codec: Codec, f: Field, out: seq<byte>, below: seq<Context>, c: Context,
                                            max: nat)
    requires WellTyped(f.value, max) && Textual(codec, f.value) && max <= MAX_SIZE && IsKey(c)
    ensures Wrote(WriteField(codec, Writer(out, below + [c]), f), out, FieldText(codec, f, c), below, NextKey)
    decreases f
  {
    var head := FieldHead(codec, TypeOf(f.value), f.id, c);
    WriterEmits(codec, f.value, out + head, below + [NextValue], NextValue, max);
    FieldFollows(codec, f, out, below, c);
  }

  /** A field is written when its value is, behind its head. */
  lemma FieldFollows(codec: Codec, f: Field, out: seq<byte>, below: seq<Context>, c: Context)
    requires IsKey(c)
    requires var at := out + FieldHead(codec, TypeOf(f.value), f.id, c);
             Wrote(WriteValue(codec, Writer(at, (below + [NextValue]) + [NextValue]), f.value), at,
                   Text(codec, f.value, NextValue), below + [NextValue], NextKey)
    ensures Wrote(WriteField(codec, Writer(out, below + [c]), f), out, FieldText(codec, f, c), below, NextKey)
  {
    var head := FieldHead(codec, TypeOf(f.value), f.id, c);
    TypeOfIsValueType(f.value);
    FieldBeginEmits(codec, TypeOf(f.value), f.id, out, below, c);
    FieldEmits(codec, f, out, below, c, head, Text(codec, f.value, NextValue));
  }

  lemma FieldEmits(codec: Codec, f: Field, out: seq<byte>, below: seq<Context>, c: Context, head: seq<byte>,
                   value: seq<byte>)
    requires head == FieldHead(codec, TypeOf(f.value), f.id, c) && value == Text(codec, f.value, NextValue)
    requires Wrote(WriteFieldBegin(codec, Writer(out, below + [c]), TypeOf(f.value), f.id), out, head,
                   below + [NextValue], NextValue)
    requires Wrote(WriteValue(codec, Writer(out + head, (below + [NextValue]) + [NextValue]), f.value), out + head,
                   value, below + [NextValue], NextKey)
    ensures Wrote(WriteField(codec, Writer(out, below + [c]), f), out, FieldText(codec, f, c), below, NextKey)
  {
    FieldJoin(codec, f, out, below, c, head, value);
    FieldTextIs(codec, f, out, c);
  }

  lemma TypeOfIsValueType(v: Value)
    ensures IsValueType(TypeOf(v))
  {
  }

  lemma FieldJoin(codec: Codec, f: Field, out: seq<byte>, below: seq<Context>, c: Context, head: seq<byte>,
                  value: seq<byte>)
    requires Wrote(WriteFieldBegin(codec, Writer(out, below + [c]), TypeOf(f.value), f.id), out, head,
                   below + [NextValue], NextValue)
    requires Wrote(WriteValue(codec, Writer(out + head, (below + [NextValue]) + [NextValue]), f.value), out + head,
                   value, below + [NextValue], NextKey)
    ensures WriteField(codec, Writer(out, below + [c]), f)
            == Ok(Writer(out + head + value + [RBRACE], below + [NextKey]))
  {
    var inside := below + [NextValue];
    WroteEnd(out + head + value, below, NextValue, RBRACE, NextKey);
    FieldInSteps(codec, f, Writer(out, below + [c]), Writer(out + head, inside + [NextValue]),
                 Writer(out + head + value, inside + [NextKey]),
                     Writer(out + head + value + [RBRACE], below + [NextKey]));
  }

  /** A field's text up to its value. */
  function FieldHead(codec: Codec, t: TType, id: int16, c: Context): seq<byte> {
    IntText(id, c) + ([COLON, LBRACE] + StringText(codec, NameOf(t), ObjectFirst))
  }

  lemma FieldTextIs(codec: Codec, f: Field, out: seq<byte>, c: Context)
    ensures out + FieldText(codec, f, c)
         == out + FieldHead(codec, TypeOf(f.value), f.id, c) + Text(codec, f.value, NextValue) + [RBRACE]
  {
    FieldNests(out, IntText(f.id, c), StringText(codec, NameOf(TypeOf(f.value)), ObjectFirst),
               Text(codec, f.value, NextValue));
  }

  lemma FieldInSteps(codec: Codec, f: Field, w0: Writer, w1: Writer, w2: Writer, w3: Writer)
    requires WriteFieldBegin(codec, w0, TypeOf(f.value), f.id) == Ok(w1)
    requires WriteValue(codec, w1, f.value) == Ok(w2) && OutputEnd(w2, RBRACE) == Ok(w3)
    ensures WriteField(codec, w0, f) == Ok(w3)
  {
  }

  lemma FieldNests(out: seq<byte>, id: seq<byte>, name: seq<byte>, value: seq<byte>)
    ensures out + (id + ([COLON, LBRACE] + name)) + value + [RBRACE]
            == out + (id + ([COLON, LBRACE] + (name + (value + [RBRACE]))))
  {
  }

  lemma FieldBeginEmits(codec: Codec, t: TType, fid: int16, out: seq<byte>, below: seq<Context>, c: Context)
    requires IsValueType(t) && IsKey(c)
    ensures Wrote(WriteFieldBegin(codec, Writer(out, below + [c]), t, fid), out,
                  FieldHead(codec, t, fid, c), below + [NextValue], NextValue)
  {
    var id, name := IntText(fid, c), StringText(codec, NameOf(t), ObjectFirst);
    var inside := below + [NextValue];
    NamesInverse(t);
    WroteInt(out, below, c, fid);
    WroteBegin(out + id, below, NextValue, LBRACE, ObjectFirst);
    ColonBrace();
    WroteString(codec, out + id + [COLON, LBRACE], inside, ObjectFirst, NameOf(t));
    FieldBeginInSteps(codec, t, fid, Writer(out, below + [c]), Writer(out + id, inside),
                      Writer(out + id + [COLON, LBRACE], inside + [ObjectFirst]),
                      Writer(out + id + [COLON, LBRACE] + name, inside + [NextValue]));
    ThreeNest(out, id, [COLON, LBRACE], name);
  }

  lemma FieldBeginInSteps(codec: Codec, t: TType, fid: int16, w0: Writer, w1: Writer, w2: Writer, w3: Writer)
    requires TypeIdToString(t).Ok? && OutputI64(w0, fid) == Ok(w1) && OutputBegin(w1, LBRACE, ObjectFirst) == Ok(w2)
    requires OutputString(codec, w2, TypeIdToString(t).value) == Ok(w3)
    ensures WriteFieldBegin(codec, w0, t, fid) == Ok(w3)
  {
  }

  lemma ColonBrace()
    ensures Separator(NextValue) + [LBRACE] == [COLON, LBRACE]
  {
  }

  lemma ThreeNest(out: seq<byte>, a: seq<byte>, b: seq<byte>, c: seq<byte>)
    ensures out + a + b + c == out + (a + (b + c))
  {
  }

  lemma ElemListBeginEmits(codec: Codec, t: TType, n: int64, out: seq<byte>, below: seq<Context>, c: Context)
    requires IsValueType(t)
    ensures Wrote(WriteElemListBegin(codec, Writer(out, below + [c]), t, n), out,
                  Separator(c) + ([LBRACKET] + (StringText(codec, NameOf(t), ListFirst) + IntText(n, InList))),
                      below + [c], InList)
  {
    var start, name, size := Separator(c) + [LBRACKET], StringText(codec, NameOf(t), ListFirst), IntText(n, InList);
    NamesInverse(t);
    WroteBegin(out, below, c, LBRACKET, ListFirst);
    WroteString(codec, out + start, below + [c], ListFirst, NameOf(t));
    WroteInt(out + start + name, below + [c], InList, n);
    ThreeNest(out, start, name, size);
    Associate(Separator(c), [LBRACKET], name + size);
  }

  lemma {:induction false} WriterEmitsList(codec: Codec, t: TType, elems: seq<Value>, out: seq<byte>,
                                           below: seq<Context>, c: Context, max: nat)
    requires IsValueType(t) && |elems| <= max <= MAX_SIZE
    requires forall i :: 0 <= i < |elems| ==> WellTyped(elems[i], max) && Textual(codec, elems[i])
    ensures Wrote(WriteList(codec, Writer(out, below + [c]), t, elems), out, Separator(c) + ListBody(codec, t, elems),
                  below, Next(c))
    decreases elems, 1
  {
    var name, size := StringText(codec, NameOf(t), ListFirst), IntText(|elems|, InList);
    var head := Separator(c) + ([LBRACKET] + (name + size));
    ElemListBeginEmits(codec, t, |elems|, out, below, c);
    WriterEmitsElems(codec, elems, out + head, below + [c], max);
    ListJoin(codec, t, elems, out, below, c, name, size, head, ElemsText(codec, elems));
  }

  lemma ListJoin(codec: Codec, t: TType, elems: seq<Value>, out: seq<byte>, below: seq<Context>, c: Context,
                 name: seq<byte>, size: seq<byte>, head: seq<byte>, items: seq<byte>)
    requires FitsInt64(|elems|) && head == Separator(c) + ([LBRACKET] + (name + size))
    requires WriteElemListBegin(codec, Writer(out, below + [c]), t, |elems|)
             == Ok(Writer(out + head, (below + [c]) + [InList]))
    requires WriteElems(codec, Writer(out + head, (below + [c]) + [InList]), elems)
             == Ok(Writer(out + head + items, (below + [c]) + [InList]))
    ensures WriteList(codec, Writer(out, below + [c]), t, elems)
         == Ok(Writer(out + (Separator(c) + ([LBRACKET] + (name + (size + (items + [RBRACKET]))))), below + [Next(c)]))
  {
    WroteEnd(out + head + items, below, c, RBRACKET, InList);
    ListNests(out, Separator(c), name, size, items);
  }

  lemma ListNests(out: seq<byte>, sep: seq<byte>, name: seq<byte>, size: seq<byte>, items: seq<byte>)
    ensures out + (sep + ([LBRACKET] + (name + size))) + items + [RBRACKET]
         == out + (sep + ([LBRACKET] + (name + (size + (items + [RBRACKET])))))
  {
  }

  lemma {:induction false} WriterEmitsElems(codec: Codec, elems: seq<Value>, out: seq<byte>, below: seq<Context>,
                                            max: nat)
    requires forall i :: 0 <= i < |elems| ==> WellTyped(elems[i], max) && Textual(codec, elems[i])
    requires max <= MAX_SIZE
    ensures Wrote(WriteElems(codec, Writer(out, below + [InList]), elems), out, ElemsText(codec, elems), below, InList)
    decreases elems, 0
  {
    if elems == [] {
      assert out + [] == out;
    } else {
      var first := Text(codec, elems[0], InList);
      WriterEmits(codec, elems[0], out, below, InList, max);
      WriterEmitsElems(codec, elems[1..], out + first, below, max);
      Associate(out, first, ElemsText(codec, elems[1..]));
    }
  }

  lemma MapBeginEmits(codec: Codec, kt: TType, vt: TType, n: int64, out: seq<byte>, below: seq<Context>, c: Context)
    requires IsValueType(kt) && IsValueType(vt)
    ensures Wrote(WriteMapBegin(codec, Writer(out, below + [c]), kt, vt, n), out,
                  MapHead(codec, kt, vt, n, c), (below + [c]) + [InList], ObjectFirst)
  {
    var start, key := Separator(c) + [LBRACKET], StringText(codec, NameOf(kt), ListFirst);
    var value, size := StringText(codec, NameOf(vt), InList), IntText(n, InList);
    NamesInverse(kt);
    NamesInverse(vt);
    WroteBegin(out, below, c, LBRACKET, ListFirst);
    WroteString(codec, out + start, below + [c], ListFirst, NameOf(kt));
    WroteString(codec, out + start + key, below + [c], InList, NameOf(vt));
    WroteInt(out + start + key + value, below + [c], InList, n);
    WroteBegin(out + start + key + value + size, below + [c], InList, LBRACE, ObjectFirst);
    MapHeadNests(out, Separator(c), key, value, size);
  }

  lemma MapHeadNests(out: seq<byte>, sep: seq<byte>, key: seq<byte>, value: seq<byte>, size: seq<byte>)
    ensures out + (sep + [LBRACKET]) + key + value + size + ([COMMA] + [LBRACE])
         == out + (sep + ([LBRACKET] + (key + (value + (size + [COMMA, LBRACE])))))
  {
    assert [COMMA] + [LBRACE] == [COMMA, LBRACE];
  }

  lemma {:induction false} WriterEmitsMap(codec: Codec, kt: TType, vt: TType, entries: seq<Entry>, out: seq<byte>,
                                          below: seq<Context>,
                                          c: Context, max: nat)
    requires IsValueType(kt) && IsValueType(vt) && |entries| <= max <= MAX_SIZE
    requires forall i :: 0 <= i < |entries| ==>
               WellTyped(entries[i].key, max) && Textual(codec, entries[i].key) &&
               WellTyped(entries[i].value, max) && Textual(codec, entries[i].value)
    ensures Wrote(WriteMap(codec, Writer(out, below + [c]), kt, vt, entries), out,
                  Separator(c) + MapBody(codec, kt, vt, entries), below, Next(c))
    decreases entries, 1
  {
    var head, items := MapHead(codec, kt, vt, |entries|, c), EntriesText(codec, entries, ObjectFirst);
    var inside := (below + [c]) + [InList];
    var last := AfterItems(|entries|, ObjectFirst);
    MapBeginEmits(codec, kt, vt, |entries|, out, below, c);
    WriterEmitsEntries(codec, entries, out + head, inside, ObjectFirst, max);
    MapEndEmits(out + head + items, below, c, last);
    MapInSteps(codec, kt, vt, entries, Writer(out, below + [c]), Writer(out + head, inside + [ObjectFirst]),
               Writer(out + head + items, inside + [last]),
               Writer(out + head + items + [RBRACE], inside),
                   Writer(out + head + items + [RBRACE] + [RBRACKET], below + [Next(c)]));
    MapTextIs(codec, kt, vt, entries, out, c);
  }

  /** A map's text up to its entries. */
  function MapHead(codec: Codec, kt: TType, vt: TType, n: int64, c: Context): seq<byte> {
    Separator(c) + ([LBRACKET] + (StringText(codec, NameOf(kt), ListFirst) + (StringText(codec, NameOf(vt), InList) +
    (IntText(n, InList) + [COMMA, LBRACE]))))
  }

  lemma MapTextIs(codec: Codec, kt: TType, vt: TType, entries: seq<Entry>, out: seq<byte>, c: Context)
    requires FitsInt64(|entries|)
    ensures out + (Separator(c) + MapBody(codec, kt, vt, entries))
         == out + MapHead(codec, kt, vt, |entries|, c) + EntriesText(codec, entries, ObjectFirst) + [RBRACE] +
             [RBRACKET]
  {
    MapNests(out, Separator(c), StringText(codec, NameOf(kt), ListFirst), StringText(codec, NameOf(vt), InList),
             IntText(|entries|, InList), EntriesText(codec, entries, ObjectFirst));
  }

  lemma MapEndEmits(out: seq<byte>, below: seq<Context>, c: Context, inside: Context)
    ensures OutputEnd(Writer(out, ((below + [c]) + [InList]) + [inside]), RBRACE)
            == Ok(Writer(out + [RBRACE], (below + [c]) + [InList]))
    ensures OutputEnd(Writer(out + [RBRACE], (below + [c]) + [InList]), RBRACKET)
            == Ok(Writer(out + [RBRACE] + [RBRACKET], below + [Next(c)]))
  {
    WroteEnd(out, below + [c], InList, RBRACE, inside);
    WroteEnd(out + [RBRACE], below, c, RBRACKET, InList);
  }

  lemma MapInSteps(codec: Codec, kt: TType, vt: TType, entries: seq<Entry>, w0: Writer, w1: Writer, w2: Writer,
                   w3: Writer, w4: Writer)
    requires FitsInt64(|entries|) && WriteMapBegin(codec, w0, kt, vt, |entries|) == Ok(w1)
    requires WriteEntries(codec, w1, entries) == Ok(w2) && OutputEnd(w2, RBRACE) == Ok(w3) &&
             OutputEnd(w3, RBRACKET) == Ok(w4)
    ensures WriteMap(codec, w0, kt, vt, entries) == Ok(w4)
  {
  }

  lemma MapNests(out: seq<byte>, sep: seq<byte>, key: seq<byte>, value: seq<byte>, size: seq<byte>, items: seq<byte>)
    ensures out + (sep + ([LBRACKET] + (key + (value + (size + [COMMA, LBRACE]))))) + items + [RBRACE] + [RBRACKET]
         == out + (sep + ([LBRACKET] + (key + (value + (size + ([COMMA, LBRACE] + (items + [RBRACE, RBRACKET])))))))
  {
    assert [RBRACE] + [RBRACKET] == [RBRACE, RBRACKET];
    assert items + [RBRACE] + [RBRACKET] == items + [RBRACE, RBRACKET];
  }

  lemma {:induction false} WriterEmitsEntries(codec: Codec, entries: seq<Entry>, out: seq<byte>, below: seq<Context>,
                                              c: Context, max: nat)
    requires forall i :: 0 <= i < |entries| ==>
               WellTyped(entries[i].key, max) && Textual(codec, entries[i].key) &&
               WellTyped(entries[i].value, max) && Textual(codec, entries[i].value)
    requires max <= MAX_SIZE && IsKey(c)
    ensures Wrote(WriteEntries(codec, Writer(out, below + [c]), entries), out, EntriesText(codec, entries, c), below,
                  AfterItems(|entries|, c))
    decreases entries, 0
  {
    if entries == [] {
      assert out + [] == out;
    } else {
      var first := EntryText(codec, entries[0], c);
      WriterEmitsEntry(codec, entries[0], out, below, c, max);
      WriterEmitsEntries(codec, entries[1..], out + first, below, NextKey, max);
      Associate(out, first, EntriesText(codec, entries[1..], NextKey));
    }
  }

  lemma {:induction false} WriterEmitsEntry(codec: Codec, e: Entry, out: seq<byte>, below: seq<Context>, c: Context,
                                            max: nat)
    requires WellTyped(e.key, max) && Textual(codec, e.key) && WellTyped(e.value, max) && Textual(codec, e.value)
    requires max <= MAX_SIZE && IsKey(c)
    ensures Wrote(WriteEntry(codec, Writer(out, below + [c]), e), out, EntryText(codec, e, c), below, NextKey)
    decreases e
  {
    var key, value := Text(codec, e.key, c), Text(codec, e.value, NextValue);
    WriterEmits(codec, e.key, out, below, c, max);
    WriterEmits(codec, e.value, out + key, below, NextValue, max);
    EntryJoin(codec, e, out, below, c, key, value);
  }

  lemma EntryJoin(codec: Codec, e: Entry, out: seq<byte>, below: seq<Context>, c: Context, key: seq<byte>,
                  value: seq<byte>)
    requires WriteValue(codec, Writer(out, below + [c]), e.key) == Ok(Writer(out + key, below + [NextValue]))
    requires WriteValue(codec, Writer(out + key, below + [NextValue]), e.value)
             == Ok(Writer(out + key + value, below + [NextKey]))
    ensures WriteEntry(codec, Writer(out, below + [c]), e) == Ok(Writer(out + (key + value), below + [NextKey]))
  {
    EntryInSteps(codec, e, Writer(out, below + [c]), Writer(out + key, below + [NextValue]),
                 Writer(out + key + value, below + [NextKey]));
    Associate(out, key, value);
  }

  lemma EntryInSteps(codec: Codec, e: Entry, w0: Writer, w1: Writer, w2: Writer)
    requires WriteValue(codec, w0, e.key) == Ok(w1) && WriteValue(codec, w1, e.value) == Ok(w2)
    ensures WriteEntry(codec, w0, e) == Ok(w2)
  {
  }
}
