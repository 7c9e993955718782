/** Reading back what the JSON writer wrote. */
module JsonRoundTrip {
  import opened Wrappers
  import opened WireTypes
  import opened Varint
  import opened WireFormat
  import opened WireTheorems
  import opened JsonText
  import opened JsonFormat
  import opened JsonTheorems

  /** What follows a value inside a larger one: a separator, a closing bracket, or the end. */
  predicate Clean(rest: seq<byte>) {
    rest == [] || rest[0] == COMMA || rest[0] == COLON || rest[0] == RBRACE || rest[0] == RBRACKET
  }

  /** The first character of a value: not white space, not one that `null` begins with. */
  predicate Begins(body: seq<byte>) {
    body != [] && !IsSpace(body[0]) && body[0] != NULL[0]
  }

  lemma PreParsed(below: seq<Context>, c: Context, body: seq<byte>)
    requires Begins(body)
    ensures ParsePreValue(Reader(Separator(c) + body, below + [c])) == Ok(Reader(body, below + [c]))
  {
    PopOf(below, c);
    var s := Separator(c) + body;
    if Separator(c) == [] {
      assert s == body;
    } else {
      assert s[0] == Separator(c)[0] && s[1..] == body;
    }
  }

  lemma PostParsed(below: seq<Context>, c: Context, rest: seq<byte>)
    requires Clean(rest)
    ensures ParsePostValue(Reader(rest, below + [c])) == Ok(Reader(rest, below + [Next(c)]))
  {
    PopOf(below, c);
  }

  lemma CleanDelimits(rest: seq<byte>)
    requires Clean(rest)
    ensures Delimited(rest)
  {
  }

  lemma IntBodyScans(n: int64, c: Context, rest: seq<byte>)
    requires Clean(rest)
    ensures Begins(IntBody(n, c) + rest) && !HasNull(IntBody(n, c) + rest)
    ensures ScanNumber(IntBody(n, c) + rest, START) == Ok((Number(FormatInt(n)), rest))
  {
    CleanDelimits(rest);
    FormatIntPlain(n);
    assert PlainChar(FormatInt(n)[0]);
    if IsKey(c) {
      ScanQuoted(n, rest);
    } else {
      FirstOfInt(n);
      ScanPlain(n, rest);
    }
  }

  lemma FirstOfInt(n: int)
    ensures FormatInt(n)[0] == MINUS || IsDigit(FormatInt(n)[0])
  {
  }

  lemma IntRead(codec: Codec, n: int64, below: seq<Context>, c: Context, rest: seq<byte>)
    requires Clean(rest)
    ensures ParseI64(codec, Reader(IntText(n, c) + rest, below + [c])) == Ok((n, Reader(rest, below + [Next(c)])))
  {
    var body := IntBody(n, c) + rest;
    IntBodyScans(n, c, rest);
    Associate(Separator(c), IntBody(n, c), rest);
    PreParsed(below, c, body);
    IntRoundTrip(n);
    PostParsed(below, c, rest);
  }

  lemma StringRead(codec: Codec, s: seq<byte>, below: seq<Context>, c: Context, rest: seq<byte>)
    requires LawfulCodec(codec) && codec.valid(s) && Clean(rest)
    ensures ReadString(codec, Reader(StringText(codec, s, c) + rest, below + [c]))
            == Ok((s, Reader(rest, below + [Next(c)])))
  {
    StringBodyRoundTrip(codec, s, rest);
    QuotedRead(codec, codec.quote(s), s, below, c, rest);
  }

  lemma QuotedRead(codec: Codec, q: seq<byte>, s: seq<byte>, below: seq<Context>, c: Context, rest: seq<byte>)
    requires q != [] && q[0] == QUOTE && StringBody(codec, q[1..] + rest) == Ok((s, rest)) && Clean(rest)
    ensures ReadString(codec, Reader(Separator(c) + q + rest, below + [c])) == Ok((s, Reader(rest, below + [Next(c)])))
  {
    Associate(Separator(c), q, rest);
    assert (q + rest)[1..] == q[1..] + rest;
    PreParsed(below, c, q + rest);
    PostParsed(below, c, rest);
  }

  lemma NameIsValid(codec: Codec, t: TType)
    requires LawfulCodec(codec)
    ensures codec.valid(NameOf(t))
  {
    NamesPlain(t);
  }

  lemma TypeRead(codec: Codec, t: TType, below: seq<Context>, c: Context, rest: seq<byte>)
    requires LawfulCodec(codec) && IsValueType(t) && Clean(rest)
    ensures ReadType(codec, Reader(StringText(codec, NameOf(t), c) + rest, below + [c]))
            == Ok((t, Reader(rest, below + [Next(c)])))
  {
    NameIsValid(codec, t);
    StringRead(codec, NameOf(t), below, c, rest);
    NamesInverse(t);
  }

  lemma BeginRead(below: seq<Context>, c: Context, bracket: byte, inside: Context, rest: seq<byte>)
    requires bracket == LBRACE || bracket == LBRACKET
    ensures ParseBegin(Reader(Separator(c) + ([bracket] + rest), below + [c]), bracket, inside)
         == Ok((false, Reader(rest, (below + [c]) + [inside])))
  {
    PreParsed(below, c, [bracket] + rest);
    assert ([bracket] + rest)[1..] == rest;
  }

  lemma CloseRead(stack: seq<Context>, bracket: byte, inside: Context, among: set<Context>, rest: seq<byte>)
    requires (bracket == RBRACE || bracket == RBRACKET) && inside in among
    ensures ParseClose(Reader([bracket] + rest, stack + [inside]), bracket, among) == Ok((false, Reader(rest, stack)))
  {
    var s := [bracket] + rest;
    assert s[0] == bracket && s[1..] == rest && !HasNull(s);
    assert ReadIfNull(s) == (false, s);
    assert ReadUntil(s, bracket) == Ok(([bracket], rest));
    assert (stack + [inside])[..|stack|] == stack;
  }

  lemma ObjectEndRead(below: seq<Context>, c: Context, inside: Context, rest: seq<byte>)
    requires IsKey(inside) && Clean(rest)
    ensures ParseObjectEnd(Reader([RBRACE] + rest, (below + [c]) + [inside])) == Ok(Reader(rest, below + [Next(c)]))
  {
    CloseRead(below + [c], RBRACE, inside, {ObjectFirst, NextKey}, rest);
    PostParsed(below, c, rest);
  }

  /** At top level anything may follow. */
  lemma ListEndRead(below: seq<Context>, c: Context, rest: seq<byte>)
    requires c == TopLevel || Clean(rest)
    ensures ParseListEnd(Reader([RBRACKET] + rest, (below + [c]) + [InList])) == Ok(Reader(rest, below + [Next(c)]))
  {
    CloseRead(below + [c], RBRACKET, InList, {InList}, rest);
    PopOf(below, c);
    if c != TopLevel {
      PostParsed(below, c, rest);
    }
  }

  lemma SizeRead(codec: Codec, n: nat, below: seq<Context>, c: Context, rest: seq<byte>, max: nat)
    requires n <= max <= MAX_SIZE && Clean(rest)
    ensures ReadSize(codec, Reader(IntText(SizeOf(n), c) + rest, below + [c]), max)
            == Ok((n, Reader(rest, below + [Next(c)])))
  {
    IntRead(codec, n, below, c, rest);
  }

  lemma ElemListBeginRead(codec: Codec, t: TType, n: nat, below: seq<Context>, c: Context, rest: seq<byte>, max: nat)
    requires LawfulCodec(codec) && IsValueType(t) && n <= max <= MAX_SIZE && Clean(rest)
    ensures var text := Separator(c) +
            ([LBRACKET] + (StringText(codec, NameOf(t), ListFirst) + (IntText(SizeOf(n), InList) + rest)));
            ReadElemListBegin(codec, Reader(text, below + [c]), max)
                == Ok((t, n, Reader(rest, (below + [c]) + [InList])))
  {
    var size := IntText(SizeOf(n), InList) + rest;
    BeginRead(below, c, LBRACKET, ListFirst, StringText(codec, NameOf(t), ListFirst) + size);
    assert size[0] == COMMA;
    TypeRead(codec, t, below + [c], ListFirst, size);
    SizeRead(codec, n, below + [c], InList, rest, max);
  }

  lemma MapBeginRead(codec: Codec, kt: TType, vt: TType, n: nat, below: seq<Context>, c: Context, rest: seq<byte>,
                     max: nat)
    requires LawfulCodec(codec) && IsValueType(kt) && IsValueType(vt) && n <= max <= MAX_SIZE
    ensures var text := Separator(c) +
            ([LBRACKET] + (StringText(codec, NameOf(kt), ListFirst) + (StringText(codec, NameOf(vt), InList) +
                        (IntText(SizeOf(n), InList) + ([COMMA, LBRACE] + rest)))));
            ReadMapBegin(codec, Reader(text, below + [c]), max)
                == Ok((kt, vt, n, Reader(rest, ((below + [c]) + [InList]) + [ObjectFirst])))
  {
    var obj := [COMMA, LBRACE] + rest;
    var size := IntText(SizeOf(n), InList) + obj;
    var value := StringText(codec, NameOf(vt), InList) + size;
    var key := StringText(codec, NameOf(kt), ListFirst) + value;
    var inside := below + [c];
    CommaFirst(codec.quote(NameOf(vt)), size);
    CommaFirst(IntBody(SizeOf(n), InList), obj);
    BeginRead(below, c, LBRACKET, ListFirst, key);
    TypeRead(codec, kt, inside, ListFirst, value);
    TypeRead(codec, vt, inside, InList, size);
    SizeRead(codec, n, inside, InList, obj, max);
    ObjectOpens(inside, InList, COMMA, rest);
    MapBeginInSteps(codec, kt, vt, n, max, Reader(Separator(c) + ([LBRACKET] + key), inside),
                    Reader(key, inside + [ListFirst]),
                    Reader(value, inside + [InList]), Reader(size, inside + [InList]), Reader(obj, inside + [InList]),
                    Reader(rest, (inside + [InList]) + [ObjectFirst]));
  }

  lemma CommaFirst(body: seq<byte>, rest: seq<byte>)
    ensures Clean(Separator(InList) + body + rest)
  {
  }

  lemma MapBeginInSteps(codec: Codec, kt: TType, vt: TType, n: int64, max: nat,
                        r0: Reader, r1: Reader, r2: Reader, r3: Reader, r4: Reader, r5: Reader)
    requires ParseBegin(r0, LBRACKET, ListFirst) == Ok((false, r1)) && ReadType(codec, r1) == Ok((kt, r2))
    requires ReadType(codec, r2) == Ok((vt, r3)) && ReadSize(codec, r3, max) == Ok((n, r4))
    requires ParseBegin(r4, LBRACE, ObjectFirst) == Ok((false, r5))
    ensures ReadMapBegin(codec, r0, max) == Ok((kt, vt, n, r5))
  {
  }

  lemma FieldBeginRead(codec: Codec, t: TType, id: int16, below: seq<Context>, c: Context, rest: seq<byte>)
    requires LawfulCodec(codec) && IsValueType(t) && IsKey(c) && Clean(rest)
    ensures var text := IntText(id, c) + ([COLON, LBRACE] + (StringText(codec, NameOf(t), ObjectFirst) + rest));
            ReadFieldBegin(codec, Reader(text, below + [c]))
                == Ok((t, id, Reader(rest, (below + [NextValue]) + [NextValue])))
  {
    TypeRead(codec, t, below + [NextValue], ObjectFirst, rest);
    FieldOpens(codec, t, id, below, c, StringText(codec, NameOf(t), ObjectFirst) + rest,
               Reader(rest, (below + [NextValue]) + [NextValue]));
  }

  lemma FieldOpens(codec: Codec, t: TType, id: int16, below: seq<Context>, c: Context, name: seq<byte>, end: Reader)
    requires IsKey(c) && ReadType(codec, Reader(name, (below + [NextValue]) + [ObjectFirst])) == Ok((t, end))
    ensures ReadFieldBegin(codec, Reader(IntText(id, c) + ([COLON, LBRACE] + name), below + [c])) == Ok((t, id, end))
  {
    var obj := [COLON, LBRACE] + name;
    KeyStarts(id, c, obj);
    IntRead(codec, id, below, c, obj);
    ObjectOpens(below, NextValue, COLON, name);
    Int16Same(id);
    FieldBeginInSteps(codec, t, id, Reader(IntText(id, c) + obj, below + [c]), Reader(obj, below + [NextValue]),
                      Reader(name, (below + [NextValue]) + [ObjectFirst]), end);
  }

  /** A separator and an opening brace. */
  lemma ObjectOpens(below: seq<Context>, c: Context, separator: byte, rest: seq<byte>)
    requires (c == NextValue && separator == COLON) || (c == InList && separator == COMMA)
    ensures ParseBegin(Reader([separator, LBRACE] + rest, below + [c]), LBRACE, ObjectFirst)
         == Ok((false, Reader(rest, (below + [c]) + [ObjectFirst])))
  {
    BeginRead(below, c, LBRACE, ObjectFirst, rest);
    assert [separator, LBRACE] + rest == [separator] + ([LBRACE] + rest);
  }

  lemma KeyStarts(n: int64, c: Context, rest: seq<byte>)
    requires IsKey(c)
    ensures var s := IntText(n, c) + rest; s != [] && s[0] != RBRACE && s[0] != RBRACKET
  {
  }

  lemma FieldBeginInSteps(codec: Codec, t: TType, id: int16, r0: Reader, r1: Reader, r2: Reader, r3: Reader)
    requires r0.input != [] && r0.input[0] != RBRACE && r0.input[0] != RBRACKET
    requires ParseI64(codec, r0) == Ok((id, r1)) && ParseBegin(r1, LBRACE, ObjectFirst) == Ok((false, r2))
    requires ReadType(codec, r2) == Ok((t, r3)) && ToInt16(id) == id
    ensures ReadFieldBegin(codec, r0) == Ok((t, id, r3))
  {
  }

  lemma Int16Same(id: int16)
    ensures ToInt16(id) == id
  {
  }

  lemma SeparatedIsClean(codec: Codec, v: Value, c: Context, rest: seq<byte>)
    requires c == InList || c == NextKey || c == NextValue
    ensures Clean(Text(codec, v, c) + rest)
  {
  }

  /** Within sizes, its text encodable, and without doubles. */
  predicate Writable(codec: Codec, v: Value, max: nat) {
    WellTyped(v, max) && Textual(codec, v)
  }

  /**
   Whatever was written in a context is read back in it: the value is the same, the separator and the
   brackets are consumed exactly, the rest is left, and the contexts have moved as the writer's have.
   */
  lemma {:induction false} ReadBack(codec: Codec, v: Value, below: seq<Context>, c: Context, rest: seq<byte>, max: nat)
    requires LawfulCodec(codec) && Writable(codec, v, max) && max <= MAX_SIZE && Clean(rest)
    ensures ReadValue(codec, TypeOf(v), Reader(Text(codec, v, c) + rest, below + [c]), max)
            == Ok((v, Reader(rest, below + [Next(c)])))
    decreases v, 2
  {
    DispatchRead(codec, TypeOf(v), Reader(Text(codec, v, c) + rest, below + [c]), max);
    match v {
      case StructV(fields) => StructReadBack(codec, fields, below, c, rest, max);
      case ListV(t, elems) => ListReadBack(codec, t, elems, below, c, rest, max, LIST);
      case SetV(t, elems) => ListReadBack(codec, t, elems, below, c, rest, max, SET);
      case MapV(kt, vt, entries) => MapReadBack(codec, kt, vt, entries, below, c, rest, max);
      case _ => ScalarReadBack(codec, v, below, c, rest, max);
    }
  }

  lemma DispatchRead(codec: Codec, t: TType, r: Reader, max: nat)
    ensures t == STRUCT ==> ReadValue(codec, t, r, max) == ReadStruct(codec, r, max)
    ensures t == LIST || t == SET ==> ReadValue(codec, t, r, max) == ReadList(codec, t, r, max)
    ensures t == MAP ==> ReadValue(codec, t, r, max) == ReadMap(codec, r, max)
  {
  }

  lemma ScalarReadBack(codec: Codec, v: Value, below: seq<Context>, c: Context, rest: seq<byte>, max: nat)
    requires LawfulCodec(codec) && Writable(codec, v, max) && IsScalar(v) && Clean(rest)
    ensures ReadValue(codec, TypeOf(v), Reader(Text(codec, v, c) + rest, below + [c]), max)
            == Ok((v, Reader(rest, below + [Next(c)])))
  {
    match v {
      case StringV(s) => StringRead(codec, s, below, c, rest);
      case UuidV(u) => UuidRead(codec, u, below, c, rest);
      case BoolV(_) | ByteV(_) | I16V(_) | I32V(_) | I64V(_) =>
        IntRead(codec, IntOf(v).value, below, c, rest);
        IntValueSame(v);
      case _ =>
    }
  }

  lemma IntValueSame(v: Value)
    requires IntOf(v).Some?
    ensures IsIntType(TypeOf(v)) && IntValue(TypeOf(v), IntOf(v).value) == v
  {
  }

  lemma UuidRead(codec: Codec, u: seq<byte>, below: seq<Context>, c: Context, rest: seq<byte>)
    requires LawfulCodec(codec) && |u| == 16 && Clean(rest)
    ensures ReadUuid(codec, Reader(StringText(codec, codec.uuidText(u), c) + rest, below + [c]))
            == Ok((u, Reader(rest, below + [Next(c)])))
  {
    assert codec.parseUuid(codec.uuidText(u)) == Some(u);
    StringRead(codec, codec.uuidText(u), below, c, rest);
  }

  ghost predicate FieldsWritable(codec: Codec, fields: seq<Field>, max: nat) {
    forall i :: 0 <= i < |fields| ==> Writable(codec, fields[i].value, max)
  }

  lemma {:induction false} StructReadBack(codec: Codec, fields: seq<Field>, below: seq<Context>, c: Context,
                                          rest: seq<byte>, max: nat)
    requires LawfulCodec(codec) && FieldsWritable(codec, fields, max) && max <= MAX_SIZE && Clean(rest)
    ensures ReadStruct(codec, Reader((Separator(c) + StructBody(codec, fields)) + rest, below + [c]), max)
         == Ok((StructV(fields), Reader(rest, below + [Next(c)])))
    decreases fields, 1
  {
    var text := FieldsText(codec, fields, ObjectFirst) + ([RBRACE] + rest);
    var inside := below + [c];
    var last := AfterItems(|fields|, ObjectFirst);
    StructNests(Separator(c), FieldsText(codec, fields, ObjectFirst), rest);
    BeginRead(below, c, LBRACE, ObjectFirst, text);
    FieldsReadBack(codec, fields, inside, ObjectFirst, [RBRACE] + rest, max);
    ObjectEndRead(below, c, last, rest);
    StructInSteps(codec, fields, max, Reader(Separator(c) + ([LBRACE] + text), inside),
                  Reader(text, inside + [ObjectFirst]),
                  Reader([RBRACE] + rest, inside + [last]), Reader(rest, below + [Next(c)]));
  }

  lemma StructNests(sep: seq<byte>, items: seq<byte>, rest: seq<byte>)
    ensures (sep + ([LBRACE] + (items + [RBRACE]))) + rest == sep + ([LBRACE] + (items + ([RBRACE] + rest)))
  {
  }

  lemma StructInSteps(codec: Codec, fields: seq<Field>, max: nat, r0: Reader, r1: Reader, r2: Reader, r3: Reader)
    requires ParseBegin(r0, LBRACE, ObjectFirst) == Ok((false, r1)) && ReadFields(codec, r1, max) == Ok((fields, r2))
    requires ParseObjectEnd(r2) == Ok(r3)
    ensures ReadStruct(codec, r0, max) == Ok((StructV(fields), r3))
  {
  }

  lemma {:induction false} FieldsReadBack(codec: Codec, fields: seq<Field>, below: seq<Context>, c: Context,
                                          end: seq<byte>, max: nat)
    requires LawfulCodec(codec) && FieldsWritable(codec, fields, max) && max <= MAX_SIZE && IsKey(c) && end != [] &&
             end[0] == RBRACE
    ensures ReadFields(codec, Reader(FieldsText(codec, fields, c) + end, below + [c]), max)
         == Ok((fields, Reader(end, below + [AfterItems(|fields|, c)])))
    decreases fields, 0
  {
    if fields == [] {
      NothingBefore(FieldsText(codec, fields, c), end);
      NoFields(codec, Reader(end, below + [c]), max);
    } else {
      var f, more := fields[0], fields[1..];
      FirstFieldWritable(codec, f, more, fields, max);
      FieldsReadBack(codec, more, below, NextKey, end, max);
      ItemsClean(codec, more, end);
      FieldThenMore(codec, f, more, below, c, FieldsText(codec, more, NextKey), end, max);
    }
  }

  lemma FirstFieldWritable(codec: Codec, f: Field, more: seq<Field>, fields: seq<Field>, max: nat)
    requires FieldsWritable(codec, fields, max) && fields != [] && f == fields[0] && more == fields[1..]
    ensures Writable(codec, f.value, max) && FieldsWritable(codec, more, max) && [f] + more == fields
  {
  }

  lemma {:induction false} FieldThenMore(codec: Codec, f: Field, more: seq<Field>, below: seq<Context>, c: Context,
                                         others: seq<byte>, end: seq<byte>, max: nat)
    requires LawfulCodec(codec) && Writable(codec, f.value, max) && max <= MAX_SIZE && IsKey(c) && Clean(others + end)
    requires ReadFields(codec, Reader(others + end, below + [NextKey]), max)
             == Ok((more, Reader(end, below + [NextKey])))
    ensures ReadFields(codec, Reader(FieldText(codec, f, c) + others + end, below + [c]), max)
            == Ok(([f] + more, Reader(end, below + [NextKey])))
    decreases f, 1
  {
    FieldReadBack(codec, f, below, c, others + end, max);
    FieldsJoin(codec, f, more, below, c, FieldText(codec, f, c), Text(codec, f.value, NextValue), others, end, max);
  }

  lemma FieldsJoin(codec: Codec, f: Field, more: seq<Field>, below: seq<Context>, c: Context,
                   first: seq<byte>, value: seq<byte>, others: seq<byte>, end: seq<byte>, max: nat)
    requires ReadFieldBegin(codec, Reader(first + (others + end), below + [c]))
          == Ok((TypeOf(f.value), f.id,
                 Reader(value + ([RBRACE] + (others + end)), (below + [NextValue]) + [NextValue])))
    requires ReadValue(codec, TypeOf(f.value),
                       Reader(value + ([RBRACE] + (others + end)), (below + [NextValue]) + [NextValue]), max)
          == Ok((f.value, Reader([RBRACE] + (others + end), (below + [NextValue]) + [NextKey])))
    requires ParseObjectEnd(Reader([RBRACE] + (others + end), (below + [NextValue]) + [NextKey]))
             == Ok(Reader(others + end, below + [NextKey]))
    requires ReadFields(codec, Reader(others + end, below + [NextKey]), max)
             == Ok((more, Reader(end, below + [NextKey])))
    ensures ReadFields(codec, Reader(first + others + end, below + [c]), max)
            == Ok(([f] + more, Reader(end, below + [NextKey])))
  {
    var tail := others + end;
    Associate(first, others, end);
    FieldsInSteps(codec, f, more, max, Reader(first + tail, below + [c]),
                  Reader(value + ([RBRACE] + tail), (below + [NextValue]) + [NextValue]),
                  Reader([RBRACE] + tail, (below + [NextValue]) + [NextKey]), Reader(tail, below + [NextKey]),
                  Reader(end, below + [NextKey]));
  }

  lemma NoFields(codec: Codec, r: Reader, max: nat)
    requires r.input != [] && r.input[0] == RBRACE
    ensures ReadFields(codec, r, max) == Ok(([], r))
  {
  }

  lemma ItemsClean(codec: Codec, fields: seq<Field>, end: seq<byte>)
    requires Clean(end)
    ensures Clean(FieldsText(codec, fields, NextKey) + end)
  {
    if fields == [] {
      assert FieldsText(codec, fields, NextKey) + end == end;
    } else {
      assert FieldText(codec, fields[0], NextKey)[0] == COMMA;
    }
  }

  lemma FieldsInSteps(codec: Codec, f: Field, more: seq<Field>, max: nat, r0: Reader, r1: Reader, r2: Reader,
                      r3: Reader, r4: Reader)
    requires ReadFieldBegin(codec, r0) == Ok((TypeOf(f.value), f.id, r1)) &&
             ReadValue(codec, TypeOf(f.value), r1, max) == Ok((f.value, r2))
    requires ParseObjectEnd(r2) == Ok(r3) && ReadFields(codec, r3, max) == Ok((more, r4))
    ensures ReadFields(codec, r0, max) == Ok(([f] + more, r4))
  {
  }

  /** One field: its header, its value and its closing brace. */
  lemma {:induction false} FieldReadBack(codec: Codec, f: Field, below: seq<Context>, c: Context, tail: seq<byte>,
                                         max: nat)
    requires LawfulCodec(codec) && Writable(codec, f.value, max) && max <= MAX_SIZE && IsKey(c) && Clean(tail)
    ensures ReadFieldBegin(codec, Reader(FieldText(codec, f, c) + tail, below + [c]))
         == Ok((TypeOf(f.value), f.id,
                Reader(Text(codec, f.value, NextValue) + ([RBRACE] + tail), (below + [NextValue]) + [NextValue])))
    ensures ReadValue(codec, TypeOf(f.value),
                      Reader(Text(codec, f.value, NextValue) + ([RBRACE] + tail), (below + [NextValue]) + [NextValue]),
                      max)
         == Ok((f.value, Reader([RBRACE] + tail, (below + [NextValue]) + [NextKey])))
    ensures ParseObjectEnd(Reader([RBRACE] + tail, (below + [NextValue]) + [NextKey]))
            == Ok(Reader(tail, below + [NextKey]))
    decreases f, 0
  {
    var t, close := TypeOf(f.value), [RBRACE] + tail;
    FieldTextNests(IntText(f.id, c), StringText(codec, NameOf(t), ObjectFirst), Text(codec, f.value, NextValue), tail);
    SeparatedIsClean(codec, f.value, NextValue, close);
    FieldBeginRead(codec, t, f.id, below, c, Text(codec, f.value, NextValue) + close);
    ReadBack(codec, f.value, below + [NextValue], NextValue, close, max);
    ObjectEndRead(below, NextValue, NextKey, tail);
  }

  lemma FieldTextNests(id: seq<byte>, name: seq<byte>, value: seq<byte>, tail: seq<byte>)
    ensures (id + ([COLON, LBRACE] + (name + (value + [RBRACE])))) + tail
         == id + ([COLON, LBRACE] + (name + (value + ([RBRACE] + tail))))
  {
  }

  ghost predicate ElemsWritable(codec: Codec, t: TType, elems: seq<Value>, max: nat) {
    forall i :: 0 <= i < |elems| ==> TypeOf(elems[i]) == t && Writable(codec, elems[i], max)
  }

  lemma {:induction false} ListReadBack(codec: Codec, t: TType, elems: seq<Value>, below: seq<Context>, c: Context,
                                        rest: seq<byte>,
                                        max: nat, kind: TType)
    requires LawfulCodec(codec) && IsValueType(t) && ElemsWritable(codec, t, elems, max) &&
             |elems| <= max <= MAX_SIZE && Clean(rest)
    requires kind == LIST || kind == SET
    ensures ReadList(codec, kind, Reader((Separator(c) + ListBody(codec, t, elems)) + rest, below + [c]), max)
         == Ok((if kind == LIST then ListV(t, elems) else SetV(t, elems), Reader(rest, below + [Next(c)])))
    decreases elems, 1
  {
    var inside := below + [c];
    var text := ElemsText(codec, elems) + ([RBRACKET] + rest);
    var name, size := StringText(codec, NameOf(t), ListFirst), IntText(SizeOf(|elems|), InList);
    ListTextNests(Separator(c), name, size, ElemsText(codec, elems), rest);
    ElemsClean(codec, elems, [RBRACKET] + rest);
    ElemListBeginRead(codec, t, |elems|, below, c, text, max);
    ElemsReadBack(codec, t, elems, inside, [RBRACKET] + rest, max);
    ListEndRead(below, c, rest);
    ListInSteps(codec, t, elems, max, kind, Reader(Separator(c) + ([LBRACKET] + (name + (size + text))), inside),
                Reader(text, inside + [InList]), Reader([RBRACKET] + rest, inside + [InList]),
                    Reader(rest, below + [Next(c)]));
  }

  lemma ListTextNests(sep: seq<byte>, name: seq<byte>, size: seq<byte>, items: seq<byte>, rest: seq<byte>)
    ensures (sep + ([LBRACKET] + (name + (size + (items + [RBRACKET]))))) + rest
         == sep + ([LBRACKET] + (name + (size + (items + ([RBRACKET] + rest)))))
  {
  }

  lemma ListInSteps(codec: Codec, t: TType, elems: seq<Value>, max: nat, kind: TType, r0: Reader, r1: Reader,
                    r2: Reader, r3: Reader)
    requires kind == LIST || kind == SET
    requires ReadElemListBegin(codec, r0, max).Ok? && ReadElemListBegin(codec, r0, max).value.0 == t
    requires ReadElemListBegin(codec, r0, max).value.1 == |elems| && ReadElemListBegin(codec, r0, max).value.2 == r1
    requires ReadElems(codec, t, |elems|, r1, max) == Ok((elems, r2)) && ParseListEnd(r2) == Ok(r3)
    ensures ReadList(codec, kind, r0, max) == Ok((if kind == LIST then ListV(t, elems) else SetV(t, elems), r3))
  {
  }

  lemma ElemsClean(codec: Codec, elems: seq<Value>, end: seq<byte>)
    requires Clean(end)
    ensures Clean(ElemsText(codec, elems) + end)
  {
    if elems == [] {
      assert ElemsText(codec, elems) + end == end;
    } else {
      assert Text(codec, elems[0], InList)[0] == COMMA;
    }
  }

  lemma {:induction false} ElemsReadBack(codec: Codec, t: TType, elems: seq<Value>, below: seq<Context>,
                                         end: seq<byte>, max: nat)
    requires LawfulCodec(codec) && ElemsWritable(codec, t, elems, max) && max <= MAX_SIZE && Clean(end)
    ensures ReadElems(codec, t, |elems|, Reader(ElemsText(codec, elems) + end, below + [InList]), max)
         == Ok((elems, Reader(end, below + [InList])))
    decreases elems, 0
  {
    if elems == [] {
      NothingBefore(ElemsText(codec, elems), end);
    } else {
      var v, more := elems[0], elems[1..];
      FirstElemWritable(codec, t, v, more, elems, max);
      ElemsReadBack(codec, t, more, below, end, max);
      ElemsClean(codec, more, end);
      ElemThenMore(codec, t, v, more, below, ElemsText(codec, more), end, max);
    }
  }

  lemma FirstElemWritable(codec: Codec, t: TType, v: Value, more: seq<Value>, elems: seq<Value>, max: nat)
    requires ElemsWritable(codec, t, elems, max) && elems != [] && v == elems[0] && more == elems[1..]
    ensures TypeOf(v) == t && Writable(codec, v, max) && ElemsWritable(codec, t, more, max) && [v] + more == elems
  {
  }

  lemma {:induction false} ElemThenMore(codec: Codec, t: TType, v: Value, more: seq<Value>, below: seq<Context>,
                                        others: seq<byte>, end: seq<byte>, max: nat)
    requires LawfulCodec(codec) && Writable(codec, v, max) && TypeOf(v) == t && max <= MAX_SIZE && Clean(others + end)
    requires ReadElems(codec, t, |more|, Reader(others + end, below + [InList]), max)
             == Ok((more, Reader(end, below + [InList])))
    ensures ReadElems(codec, t, |more| + 1, Reader(Text(codec, v, InList) + others + end, below + [InList]), max)
         == Ok(([v] + more, Reader(end, below + [InList])))
    decreases v, 3
  {
    ReadBack(codec, v, below, InList, others + end, max);
    ElemsJoin(codec, t, v, more, below, Text(codec, v, InList), others, end, max);
  }

  lemma ElemsJoin(codec: Codec, t: TType, v: Value, more: seq<Value>, below: seq<Context>,
                  first: seq<byte>, others: seq<byte>, end: seq<byte>, max: nat)
    requires ReadValue(codec, t, Reader(first + (others + end), below + [InList]), max)
             == Ok((v, Reader(others + end, below + [InList])))
    requires ReadElems(codec, t, |more|, Reader(others + end, below + [InList]), max)
             == Ok((more, Reader(end, below + [InList])))
    ensures ReadElems(codec, t, |more| + 1, Reader(first + others + end, below + [InList]), max)
         == Ok(([v] + more, Reader(end, below + [InList])))
  {
    Associate(first, others, end);
    ElemsInSteps(codec, t, v, more, max, Reader(first + (others + end), below + [InList]),
                 Reader(others + end, below + [InList]), Reader(end, below + [InList]));
  }

  lemma ElemsInSteps(codec: Codec, t: TType, v: Value, more: seq<Value>, max: nat, r0: Reader, r1: Reader, r2: Reader)
    requires ReadValue(codec, t, r0, max) == Ok((v, r1)) && ReadElems(codec, t, |more|, r1, max) == Ok((more, r2))
    ensures ReadElems(codec, t, |more| + 1, r0, max) == Ok(([v] + more, r2))
  {
  }

  ghost predicate EntriesWritable(codec: Codec, kt: TType, vt: TType, entries: seq<Entry>, max: nat) {
    forall i :: 0 <= i < |entries| ==>
      TypeOf(entries[i].key) == kt && Writable(codec, entries[i].key, max) &&
      TypeOf(entries[i].value) == vt && Writable(codec, entries[i].value, max)
  }

  lemma {:induction false} MapReadBack(codec: Codec, kt: TType, vt: TType, entries: seq<Entry>, below: seq<Context>,
                                       c: Context,
                                       rest: seq<byte>, max: nat)
    requires LawfulCodec(codec) && IsValueType(kt) && IsValueType(vt) && EntriesWritable(codec, kt, vt, entries, max)
    requires |entries| <= max <= MAX_SIZE && Clean(rest)
    ensures ReadMap(codec, Reader((Separator(c) + MapBody(codec, kt, vt, entries)) + rest, below + [c]), max)
         == Ok((MapV(kt, vt, entries), Reader(rest, below + [Next(c)])))
    decreases entries, 1
  {
    var inside := (below + [c]) + [InList];
    var close := [RBRACKET] + rest;
    var text := EntriesText(codec, entries, ObjectFirst) + ([RBRACE] + close);
    var key, value := StringText(codec, NameOf(kt), ListFirst), StringText(codec, NameOf(vt), InList);
    var size, last := IntText(SizeOf(|entries|), InList), AfterItems(|entries|, ObjectFirst);
    MapTextNests(Separator(c), key, value, size, EntriesText(codec, entries, ObjectFirst), rest);
    MapBeginRead(codec, kt, vt, |entries|, below, c, text, max);
    EntriesReadBack(codec, kt, vt, entries, inside, ObjectFirst, [RBRACE] + close, max);
    ObjectEndRead(below + [c], InList, last, close);
    ListEndRead(below, c, rest);
    MapInSteps(codec, kt, vt, entries, max,
               Reader(Separator(c) + ([LBRACKET] + (key + (value + (size + ([COMMA, LBRACE] + text))))), below + [c]),
               Reader(text, inside + [ObjectFirst]), Reader([RBRACE] + close, inside + [last]), Reader(close, inside),
               Reader(rest, below + [Next(c)]));
  }

  lemma MapTextNests(sep: seq<byte>, key: seq<byte>, value: seq<byte>, size: seq<byte>, items: seq<byte>,
                     rest: seq<byte>)
    ensures (sep + ([LBRACKET] + (key + (value + (size + ([COMMA, LBRACE] + (items + [RBRACE, RBRACKET]))))))) + rest
         == sep + ([LBRACKET] + (key +
                                 (value + (size + ([COMMA, LBRACE] + (items + ([RBRACE] + ([RBRACKET] + rest))))))))
  {
    assert [RBRACE, RBRACKET] + rest == [RBRACE] + ([RBRACKET] + rest);
    Associate(items, [RBRACE, RBRACKET], rest);
    Associate([COMMA, LBRACE], items + [RBRACE, RBRACKET], rest);
  }

  lemma MapInSteps(codec: Codec, kt: TType, vt: TType, entries: seq<Entry>, max: nat,
                   r0: Reader, r1: Reader, r2: Reader, r3: Reader, r4: Reader)
    requires ReadMapBegin(codec, r0, max).Ok?
    requires var (k, v, n, r) := ReadMapBegin(codec, r0, max).value; k == kt && v == vt && n == |entries| && r == r1
    requires ReadEntries(codec, kt, vt, |entries|, r1, max) == Ok((entries, r2))
    requires ParseObjectEnd(r2) == Ok(r3) && ParseListEnd(r3) == Ok(r4)
    ensures ReadMap(codec, r0, max) == Ok((MapV(kt, vt, entries), r4))
  {
  }

  lemma EntriesClean(codec: Codec, entries: seq<Entry>, end: seq<byte>)
    requires Clean(end)
    ensures Clean(EntriesText(codec, entries, NextKey) + end)
  {
    if entries == [] {
      assert EntriesText(codec, entries, NextKey) + end == end;
    } else {
      assert Text(codec, entries[0].key, NextKey)[0] == COMMA;
      assert EntryText(codec, entries[0], NextKey)[0] == COMMA;
    }
  }

  lemma {:induction false} EntriesReadBack(codec: Codec, kt: TType, vt: TType, entries: seq<Entry>,
                                           below: seq<Context>, c: Context,
                                           end: seq<byte>, max: nat)
    requires LawfulCodec(codec) && EntriesWritable(codec, kt, vt, entries, max) && max <= MAX_SIZE && IsKey(c) &&
             Clean(end)
    ensures ReadEntries(codec, kt, vt, |entries|, Reader(EntriesText(codec, entries, c) + end, below + [c]), max)
         == Ok((entries, Reader(end, below + [AfterItems(|entries|, c)])))
    decreases entries, 0
  {
    if entries == [] {
      NothingBefore(EntriesText(codec, entries, c), end);
    } else {
      var e, more := entries[0], entries[1..];
      FirstEntryWritable(codec, kt, vt, e, more, entries, max);
      EntriesReadBack(codec, kt, vt, more, below, NextKey, end, max);
      EntriesClean(codec, more, end);
      EntryThenMore(codec, kt, vt, e, more, below, c, EntriesText(codec, more, NextKey), end, max);
    }
  }

  lemma NothingBefore(none: seq<byte>, end: seq<byte>)
    requires none == []
    ensures none + end == end
  {
  }

  lemma FirstEntryWritable(codec: Codec, kt: TType, vt: TType, e: Entry, more: seq<Entry>, entries: seq<Entry>,
                           max: nat)
    requires EntriesWritable(codec, kt, vt, entries, max) && entries != [] && e == entries[0] && more == entries[1..]
    ensures TypeOf(e.key) == kt && Writable(codec, e.key, max) && TypeOf(e.value) == vt && Writable(codec, e.value, max)
    ensures EntriesWritable(codec, kt, vt, more, max) && [e] + more == entries
  {
  }

  lemma {:induction false} EntryThenMore(codec: Codec, kt: TType, vt: TType, e: Entry, more: seq<Entry>,
                                         below: seq<Context>, c: Context,
                                         others: seq<byte>, end: seq<byte>, max: nat)
    requires LawfulCodec(codec) && Writable(codec, e.key, max) && Writable(codec, e.value, max)
    requires TypeOf(e.key) == kt && TypeOf(e.value) == vt && max <= MAX_SIZE && IsKey(c) && Clean(others + end)
    requires ReadEntries(codec, kt, vt, |more|, Reader(others + end, below + [NextKey]), max)
             == Ok((more, Reader(end, below + [NextKey])))
    ensures ReadEntries(codec, kt, vt, |more| + 1, Reader(EntryText(codec, e, c) + others + end, below + [c]), max)
         == Ok(([e] + more, Reader(end, below + [NextKey])))
    decreases e, 1
  {
    EntryReadBack(codec, e, below, c, others + end, max);
    EntriesJoin(codec, kt, vt, e, more, below, c, EntryText(codec, e, c), Text(codec, e.value, NextValue), others, end,
                max);
  }

  lemma EntriesJoin(codec: Codec, kt: TType, vt: TType, e: Entry, more: seq<Entry>, below: seq<Context>, c: Context,
                    first: seq<byte>, value: seq<byte>, others: seq<byte>, end: seq<byte>, max: nat)
    requires ReadValue(codec, kt, Reader(first + (others + end), below + [c]), max)
          == Ok((e.key, Reader(value + (others + end), below + [NextValue])))
    requires ReadValue(codec, vt, Reader(value + (others + end), below + [NextValue]), max)
          == Ok((e.value, Reader(others + end, below + [NextKey])))
    requires ReadEntries(codec, kt, vt, |more|, Reader(others + end, below + [NextKey]), max)
             == Ok((more, Reader(end, below + [NextKey])))
    ensures ReadEntries(codec, kt, vt, |more| + 1, Reader(first + others + end, below + [c]), max)
         == Ok(([e] + more, Reader(end, below + [NextKey])))
  {
    Associate(first, others, end);
    EntriesInSteps(codec, kt, vt, e, more, max, Reader(first + (others + end), below + [c]),
                   Reader(value + (others + end), below + [NextValue]), Reader(others + end, below + [NextKey]),
                   Reader(end, below + [NextKey]));
  }

  lemma EntriesInSteps(codec: Codec, kt: TType, vt: TType, e: Entry, more: seq<Entry>, max: nat,
                       r0: Reader, r1: Reader, r2: Reader, r3: Reader)
    requires ReadValue(codec, kt, r0, max) == Ok((e.key, r1)) && ReadValue(codec, vt, r1, max) == Ok((e.value, r2))
    requires ReadEntries(codec, kt, vt, |more|, r2, max) == Ok((more, r3))
    ensures ReadEntries(codec, kt, vt, |more| + 1, r0, max) == Ok(([e] + more, r3))
  {
  }

  lemma {:induction false} EntryReadBack(codec: Codec, e: Entry, below: seq<Context>, c: Context, tail: seq<byte>,
                                         max: nat)
    requires LawfulCodec(codec) && Writable(codec, e.key, max) && Writable(codec, e.value, max)
    requires max <= MAX_SIZE && IsKey(c) && Clean(tail)
    ensures ReadValue(codec, TypeOf(e.key), Reader(EntryText(codec, e, c) + tail, below + [c]), max)
         == Ok((e.key, Reader(Text(codec, e.value, NextValue) + tail, below + [NextValue])))
    ensures ReadValue(codec, TypeOf(e.value), Reader(Text(codec, e.value, NextValue) + tail, below + [NextValue]), max)
         == Ok((e.value, Reader(tail, below + [NextKey])))
    decreases e, 0
  {
    Associate(Text(codec, e.key, c), Text(codec, e.value, NextValue), tail);
    SeparatedIsClean(codec, e.value, NextValue, tail);
    ReadBack(codec, e.key, below, c, Text(codec, e.value, NextValue) + tail, max);
    ReadBack(codec, e.value, below, NextValue, tail, max);
  }

  /** Writing and then reading, with both stacks starting alike: the value, the rest and equal stacks come back. */
  lemma WriteThenRead(codec: Codec, v: Value, below: seq<Context>, c: Context, rest: seq<byte>, max: nat)
    requires LawfulCodec(codec) && Writable(codec, v, max) && max <= MAX_SIZE && Clean(rest)
    ensures var w := WriteValue(codec, Writer([], below + [c]), v);
            w.Ok? && ReadValue(codec, TypeOf(v), Reader(w.value.out + rest, below + [c]), max)
                == Ok((v, Reader(rest, w.value.stack)))
  {
    WriterEmits(codec, v, [], below, c, max);
    ReadBack(codec, v, below, c, rest, max);
    EmptyPrefix(Text(codec, v, c));
  }

  lemma EmptyPrefix(s: seq<byte>)
    ensures [] + s == s
  {
  }

  // ---------- messages ----------

  function MessageText(codec: Codec, m: Message): seq<byte> {
    [LBRACKET] + (IntText(VERSION, ListFirst) +
                  (StringText(codec, m.name, InList) + (IntText(m.typeId, InList) + IntText(m.seqId, InList))))
  }

  /** The type is written and read as eight bits. */
  function Cut(m: Message): Message {
    m.(typeId := ToInt8(m.typeId))
  }

  lemma CutWritten(codec: Codec, m: Message, w: Writer)
    ensures WriteMessageBegin(codec, w, m) == WriteMessageBegin(codec, w, Cut(m))
  {
    Int8Same(ToInt8(m.typeId));
  }

  lemma MessageWritten(codec: Codec, m: Message, stack: seq<Context>)
    requires -0x80 <= m.typeId < 0x80
    ensures WriteMessageBegin(codec, Writer([], stack), m) == Ok(Writer(MessageText(codec, m), [TopLevel] + [InList]))
  {
    var version, name := IntText(VERSION, ListFirst), StringText(codec, m.name, InList);
    var typeId, seqId, inside := IntText(m.typeId, InList), IntText(m.seqId, InList), [TopLevel];
    var start := [LBRACKET];
    Int8Same(m.typeId);
    TopLevelOpens();
    WroteInt(start, inside, ListFirst, VERSION);
    WroteString(codec, start + version, inside, InList, m.name);
    WroteInt(start + version + name, inside, InList, m.typeId);
    WroteInt(start + version + name + typeId, inside, InList, m.seqId);
    MessageWriteSteps(codec, m, Writer([], stack), Writer(start, inside + [ListFirst]),
                      Writer(start + version, inside + [InList]),
                      Writer(start + version + name, inside + [InList]),
                          Writer(start + version + name + typeId, inside + [InList]),
                      Writer(start + version + name + typeId + seqId, inside + [InList]));
    MessageTextNests(start, version, name, typeId, seqId);
  }

  lemma MessageTextNests(a: seq<byte>, b: seq<byte>, c: seq<byte>, d: seq<byte>, e: seq<byte>)
    ensures a + b + c + d + e == a + (b + (c + (d + e)))
  {
  }

  lemma TopLevelOpens()
    ensures OutputBegin(Writer([], [TopLevel]), LBRACKET, ListFirst) == Ok(Writer([LBRACKET], [TopLevel] + [ListFirst]))
  {
    WroteBegin([], [], TopLevel, LBRACKET, ListFirst);
    assert [] + [TopLevel] == [TopLevel];
    assert [] + (Separator(TopLevel) + [LBRACKET]) == [LBRACKET];
  }

  lemma Int8Same(n: int8)
    ensures ToInt8(n) == n
  {
  }

  lemma Int32Same(n: int32)
    ensures ToInt32(n) == n
  {
  }

  lemma MessageWriteSteps(codec: Codec, m: Message, w0: Writer, w1: Writer, w2: Writer, w3: Writer, w4: Writer,
                          w5: Writer)
    requires OutputBegin(w0.(stack := [TopLevel]), LBRACKET, ListFirst) == Ok(w1) && OutputI64(w1, VERSION) == Ok(w2)
    requires OutputString(codec, w2, m.name) == Ok(w3) && ToInt8(m.typeId) == m.typeId &&
             OutputI64(w3, m.typeId) == Ok(w4)
    requires OutputI64(w4, m.seqId) == Ok(w5)
    ensures WriteMessageBegin(codec, w0, m) == Ok(w5)
  {
  }

  lemma MessageReadBack(codec: Codec, m: Message, stack: seq<Context>, rest: seq<byte>)
    requires LawfulCodec(codec) && codec.valid(m.name) && -0x80 <= m.typeId < 0x80 && Clean(rest)
    ensures ReadMessageBegin(codec, Reader(MessageText(codec, m) + rest, stack))
            == Ok((m, Reader(rest, [TopLevel] + [InList])))
  {
    var inside := [TopLevel];
    var seqId := IntText(m.seqId, InList) + rest;
    var typeId := IntText(m.typeId, InList) + seqId;
    var name := StringText(codec, m.name, InList) + typeId;
    var version := IntText(VERSION, ListFirst) + name;
    MessageNests(IntText(VERSION, ListFirst), StringText(codec, m.name, InList), IntText(m.typeId, InList),
                 IntText(m.seqId, InList), rest);
    CommaFirst(IntBody(m.seqId, InList), rest);
    CommaFirst(IntBody(m.typeId, InList), seqId);
    CommaFirst(codec.quote(m.name), typeId);
    BeginReadTop(version);
    IntRead(codec, VERSION, inside, ListFirst, name);
    StringRead(codec, m.name, inside, InList, typeId);
    IntRead(codec, m.typeId, inside, InList, seqId);
    IntRead(codec, m.seqId, inside, InList, rest);
    Int8Same(m.typeId);
    Int32Same(m.seqId);
    Int32Same(VERSION);
    MessageInSteps(codec, m, Reader([LBRACKET] + version, stack), Reader(version, inside + [ListFirst]),
                   Reader(name, inside + [InList]),
                   Reader(typeId, inside + [InList]), Reader(seqId, inside + [InList]),
                       Reader(rest, inside + [InList]));
  }

  lemma MessageNests(version: seq<byte>, name: seq<byte>, typeId: seq<byte>, seqId: seq<byte>, rest: seq<byte>)
    ensures ([LBRACKET] + (version + (name + (typeId + seqId)))) + rest
            == [LBRACKET] + (version + (name + (typeId + (seqId + rest))))
  {
  }

  lemma BeginReadTop(version: seq<byte>)
    ensures ParseBegin(Reader([LBRACKET] + version, [TopLevel]), LBRACKET, ListFirst)
            == Ok((false, Reader(version, [TopLevel] + [ListFirst])))
  {
    BeginRead([], TopLevel, LBRACKET, ListFirst, version);
    assert [] + [TopLevel] == [TopLevel];
    assert Separator(TopLevel) + ([LBRACKET] + version) == [LBRACKET] + version;
  }

  lemma MessageInSteps(codec: Codec, m: Message, r0: Reader, r1: Reader, r2: Reader, r3: Reader, r4: Reader, r5: Reader)
    requires ParseBegin(r0.(stack := [TopLevel]), LBRACKET, ListFirst) == Ok((false, r1)) &&
             ParseI64(codec, r1) == Ok((VERSION, r2))
    requires ReadString(codec, r2) == Ok((m.name, r3)) && ParseI64(codec, r3) == Ok((m.typeId, r4)) &&
             ParseI64(codec, r4) == Ok((m.seqId, r5))
    requires ToInt8(m.typeId) == m.typeId && ToInt32(m.seqId) == m.seqId && ToInt32(VERSION) == VERSION
    ensures ReadMessageBegin(codec, r0) == Ok((m, r5))
  {
    assert ReadMessageRest(codec, r2) == Ok((m, r5));
  }

  function WholeText(codec: Codec, m: Message, v: Value): seq<byte> {
    MessageText(codec, m) + Text(codec, v, InList) + [RBRACKET]
  }

  lemma MessageIsWritten(codec: Codec, m: Message, v: Value, dump: seq<Context>, max: nat)
    requires -0x80 <= m.typeId < 0x80 && Writable(codec, v, max) && max <= MAX_SIZE
    ensures WriteMessage(codec, Writer([], dump), m, v) == Ok(Writer(WholeText(codec, m, v), [TopLevel]))
  {
    var head, value, inside := MessageText(codec, m), Text(codec, v, InList), [TopLevel];
    MessageWritten(codec, m, dump);
    WriterEmits(codec, v, head, inside, InList, max);
    MessageEndWritten(head + value);
    WholeWritten(codec, m, v, Writer([], dump), Writer(head, inside + [InList]),
                 Writer(head + value, inside + [InList]),
                 Writer(head + value + [RBRACKET], inside));
  }

  lemma MessageIsRead(codec: Codec, m: Message, v: Value, parse: seq<Context>, rest: seq<byte>, max: nat)
    requires LawfulCodec(codec) && codec.valid(m.name) && -0x80 <= m.typeId < 0x80
    requires Writable(codec, v, max) && max <= MAX_SIZE
    ensures ReadMessage(codec, TypeOf(v), Reader(WholeText(codec, m, v) + rest, parse), max)
            == Ok((m, v, Reader(rest, [TopLevel])))
  {
    var head, value, inside, close := MessageText(codec, m), Text(codec, v, InList), [TopLevel], [RBRACKET] + rest;
    SeparatedIsClean(codec, v, InList, close);
    MessageReadBack(codec, m, parse, value + close);
    ReadBack(codec, v, inside, InList, close, max);
    MessageEndRead(rest);
    WholeRead(codec, m, v, max, Reader(head + (value + close), parse), Reader(value + close, inside + [InList]),
              Reader(close, inside + [InList]), Reader(rest, inside));
    WholeNests(head, value, rest);
  }

  lemma WholeNests(head: seq<byte>, value: seq<byte>, rest: seq<byte>)
    ensures head + value + [RBRACKET] + rest == head + (value + ([RBRACKET] + rest))
  {
  }

  /**
   A whole message, its header, its value and the end of its list, followed by anything at all, is
   read back, and nothing of what follows is touched. Both stacks end at top level. The header is as
   it was exactly when its type fits eight bits.
   */
  lemma MessageRoundTrip(codec: Codec, m: Message, v: Value, dump: seq<Context>, parse: seq<Context>, rest: seq<byte>,
                         max: nat)
    requires LawfulCodec(codec) && codec.valid(m.name) && Writable(codec, v, max) && max <= MAX_SIZE
    ensures var w := WriteMessage(codec, Writer([], dump), m, v);
            w.Ok? && w.value.stack == [TopLevel] &&
            ReadMessage(codec, TypeOf(v), Reader(w.value.out + rest, parse), max)
                == Ok((Cut(m), v, Reader(rest, [TopLevel])))
    ensures Cut(m) == m <==> -0x80 <= m.typeId < 0x80
  {
    CutKeeps(m);
    CutIsWritten(codec, m, v, dump, max);
    MessageIsRead(codec, Cut(m), v, parse, rest, max);
  }

  lemma CutIsWritten(codec: Codec, m: Message, v: Value, dump: seq<Context>, max: nat)
    requires Writable(codec, v, max) && max <= MAX_SIZE
    ensures WriteMessage(codec, Writer([], dump), m, v) == Ok(Writer(WholeText(codec, Cut(m), v), [TopLevel]))
  {
    CutWritten(codec, m, Writer([], dump));
    WholeCut(codec, m, v, Writer([], dump));
    MessageIsWritten(codec, Cut(m), v, dump, max);
  }

  lemma CutKeeps(m: Message)
    ensures Cut(m) == m <==> -0x80 <= m.typeId < 0x80
  {
  }

  lemma WholeCut(codec: Codec, m: Message, v: Value, w: Writer)
    requires WriteMessageBegin(codec, w, m) == WriteMessageBegin(codec, w, Cut(m))
    ensures WriteMessage(codec, w, m, v) == WriteMessage(codec, w, Cut(m), v)
  {
  }

  lemma MessageEndWritten(out: seq<byte>)
    ensures OutputEnd(Writer(out, [TopLevel] + [InList]), RBRACKET) == Ok(Writer(out + [RBRACKET], [TopLevel]))
  {
    WroteEnd(out, [], TopLevel, RBRACKET, InList);
    assert [] + [TopLevel] == [TopLevel];
  }

  lemma MessageEndRead(rest: seq<byte>)
    ensures ParseListEnd(Reader([RBRACKET] + rest, [TopLevel] + [InList])) == Ok(Reader(rest, [TopLevel]))
  {
    ListEndRead([], TopLevel, rest);
    assert [] + [TopLevel] == [TopLevel];
  }

  lemma WholeWritten(codec: Codec, m: Message, v: Value, w0: Writer, w1: Writer, w2: Writer, w3: Writer)
    requires WriteMessageBegin(codec, w0, m) == Ok(w1) && WriteValue(codec, w1, v) == Ok(w2) &&
             OutputEnd(w2, RBRACKET) == Ok(w3)
    ensures WriteMessage(codec, w0, m, v) == Ok(w3)
  {
  }

  lemma WholeRead(codec: Codec, m: Message, v: Value, max: nat, r0: Reader, r1: Reader, r2: Reader, r3: Reader)
    requires ReadMessageBegin(codec, r0) == Ok((m, r1)) && ReadValue(codec, TypeOf(v), r1, max) == Ok((v, r2)) &&
             ParseListEnd(r2) == Ok(r3)
    ensures ReadMessage(codec, TypeOf(v), r0, max) == Ok((m, v, r3))
  {
  }
}
