/** The JSON text, character by character: type names, separators, numbers and a few whole values. */
module JsonBytes {
  import opened Wrappers
  import opened WireTypes
  import opened Varint
  import opened JsonText
  import opened JsonFormat
  import opened JsonTheorems
  import opened JsonFindings
  import JsonRoundTrip

  /** The name of each type, and back. */
  lemma TypeNames()
    ensures TypeName(2) == Some(['t' as byte, 'f' as byte])
    ensures TypeName(3) == Some(['i' as byte, '8' as byte])
    ensures TypeName(6) == Some(['i' as byte, '1' as byte, '6' as byte])
    ensures TypeName(8) == Some(['i' as byte, '3' as byte, '2' as byte])
    ensures TypeName(10) == Some(['i' as byte, '6' as byte, '4' as byte])
    ensures TypeName(4) == Some(['d' as byte, 'b' as byte, 'l' as byte])
    ensures TypeName(11) == Some(['s' as byte, 't' as byte, 'r' as byte])
    ensures TypeName(12) == Some(['r' as byte, 'e' as byte, 'c' as byte])
    ensures TypeName(13) == Some(['m' as byte, 'a' as byte, 'p' as byte])
    ensures TypeName(14) == Some(['s' as byte, 'e' as byte, 't' as byte])
    ensures TypeName(15) == Some(['l' as byte, 's' as byte, 't' as byte])
    ensures TypeName(16) == Some(['u' as byte, 'i' as byte, 'd' as byte])
    ensures forall t: TType :: t < 2 || t == 5 || t == 7 || t == 9 || t > 16 ==> TypeName(t) == None
  {
  }

  lemma TypesNamed()
    ensures StringToTypeId(['t' as byte, 'f' as byte]) == Ok(2)
    ensures StringToTypeId(['i' as byte, '8' as byte]) == Ok(3)
    ensures StringToTypeId(['i' as byte, '1' as byte, '6' as byte]) == Ok(6)
    ensures StringToTypeId(['i' as byte, '3' as byte, '2' as byte]) == Ok(8)
    ensures StringToTypeId(['i' as byte, '6' as byte, '4' as byte]) == Ok(10)
    ensures StringToTypeId(['d' as byte, 'b' as byte, 'l' as byte]) == Ok(4)
    ensures StringToTypeId(['s' as byte, 't' as byte, 'r' as byte]) == Ok(11)
    ensures StringToTypeId(['r' as byte, 'e' as byte, 'c' as byte]) == Ok(12)
    ensures StringToTypeId(['m' as byte, 'a' as byte, 'p' as byte]) == Ok(13)
    ensures StringToTypeId(['s' as byte, 'e' as byte, 't' as byte]) == Ok(14)
    ensures StringToTypeId(['l' as byte, 's' as byte, 't' as byte]) == Ok(15)
    ensures StringToTypeId(['u' as byte, 'i' as byte, 'd' as byte]) == Ok(16)
  {
  }

  /** A number is ended by white space, a zero, a closing bracket, a comma or a colon, and by nothing else. */
  lemma NumberEndsAt(b: byte)
    ensures ScanNumber([0x31, b], START) == Ok((Number([0x31]), [b]))
            <==> b == 0x20 || b == 0x09 || b == 0x0a || b == 0x0d || b == 0 ||
                 b == 0x7d || b == 0x5d || b == 0x2c || b == 0x3a
  {
    assert [0x31, b][1..] == [b] && [b][1..] == [];
    var k := START.(buf := [0x31], sign := false);
    assert START.buf + [0x31] == [0x31];
    assert ScanNumber([0x31, b], START) == ScanNumber([b], k);
  }

  /** What is skipped between values: blanks, tabs, line feeds and carriage returns. */
  lemma SpaceIs(b: byte)
    ensures SkipSpace([b]) == [] <==> b == 0x20 || b == 0x09 || b == 0x0a || b == 0x0d
  {
  }

  lemma IntExamples()
    ensures FormatInt(0) == ['0' as byte] && FormatInt(-120) == ['-' as byte, '1' as byte, '2' as byte, '0' as byte]
  {
    assert Digits(1) == [0x31] && Digits(12) == Digits(1) + [0x32] && Digits(120) == Digits(12) + [0x30];
  }

  // A few whole texts, with the codec whose quoted strings stand for themselves.

  lemma DigitText(n: nat)
    requires n < 10
    ensures IntText(n, ObjectFirst) == [0x22, 0x30 + n, 0x22] && IntText(n, NextKey) == [0x2c, 0x22, 0x30 + n, 0x22]
    ensures IntText(n, NextValue) == [0x3a, 0x30 + n] && IntText(n, InList) == [0x2c, 0x30 + n]
    ensures IntText(n, ListFirst) == [0x30 + n]
  {
  }

  lemma BareText(s: seq<byte>)
    ensures StringText(BARE_CODEC, s, ObjectFirst) == [0x22] + s + [0x22]
    ensures StringText(BARE_CODEC, s, ListFirst) == [0x22] + s + [0x22]
    ensures StringText(BARE_CODEC, s, InList) == [0x2c] + ([0x22] + s + [0x22])
  {
  }

  lemma IntValueText(v: Value, n: nat)
    requires n < 10 && IntOf(v) == Some(n)
    ensures Text(BARE_CODEC, v, ObjectFirst) == IntText(n, ObjectFirst) &&
            Text(BARE_CODEC, v, NextKey) == IntText(n, NextKey)
    ensures Text(BARE_CODEC, v, NextValue) == IntText(n, NextValue)
  {
  }

  lemma FirstField()
    ensures FieldText(BARE_CODEC, Field(1, ByteV(5)), ObjectFirst)
         == [0x22, 0x31, 0x22, 0x3a, 0x7b, 0x22, 0x69, 0x38, 0x22, 0x3a, 0x35, 0x7d]
  {
    DigitText(1);
    DigitText(5);
    IntValueText(ByteV(5), 5);
    FieldFrom(Field(1, ByteV(5)), ObjectFirst, [0x22, 0x31, 0x22], [0x69, 0x38], [0x3a, 0x35]);
  }

  lemma FieldFrom(f: Field, c: Context, id: seq<byte>, name: seq<byte>, value: seq<byte>)
    requires IntText(f.id, c) == id && NameOf(TypeOf(f.value)) == name && Text(BARE_CODEC, f.value, NextValue) == value
    ensures FieldText(BARE_CODEC, f, c) == id + [0x3a, 0x7b, 0x22] + name + [0x22] + value + [0x7d]
  {
    BareText(name);
    Nested(id, name, value);
  }

  lemma Nested(id: seq<byte>, name: seq<byte>, value: seq<byte>)
    ensures id + ([0x3a, 0x7b] + (([0x22] + name + [0x22]) + (value + [0x7d])))
         == id + [0x3a, 0x7b, 0x22] + name + [0x22] + value + [0x7d]
  {
  }

  lemma SecondField()
    ensures FieldText(BARE_CODEC, Field(2, BoolV(true)), NextKey)
         == [0x2c, 0x22, 0x32, 0x22, 0x3a, 0x7b, 0x22, 0x74, 0x66, 0x22, 0x3a, 0x31, 0x7d]
  {
    DigitText(2);
    DigitText(1);
    IntValueText(BoolV(true), 1);
    FieldFrom(Field(2, BoolV(true)), NextKey, [0x2c, 0x22, 0x32, 0x22], [0x74, 0x66], [0x3a, 0x31]);
  }

  /** `{"1":{"i8":5},"2":{"tf":1}}` */
  lemma StructExample()
    ensures Text(BARE_CODEC, StructV([Field(1, ByteV(5)), Field(2, BoolV(true))]), TopLevel)
         == [0x7b] + [0x22, 0x31, 0x22, 0x3a, 0x7b, 0x22, 0x69, 0x38, 0x22, 0x3a, 0x35, 0x7d] +
            [0x2c, 0x22, 0x32, 0x22, 0x3a, 0x7b, 0x22, 0x74, 0x66, 0x22, 0x3a, 0x31, 0x7d] + [0x7d]
  {
    var f, g := Field(1, ByteV(5)), Field(2, BoolV(true));
    FirstField();
    SecondField();
    TwoFields(f, g);
    AtTopLevel(StructV([f, g]));
  }

  lemma AtTopLevel(v: Value)
    ensures Text(BARE_CODEC, v, TopLevel) == Body(BARE_CODEC, v, TopLevel)
  {
  }

  lemma TwoFields(f: Field, g: Field)
    ensures StructBody(BARE_CODEC, [f, g])
         == [0x7b] + FieldText(BARE_CODEC, f, ObjectFirst) + FieldText(BARE_CODEC, g, NextKey) + [0x7d]
  {
    assert [f, g][1..] == [g] && [g][1..] == [];
    assert FieldsText(BARE_CODEC, [g], NextKey) == FieldText(BARE_CODEC, g, NextKey) + [];
    Braced(FieldText(BARE_CODEC, f, ObjectFirst), FieldText(BARE_CODEC, g, NextKey));
  }

  lemma Braced(f: seq<byte>, g: seq<byte>)
    ensures [0x7b] + ((f + (g + [])) + [0x7d]) == [0x7b] + f + g + [0x7d]
  {
    assert g + [] == g;
  }

  /** `["str",2,"a","b"]` */
  lemma ListExample()
    ensures Text(BARE_CODEC, ListV(STRING, [StringV([0x61]), StringV([0x62])]), TopLevel)
         == [0x5b] + ([0x22, 0x73, 0x74, 0x72, 0x22] +
                      ([0x2c, 0x32] + (([0x2c, 0x22, 0x61, 0x22] + [0x2c, 0x22, 0x62, 0x22]) + [0x5d])))
  {
    var a, b := StringV([0x61]), StringV([0x62]);
    OneLetter(0x61);
    OneLetter(0x62);
    TwoElems(a, b);
    ListHead();
    AtTopLevel(ListV(STRING, [a, b]));
  }

  lemma TwoElems(a: Value, b: Value)
    ensures ElemsText(BARE_CODEC, [a, b]) == Text(BARE_CODEC, a, InList) + Text(BARE_CODEC, b, InList)
  {
    assert [a, b][1..] == [b] && [b][1..] == [];
    assert ElemsText(BARE_CODEC, [b]) == Text(BARE_CODEC, b, InList) + [];
  }

  lemma OneLetter(b: byte)
    ensures Text(BARE_CODEC, StringV([b]), InList) == [0x2c, 0x22, b, 0x22]
  {
  }

  lemma ListHead()
    ensures StringText(BARE_CODEC, NameOf(STRING), ListFirst) == [0x22, 0x73, 0x74, 0x72, 0x22]
    ensures IntText(SizeOf(2), InList) == [0x2c, 0x32]
  {
    DigitText(2);
    BareText([0x73, 0x74, 0x72]);
    assert NameOf(STRING) == [0x73, 0x74, 0x72];
  }

  /** `["i16","i8",2,{"7":1,"8":2}]` */
  lemma MapExample()
    ensures Text(BARE_CODEC, MapV(I16, BYTE, [Entry(I16V(7), ByteV(1)), Entry(I16V(8), ByteV(2))]), TopLevel)
         == [0x5b] + ([0x22, 0x69, 0x31, 0x36, 0x22] + ([0x2c, 0x22, 0x69, 0x38, 0x22] + ([0x2c, 0x32] +
            ([0x2c, 0x7b] + (([0x22, 0x37, 0x22, 0x3a, 0x31] + [0x2c, 0x22, 0x38, 0x22, 0x3a, 0x32]) + [0x7d, 0x5d])))))
  {
    var a, b := Entry(I16V(7), ByteV(1)), Entry(I16V(8), ByteV(2));
    MapHead();
    TwoEntries(a, b);
    FirstEntry();
    SecondEntry();
    AtTopLevel(MapV(I16, BYTE, [a, b]));
  }

  lemma TwoEntries(a: Entry, b: Entry)
    ensures EntriesText(BARE_CODEC, [a, b], ObjectFirst)
         == EntryText(BARE_CODEC, a, ObjectFirst) + EntryText(BARE_CODEC, b, NextKey)
  {
    assert [a, b][1..] == [b] && [b][1..] == [];
    assert EntriesText(BARE_CODEC, [b], NextKey) == EntryText(BARE_CODEC, b, NextKey) + [];
  }

  lemma FirstEntry()
    ensures EntryText(BARE_CODEC, Entry(I16V(7), ByteV(1)), ObjectFirst) == [0x22, 0x37, 0x22, 0x3a, 0x31]
  {
    DigitText(7);
    DigitText(1);
    IntValueText(I16V(7), 7);
    IntValueText(ByteV(1), 1);
  }

  lemma SecondEntry()
    ensures EntryText(BARE_CODEC, Entry(I16V(8), ByteV(2)), NextKey) == [0x2c, 0x22, 0x38, 0x22, 0x3a, 0x32]
  {
    DigitText(8);
    DigitText(2);
    IntValueText(I16V(8), 8);
    IntValueText(ByteV(2), 2);
  }

  lemma MapHead()
    ensures StringText(BARE_CODEC, NameOf(I16), ListFirst) == [0x22, 0x69, 0x31, 0x36, 0x22]
    ensures StringText(BARE_CODEC, NameOf(BYTE), InList) == [0x2c, 0x22, 0x69, 0x38, 0x22]
    ensures IntText(SizeOf(2), InList) == [0x2c, 0x32]
  {
    DigitText(2);
    BareText([0x69, 0x31, 0x36]);
    BareText([0x69, 0x38]);
    assert [0x2c] + ([0x22] + [0x69, 0x38] + [0x22]) == [0x2c, 0x22, 0x69, 0x38, 0x22];
    assert NameOf(I16) == [0x69, 0x31, 0x36] && NameOf(BYTE) == [0x69, 0x38];
  }

  /** `[1,"ping",1,7`: a call named `ping` with sequence id 7, up to its value. */
  lemma MessageExample()
    ensures var m := JsonFormat.Message([0x70, 0x69, 0x6e, 0x67], 1, 7);
            JsonRoundTrip.MessageText(BARE_CODEC, m)
                == [0x5b] + ([0x31] + ([0x2c, 0x22, 0x70, 0x69, 0x6e, 0x67, 0x22] + ([0x2c, 0x31] + [0x2c, 0x37])))
  {
    DigitText(1);
    DigitText(7);
    BareText([0x70, 0x69, 0x6e, 0x67]);
    Quoted([0x70, 0x69, 0x6e, 0x67]);
  }

  lemma Quoted(s: seq<byte>)
    ensures [0x2c] + ([0x22] + s + [0x22]) == [0x2c, 0x22] + s + [0x22]
  {
  }

  // What the reader demands between values.

  /**
   In a list a comma or the closing bracket must follow, between keys a comma or the closing brace, before a
   value a colon.
   */
  lemma SeparatorsDemanded(s: seq<byte>, stack: seq<Context>)
    requires stack != [] && s != [] && SkipSpace(s) == s
    ensures var (c, b) := (stack[|stack| - 1], s[0]);
            ParsePreValue(Reader(s, stack)).Ok?
            <==> match c
                 case InList => b == 0x2c || b == 0x5d
                 case NextKey => b == 0x2c || b == 0x7d
                 case NextValue => b == 0x3a
                 case _ => true
  {
  }

  /**
   A closing bracket is taken exactly where nothing but white space comes before it and the innermost context
   is its own.
   */
  lemma CloseDemanded(s: seq<byte>, rest: seq<byte>, stack: seq<Context>, bracket: byte, inside: set<Context>)
    requires (bracket == 0x5d || bracket == 0x7d) && stack != [] && bracket !in s &&
             !ReadIfNull(s + ([bracket] + rest)).0
    ensures ParseClose(Reader(s + ([bracket] + rest), stack), bracket, inside).Ok?
            <==> stack[|stack| - 1] in inside && OnlySpace(s)
  {
    var kept := SpaceSkipped(s, bracket, rest);
    SpaceBefore(kept, bracket);
    LineUpTo(kept, bracket, rest);
    CloseOfLine(s + ([bracket] + rest), kept + [bracket], rest, stack, bracket, inside);
  }

  lemma CloseOfLine(input: seq<byte>, line: seq<byte>, rest: seq<byte>, stack: seq<Context>, bracket: byte,
                    inside: set<Context>)
    requires stack != [] && !ReadIfNull(input).0 && ReadUntil(SkipSpace(input), bracket) == Ok((line, rest))
    ensures ParseClose(Reader(input, stack), bracket, inside).Ok?
            <==> stack[|stack| - 1] in inside && SpaceUpTo(line, bracket)
  {
  }

  predicate OnlySpace(s: seq<byte>) {
    forall i :: 0 <= i < |s| ==> SpaceAt(s, i)
  }

  predicate SpaceAt(s: seq<byte>, i: nat)
    requires i < |s|
  {
    s[i] == 0x20 || s[i] == 0x09 || s[i] == 0x0a || s[i] == 0x0d
  }

  lemma SpaceBefore(s: seq<byte>, bracket: byte)
    requires bracket !in s
    ensures SpaceUpTo(s + [bracket], bracket) <==> OnlySpace(s)
  {
    if SpaceUpTo(s + [bracket], bracket) {
      forall i | 0 <= i < |s| ensures SpaceAt(s, i) {
        assert (s + [bracket])[i] == s[i];
      }
    }
    forall i | 0 <= i < |s| + 1 && OnlySpace(s) ensures IsSpace((s + [bracket])[i]) || (s + [bracket])[i] == bracket {
      assert i < |s| ==> SpaceAt(s, i);
    }
  }

  /** Skipping ends before the bracket and leaves what is no space. */
  ghost function {:induction false} SpaceSkipped(s: seq<byte>, bracket: byte, rest: seq<byte>): (kept: seq<byte>)
    requires !IsSpace(bracket) && bracket !in s
    ensures SkipSpace(s + ([bracket] + rest)) == kept + ([bracket] + rest)
    ensures bracket !in kept && (OnlySpace(kept) <==> OnlySpace(s))
  {
    var whole := s + ([bracket] + rest);
    if s != [] && SpaceAt(s, 0) then
      assert whole[1..] == s[1..] + ([bracket] + rest);
      TailSpace(s);
      SpaceSkipped(s[1..], bracket, rest)
    else
      assert whole[0] == if s == [] then bracket else s[0];
      s
  }

  lemma TailSpace(s: seq<byte>)
    requires s != [] && SpaceAt(s, 0)
    ensures OnlySpace(s[1..]) <==> OnlySpace(s)
  {
    if OnlySpace(s[1..]) {
      forall i | 0 <= i < |s| ensures SpaceAt(s, i) {
        assert i > 0 ==> SpaceAt(s[1..], i - 1);
      }
    } else {
      var i :| 0 <= i < |s[1..]| && !SpaceAt(s[1..], i);
      assert !SpaceAt(s, i + 1);
    }
  }

  lemma LineUpTo(s: seq<byte>, bracket: byte, rest: seq<byte>)
    requires bracket !in s
    ensures ReadUntil(s + ([bracket] + rest), bracket) == Ok((s + [bracket], rest))
  {
    var whole := s + ([bracket] + rest);
    var n := |s|;
    assert whole[n] == bracket && whole[n] in whole;
    var (line, after) := ReadUntil(whole, bracket).value;
    SameEnd(whole, line, after, n, bracket);
    assert whole[..n + 1] == s + [bracket] && whole[n + 1..] == rest;
  }

  /** Cut after its first bracket, a text is cut in one place only. */
  lemma SameEnd(whole: seq<byte>, line: seq<byte>, after: seq<byte>, n: nat, bracket: byte)
    requires n < |whole| && whole[n] == bracket && bracket !in whole[..n]
    requires line + after == whole && line != [] && line[|line| - 1] == bracket && bracket !in line[..|line| - 1]
    ensures line == whole[..n + 1] && after == whole[n + 1..]
  {
    var m := |line| - 1;
    assert line == whole[..m + 1] && line[..m] == whole[..m];
    Inside(whole, m, n);
    Inside(whole, n, m);
  }

  lemma Inside(s: seq<byte>, i: nat, n: nat)
    requires i < |s| && n <= |s|
    ensures i < n ==> s[i] in s[..n]
  {
    if i < n {
      assert s[..n][i] == s[i];
    }
  }

  /** Integers are cut to their width; a boolean is true unless its 32 bits are zero. */
  lemma IntegersCut(n: int64)
    ensures IntValue(BOOL, n) == BoolV(n % 0x1_0000_0000 != 0)
    ensures IntValue(BYTE, n) == ByteV(ToInt8(n)) && IntValue(I16, n) == I16V(ToInt16(n))
    ensures IntValue(I32, n) == I32V(ToInt32(n)) && IntValue(I64, n) == I64V(n)
  {
  }

  // What a number is.

  predicate EndsNumeral(b: byte) {
    b == 0x20 || b == 0x09 || b == 0x0a || b == 0x0d || b == 0 || b == 0x7d || b == 0x5d || b == 0x2c || b == 0x3a
  }

  /** The characters up to the end of a number, its quotes left out. */
  function NumberText(s: seq<byte>): seq<byte> {
    if s == [] || EndsNumeral(s[0]) then []
    else if s[0] == 0x22 then NumberText(s[1..])
    else [s[0]] + NumberText(s[1..])
  }

  function AfterNumber(s: seq<byte>): seq<byte> {
    if s == [] || EndsNumeral(s[0]) then s else AfterNumber(s[1..])
  }

  predicate IsExponentMark(b: byte) {
    b == 0x65 || b == 0x45
  }

  /** A digit anywhere; one point, before any exponent; one exponent mark; a sign first or right after that mark. */
  predicate Fits(t: seq<byte>, i: nat)
    requires i < |t|
  {
    0x30 <= t[i] <= 0x39 ||
    (t[i] == 0x2e && 0x2e !in t[..i] && 0x65 !in t[..i] && 0x45 !in t[..i]) ||
    (IsExponentMark(t[i]) && 0x65 !in t[..i] && 0x45 !in t[..i]) ||
    ((t[i] == 0x2d || t[i] == 0x2b) && (i == 0 || IsExponentMark(t[i - 1])))
  }

  predicate IsNumeral(t: seq<byte>) {
    forall i :: 0 <= i < |t| ==> Fits(t, i)
  }

  /** Where no name begins, what is read is the numeral that is there, and anything else is refused. */
  lemma ScansNumeralsExactly(s: seq<byte>)
    requires 0x4e !in NumberText(s) && 0x49 !in NumberText(s)
    ensures var t := NumberText(s);
            ScanNumber(s, START) == if t != [] && IsNumeral(t) then Ok((Number(t), AfterNumber(s)))
                                    else Err(InvalidData)
  {
    ScansOn(s, START);
    assert START.buf + NumberText(s) == NumberText(s);
  }

  /** The state of the scan says what the characters so far allow next. */
  predicate Remembers(k: Scan) {
    (k.point <==> 0x2e in k.buf) && (k.exponent <==> 0x65 in k.buf || 0x45 in k.buf) &&
    (k.sign <==> k.buf == [] || IsExponentMark(k.buf[|k.buf| - 1])) && IsNumeral(k.buf)
  }

  lemma {:induction false} ScansOn(s: seq<byte>, k: Scan)
    requires Remembers(k) && 0x4e !in NumberText(s) && 0x49 !in NumberText(s)
    ensures var t := k.buf + NumberText(s);
            ScanNumber(s, k) == if t != [] && IsNumeral(t) then Ok((Number(t), AfterNumber(s))) else Err(InvalidData)
    decreases s
  {
    if s == [] || EndsNumeral(s[0]) {
      assert k.buf + [] == k.buf;
    } else if s[0] == 0x22 {
      ScansOn(s[1..], k.(inQuotes := true));
    } else {
      var c, t := s[0], k.buf + [s[0]];
      assert t + NumberText(s[1..]) == k.buf + NumberText(s);
      assert c in NumberText(s);
      ScansOne(s, k);
      if IsNumeral(t) {
        ScansOn(s[1..], Seen(k, c));
      } else {
        NumeralPrefix(t, NumberText(s[1..]));
      }
    }
  }

  lemma ScansOne(s: seq<byte>, k: Scan)
    requires Remembers(k) && s != [] && !EndsNumeral(s[0]) && s[0] != 0x22 && s[0] != 0x4e && s[0] != 0x49
    ensures if IsNumeral(k.buf + [s[0]]) then
              Remembers(Seen(k, s[0])) && ScanNumber(s, k) == ScanNumber(s[1..], Seen(k, s[0]))
            else ScanNumber(s, k) == Err(InvalidData)
  {
    var c := s[0];
    FitsNext(k.buf, c);
    NextAllowed(k, c);
    if Allowed(k, c) {
      RemembersNext(k, c);
      GoesOn(s, k);
    } else {
      GivesUp(s, k);
    }
  }

  predicate Allowed(k: Scan, c: byte) {
    0x30 <= c <= 0x39 || (c == 0x2e && !k.point && !k.exponent) || (IsExponentMark(c) && !k.exponent) ||
    ((c == 0x2d || c == 0x2b) && k.sign)
  }

  lemma NextAllowed(k: Scan, c: byte)
    requires Remembers(k)
    ensures Fits(k.buf + [c], |k.buf|) <==> Allowed(k, c)
  {
    var t, n := k.buf + [c], |k.buf|;
    assert t[..n] == k.buf && t[n] == c && (n > 0 ==> t[n - 1] == k.buf[n - 1]);
  }

  lemma RemembersNext(k: Scan, c: byte)
    requires Remembers(k) && IsNumeral(k.buf + [c])
    ensures Remembers(Seen(k, c))
  {
    FitsNext(k.buf, c);
  }

  lemma GoesOn(s: seq<byte>, k: Scan)
    requires s != [] && Allowed(k, s[0]) && (k.sign ==> k.buf == [] || IsExponentMark(k.buf[|k.buf| - 1]))
    ensures ScanNumber(s, k) == ScanNumber(s[1..], Seen(k, s[0]))
  {
  }

  lemma GivesUp(s: seq<byte>, k: Scan)
    requires s != [] && !Allowed(k, s[0]) && !EndsNumeral(s[0]) && s[0] != 0x22 && s[0] != 0x4e && s[0] != 0x49
    ensures ScanNumber(s, k) == Err(InvalidData)
  {
  }

  /** The state after one more character. */
  function Seen(k: Scan, c: byte): Scan {
    k.(buf := k.buf + [c], point := k.point || c == 0x2e, exponent := k.exponent || IsExponentMark(c),
       sign := IsExponentMark(c))
  }

  lemma FitsNext(buf: seq<byte>, c: byte)
    requires IsNumeral(buf)
    ensures var t := buf + [c];
            t[..|buf|] == buf && (Fits(t, |buf|) <==> IsNumeral(t)) &&
            forall b: byte :: b in t <==> b in buf || b == c
  {
    var t := buf + [c];
    assert t[..|buf|] == buf;
    forall i | 0 <= i < |buf| ensures Fits(t, i) {
      assert Fits(buf, i) && t[..i] == buf[..i];
    }
  }

  lemma NumeralPrefix(t: seq<byte>, more: seq<byte>)
    ensures IsNumeral(t + more) ==> IsNumeral(t)
  {
    if IsNumeral(t + more) {
      forall i | 0 <= i < |t| ensures Fits(t, i) {
        assert Fits(t + more, i) && (t + more)[..i] == t[..i];
      }
    }
  }

  const INFINITY: seq<byte> := [0x49, 0x6e, 0x66, 0x69, 0x6e, 0x69, 0x74, 0x79]

  /** The three names, one of them with an optional sign. */
  lemma NamesRead(rest: seq<byte>)
    ensures ScanNumber([0x4e, 0x61, 0x4e] + rest, START) == Ok((Named(NaN), rest))
    ensures ScanNumber(INFINITY + rest, START) == Ok((Named(PlusInfinity), rest))
    ensures ScanNumber([0x2b] + (INFINITY + rest), START) == Ok((Named(PlusInfinity), rest))
    ensures ScanNumber([0x2d] + (INFINITY + rest), START) == Ok((Named(MinusInfinity), rest))
  {
    NaNRead(rest);
    InfinityRead(0x2b, rest);
    InfinityRead(0x2d, rest);
  }

  lemma NaNRead(rest: seq<byte>)
    ensures ScanNumber([0x4e, 0x61, 0x4e] + rest, START) == Ok((Named(NaN), rest))
  {
    NameAfter(0x4e, [0x61, 0x4e], rest);
    assert [0x4e] + [0x61, 0x4e] + rest == [0x4e, 0x61, 0x4e] + rest;
  }

  lemma NameAfter(first: byte, name: seq<byte>, rest: seq<byte>)
    requires name != []
    ensures ([first] + name + rest)[1..] == name + rest && name <= name + rest && (name + rest)[|name|..] == rest
  {
  }

  lemma InfinityRead(sign: byte, rest: seq<byte>)
    requires sign == 0x2b || sign == 0x2d
    ensures var s := INFINITY + rest;
            ScanNumber(s, START) == Ok((Named(PlusInfinity), rest)) &&
            ScanNumber([sign] + s, START) == Ok((Named(if sign == 0x2d then MinusInfinity else PlusInfinity), rest))
  {
    var s := INFINITY + rest;
    NameAfter(0x49, [0x6e, 0x66, 0x69, 0x6e, 0x69, 0x74, 0x79], rest);
    assert [0x49] + [0x6e, 0x66, 0x69, 0x6e, 0x69, 0x74, 0x79] + rest == s;
    assert ([sign] + s)[1..] == s && START.buf + [sign] == [sign];
    assert ScanNumber([sign] + s, START) == ScanNumber(s, START.(buf := [sign], sign := false));
  }

  /** A quote ends a string unless a backslash stands before it. */
  lemma EscapesWith(b: byte)
    requires b != 0x22
    ensures QuotedBody([b, 0x22, 0x22]) == Ok(if b == 0x5c then ([b, 0x22, 0x22], []) else ([b, 0x22], [0x22]))
  {
    var line := [b, 0x22];
    LineUpTo([b], 0x22, [0x22]);
    assert [b] + ([0x22] + [0x22]) == [b, 0x22, 0x22] && [b] + [0x22] == line && line + [0x22] == [b, 0x22, 0x22];
    LastQuote();
    BackslashesBefore(b);
    assert QuotedBody([b, 0x22, 0x22]).Ok?;
  }

  lemma BackslashesBefore(b: byte)
    ensures TrailingBackslashes([b, 0x22][..1]) == if b == 0x5c then 1 else 0
  {
    assert [b, 0x22][..1] == [b] && [b][..0] == [];
    assert TrailingBackslashes([b][..0]) == 0;
  }

  lemma LastQuote()
    ensures QuotedBody([0x22]) == Ok(([0x22], []))
  {
    assert [0x22][..0] == [] && TrailingBackslashes([0x22][..0]) == 0;
    LineUpTo([], 0x22, []);
    assert [] + ([0x22] + []) == [0x22] && [] + [0x22] == [0x22];
  }

  /** A decimal numeral stands for the nearest 64-bit number, a plus sign before it for nothing; a mere sign is zero. */
  lemma IntegersRead(n: int)
    ensures ParseInt(FormatInt(n)) ==
            if n > 0x7fff_ffff_ffff_ffff then 0x7fff_ffff_ffff_ffff
            else if n < -0x8000_0000_0000_0000 then -0x8000_0000_0000_0000
            else n
    ensures n >= 0 ==> ParseInt([0x2b] + FormatInt(n)) == ParseInt(FormatInt(n))
    ensures ParseInt([]) == 0 && ParseInt([0x2b]) == 0 && ParseInt([0x2d]) == 0
  {
    if n < 0 {
      NegativeRead(-n);
    } else {
      PositiveRead(n);
    }
  }

  lemma PositiveRead(n: nat)
    ensures ParseInt(Digits(n)) == if n > 0x7fff_ffff_ffff_ffff then 0x7fff_ffff_ffff_ffff else n
    ensures ParseInt([0x2b] + Digits(n)) == ParseInt(Digits(n))
  {
    DigitsRoundTrip(n);
    DigitsOnly(n);
    assert ([0x2b] + Digits(n))[1..] == Digits(n);
  }

  lemma NegativeRead(n: int)
    requires n > 0
    ensures ParseInt([0x2d] + Digits(n)) == if n > 0x8000_0000_0000_0000 then -0x8000_0000_0000_0000 else -n
  {
    DigitsRoundTrip(n);
    DigitsOnly(n);
    assert ([0x2d] + Digits(n))[1..] == Digits(n);
  }

  lemma DigitsOnly(n: nat)
    ensures AllDigits(Digits(n)) && Digits(n)[0] != 0x2d && Digits(n)[0] != 0x2b
  {
    assert IsDigit(Digits(n)[0]);
  }

  /** With any other character in it a text is read as zero. */
  lemma OtherTextsAreZero(t: seq<byte>, i: nat)
    requires i < |t| && !(0x30 <= t[i] <= 0x39) && !(i == 0 && (t[i] == 0x2d || t[i] == 0x2b))
    ensures ParseInt(t) == 0
  {
    var signed := t[0] == 0x2d || t[0] == 0x2b;
    var d, j := if signed then t[1..] else t, if signed then i - 1 else i;
    assert d[j] == t[i] && !AllDigits(d);
  }

  /** A null is taken where it stands, and read as the integer zero. */
  lemma NullRead(codec: Codec, rest: seq<byte>)
    ensures var s := [0x6e, 0x75, 0x6c, 0x6c] + rest;
            ReadIfNull(s) == (true, rest) &&
            ParseI64(codec, Reader(s, [ListFirst])) == Ok((0, Reader(SkipSpace(rest), [InList])))
  {
    var s := [0x6e, 0x75, 0x6c, 0x6c] + rest;
    assert SkipSpace(s) == s && NULL <= s && s[4..] == rest;
    assert [ListFirst][..0] == [] && [] + [InList] == [InList];
  }
}
