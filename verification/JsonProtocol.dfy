/** The JSON protocol as an object: two context stacks, a writer and a buffered reader updated in place. */
module JsonProtocol {
  import opened Wrappers
  import opened WireTypes
  import opened Varint
  import opened WireFormat
  import opened WireTheorems
  import opened JsonText
  import opened JsonFormat

  class TJSONProtocol {
    const codec: Codec
    const maxMessageSize: nat

    var out: seq<byte>
    var dumpContext: seq<Context>
    var input: seq<byte>
    var parseContextStack: seq<Context>

    constructor (codec: Codec, input: seq<byte>, maxMessageSize: nat)
      ensures this.codec == codec && this.maxMessageSize == maxMessageSize
      ensures W() == Writer([], [TopLevel, TopLevel]) && R() == Reader(input, [TopLevel, TopLevel])
    {
      this.codec, this.maxMessageSize := codec, maxMessageSize;
      out, this.input := [], input;
      dumpContext, parseContextStack := [TopLevel, TopLevel], [TopLevel, TopLevel];
    }

    ghost function W(): Writer
      reads this
    {
      Writer(out, dumpContext)
    }

    ghost function R(): Reader
      reads this
    {
      Reader(input, parseContextStack)
    }

    /** The writer is as the function says after it, or the call failed as the function does. */
    ghost predicate WroteAs(r: Result<Writer>, o: Outcome)
      reads this
    {
      match r
      case Ok(w) => o == Pass && W() == w
      case Err(e) => o == Fail(e)
    }

    ghost predicate ReadAs(r: Result<Reader>, o: Outcome)
      reads this
    {
      match r
      case Ok(next) => o == Pass && R() == next
      case Err(e) => o == Fail(e)
    }

    /** The call gives what the function gives, and leaves the reader where it does. */
    ghost predicate Gave<T>(r: Result<(T, Reader)>, x: Result<T>)
      reads this
    {
      match r
      case Ok((v, next)) => x == Ok(v) && R() == next
      case Err(e) => x == Err(e)
    }

    // ---------- writing ----------

    method OutputPreValue() returns (o: Outcome)
      modifies this`out
      ensures WroteAs(JsonFormat.OutputPreValue(old(W())), o)
    {
      if |dumpContext| == 0 {
        return Fail(InvalidData);
      }
      match dumpContext[|dumpContext| - 1] {
        case InList | NextKey => out := out + [COMMA];
        case NextValue => out := out + [COLON];
        case _ => assert out + [] == out;
      }
      return Pass;
    }

    method OutputPostValue() returns (o: Outcome)
      modifies this`dumpContext
      ensures WroteAs(JsonFormat.OutputPostValue(old(W())), o)
    {
      if |dumpContext| == 0 {
        return Fail(InvalidData);
      }
      var top := |dumpContext| - 1;
      match dumpContext[top] {
        case ListFirst => dumpContext := dumpContext[..top] + [InList];
        case ObjectFirst | NextKey => dumpContext := dumpContext[..top] + [NextValue];
        case NextValue => dumpContext := dumpContext[..top] + [NextKey];
        case _ => assert dumpContext[..top] + [dumpContext[top]] == dumpContext;
      }
      return Pass;
    }

    method OutputStringData(s: seq<byte>)
      modifies this`out
      ensures out == old(out) + s
    {
      out := out + s;
    }

    method OutputI64(value: int64) returns (o: Outcome)
      modifies this`out, this`dumpContext
      ensures WroteAs(JsonFormat.OutputI64(old(W()), value), o)
    {
      o := OutputPreValue();
      if o.Fail? {
        return;
      }
      var text := FormatInt(value);
      match dumpContext[|dumpContext| - 1] {
        case ObjectFirst | NextKey => text := [QUOTE] + text + [QUOTE];
        case _ =>
      }
      OutputStringData(text);
      o := OutputPostValue();
    }

    method OutputString(s: seq<byte>) returns (o: Outcome)
      modifies this`out, this`dumpContext
      ensures WroteAs(JsonFormat.OutputString(codec, old(W()), s), o)
    {
      o := OutputPreValue();
      if o.Fail? {
        return;
      }
      OutputStringData(codec.quote(s));
      o := OutputPostValue();
    }

    method OutputBegin(bracket: byte, inside: Context) returns (o: Outcome)
      modifies this`out, this`dumpContext
      ensures WroteAs(JsonFormat.OutputBegin(old(W()), bracket, inside), o)
    {
      o := OutputPreValue();
      if o.Fail? {
        return;
      }
      out := out + [bracket];
      dumpContext := dumpContext + [inside];
    }

    method OutputEnd(bracket: byte) returns (o: Outcome)
      modifies this`out, this`dumpContext
      ensures WroteAs(JsonFormat.OutputEnd(old(W()), bracket), o)
    {
      out := out + [bracket];
      if |dumpContext| == 0 {
        return Fail(InvalidData);
      }
      dumpContext := dumpContext[..|dumpContext| - 1];
      o := OutputPostValue();
    }

    method WriteStructBegin() returns (o: Outcome)
      modifies this`out, this`dumpContext
      ensures WroteAs(JsonFormat.OutputBegin(old(W()), LBRACE, ObjectFirst), o)
    {
      o := OutputBegin(LBRACE, ObjectFirst);
    }

    method WriteStructEnd() returns (o: Outcome)
      modifies this`out, this`dumpContext
      ensures WroteAs(JsonFormat.OutputEnd(old(W()), RBRACE), o)
    {
      o := OutputEnd(RBRACE);
    }

    method WriteTypeName(t: TType) returns (o: Outcome)
      modifies this`out, this`dumpContext
      ensures match TypeIdToString(t)
              case Ok(name) => WroteAs(JsonFormat.OutputString(codec, old(W()), name), o)
              case Err(e) => o == Fail(e)
    {
      var name := TypeIdToString(t);
      if name.Err? {
        return Fail(name.error);
      }
      o := OutputString(name.value);
    }

    method WriteFieldBegin(t: TType, id: int16) returns (o: Outcome)
      modifies this`out, this`dumpContext
      ensures WroteAs(JsonFormat.WriteFieldBegin(codec, old(W()), t, id), o)
    {
      o := OutputI64(id);
      if o.Fail? {
        return;
      }
      o := OutputBegin(LBRACE, ObjectFirst);
      if o.Fail? {
        return;
      }
      o := WriteTypeName(t);
    }

    method WriteElemListBegin(t: TType, size: int64) returns (o: Outcome)
      modifies this`out, this`dumpContext
      ensures WroteAs(JsonFormat.WriteElemListBegin(codec, old(W()), t, size), o)
    {
      o := OutputBegin(LBRACKET, ListFirst);
      if o.Fail? {
        return;
      }
      o := WriteTypeName(t);
      if o.Fail? {
        return;
      }
      o := OutputI64(size);
    }

    method WriteMapBegin(kt: TType, vt: TType, size: int64) returns (o: Outcome)
      modifies this`out, this`dumpContext
      ensures WroteAs(JsonFormat.WriteMapBegin(codec, old(W()), kt, vt, size), o)
    {
      o := OutputBegin(LBRACKET, ListFirst);
      if o.Fail? {
        return;
      }
      o := WriteTypeName(kt);
      if o.Fail? {
        return;
      }
      o := WriteTypeName(vt);
      if o.Fail? {
        return;
      }
      o := OutputI64(size);
      if o.Fail? {
        return;
      }
      o := OutputBegin(LBRACE, ObjectFirst);
    }

    method WriteMessageBegin(m: Message) returns (o: Outcome)
      modifies this`out, this`dumpContext, this`parseContextStack
      ensures WroteAs(JsonFormat.WriteMessageBegin(codec, old(W()), m), o)
    {
      parseContextStack, dumpContext := [TopLevel], [TopLevel];
      o := OutputBegin(LBRACKET, ListFirst);
      if o.Fail? {
        return;
      }
      o := OutputI64(VERSION);
      if o.Fail? {
        return;
      }
      o := OutputString(m.name);
      if o.Fail? {
        return;
      }
      o := OutputI64(ToInt8(m.typeId));
      if o.Fail? {
        return;
      }
      o := OutputI64(m.seqId);
    }

    // ---------- reading ----------

    method ReadNonSignificantWhitespace()
      modifies this`input
      ensures input == SkipSpace(old(input))
    {
      while |input| > 0 && IsSpace(input[0])
        invariant SkipSpace(input) == SkipSpace(old(input))
        decreases |input|
      {
        input := input[1..];
      }
    }

    method ParsePreValue() returns (o: Outcome)
      modifies this`input
      ensures ReadAs(JsonFormat.ParsePreValue(old(R())), o)
    {
      ReadNonSignificantWhitespace();
      if |parseContextStack| == 0 {
        return Fail(InvalidData);
      }
      match parseContextStack[|parseContextStack| - 1] {
        case InList => o := ConsumeSeparator(COMMA, Some(RBRACKET));
        case NextKey => o := ConsumeSeparator(COMMA, Some(RBRACE));
        case NextValue => o := ConsumeSeparator(COLON, None);
        case _ => o := Pass;
      }
    }

    method ConsumeSeparator(separator: byte, end: Option<byte>) returns (o: Outcome)
      modifies this`input
      ensures match AfterSeparator(old(input), separator, end)
              case Ok(s) => o == Pass && input == s
              case Err(e) => o == Fail(e)
    {
      if |input| > 0 {
        if input[0] == separator {
          input := input[1..];
          ReadNonSignificantWhitespace();
        } else if end != Some(input[0]) {
          return Fail(InvalidData);
        }
      }
      return Pass;
    }

    method ParsePostValue() returns (o: Outcome)
      modifies this`input, this`parseContextStack
      ensures ReadAs(JsonFormat.ParsePostValue(old(R())), o)
    {
      ReadNonSignificantWhitespace();
      if |parseContextStack| == 0 {
        return Fail(InvalidData);
      }
      var top := |parseContextStack| - 1;
      match parseContextStack[top] {
        case ListFirst => parseContextStack := parseContextStack[..top] + [InList];
        case ObjectFirst | NextKey => parseContextStack := parseContextStack[..top] + [NextValue];
        case NextValue => parseContextStack := parseContextStack[..top] + [NextKey];
        case _ => assert parseContextStack[..top] + [parseContextStack[top]] == parseContextStack;
      }
      return Pass;
    }

    /** `bufio.Reader.ReadString`: everything up to and including the mark. */
    method ReadLine(mark: byte) returns (r: Result<seq<byte>>)
      modifies this`input
      ensures match ReadUntil(old(input), mark)
              case Ok((line, rest)) => r == Ok(line) && input == rest
              case Err(e) => r == Err(e)
    {
      var line: seq<byte> := [];
      ghost var all := ReadUntil(input, mark);
      assert all.Ok? ==> [] + all.value.0 == all.value.0;
      while |input| > 0
        invariant match ReadUntil(input, mark)
                  case Ok((more, rest)) => all == Ok((line + more, rest))
                  case Err(e) => all == Err(e)
        decreases |input|
      {
        ghost var s := input;
        var c := input[0];
        input := input[1..];
        if c == mark {
          return Ok(line + [c]);
        }
        ghost var tail := ReadUntil(input, mark);
        if tail.Ok? {
          Associate(line, [c], tail.value.0);
        }
        line := line + [c];
      }
      return Err(EndOfFile);
    }

    /** Counts the backslashes before the final quote; an even number leaves it unescaped. */
    method EndsString(line: seq<byte>) returns (ends: bool)
      requires line != []
      ensures ends <==> TrailingBackslashes(line[..|line| - 1]) % 2 == 0
    {
      var l := |line|;
      var i := 1;
      while i < l && line[l - i - 1] == BACKSLASH
        invariant 1 <= i <= l
        invariant TrailingBackslashes(line[..l - 1]) == (i - 1) + TrailingBackslashes(line[..l - i])
        decreases l - i
      {
        assert line[..l - i][..l - i - 1] == line[..l - (i + 1)];
        i := i + 1;
      }
      assert TrailingBackslashes(line[..l - i]) == 0;
      return i % 2 == 1;
    }

    method ParseQuotedStringBody() returns (r: Result<seq<byte>>)
      modifies this`input
      ensures match QuotedBody(old(input))
              case Ok((body, rest)) => r == Ok(body) && input == rest
              case Err(e) => r == Err(e)
      decreases |input|
    {
      ghost var s := input;
      var line := ReadLine(QUOTE);
      if line.Err? {
        return Err(line.error);
      }
      assert |line.value| + |input| == |s|;
      var ends := EndsString(line.value);
      if ends {
        return line;
      }
      var more := ParseQuotedStringBody();
      if more.Err? {
        return Err(more.error);
      }
      return Ok(line.value + more.value);
    }

    /**
     The string after its opening quote. When the first line is the whole string and does not
     decode, the error returned is nil and the string empty.
     */
    method ParseStringBody() returns (r: Result<seq<byte>>)
      modifies this`input
      ensures match StringBody(codec, old(input))
              case Ok((text, rest)) => r == Ok(text) && input == rest
              case Err(e) => r == Err(e)
    {
      ghost var s := input;
      var line := ReadLine(QUOTE);
      if line.Err? {
        return Err(line.error);
      }
      assert |line.value| + |input| == |s|;
      var ends := EndsString(line.value);
      if ends {
        var text := codec.unquote([QUOTE] + line.value);
        return Ok(if text.Some? then text.value else []);
      }
      var more := ParseQuotedStringBody();
      if more.Err? {
        return Err(more.error);
      }
      Associate([QUOTE], line.value, more.value);
      var text := codec.unquote([QUOTE] + line.value + more.value);
      return if text.Some? then Ok(text.value) else Err(InvalidData);
    }

    method ReadNumeric() returns (r: Result<Numeric>)
      modifies this`input
      ensures match ScanNumber(old(input), START)
              case Ok((n, rest)) => r == Ok(n) && input == rest
              case Err(e) => r == Err(e)
    {
      ghost var all := ScanNumber(input, START);
      var k := START;
      while |input| > 0 && !EndsNumber(input[0])
        invariant all == ScanNumber(input, k)
        decreases |input|
      {
        var c := input[0];
        input := input[1..];
        if IsDigit(c) {
          k := k.(buf := k.buf + [c], sign := false);
        } else if c == 0x2e {
          if k.point || k.exponent {
            return Err(InvalidData);
          }
          k := k.(buf := k.buf + [c], point := true, sign := false);
        } else if c == 0x65 || c == 0x45 {
          if k.exponent {
            return Err(InvalidData);
          }
          k := k.(buf := k.buf + [c], exponent := true, sign := true);
        } else if c == MINUS || c == PLUS {
          if !k.sign {
            return Err(InvalidData);
          }
          k := k.(buf := k.buf + [c], sign := false);
        } else if c == 0x4e {
          if k.buf != [] {
            return Err(InvalidData);
          }
          r := ReadName(NAN_REST, NaN, k.inQuotes);
          return;
        } else if c == 0x49 {
          if k.buf == [] || k.buf == [PLUS] {
            r := ReadName(INFINITY_REST, PlusInfinity, k.inQuotes);
          } else if k.buf == [MINUS] {
            r := ReadName(INFINITY_REST, MinusInfinity, k.inQuotes);
          } else {
            r := Err(InvalidData);
          }
          return;
        } else if c == QUOTE {
          k := k.(inQuotes := true);
        } else {
          return Err(InvalidData);
        }
      }
      return if |k.buf| == 0 then Err(InvalidData) else Ok(Number(k.buf));
    }

    method ReadName(name: seq<byte>, special: Special, inQuotes: bool) returns (r: Result<Numeric>)
      modifies this`input
      ensures match TakeName(old(input), name, special, inQuotes)
              case Ok((n, rest)) => r == Ok(n) && input == rest
              case Err(e) => r == Err(e)
    {
      if |input| == 0 {
        return Err(EndOfFile);
      }
      if !(name <= input) {
        return Err(InvalidData);
      }
      input := input[|name|..];
      if inQuotes && |input| > 0 && input[0] == QUOTE {
        input := input[1..];
      }
      return Ok(Named(special));
    }

    method ParseI64() returns (x: Result<int64>)
      modifies this`input, this`parseContextStack
      ensures Gave(JsonFormat.ParseI64(codec, old(R())), x)
    {
      var o := ParsePreValue();
      if o.Fail? {
        return Err(o.error);
      }
      var value: int64 := 0;
      if NULL <= input {
        input := input[4..];
      } else {
        var n := ReadNumeric();
        if n.Err? {
          return Err(n.error);
        }
        value := Int64(codec, n.value);
      }
      o := ParsePostValue();
      x := match o case Pass => Ok(value) case Fail(e) => Err(e);
    }

    method ReadString() returns (x: Result<seq<byte>>)
      modifies this`input, this`parseContextStack
      ensures Gave(JsonFormat.ReadString(codec, old(R())), x)
    {
      var o := ParsePreValue();
      if o.Fail? {
        return Err(o.error);
      }
      var text: seq<byte> := [];
      if |input| > 0 && input[0] == QUOTE {
        input := input[1..];
        var body := ParseStringBody();
        if body.Err? {
          return Err(body.error);
        }
        text := body.value;
      } else if |input| > 0 && input[0] == NULL[0] {
        if !(NULL <= input) {
          return Err(InvalidData);
        }
        input := input[4..];
      } else {
        return Err(InvalidData);
      }
      o := ParsePostValue();
      x := match o case Pass => Ok(text) case Fail(e) => Err(e);
    }

    method ParseBegin(bracket: byte, inside: Context) returns (isNull: Result<bool>)
      modifies this`input, this`parseContextStack
      ensures Gave(JsonFormat.ParseBegin(old(R()), bracket, inside), isNull)
    {
      var o := ParsePreValue();
      if o.Fail? {
        return Err(o.error);
      }
      if |input| == 0 {
        return Err(EndOfFile);
      }
      if input[0] == bracket {
        input := input[1..];
        parseContextStack := parseContextStack + [inside];
        return Ok(false);
      } else if NULL <= input {
        return Ok(true);
      }
      return Err(InvalidData);
    }

    method ReadIfNull() returns (isNull: bool)
      modifies this`input
      ensures (isNull, input) == JsonFormat.ReadIfNull(old(input))
    {
      ReadNonSignificantWhitespace();
      if NULL <= input {
        input := input[4..];
        return true;
      }
      return false;
    }

    method ParseClose(bracket: byte, inside: set<Context>) returns (isNull: Result<bool>)
      modifies this`input, this`parseContextStack
      ensures Gave(JsonFormat.ParseClose(old(R()), bracket, inside), isNull)
    {
      var nothing := ReadIfNull();
      if nothing {
        return Ok(true);
      }
      if |parseContextStack| == 0 || parseContextStack[|parseContextStack| - 1] !in inside {
        return Err(InvalidData);
      }
      var line := ReadLine(bracket);
      if line.Err? {
        return Err(line.error);
      }
      var clear := OnlySpace(line.value, bracket);
      if !clear {
        return Err(InvalidData);
      }
      parseContextStack := parseContextStack[..|parseContextStack| - 1];
      return Ok(false);
    }

    static method OnlySpace(line: seq<byte>, bracket: byte) returns (clear: bool)
      ensures clear <==> SpaceUpTo(line, bracket)
    {
      for i := 0 to |line|
        invariant forall j :: 0 <= j < i ==> IsSpace(line[j]) || line[j] == bracket
      {
        if !(IsSpace(line[i]) || line[i] == bracket) {
          return false;
        }
      }
      return true;
    }

    method ParseObjectEnd() returns (o: Outcome)
      modifies this`input, this`parseContextStack
      ensures ReadAs(JsonFormat.ParseObjectEnd(old(R())), o)
    {
      var isNull := ParseClose(RBRACE, {ObjectFirst, NextKey});
      if isNull.Err? {
        return Fail(isNull.error);
      }
      if isNull.value {
        return Pass;
      }
      o := ParsePostValue();
    }

    method ParseListEnd() returns (o: Outcome)
      modifies this`input, this`parseContextStack
      ensures ReadAs(JsonFormat.ParseListEnd(old(R())), o)
    {
      var isNull := ParseClose(RBRACKET, {InList});
      if isNull.Err? {
        return Fail(isNull.error);
      }
      if isNull.value {
        return Pass;
      }
      if |parseContextStack| == 0 {
        return Fail(InvalidData);
      }
      if parseContextStack[|parseContextStack| - 1] == TopLevel {
        return Pass;
      }
      o := ParsePostValue();
    }

    method ReadType() returns (x: Result<TType>)
      modifies this`input, this`parseContextStack
      ensures Gave(JsonFormat.ReadType(codec, old(R())), x)
    {
      var name := ReadString();
      if name.Err? {
        return Err(name.error);
      }
      return StringToTypeId(name.value);
    }

    method ReadSize() returns (x: Result<int64>)
      modifies this`input, this`parseContextStack
      ensures Gave(JsonFormat.ReadSize(codec, old(R()), maxMessageSize), x)
    {
      x := ParseI64();
      if x.Ok? {
        var checked := CheckSize(ToInt32(x.value), maxMessageSize);
        if checked.Err? {
          return Err(checked.error);
        }
      }
    }

    method ReadElemListBegin() returns (x: Result<(TType, int64)>)
      modifies this`input, this`parseContextStack
      ensures match JsonFormat.ReadElemListBegin(codec, old(R()), maxMessageSize)
              case Ok((t, n, r)) => x == Ok((t, n)) && R() == r
              case Err(e) => x == Err(e)
    {
      var isNull := ParseBegin(LBRACKET, ListFirst);
      if isNull.Err? {
        return Err(isNull.error);
      }
      if isNull.value {
        return Ok((VOID, 0));
      }
      var t := ReadType();
      if t.Err? {
        return Err(t.error);
      }
      var n := ReadSize();
      if n.Err? {
        return Err(n.error);
      }
      return Ok((t.value, n.value));
    }

    method ReadMapBegin() returns (x: Result<(TType, TType, int64)>)
      modifies this`input, this`parseContextStack
      ensures match JsonFormat.ReadMapBegin(codec, old(R()), maxMessageSize)
              case Ok((kt, vt, n, r)) => x == Ok((kt, vt, n)) && R() == r
              case Err(e) => x == Err(e)
    {
      var isNull := ParseBegin(LBRACKET, ListFirst);
      if isNull.Err? {
        return Err(isNull.error);
      }
      if isNull.value {
        return Ok((VOID, VOID, 0));
      }
      var kt := ReadType();
      if kt.Err? {
        return Err(kt.error);
      }
      var vt := ReadType();
      if vt.Err? {
        return Err(vt.error);
      }
      var n := ReadSize();
      if n.Err? {
        return Err(n.error);
      }
      isNull := ParseBegin(LBRACE, ObjectFirst);
      if isNull.Err? {
        return Err(isNull.error);
      }
      return Ok((kt.value, vt.value, n.value));
    }

    method ReadFieldBegin() returns (x: Result<(TType, int16)>)
      modifies this`input, this`parseContextStack
      ensures match JsonFormat.ReadFieldBegin(codec, old(R()))
              case Ok((t, id, r)) => x == Ok((t, id)) && R() == r
              case Err(e) => x == Err(e)
    {
      if |input| == 0 || input[0] == RBRACE || input[0] == RBRACKET {
        return Ok((STOP, -1));
      }
      var id := ParseI64();
      if id.Err? {
        return Err(id.error);
      }
      var isNull := ParseBegin(LBRACE, ObjectFirst);
      if isNull.Err? {
        return Err(isNull.error);
      }
      var t := ReadType();
      if t.Err? {
        return Err(t.error);
      }
      return Ok((t.value, ToInt16(id.value)));
    }

    method ReadMessageBegin() returns (x: Result<Message>)
      modifies this`input, this`dumpContext, this`parseContextStack
      ensures Gave(JsonFormat.ReadMessageBegin(codec, old(R())), x)
    {
      parseContextStack, dumpContext := [TopLevel], [TopLevel];
      var isNull := ParseBegin(LBRACKET, ListFirst);
      if isNull.Err? {
        return Err(isNull.error);
      }
      if isNull.value {
        return Ok(Message([], 0, 0));
      }
      var version := ParseI64();
      if version.Err? {
        return Err(version.error);
      }
      if ToInt32(version.value) != VERSION {
        return Err(InvalidData);
      }
      x := ReadMessageRest();
    }

    method ReadMessageRest() returns (x: Result<Message>)
      modifies this`input, this`parseContextStack
      ensures Gave(JsonFormat.ReadMessageRest(codec, old(R())), x)
    {
      var name := ReadString();
      if name.Err? {
        return Err(name.error);
      }
      var typeId := ParseI64();
      if typeId.Err? {
        return Err(typeId.error);
      }
      var seqId := ParseI64();
      if seqId.Err? {
        return Err(seqId.error);
      }
      return Ok(Message(name.value, ToInt8(typeId.value), ToInt32(seqId.value)));
    }
  }
}
