/** Characters of JSON text: where a string ends, what a number is, what white space is. */
module JsonText {
  import opened Wrappers
  import opened WireTypes
  import opened WireTheorems

  const QUOTE: byte := 0x22
  const BACKSLASH: byte := 0x5c
  const COMMA: byte := 0x2c
  const COLON: byte := 0x3a
  const LBRACE: byte := 0x7b
  const RBRACE: byte := 0x7d
  const LBRACKET: byte := 0x5b
  const RBRACKET: byte := 0x5d
  const MINUS: byte := 0x2d
  const PLUS: byte := 0x2b
  const NULL: seq<byte> := [0x6e, 0x75, 0x6c, 0x6c]

  /** Up to and including the first `mark`, as a buffered reader delivers it, and the rest. */
  function ReadUntil(s: seq<byte>, mark: byte): (r: Result<(seq<byte>, seq<byte>)>)
    ensures r.Ok? ==> r.value.0 != [] && r.value.0 + r.value.1 == s && r.value.0[|r.value.0| - 1] == mark
    ensures r.Ok? ==> mark !in r.value.0[..|r.value.0| - 1]
    ensures r.Err? <==> mark !in s
    ensures r.Err? ==> r.error == EndOfFile
  {
    if s == [] then Err(EndOfFile)
    else if s[0] == mark then
      assert [s[0]] + s[1..] == s;
      Ok(([s[0]], s[1..]))
    else
      var r := ReadUntil(s[1..], mark);
      if r.Err? then r
      else
        var (line, rest) := r.value;
        assert ([s[0]] + line) + rest == s by {
          Associate([s[0]], line, rest);
        }
        assert ([s[0]] + line)[..|line|] == [s[0]] + line[..|line| - 1];
        Ok(([s[0]] + line, rest))
  }

  // ---------- where a string ends ----------

  /** Backslashes at the very end of `w`. */
  function TrailingBackslashes(w: seq<byte>): (n: nat)
    ensures n <= |w|
  {
    if w == [] || w[|w| - 1] != BACKSLASH then 0 else 1 + TrailingBackslashes(w[..|w| - 1])
  }

  /**
   The string body as the reader takes it: lines up to a quote are put together until a quote has an
   even number of backslashes right before it in its own line.
   */
  function QuotedBody(s: seq<byte>): (r: Result<(seq<byte>, seq<byte>)>)
    ensures r.Ok? ==> r.value.0 != [] && r.value.0 + r.value.1 == s
    decreases |s|
  {
    var r := ReadUntil(s, QUOTE);
    if r.Err? then r
    else
      var (line, rest) := r.value;
      if TrailingBackslashes(line[..|line| - 1]) % 2 == 0 then r
      else
        assert |line| + |rest| == |s|;
        var more := QuotedBody(rest);
        if more.Err? then more
        else
          Associate(line, more.value.0, more.value.1);
          Ok((line + more.value.0, more.value.1))
  }

  /** The forward automaton's state after `w`: whether the next character is escaped. */
  function Escaped(w: seq<byte>, escaped: bool): bool {
    if w == [] then escaped else Escaped(w[1..], w[0] == BACKSLASH && !escaped)
  }

  /** The first quote that the automaton, started in a state, does not find escaped. */
  function ClosingQuote(s: seq<byte>, escaped: bool): (k: Option<nat>)
    ensures k.Some? ==> k.value < |s| && s[k.value] == QUOTE
  {
    if s == [] then None
    else if s[0] == QUOTE && !escaped then Some(0)
    else
      var k := ClosingQuote(s[1..], s[0] == BACKSLASH && !escaped);
      if k.None? then None else Some(1 + k.value)
  }

  lemma {:induction false} EscapedSnoc(w: seq<byte>, c: byte, escaped: bool)
    ensures Escaped(w + [c], escaped) <==> c == BACKSLASH && !Escaped(w, escaped)
    decreases w
  {
    if w == [] {
      assert [c][1..] == [];
    } else {
      assert (w + [c])[1..] == w[1..] + [c];
      EscapedSnoc(w[1..], c, w[0] == BACKSLASH && !escaped);
    }
  }

  /** Counting backwards agrees with the automaton. */
  lemma {:induction false} CountIsParity(w: seq<byte>)
    ensures Escaped(w, false) <==> TrailingBackslashes(w) % 2 == 1
    decreases |w|
  {
    if w != [] {
      var init, c := w[..|w| - 1], w[|w| - 1];
      CountIsParity(init);
      EscapedSnoc(init, c, false);
      assert init + [c] == w;
    }
  }

  function Shift(k: Option<nat>, n: nat): Option<nat> {
    if k.None? then None else Some(n + k.value)
  }

  /** Without a quote in `w` the automaton only changes its state. */
  lemma {:induction false} PassOver(w: seq<byte>, t: seq<byte>, escaped: bool)
    requires QUOTE !in w
    ensures ClosingQuote(w + t, escaped) == Shift(ClosingQuote(t, Escaped(w, escaped)), |w|)
    decreases w
  {
    if w == [] {
      assert w + t == t;
    } else {
      assert (w + t)[1..] == w[1..] + t;
      PassOver(w[1..], t, w[0] == BACKSLASH && !escaped);
    }
  }

  /** After one line: the string ends with it, or goes on from its end. */
  lemma LineThenRest(w: seq<byte>, rest: seq<byte>)
    requires QUOTE !in w
    ensures ClosingQuote(w + [QUOTE] + rest, false)
         == if TrailingBackslashes(w) % 2 == 0 then Some(|w|) else Shift(ClosingQuote(rest, false), |w| + 1)
  {
    var t := [QUOTE] + rest;
    Associate(w, [QUOTE], rest);
    PassOver(w, t, false);
    CountIsParity(w);
    assert t[1..] == rest;
  }

  /** The body read from `s` ends with the quote at `end`, or for want of one reading fails. */
  predicate BodyEnds(s: seq<byte>, end: Option<nat>) {
    match end
    case Some(k) => k < |s| && QuotedBody(s) == Ok((s[..k + 1], s[k + 1..]))
    case None => QuotedBody(s) == Err(EndOfFile)
  }

  /**
   On every input, the body read ends at exactly the quote where the automaton finds the string to
   end, and what follows is left unread; without such a quote reading fails.
   */
  lemma {:induction false} BodyEndsAtClosingQuote(s: seq<byte>)
    ensures BodyEnds(s, ClosingQuote(s, false))
    decreases |s|
  {
    var r := ReadUntil(s, QUOTE);
    if r.Err? {
      PassOver(s, [], false);
      assert s + [] == s;
    } else {
      var (line, rest) := r.value;
      var w := line[..|line| - 1];
      assert line == w + [QUOTE];
      LineThenRest(w, rest);
      if TrailingBackslashes(w) % 2 == 0 {
        assert s[..|w| + 1] == line && s[|w| + 1..] == rest;
      } else {
        BodyEndsAtClosingQuote(rest);
        LineGoesOn(s, line, rest, ClosingQuote(rest, false));
      }
    }
  }

  lemma LineGoesOn(s: seq<byte>, line: seq<byte>, rest: seq<byte>, end: Option<nat>)
    requires ReadUntil(s, QUOTE) == Ok((line, rest)) && line != [] && TrailingBackslashes(line[..|line| - 1]) % 2 != 0
    requires s == line + rest && BodyEnds(rest, end)
    ensures BodyEnds(s, Shift(end, |line|))
  {
    if end.Some? {
      Splice(s, line, rest, end.value);
    }
  }

  lemma Splice(s: seq<byte>, line: seq<byte>, rest: seq<byte>, k: nat)
    requires s == line + rest && k < |rest|
    ensures line + rest[..k + 1] == s[..|line| + k + 1] && rest[k + 1..] == s[|line| + k + 1..]
  {
  }

  // ---------- strings ----------

  /** The string encoder and decoder of the JSON library and the text form of a UUID. */
  datatype Codec = Codec(
    valid: seq<byte> -> bool, quote: seq<byte> -> seq<byte>, unquote: seq<byte> -> Option<seq<byte>>,
    uuidText: seq<byte> -> seq<byte>, parseUuid: seq<byte> -> Option<seq<byte>>, special: Special -> int64)

  /** `body` followed by a quote is exactly one string body. */
  predicate ClosesItself(body: seq<byte>) {
    ClosingQuote(body + [QUOTE], false) == Some(|body|)
  }

  /**
   On valid text the pair is inverse, and what it produces is one quoted string that closes where it
   ends; a UUID's text and plain names are valid.
   */
  ghost predicate LawfulCodec(c: Codec) {
    (forall s {:trigger c.unquote(c.quote(s))} :: c.valid(s) ==>
       c.unquote(c.quote(s)) == Some(s) && IsQuoted(c.quote(s))) &&
    (forall u {:trigger c.parseUuid(c.uuidText(u))} ::
       |u| == 16 ==> c.valid(c.uuidText(u)) && c.parseUuid(c.uuidText(u)) == Some(u)) &&
    (forall s {:trigger IsPlain(s)} :: IsPlain(s) ==> c.valid(s))
  }

  predicate IsPlain(s: seq<byte>) {
    forall i :: 0 <= i < |s| ==> PlainChar(s[i])
  }

  predicate IsQuoted(q: seq<byte>) {
    |q| >= 2 && q[0] == QUOTE && q[|q| - 1] == QUOTE && ClosesItself(q[1..|q| - 1])
  }

  /** A character that a JSON string holds as itself: here letters, digits and the minus sign suffice. */
  predicate PlainChar(b: byte) {
    IsDigit(b) || 0x61 <= b <= 0x7a || b == MINUS
  }

  /**
   The text after an opening quote, up to the matching one. A body with no escaped quote that the
   library cannot decode gives an empty string and no error.
   */
  function StringBody(c: Codec, s: seq<byte>): Result<(seq<byte>, seq<byte>)> {
    var (body, rest) :- QuotedBody(s);
    var text := c.unquote([QUOTE] + body);
    if text.Some? then Ok((text.value, rest))
    else if ReadUntil(s, QUOTE) == Ok((body, rest)) then Ok(([], rest))
    else Err(InvalidData)
  }

  lemma QuotedText(c: Codec, s: seq<byte>)
    requires LawfulCodec(c) && c.valid(s)
    ensures c.unquote(c.quote(s)) == Some(s) && IsQuoted(c.quote(s))
  {
    assert c.unquote(c.quote(s)) == Some(s);
  }

  lemma BodyOfQuoted(q: seq<byte>, rest: seq<byte>)
    requires IsQuoted(q)
    ensures QuotedBody(q[1..] + rest) == Ok((q[1..], rest)) && [QUOTE] + q[1..] == q
  {
    var body := q[1..|q| - 1];
    assert q[1..] == body + [QUOTE];
    var t := q[1..] + rest;
    SameStart(q[1..], t, false);
    BodyEndsAtClosingQuote(t);
    assert t[..|body| + 1] == q[1..] && t[|body| + 1..] == rest;
  }

  lemma StringBodyRoundTrip(c: Codec, s: seq<byte>, rest: seq<byte>)
    requires LawfulCodec(c) && c.valid(s)
    ensures var q := c.quote(s); q != [] && q[0] == QUOTE && StringBody(c, q[1..] + rest) == Ok((s, rest))
  {
    QuotedText(c, s);
    BodyOfQuoted(c.quote(s), rest);
  }

  lemma {:induction false} SameStart(s: seq<byte>, t: seq<byte>, escaped: bool)
    requires s <= t && ClosingQuote(s, escaped).Some?
    ensures ClosingQuote(t, escaped) == ClosingQuote(s, escaped)
    decreases s
  {
    if !(s[0] == QUOTE && !escaped) {
      SameStart(s[1..], t[1..], s[0] == BACKSLASH && !escaped);
    }
  }

  // ---------- numbers ----------

  predicate IsDigit(b: byte) {
    0x30 <= b <= 0x39
  }

  predicate IsSpace(b: byte) {
    b == 0x20 || b == 0x0d || b == 0x0a || b == 0x09
  }

  function SkipSpace(s: seq<byte>): (r: seq<byte>)
    ensures |r| <= |s| && (r != [] ==> !IsSpace(r[0]))
  {
    if s != [] && IsSpace(s[0]) then SkipSpace(s[1..]) else s
  }

  /** What ends a number without belonging to it. */
  predicate EndsNumber(b: byte) {
    b == 0x20 || b == 0 || b == 0x09 || b == 0x0a || b == 0x0d || b == RBRACE || b == RBRACKET || b == COMMA ||
    b == COLON
  }

  datatype Special = NaN | PlusInfinity | MinusInfinity

  /** The characters of a number, or one of the three names. */
  datatype Numeric = Number(chars: seq<byte>) | Named(special: Special)

  datatype Scan = Scan(buf: seq<byte>, point: bool, sign: bool, exponent: bool, inQuotes: bool)

  const NAN_REST: seq<byte> := [0x61, 0x4e]
  const INFINITY_REST: seq<byte> := [0x6e, 0x66, 0x69, 0x6e, 0x69, 0x74, 0x79]

  /** The rest of a name, and a quote after it if the number was quoted. */
  function TakeName(s: seq<byte>, name: seq<byte>, special: Special, inQuotes: bool): (r: Result<(Numeric, seq<byte>)>)
    ensures r.Ok? ==> |r.value.1| <= |s|
  {
    if s == [] then Err(EndOfFile)
    else if !(name <= s) then Err(InvalidData)
    else
      var rest := s[|name|..];
      Ok((Named(special), if inQuotes && rest != [] && rest[0] == QUOTE then rest[1..] else rest))
  }

  /** Quotes are passed over wherever they stand. */
  function ScanNumber(s: seq<byte>, k: Scan): (r: Result<(Numeric, seq<byte>)>)
    ensures r.Ok? ==> |r.value.1| <= |s|
    decreases |s|
  {
    if s == [] || EndsNumber(s[0]) then (if k.buf == [] then Err(InvalidData) else Ok((Number(k.buf), s)))
    else
      var c, rest := s[0], s[1..];
      if IsDigit(c) then ScanNumber(rest, k.(buf := k.buf + [c], sign := false))
      else if c == 0x2e then
        if k.point || k.exponent then Err(InvalidData)
        else ScanNumber(rest, k.(buf := k.buf + [c], point := true, sign := false))
      else if c == 0x65 || c == 0x45 then
        if k.exponent then Err(InvalidData)
        else ScanNumber(rest, k.(buf := k.buf + [c], exponent := true, sign := true))
      else if c == MINUS || c == PLUS then
        if !k.sign then Err(InvalidData)
        else ScanNumber(rest, k.(buf := k.buf + [c], sign := false))
      else if c == 0x4e then
        if k.buf == [] then TakeName(rest, NAN_REST, NaN, k.inQuotes) else Err(InvalidData)
      else if c == 0x49 then
        if k.buf == [] || k.buf == [PLUS] then TakeName(rest, INFINITY_REST, PlusInfinity, k.inQuotes)
        else if k.buf == [MINUS] then TakeName(rest, INFINITY_REST, MinusInfinity, k.inQuotes)
        else Err(InvalidData)
      else if c == QUOTE then ScanNumber(rest, k.(inQuotes := true))
      else Err(InvalidData)
  }

  const START := Scan([], false, true, false, false)

  /** A number takes at least one character. */
  lemma {:induction false} ScanConsumes(s: seq<byte>, k: Scan)
    requires k.buf == []
    ensures var r := ScanNumber(s, k); r.Ok? ==> |r.value.1| < |s|
  {
  }

  // Decimal integers.

  function Digits(n: nat): (d: seq<byte>)
    ensures d != [] && forall i :: 0 <= i < |d| ==> IsDigit(d[i])
  {
    var last: byte := 0x30 + n % 10;
    if n < 10 then [last] else Digits(n / 10) + [last]
  }

  /** `strconv.FormatInt` with base 10. */
  function FormatInt(n: int): (d: seq<byte>)
    ensures d != []
  {
    if n < 0 then [MINUS] + Digits(-n) else Digits(n)
  }

  function DigitsValue(d: seq<byte>): nat
    requires forall i :: 0 <= i < |d| ==> IsDigit(d[i])
  {
    if d == [] then 0
    else
      assert IsDigit(d[|d| - 1]);
      10 * DigitsValue(d[..|d| - 1]) + (d[|d| - 1] as int - 0x30)
  }

  const MAX_INT64 := 0x7fff_ffff_ffff_ffff
  const MIN_INT64 := -0x8000_0000_0000_0000

  predicate AllDigits(d: seq<byte>) {
    forall i :: 0 <= i < |d| ==> IsDigit(d[i])
  }

  /** `strconv.ParseInt` with its error ignored: zero for bad syntax, the nearest value out of range. */
  function ParseInt(t: seq<byte>): int64 {
    var negative := t != [] && t[0] == MINUS;
    var d := if t != [] && (t[0] == MINUS || t[0] == PLUS) then t[1..] else t;
    if d == [] || !AllDigits(d) then 0
    else
      var v: int := DigitsValue(d);
      var n := if negative then -v else v;
      if n > MAX_INT64 then MAX_INT64 else if n < MIN_INT64 then MIN_INT64 else n
  }

  lemma {:induction false} DigitsRoundTrip(n: nat)
    ensures DigitsValue(Digits(n)) == n
    decreases n
  {
    if n >= 10 {
      DigitsRoundTrip(n / 10);
      assert Digits(n)[..|Digits(n)| - 1] == Digits(n / 10);
    }
  }

  lemma IntRoundTrip(n: int64)
    ensures ParseInt(FormatInt(n)) == n
  {
    if n < 0 {
      var m: int := n;
      DigitsRoundTrip(-m);
      assert FormatInt(n)[1..] == Digits(-m);
    } else {
      DigitsRoundTrip(n);
    }
  }

  /** Nothing that could continue a number. */
  predicate Delimited(rest: seq<byte>) {
    rest == [] || EndsNumber(rest[0])
  }

  lemma {:induction false} ScanDigits(d: seq<byte>, rest: seq<byte>, k: Scan)
    requires forall i :: 0 <= i < |d| ==> IsDigit(d[i])
    ensures ScanNumber(d + rest, k) == ScanNumber(rest, k.(buf := k.buf + d, sign := k.sign && d == []))
    decreases d
  {
    if d == [] {
      assert d + rest == rest && k.buf + d == k.buf;
    } else {
      assert (d + rest)[1..] == d[1..] + rest;
      var k' := k.(buf := k.buf + [d[0]], sign := false);
      ScanDigits(d[1..], rest, k');
      assert k'.buf + d[1..] == k.buf + d;
    }
  }

  lemma ScanInt(n: int, rest: seq<byte>, k: Scan)
    requires k.buf == [] && k.sign
    ensures ScanNumber(FormatInt(n) + rest, k) == ScanNumber(rest, k.(buf := FormatInt(n), sign := false))
  {
    if n < 0 {
      var d := Digits(-n);
      assert (FormatInt(n) + rest)[1..] == d + rest;
      ScanDigits(d, rest, k.(buf := k.buf + [MINUS], sign := false));
      assert k.buf + [MINUS] + d == FormatInt(n);
    } else {
      ScanDigits(Digits(n), rest, k);
      assert k.buf + Digits(n) == FormatInt(n);
    }
  }

  lemma ScanPlain(n: int, rest: seq<byte>)
    requires Delimited(rest)
    ensures ScanNumber(FormatInt(n) + rest, START) == Ok((Number(FormatInt(n)), rest))
  {
    ScanInt(n, rest, START);
  }

  lemma ScanQuoted(n: int, rest: seq<byte>)
    requires Delimited(rest)
    ensures ScanNumber([QUOTE] + FormatInt(n) + [QUOTE] + rest, START) == Ok((Number(FormatInt(n)), rest))
  {
    var s := [QUOTE] + FormatInt(n) + [QUOTE] + rest;
    var tail := [QUOTE] + rest;
    assert s[1..] == FormatInt(n) + tail;
    var k := START.(inQuotes := true);
    PassQuote(s, START);
    ScanInt(n, tail, k);
    assert tail[1..] == rest;
    PassQuote(tail, k.(buf := FormatInt(n), sign := false));
    ScanEnds(rest, k.(buf := FormatInt(n), sign := false));
  }

  lemma PassQuote(s: seq<byte>, k: Scan)
    requires s != [] && s[0] == QUOTE
    ensures ScanNumber(s, k) == ScanNumber(s[1..], k.(inQuotes := true))
  {
  }

  lemma ScanEnds(rest: seq<byte>, k: Scan)
    requires Delimited(rest) && k.buf != []
    ensures ScanNumber(rest, k) == Ok((Number(k.buf), rest))
  {
  }

  lemma FormatIntPlain(n: int)
    ensures IsPlain(FormatInt(n))
  {
  }
}
