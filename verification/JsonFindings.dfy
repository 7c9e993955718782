/** Where reading JSON departs from what a caller would expect, with the inputs and the exact conditions. */
module JsonFindings {
  import opened Wrappers
  import opened WireTypes
  import opened Varint
  import opened WireFormat
  import opened WireTheorems
  import opened JsonText
  import opened JsonFormat
  import opened JsonTheorems
  import opened JsonRoundTrip

  // ---------- an error that is lost ----------

  /** A quote inside the body, before the closing one; the closing rule makes it an escaped one. */
  predicate HasInnerQuote(body: seq<byte>)
    requires body != []
  {
    QUOTE in body[..|body| - 1]
  }

  /** The first line is the whole body exactly when the body has no quote but the last. */
  lemma FirstLineIsBody(s: seq<byte>, body: seq<byte>, rest: seq<byte>)
    requires QuotedBody(s) == Ok((body, rest))
    ensures ReadUntil(s, QUOTE) == Ok((body, rest)) <==> !HasInnerQuote(body)
  {
    var (line, after) := ReadUntil(s, QUOTE).value;
    if line == body {
      assert QUOTE !in line[..|line| - 1];
    } else {
      var more := QuotedBody(after).value.0;
      assert body == line + more;
      assert line[|line| - 1] == body[|line| - 1] && |line| - 1 < |body| - 1;
      assert body[..|body| - 1][|line| - 1] == QUOTE;
    }
  }

  /**
   A body that closes but does not decode is reported as an error exactly when it holds an escaped
   quote; without one the caller gets an empty string and no error.
   */
  lemma UndecodableReportedExactlyWhen(c: Codec, s: seq<byte>, body: seq<byte>, rest: seq<byte>)
    requires QuotedBody(s) == Ok((body, rest)) && c.unquote([QUOTE] + body) == None
    ensures StringBody(c, s) == if HasInnerQuote(body) then Err(InvalidData) else Ok(([], rest))
  {
    FirstLineIsBody(s, body, rest);
  }

  // A codec that meets the laws: strings without quote and backslash stand for themselves.

  predicate Bare(s: seq<byte>) {
    forall i :: 0 <= i < |s| ==> s[i] != QUOTE && s[i] != BACKSLASH
  }

  function QuoteBare(s: seq<byte>): seq<byte> {
    [QUOTE] + s + [QUOTE]
  }

  function UnquoteBare(q: seq<byte>): Option<seq<byte>> {
    if |q| >= 2 && q[0] == QUOTE && q[|q| - 1] == QUOTE && Bare(q[1..|q| - 1]) then Some(q[1..|q| - 1]) else None
  }

  /** Two letters from `a` to `p` a byte. */
  function Letters(u: seq<byte>): seq<byte> {
    if u == [] then [] else [0x61 + u[0] / 16, 0x61 + u[0] % 16] + Letters(u[1..])
  }

  function FromLetters(s: seq<byte>): Option<seq<byte>> {
    if s == [] then Some([])
    else if |s| == 1 || !(0x61 <= s[0] < 0x71) || !(0x61 <= s[1] < 0x71) then None
    else
      var more := FromLetters(s[2..]);
      var first: byte := (s[0] as int - 0x61) * 16 + (s[1] as int - 0x61);
      if more.None? then None else Some([first] + more.value)
  }

  const BARE_CODEC := Codec((s: seq<byte>) => Bare(s), s => QuoteBare(s), q => UnquoteBare(q), u => Letters(u), s =>
                            FromLetters(s), _ => 0)

  lemma {:induction false} LettersInverse(u: seq<byte>)
    ensures FromLetters(Letters(u)) == Some(u) && Bare(Letters(u))
    decreases u
  {
    if u != [] {
      LettersInverse(u[1..]);
      assert Letters(u)[2..] == Letters(u[1..]);
      assert [u[0]] + u[1..] == u;
    }
  }

  lemma BareCloses(s: seq<byte>)
    requires Bare(s)
    ensures UnquoteBare(QuoteBare(s)) == Some(s) && IsQuoted(QuoteBare(s))
  {
    var q := QuoteBare(s);
    assert q[1..|q| - 1] == s;
    BareNotEscaped(s);
    PassOver(s, [QUOTE], false);
  }

  lemma {:induction false} BareNotEscaped(s: seq<byte>)
    requires Bare(s)
    ensures !Escaped(s, false)
    decreases s
  {
    if s != [] {
      BareNotEscaped(s[1..]);
    }
  }

  lemma BareCodecIsLawful()
    ensures LawfulCodec(BARE_CODEC)
  {
    var c := BARE_CODEC;
    forall s | c.valid(s)
      ensures c.unquote(c.quote(s)) == Some(s) && IsQuoted(c.quote(s))
    {
      BareCloses(s);
    }
    forall u: seq<byte> | |u| == 16
      ensures c.valid(c.uuidText(u)) && c.parseUuid(c.uuidText(u)) == Some(u)
    {
      LettersInverse(u);
    }
  }

  /** `"\x"`, read with a lawful codec that cannot decode it: an empty string and no error. */
  lemma ErrorLost(rest: seq<byte>)
    ensures LawfulCodec(BARE_CODEC) && StringBody(BARE_CODEC, [BACKSLASH, 0x78, QUOTE] + rest) == Ok(([], rest))
  {
    var body: seq<byte> := [BACKSLASH, 0x78, QUOTE];
    BareCodecIsLawful();
    BackslashBody(body, rest);
    BackslashNotBare(body);
    UndecodableReportedExactlyWhen(BARE_CODEC, body + rest, body, rest);
  }

  lemma BackslashBody(body: seq<byte>, rest: seq<byte>)
    requires body == [BACKSLASH, 0x78, QUOTE]
    ensures QuotedBody(body + rest) == Ok((body, rest)) && !HasInnerQuote(body)
  {
    var w: seq<byte> := [BACKSLASH, 0x78];
    assert w + [QUOTE] == body && TrailingBackslashes(w) == 0;
    LineThenRest(w, rest);
    BodyEndsAtClosingQuote(body + rest);
    assert (body + rest)[..3] == body && (body + rest)[3..] == rest;
  }

  lemma BackslashNotBare(body: seq<byte>)
    requires body == [BACKSLASH, 0x78, QUOTE]
    ensures UnquoteBare([QUOTE] + body) == None
  {
    assert ([QUOTE] + body)[1..|[QUOTE] + body| - 1][0] == BACKSLASH;
  }

  // ---------- sizes ----------

  /** Of the sizes the check accepts, exactly those within 32 bits are between zero and the maximum. */
  lemma AcceptedSizeInRangeExactlyWhen(n: int64, max: nat)
    requires max <= MAX_SIZE && CheckSize(ToInt32(n), max).Ok?
    ensures 0 <= n <= max <==> -0x8000_0000 <= n < 0x8000_0000
  {
  }

  /** So it is with every size that a container header gives. */
  lemma SizeReadInRangeExactlyWhen(codec: Codec, r: Reader, max: nat)
    requires max <= MAX_SIZE && ReadSize(codec, r, max).Ok?
    ensures var n := ReadSize(codec, r, max).value.0;
            0 <= n <= max <==> -0x8000_0000 <= n < 0x8000_0000
  {
    AcceptedSizeInRangeExactlyWhen(ReadSize(codec, r, max).value.0, max);
  }

  /** A size of 2^32 passes the check, whatever the maximum. */
  lemma OversizePasses(codec: Codec, below: seq<Context>, c: Context, rest: seq<byte>, max: nat)
    requires Clean(rest)
    ensures ReadSize(codec, Reader(IntText(0x1_0000_0000, c) + rest, below + [c]), max)
         == Ok((0x1_0000_0000, Reader(rest, below + [Next(c)])))
  {
    IntRead(codec, 0x1_0000_0000, below, c, rest);
    WrapsToZero(max);
    SizeFrom(codec, 0x1_0000_0000, max, Reader(IntText(0x1_0000_0000, c) + rest, below + [c]),
             Reader(rest, below + [Next(c)]));
  }

  lemma WrapsToZero(max: nat)
    ensures CheckSize(ToInt32(0x1_0000_0000), max).Ok?
  {
  }

  lemma SizeFrom(codec: Codec, n: int64, max: nat, r: Reader, after: Reader)
    requires ParseI64(codec, r) == Ok((n, after)) && CheckSize(ToInt32(n), max).Ok?
    ensures ReadSize(codec, r, max) == Ok((n, after))
  {
  }
}
