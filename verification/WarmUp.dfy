/** The warm-up calculator: the longer a resource was idle, the more tokens it stores and the slower it starts. */
module WarmUp {
  import opened Wrappers

  const DEFAULT_COLD_FACTOR := 3

  type uint32 = x: int | 0 <= x < 0x1_0000_0000

  datatype Rule = Rule(threshold: real, warmUpPeriodSec: uint32, coldFactor: uint32)

  /**
   Floating-point numbers as far as they matter: a division by zero gives an infinite slope, and nothing times
   that is no number.
   */
  datatype Slope = Finite(s: real) | Infinite
  datatype Float = Number(x: real) | NaN

  /** What the constructor derives from a rule. */
  datatype Curve = Curve(threshold: real, coldFactor: nat, warningToken: nat, maxToken: nat, slope: Slope)

  predicate ValidRule(r: Rule) {
    r.threshold >= 0.0
  }

  /**
   With the largest cold factor the program's 1 plus it wraps around to zero, and what a division by zero
   or a number beyond 63 bits converts to depends on the machine.
   */
  predicate Portable(r: Rule)
    requires ValidRule(r)
  {
    r.coldFactor < 0xffff_ffff && WarningToken(r) + TokensAboveWarning(r) < 0x8000_0000_0000_0000
  }

  function ColdFactor(r: Rule): (c: nat)
    ensures c >= 2
  {
    if r.coldFactor <= 1 then DEFAULT_COLD_FACTOR else r.coldFactor
  }

  function WarningToken(r: Rule): nat
    requires ValidRule(r)
  {
    Part(OnceWarmUp(r), (ColdFactor(r) - 1) as real)
  }

  /** What passes at the threshold while it warms up, and twice that. */
  function OnceWarmUp(r: Rule): (x: real)
    requires ValidRule(r)
    ensures x >= 0.0
  {
    r.warmUpPeriodSec as real * r.threshold
  }

  function TwiceWarmUp(r: Rule): (x: real)
    requires ValidRule(r)
    ensures x >= 0.0
  {
    2.0 * r.warmUpPeriodSec as real * r.threshold
  }

  /** How often `d` goes into `x`. */
  predicate IsWholeQuotient(n: int, x: real, d: real) {
    n as real * d <= x < (n + 1) as real * d
  }

  function Part(x: real, d: real): (n: nat)
    requires x >= 0.0 && d > 0.0
    ensures n > 0 <==> x >= d
    ensures IsWholeQuotient(n, x, d)
  {
    AtLeastOne(x, d);
    WholePart(x, d);
    (x / d).Floor
  }

  function TokensAboveWarning(r: Rule): nat
    requires ValidRule(r)
  {
    Part(TwiceWarmUp(r), (1 + ColdFactor(r)) as real)
  }

  /** Nothing where the curve depends on the machine. */
  function CurveOf(r: Rule): Option<Curve>
    requires ValidRule(r)
  {
    var warning, above := WarningToken(r), TokensAboveWarning(r);
    if !Portable(r) then None
    else if above == 0 then Some(Curve(r.threshold, ColdFactor(r), warning, warning, Infinite))
    else
      assert r.threshold != 0.0;
      var slope := (ColdFactor(r) - 1) as real / r.threshold / above as real;
      Some(Curve(r.threshold, ColdFactor(r), warning, warning + above, Finite(slope)))
  }

  /** What the results need to know about a curve. */
  ghost predicate ValidCurve(c: Curve) {
    c.threshold > 0.0 && c.coldFactor >= 2 && c.maxToken > c.warningToken && c.slope.Finite? && c.slope.s > 0.0 &&
    (c.maxToken - c.warningToken) as real * c.slope.s == (c.coldFactor - 1) as real / c.threshold
  }

  /** A curve from a rule too weak or too short to put a token above the warning line. */
  ghost predicate FlatCurve(c: Curve) {
    c.threshold >= 0.0 && c.coldFactor >= 2 && c.maxToken == c.warningToken && c.slope.Infinite?
  }

  lemma CurveIsValid(r: Rule)
    requires ValidRule(r)
    ensures CurveOf(r).Some? <==> Portable(r)
    ensures Portable(r) ==> if TokensAboveWarning(r) > 0 then ValidCurve(CurveOf(r).value)
                            else FlatCurve(CurveOf(r).value)
  {
    if Portable(r) && TokensAboveWarning(r) > 0 {
      SlopeOf(r);
      SteepIsValid(CurveOf(r).value, TokensAboveWarning(r));
    }
  }

  lemma SteepIsValid(c: Curve, above: nat)
    requires c.threshold > 0.0 && c.coldFactor >= 2 && above > 0 && c.maxToken - c.warningToken == above
    requires c.slope == Finite((c.coldFactor - 1) as real / c.threshold / above as real)
    ensures ValidCurve(c)
  {
    SlopeMeets((c.coldFactor - 1) as real, c.threshold, above as real);
  }

  lemma AtLeastOne(x: real, d: real)
    requires d > 0.0
    ensures x / d >= 1.0 <==> x >= d
  {
    TimesQuotient(d, x);
    Smaller(x / d, 1.0, d);
  }

  lemma SlopeOf(r: Rule)
    requires ValidRule(r) && Portable(r) && TokensAboveWarning(r) > 0
    ensures r.threshold > 0.0
    ensures var c, above := CurveOf(r).value, TokensAboveWarning(r);
            c.threshold == r.threshold && c.coldFactor == ColdFactor(r) && c.maxToken - c.warningToken == above &&
            c.slope == Finite((ColdFactor(r) - 1) as real / r.threshold / above as real)
  {
  }

  lemma SlopeMeets(cold: real, threshold: real, above: real)
    requires cold > 0.0 && threshold > 0.0 && above > 0.0
    ensures var slope := cold / threshold / above; slope > 0.0 && above * slope == cold / threshold
  {
    Positive(cold, threshold);
    Positive(cold / threshold, above);
    TimesQuotient(above, cold / threshold);
  }

  /** The warning line and the maximum in the rule's own numbers, a cold factor of 0 or 1 standing for 3. */
  lemma CurveMeans(r: Rule)
    requires ValidRule(r) && CurveOf(r).Some?
    ensures var c, cold := CurveOf(r).value, if r.coldFactor <= 1 then 3 else r.coldFactor;
            var tokens := r.warmUpPeriodSec as real * r.threshold;
            c.threshold == r.threshold && c.coldFactor == cold &&
            IsWholeQuotient(c.warningToken, tokens, (cold - 1) as real) &&
            IsWholeQuotient(c.maxToken - c.warningToken, 2.0 * tokens, (1 + cold) as real)
  {
    LinesOf(r);
    PartsOf(r);
    TwiceIsDouble(r);
    LinesAre(CurveOf(r).value, r, r.warmUpPeriodSec as real * r.threshold, ColdFactor(r));
  }

  lemma LinesAre(c: Curve, r: Rule, tokens: real, cold: nat)
    requires ValidRule(r) && tokens == OnceWarmUp(r) && 2.0 * tokens == TwiceWarmUp(r) && cold == ColdFactor(r)
    requires c.warningToken == WarningToken(r) && c.maxToken - c.warningToken == TokensAboveWarning(r)
    requires IsWholeQuotient(WarningToken(r), OnceWarmUp(r), (ColdFactor(r) - 1) as real)
    requires IsWholeQuotient(TokensAboveWarning(r), TwiceWarmUp(r), (1 + ColdFactor(r)) as real)
    ensures IsWholeQuotient(c.warningToken, tokens, (cold - 1) as real)
    ensures IsWholeQuotient(c.maxToken - c.warningToken, 2.0 * tokens, (1 + cold) as real)
  {
  }

  lemma PartsOf(r: Rule)
    requires ValidRule(r)
    ensures IsWholeQuotient(WarningToken(r), OnceWarmUp(r), (ColdFactor(r) - 1) as real)
    ensures IsWholeQuotient(TokensAboveWarning(r), TwiceWarmUp(r), (1 + ColdFactor(r)) as real)
  {
  }

  lemma TwiceIsDouble(r: Rule)
    requires ValidRule(r)
    ensures TwiceWarmUp(r) == 2.0 * (r.warmUpPeriodSec as real * r.threshold)
  {
  }

  lemma WholePart(x: real, d: real)
    requires d > 0.0
    ensures IsWholeQuotient((x / d).Floor, x, d)
  {
    TimesQuotient(d, x);
    WholePartOf(x, d, x / d);
  }

  lemma WholePartOf(x: real, d: real, y: real)
    requires d > 0.0 && d * y == x
    ensures IsWholeQuotient(y.Floor, x, d)
  {
    var n := y.Floor;
    assert n as real <= y < (n + 1) as real;
    Smaller(y, n as real, d);
    Smaller(y, (n + 1) as real, d);
    assert d * y == x;
  }

  lemma LinesOf(r: Rule)
    requires ValidRule(r) && CurveOf(r).Some?
    ensures var c := CurveOf(r).value;
            c.threshold == r.threshold && c.coldFactor == ColdFactor(r) && c.warningToken == WarningToken(r) &&
            c.maxToken - c.warningToken == TokensAboveWarning(r)
  {
  }

  lemma Positive(a: real, b: real)
    requires a > 0.0 && b > 0.0
    ensures a / b > 0.0
  {
  }

  lemma TimesQuotient(a: real, b: real)
    requires a > 0.0
    ensures a * (b / a) == b
  {
  }

  // ---------- the rate ----------

  function Denominator(c: Curve, stored: int): real
    requires c.threshold > 0.0 && c.slope.Finite?
  {
    (stored - c.warningToken) as real * c.slope.s + 1.0 / c.threshold
  }

  lemma DenominatorPositive(c: Curve, stored: int)
    requires ValidCurve(c) && stored >= c.warningToken
    ensures Denominator(c, stored) > 0.0
  {
    Positive(1.0, c.threshold);
    assert (stored - c.warningToken) as real * c.slope.s >= 0.0;
  }

  /** The rate allowed with `stored` tokens. */
  function AllowedTokens(c: Curve, stored: int): Float
    requires ValidCurve(c) || FlatCurve(c)
  {
    var rest := if stored < 0 then 0 else stored;
    if rest < c.warningToken then Number(c.threshold)
    else if c.slope.Infinite? then (if rest == c.warningToken then NaN else Number(0.0))
    else
      DenominatorPositive(c, rest);
      Number(1.0 / Denominator(c, rest))
  }

  /** The reject checker's comparison, which is false of what is no number. */
  predicate Rejects(count: nat, batch: uint32, threshold: Float) {
    match threshold
    case Number(x) => count as real + batch as real > x
    case NaN => false
  }

  lemma ReciprocalFalls(x: real, y: real)
    requires 0.0 < x <= y
    ensures 1.0 / y <= 1.0 / x
  {
    var p, q := 1.0 / x, 1.0 / y;
    assert p * x == 1.0 && q * y == 1.0;
    Positive(1.0, y);
    assert q * (y - x) >= 0.0;
    assert q * x <= p * x;
    NotAbove(q, p, x);
  }

  lemma NotAbove(q: real, p: real, x: real)
    requires x > 0.0 && q * x <= p * x
    ensures q <= p
  {
    assert (p - q) * x >= 0.0;
  }

  lemma ReciprocalTwice(x: real)
    requires x > 0.0
    ensures 1.0 / x > 0.0 && 1.0 / (1.0 / x) == x
  {
    Positive(1.0, x);
    TimesQuotient(1.0 / x, 1.0);
    assert x * (1.0 / x) == 1.0;
  }

  /** The denominator with all the tokens stored is the cold factor over the threshold. */
  lemma DenominatorWithin(c: Curve, stored: int)
    requires ValidCurve(c) && c.warningToken <= stored <= c.maxToken
    ensures var d := Denominator(c, stored);
            (stored == c.warningToken ==> d == 1.0 / c.threshold) &&
            1.0 / c.threshold <= d <= c.coldFactor as real / c.threshold &&
            (stored == c.maxToken ==> d == c.coldFactor as real / c.threshold)
  {
    var above, room := (stored - c.warningToken) as real, (c.maxToken - c.warningToken) as real;
    assert above * c.slope.s >= 0.0;
    assert (room - above) * c.slope.s >= 0.0;
    assert room * c.slope.s == above * c.slope.s + (room - above) * c.slope.s;
    SplitQuotient((c.coldFactor - 1) as real, 1.0, c.threshold);
  }

  lemma SplitQuotient(a: real, b: real, d: real)
    requires d > 0.0
    ensures (a + b) / d == a / d + b / d
  {
  }

  lemma ProductOfQuotients(a: real, b: real, q: real, r: real)
    requires q * b == a && r * a == b
    ensures (r * q) * b == b
  {
    calc {
      (r * q) * b;
      r * (q * b);
      r * a;
      b;
    }
  }

  lemma Cancel(a: real, b: real)
    requires b > 0.0 && a * b == b
    ensures a == 1.0
  {
    assert (a - 1.0) * b == 0.0;
  }

  lemma ReciprocalIs(q: real, r: real)
    requires q > 0.0 && r * q == 1.0
    ensures 1.0 / q == r
  {
  }

  lemma ReciprocalQuotient(a: real, b: real)
    requires a > 0.0 && b > 0.0
    ensures a / b > 0.0 && 1.0 / (a / b) == b / a
  {
    Positive(a, b);
    var q, r := a / b, b / a;
    TimesQuotient(b, a);
    TimesQuotient(a, b);
    assert q * b == a && r * a == b;
    ProductOfQuotients(a, b, q, r);
    Cancel(r * q, b);
    ReciprocalIs(q, r);
  }

  lemma RateBetween(t: real, cold: real, d: real)
    requires t > 0.0 && cold >= 1.0 && 1.0 / t <= d <= cold / t
    ensures d > 0.0 && t / cold <= 1.0 / d <= t
    ensures d == cold / t ==> 1.0 / d == t / cold
    ensures d == 1.0 / t ==> 1.0 / d == t
  {
    ReciprocalTwice(t);
    ReciprocalQuotient(cold, t);
    ReciprocalFalls(1.0 / t, d);
    ReciprocalFalls(d, cold / t);
  }

  lemma ColdIsSlower(t: real, cold: real)
    requires t > 0.0 && cold >= 1.0
    ensures t / cold <= t && 1.0 / t <= cold / t
  {
    assert t / cold * cold == t;
    NotAbove(t / cold, t, cold);
    assert cold / t == cold * (1.0 / t);
    Positive(1.0, t);
  }

  /** The rate stays between the threshold and its cold fraction, and meets both ends. */
  lemma RateInRange(c: Curve, stored: int)
    requires ValidCurve(c) && stored <= c.maxToken
    ensures AllowedTokens(c, stored).Number? &&
            c.threshold / c.coldFactor as real <= AllowedTokens(c, stored).x <= c.threshold
    ensures stored <= c.warningToken ==> AllowedTokens(c, stored) == Number(c.threshold)
    ensures stored == c.maxToken ==> AllowedTokens(c, stored) == Number(c.threshold / c.coldFactor as real)
  {
    var rest := if stored < 0 then 0 else stored;
    ColdIsSlower(c.threshold, c.coldFactor as real);
    if rest >= c.warningToken {
      DenominatorWithin(c, rest);
      RateBetween(c.threshold, c.coldFactor as real, Denominator(c, rest));
    }
  }

  /** More stored tokens never mean a higher rate. */
  lemma RateFalls(c: Curve, a: int, b: int)
    requires ValidCurve(c) && a <= b <= c.maxToken
    ensures AllowedTokens(c, a).Number? && AllowedTokens(c, b).Number? && AllowedTokens(c, b).x <= AllowedTokens(c, a).x
  {
    RateInRange(c, a);
    RateInRange(c, b);
    if a >= 0 && a > c.warningToken {
      DenominatorWithin(c, a);
      Positive(1.0, c.threshold);
      DenominatorGrows(c, a, b);
      ReciprocalFalls(Denominator(c, a), Denominator(c, b));
    }
  }

  lemma DenominatorGrows(c: Curve, a: int, b: int)
    requires ValidCurve(c) && c.warningToken <= a <= b
    ensures Denominator(c, a) <= Denominator(c, b)
  {
    var x, y := (a - c.warningToken) as real, (b - c.warningToken) as real;
    assert (y - x) * c.slope.s >= 0.0;
    assert y * c.slope.s == x * c.slope.s + (y - x) * c.slope.s;
  }

  /**
   With all its tokens stored, a resource rejects anything at all exactly when a token fits above the
   warning line; below that the rate is no number, and whatever comes passes.
   */
  lemma LimitsWhenFullExactlyWhen(r: Rule)
    requires ValidRule(r)
    ensures AllowedWhenFull(r).Some? <==> Portable(r)
    ensures Portable(r) ==>
              ((exists count: nat, batch: uint32 :: Rejects(count, batch, AllowedWhenFull(r).value))
               <==> TwiceWarmUp(r) >= (1 + ColdFactor(r)) as real)
  {
    CurveIsValid(r);
    if Portable(r) && TokensAboveWarning(r) > 0 {
      RateInRange(CurveOf(r).value, CurveOf(r).value.maxToken);
      var most := r.threshold.Floor + 1;
      assert Rejects(most, 0, AllowedWhenFull(r).value);
    }
  }

  function AllowedWhenFull(r: Rule): Option<Float>
    requires ValidRule(r)
  {
    CurveIsValid(r);
    if CurveOf(r).None? then None else Some(AllowedTokens(CurveOf(r).value, CurveOf(r).value.maxToken))
  }

  /**
   Between the warning line and the maximum the time a request takes grows in proportion to the tokens above
   the line.
   */
  lemma RateMeans(c: Curve, stored: int)
    requires ValidCurve(c) && c.warningToken <= stored <= c.maxToken && stored >= 0
    ensures var room, above := (c.maxToken - c.warningToken) as real, (stored - c.warningToken) as real;
            AllowedTokens(c, stored).Number? &&
            AllowedTokens(c, stored).x * (above * (c.coldFactor - 1) as real + room) == c.threshold * room
  {
    var room, above := (c.maxToken - c.warningToken) as real, (stored - c.warningToken) as real;
    var t, cold, d := c.threshold, (c.coldFactor - 1) as real, Denominator(c, stored);
    DenominatorPositive(c, stored);
    var x := 1.0 / d;
    TimesQuotient(d, 1.0);
    TimesQuotient(t, cold);
    TimesQuotient(t, 1.0);
    Scaled(t, room, above, c.slope.s, cold, 1.0 / t, d);
    Interpolated(x, d, t * room, above * cold + room);
  }

  lemma Scaled(t: real, room: real, above: real, slope: real, cold: real, once: real, d: real)
    requires t > 0.0 && room * slope == cold / t && t * (cold / t) == cold && t * once == 1.0 &&
             d == above * slope + once
    ensures d * (t * room) == above * cold + room
  {
    Three(t, room, slope);
    calc {
      d * (t * room);
      (above * slope) * (t * room) + once * (t * room);
      { Regroup(above, slope, t * room); Regroup(once, t, room); }
      above * (slope * (t * room)) + (once * t) * room;
      above * cold + room;
    }
  }

  lemma Three(t: real, room: real, slope: real)
    ensures slope * (t * room) == t * (room * slope)
  {
  }

  lemma Regroup(a: real, b: real, c: real)
    ensures (a * b) * c == a * (b * c)
  {
  }

  lemma Interpolated(x: real, d: real, a: real, b: real)
    requires d * x == 1.0 && d * a == b
    ensures x * b == a
  {
    Regroup(x, d, a);
  }

  // ---------- the stored tokens ----------

  /** Go's conversion of a float to an integer. */
  function Truncate(x: real): int {
    if x >= 0.0 then x.Floor else -((-x).Floor)
  }

  /** `passed` is the time since the last fill, in milliseconds. */
  function CoolDown(c: Curve, stored: int, passed: nat, passQps: real): int
    requires c.coldFactor > 0
  {
    var filled := Truncate(stored as real + passed as real * c.threshold / 1000.0);
    var newValue :=
      if stored < c.warningToken then filled
      else if stored > c.warningToken && passQps < (Truncate(c.threshold) / c.coldFactor) as real then filled
      else stored;
    if newValue <= c.maxToken then newValue else c.maxToken
  }

  /** The whole tokens after `passed` milliseconds at the threshold, cut at the maximum. */
  predicate Grown(c: Curve, stored: int, passed: nat, filled: int) {
    var x := stored as real + passed as real * c.threshold / 1000.0;
    if x >= c.maxToken as real then filled == c.maxToken else filled as real <= x < filled as real + 1.0
  }

  /**
   Below the warning line the tokens grow with the time; at the line they stay; above it they grow exactly
   when less passed than the whole quotient of the threshold by the cold factor.
   */
  predicate Cooled(c: Curve, stored: int, passed: nat, passQps: real, filled: int)
    requires c.coldFactor > 0
  {
    if stored < c.warningToken then Grown(c, stored, passed, filled)
    else if stored == c.warningToken then filled == stored
    else if passQps < (c.threshold / c.coldFactor as real).Floor as real then Grown(c, stored, passed, filled)
    else filled == stored
  }

  /** Cooled down, and then what passed taken off, as far as there is any. */
  ghost predicate Synced(c: Curve, stored: int, passed: nat, passQps: real, left: int)
    requires c.coldFactor > 0
  {
    exists filled :: Cooled(c, stored, passed, passQps, filled) &&
                     left == if filled < passQps.Floor then 0 else filled - passQps.Floor
  }

  lemma FloorsOnce(x: real, n: nat)
    requires x >= 0.0 && n > 0
    ensures x.Floor / n == (x / n as real).Floor
  {
    var q, r := x.Floor / n, x.Floor % n;
    var y := x / n as real;
    TimesQuotient(n as real, x);
    assert x.Floor == q * n + r && x < (q * n + n) as real;
    assert (q * n) as real == q as real * n as real && (q * n + n) as real == (q as real + 1.0) * n as real;
    Smaller(y, q as real + 1.0, n as real);
    Smaller(y, q as real, n as real);
    FloorIs(y, q);
  }

  lemma FloorIs(y: real, q: int)
    requires q as real <= y < q as real + 1.0
    ensures y.Floor == q
  {
  }

  lemma Smaller(a: real, b: real, d: real)
    requires d > 0.0
    ensures a < b <==> d * a < b * d
  {
    assert b * d - d * a == (b - a) * d;
    if a < b {
      assert (b - a) * d > 0.0;
    } else {
      assert (a - b) * d >= 0.0;
    }
  }

  /** What a call at `now` leaves: nothing changes until the next whole second after the last filling. */
  ghost predicate SyncedAt(c: Curve, now: nat, passQps: real, stored: int, filledAt: nat, left: int, filledAt': nat)
    requires (ValidCurve(c) || FlatCurve(c)) && 0 <= stored <= c.maxToken && passQps >= 0.0
  {
    var second := now - now % 1000;
    if second <= filledAt then left == stored && filledAt' == filledAt
    else filledAt' == second && Synced(c, stored, second - filledAt, passQps, left)
  }

  lemma CoolDownExactly(c: Curve, stored: int, passed: nat, passQps: real)
    requires (ValidCurve(c) || FlatCurve(c)) && 0 <= stored <= c.maxToken
    ensures Cooled(c, stored, passed, passQps, CoolDown(c, stored, passed, passQps))
  {
    assert passed as real * c.threshold >= 0.0;
    FloorsOnce(c.threshold, c.coldFactor);
  }

  /**
   A resource that passes nothing, with its tokens below the warning line, has them all back exactly when it
   has been left alone long enough, and is then allowed no more than the cold rate.
   */
  lemma IdleIsColdExactlyWhen(c: Curve, stored: int, passed: nat)
    requires ValidCurve(c) && 0 <= stored < c.warningToken
    ensures var filled := CoolDown(c, stored, passed, 0.0);
            (filled == c.maxToken <==>
             stored as real + passed as real * c.threshold / 1000.0 >= c.maxToken as real) &&
            (filled == c.maxToken ==> AllowedTokens(c, filled) == Number(c.threshold / c.coldFactor as real))
  {
    CoolDownExactly(c, stored, passed, 0.0);
    RateInRange(c, c.maxToken);
  }

  /** With its tokens exactly at the line a resource never cools down, however long it is left alone. */
  lemma NeverColdAtTheLine(c: Curve, passed: nat, passQps: real)
    requires ValidCurve(c)
    ensures var filled := CoolDown(c, c.warningToken, passed, passQps);
            filled == c.warningToken && AllowedTokens(c, filled) == Number(c.threshold)
  {
    CoolDownExactly(c, c.warningToken, passed, passQps);
    RateInRange(c, c.warningToken);
  }

  class WarmUpTrafficShapingCalculator {
    const curve: Curve
    var storedTokens: int
    var lastFilledTime: nat

    constructor (rule: Rule)
      requires ValidRule(rule) && CurveOf(rule).Some?
      ensures curve == CurveOf(rule).value && Valid() && storedTokens == 0 && lastFilledTime == 0
    {
      curve := CurveOf(rule).value;
      CurveIsValid(rule);
      storedTokens, lastFilledTime := 0, 0;
    }

    ghost predicate Valid()
      reads this
    {
      (ValidCurve(curve) || FlatCurve(curve)) && 0 <= storedTokens <= curve.maxToken
    }

    /** Refills at most once a second, then takes off what passed in the second before. */
    method SyncToken(now: nat, passQps: real)
      requires Valid() && passQps >= 0.0
      modifies this
      ensures Valid()
      ensures SyncedAt(curve, now, passQps, old(storedTokens), old(lastFilledTime), storedTokens, lastFilledTime)
    {
      var second := now - now % 1000;
      if second <= lastFilledTime {
        return;
      }
      storedTokens := CoolDown(curve, storedTokens, second - lastFilledTime, passQps);
      CoolDownExactly(curve, old(storedTokens), second - lastFilledTime, passQps);
      CoolDownInRange(curve, old(storedTokens), second - lastFilledTime, passQps);
      storedTokens := storedTokens + Truncate(-passQps);
      if storedTokens < 0 {
        storedTokens := 0;
      }
      lastFilledTime := second;
    }

    method CalculateAllowedTokens(now: nat, previousQps: real) returns (rate: Float)
      requires Valid() && previousQps >= 0.0
      modifies this
      ensures Valid() && rate == AllowedTokens(curve, storedTokens)
      ensures SyncedAt(curve, now, previousQps, old(storedTokens), old(lastFilledTime), storedTokens, lastFilledTime)
      ensures curve.slope.Finite? ==>
                rate.Number? && curve.threshold / curve.coldFactor as real <= rate.x <= curve.threshold
      ensures curve.slope.Infinite? ==> rate == if storedTokens < curve.warningToken then Number(curve.threshold)
                                                else NaN
    {
      SyncToken(now, previousQps);
      if curve.slope.Finite? {
        RateInRange(curve, storedTokens);
      }
      rate := AllowedTokens(curve, storedTokens);
    }
  }

  /**
   What the reject checker makes of it: up to the warning line a batch is turned away exactly when it exceeds
   the threshold with what already passed; with all tokens stored, when its cold multiple does.
   */
  lemma RejectsExactlyWhen(c: Curve, stored: int, count: nat, batch: uint32)
    requires ValidCurve(c)
    ensures stored <= c.warningToken ==>
              (Rejects(count, batch, AllowedTokens(c, stored)) <==> (count + batch) as real > c.threshold)
    ensures stored == c.maxToken ==>
              (Rejects(count, batch, AllowedTokens(c, stored)) <==>
               ((count + batch) * c.coldFactor) as real > c.threshold)
  {
    if stored <= c.maxToken {
      RateInRange(c, stored);
      AboveQuotient((count + batch) as real, c.threshold, c.coldFactor as real);
      Multiplied(count + batch, c.coldFactor);
    }
  }

  lemma Multiplied(n: nat, m: nat)
    ensures (n * m) as real == n as real * m as real
  {
  }

  lemma AboveQuotient(x: real, t: real, d: real)
    requires d > 0.0
    ensures x > t / d <==> x * d > t
  {
  }

  /** Cooling down only adds, up to the maximum. */
  lemma CoolDownInRange(c: Curve, stored: int, passed: nat, passQps: real)
    requires (ValidCurve(c) || FlatCurve(c)) && 0 <= stored <= c.maxToken
    ensures stored <= CoolDown(c, stored, passed, passQps) <= c.maxToken
  {
    assert passed as real * c.threshold >= 0.0;
  }
}
