/** When a rule's sliding window can be read from the global statistic of its resource. */
module StatReuse {
  type uint32 = x: int | 0 <= x < 0x1_0000_0000

  datatype Validity = Valid | IllegalStatisticParams | IllegalGlobalStatisticParams | GlobalStatisticNonReusable

  function CheckValidityForReuseStatistic(sampleCount: uint32, interval: uint32, parentSampleCount: uint32,
                                          parentInterval: uint32): Validity {
    if interval == 0 || sampleCount == 0 || interval % sampleCount != 0 then IllegalStatisticParams
    else
      var bucketLength := interval / sampleCount;
      if parentInterval == 0 || parentSampleCount == 0 ||
          parentInterval % parentSampleCount != 0 then IllegalGlobalStatisticParams
      else
        var parentBucketLength := parentInterval / parentSampleCount;
        if parentInterval % interval != 0 then GlobalStatisticNonReusable
        else if parentBucketLength == 0 || bucketLength % parentBucketLength != 0 then GlobalStatisticNonReusable
        else Valid
  }

  /** The global settings: how long the whole window is and into how many buckets it falls. */
  datatype Global = Global(sampleCount: uint32, interval: uint32, metricInterval: uint32)

  predicate ValidGlobal(g: Global) {
    g.interval > 0 && g.sampleCount > 0 && g.interval % g.sampleCount == 0
  }

  function BucketLength(g: Global): (b: uint32)
    requires ValidGlobal(g)
    ensures b > 0 && b * g.sampleCount == g.interval
  {
    ExactQuotient(g.interval, g.sampleCount);
    g.interval / g.sampleCount
  }

  function SampleCount(interval: uint32, g: Global): (n: uint32)
    requires ValidGlobal(g)
  {
    if interval > g.interval || interval < BucketLength(g) || interval % BucketLength(g) != 0 then 1
    else
      QuotientBelow(interval, BucketLength(g));
      interval / BucketLength(g)
  }

  /** The default metric of the resource, a view of the global array, an array of its own, or a failure. */
  datatype Statistic = Default | Reused(sampleCount: uint32) | Standalone(sampleCount: uint32)
    | Failed(reason: Validity)

  function GenerateStatFor(interval: uint32, g: Global): Statistic
    requires ValidGlobal(g)
  {
    if interval == 0 || interval == g.metricInterval then Default
    else
      var n := SampleCount(interval, g);
      match CheckValidityForReuseStatistic(n, interval, g.sampleCount, g.interval)
      case Valid => Reused(n)
      case GlobalStatisticNonReusable => Standalone(n)
      case e => Failed(e)
  }

  predicate Divides(d: int, n: int)
    requires d != 0
  {
    n % d == 0
  }

  lemma ExactQuotient(n: nat, d: nat)
    requires d > 0 && n > 0 && n % d == 0
    ensures n / d > 0 && n / d * d == n
  {
  }

  lemma QuotientBelow(n: nat, d: nat)
    requires d > 0
    ensures n / d <= n
  {
    var q := n / d;
    assert n == q * d + n % d;
    TimesPositive(q, d);
  }

  lemma TimesPositive(q: nat, d: nat)
    requires d > 0
    ensures q <= q * d
  {
    assert q * d == q * (d - 1) + q;
  }

  lemma ExactlyDivides(n: nat, q: nat, d: nat)
    requires q > 0 && n == q * d
    ensures n % q == 0 && n / q == d
  {
    assert n == n / q * q + n % q;
    assert (d - n / q) * q == q * d - n / q * q;
    NoMultipleBetween(d - n / q, q);
  }

  lemma NoMultipleBetween(a: int, q: nat)
    requires q > 0 && 0 <= a * q < q
    ensures a == 0
  {
    assert (a - 1) * q == a * q - q;
  }

  /**
   For every interval and any valid global settings: the resource's default metric is taken exactly when no
   interval is given, or the default one; otherwise the parameters are never illegal, the window is legal on
   an array of its own, and the global array is reused exactly when its bucket length divides the interval
   and the interval divides its total. Either way the buckets are the global ones where they fit the
   interval and it is no longer than the total, and else there is one.
   */
  lemma ReuseExactlyWhen(interval: uint32, g: Global)
    requires ValidGlobal(g)
    ensures var given := interval != 0 && interval != g.metricInterval;
            var fits := Divides(BucketLength(g), interval) && interval <= g.interval;
            match GenerateStatFor(interval, g)
            case Default => !given
            case Reused(n) => given && Divides(BucketLength(g), interval) && Divides(interval, g.interval) &&
                n * BucketLength(g) == interval
            case Standalone(n) =>
              given && !(Divides(BucketLength(g), interval) && Divides(interval, g.interval)) &&
              CheckValidityForReuseStatistic(n, interval, n, interval) == Valid &&
              if fits then n * BucketLength(g) == interval else n == 1
            case Failed(_) => false
  {
    var b, n := BucketLength(g), SampleCount(interval, g);
    if interval == 0 || interval == g.metricInterval {
    } else if interval > g.interval || interval < b || interval % b != 0 {
      assert n == 1;
      TooLong(interval, g.interval);
      TooShort(interval, b);
      OneBucket(interval);
    } else {
      ExactQuotient(interval, b);
      assert interval == n * b;
      ExactlyDivides(interval, n, b);
      OneBucket(b);
    }
  }

  lemma OneBucket(n: nat)
    requires n > 0
    ensures n % 1 == 0 && n / 1 == n && n % n == 0
  {
  }

  lemma TooLong(interval: nat, total: nat)
    requires interval > 0 && total > 0
    ensures interval > total ==> total % interval == total
  {
  }

  lemma TooShort(interval: nat, b: nat)
    requires interval > 0 && b > 0
    ensures interval < b ==> interval % b == interval
  {
  }
}
