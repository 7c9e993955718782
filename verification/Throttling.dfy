/**
 Throttling: requests are given pass times one interval after another. `lastPassedTime` is the
 pass time given out last; times are in nanoseconds (milliseconds for hotspot parameters).
 */
module Throttling {
  import opened Wrappers

  /** Let through after waiting `wait`, zero for at once. */
  datatype Verdict = PassAfter(wait: int) | Blocked

  function Ceil(x: real): int {
    -((-x).Floor)
  }

  lemma CeilBound(x: real)
    ensures x <= Ceil(x) as real < x + 1.0
  {
  }

  // ---------- the flow checker ----------

  datatype Limits = Limits(maxQueueingTimeNs: int, statIntervalNs: int)

  function Interval(l: Limits, batch: nat, threshold: real): int
    requires threshold > 0.0
  {
    Ceil(batch as real / threshold * l.statIntervalNs as real)
  }

  /** One check with nobody else writing in between. */
  function Check(l: Limits, last: int, batch: nat, threshold: real, now: int): (Verdict, int) {
    if batch == 0 then (PassAfter(0), last)
    else if threshold <= 0.0 || batch as real > threshold then (Blocked, last)
    else
      var expected := last + Interval(l, batch, threshold);
      if expected <= now then (PassAfter(0), now)
      else if expected - now > l.maxQueueingTimeNs then (Blocked, last)
      else (PassAfter(expected - now), expected)
  }

  datatype Request = Request(batch: nat, now: int)

  function Run(l: Limits, last: int, threshold: real, requests: seq<Request>): int
    decreases requests
  {
    if requests == [] then last
    else
      var n := |requests| - 1;
      Check(l, Run(l, last, threshold, requests[..n]), requests[n].batch, threshold, requests[n].now).1
  }

  /** Batches admitted over a run. */
  function Admitted(l: Limits, last: int, threshold: real, requests: seq<Request>): nat
    decreases requests
  {
    if requests == [] then 0
    else
      var n := |requests| - 1;
      var r := requests[n];
      Admitted(l, last, threshold, requests[..n]) +
      if Check(l, Run(l, last, threshold, requests[..n]), r.batch, threshold, r.now).0.PassAfter? then r.batch else 0
  }

  /**
   A blocked request changes nothing; an admitted one goes through at the stored pass time, at
   least its interval after the one before, and waits no longer than allowed.
   */
  lemma PassTimesSpaced(l: Limits, last: int, batch: nat, threshold: real, now: int)
    requires l.maxQueueingTimeNs >= 0
    ensures var (v, last') := Check(l, last, batch, threshold, now);
            match v
            case Blocked => last' == last
            case PassAfter(wait) =>
              0 <= wait <= l.maxQueueingTimeNs &&
              (batch > 0 ==> threshold > 0.0 && last' == now + wait && last' >= last + Interval(l, batch, threshold))
  {
  }

  /** `batch` requests take no more than `elapsed` at the rate of `threshold` per statistic interval. */
  predicate WithinRate(l: Limits, batch: int, threshold: real, elapsed: int) {
    (batch * l.statIntervalNs) as real <= threshold * elapsed as real
  }

  lemma IntervalCovers(l: Limits, batch: nat, threshold: real)
    requires threshold > 0.0
    ensures WithinRate(l, batch, threshold, Interval(l, batch, threshold))
  {
    var x := batch as real / threshold * l.statIntervalNs as real;
    CeilBound(x);
    var y := Interval(l, batch, threshold) as real;
    assert threshold * x == batch as real * l.statIntervalNs as real;
    assert threshold * (y - x) >= 0.0;
  }

  lemma IntervalIsLeast(l: Limits, batch: nat, threshold: real, n: int)
    requires threshold > 0.0
    ensures Interval(l, batch, threshold) <= n <==> WithinRate(l, batch, threshold, n)
  {
    var x := batch as real / threshold * l.statIntervalNs as real;
    CeilBound(x);
    assert threshold * x == batch as real * l.statIntervalNs as real;
    assert threshold * n as real - threshold * x == threshold * (n as real - x);
    if n as real >= x {
      assert threshold * (n as real - x) >= 0.0;
    } else {
      assert threshold * (x - n as real) > 0.0;
    }
  }

  /**
   The decision in the limiter's own numbers: a batch passes at once exactly when the time since the last
   pass time covers it at the rate of the threshold; it waits for the least time that covers it, and is
   blocked exactly when the longest wait allowed does not.
   */
  lemma CheckExactlyWhen(l: Limits, last: int, batch: nat, threshold: real, now: int)
    requires l.maxQueueingTimeNs >= 0 && 0 < batch && batch as real <= threshold
    ensures var (v, last') := Check(l, last, batch, threshold, now);
            (v == PassAfter(0) <==> WithinRate(l, batch, threshold, now - last)) &&
            (v == Blocked <==> !WithinRate(l, batch, threshold, now + l.maxQueueingTimeNs - last)) &&
            (v.PassAfter? ==>
               last' == now + v.wait && WithinRate(l, batch, threshold, last' - last) &&
               (v.wait > 0 ==> !WithinRate(l, batch, threshold, last' - last - 1)))
  {
    IntervalIsLeast(l, batch, threshold, now - last);
    IntervalIsLeast(l, batch, threshold, now + l.maxQueueingTimeNs - last);
    var last' := Check(l, last, batch, threshold, now).1;
    IntervalIsLeast(l, batch, threshold, last' - last);
    IntervalIsLeast(l, batch, threshold, last' - last - 1);
  }

  lemma RatesAdd(l: Limits, threshold: real, a: int, elapsed: int, b: int, interval: int, total: int)
    requires threshold > 0.0 && total >= elapsed + interval
    requires WithinRate(l, a, threshold, elapsed) && WithinRate(l, b, threshold, interval)
    ensures WithinRate(l, a + b, threshold, total)
  {
    assert (a + b) * l.statIntervalNs == a * l.statIntervalNs + b * l.statIntervalNs;
    var slack := (total - elapsed - interval) as real;
    assert threshold * slack >= 0.0;
    assert total as real == elapsed as real + interval as real + slack;
    assert threshold * total as real == threshold * elapsed as real + threshold * interval as real + threshold * slack;
  }

  /**
   Over any run, the batches admitted after the last pass time given out before fit the rate:
   together they take at most the threshold times the pass time elapsed.
   */
  lemma {:induction false} RateBound(l: Limits, last: int, threshold: real, requests: seq<Request>)
    requires threshold > 0.0 && l.maxQueueingTimeNs >= 0
    ensures WithinRate(l, Admitted(l, last, threshold, requests), threshold, Run(l, last, threshold, requests) - last)
    decreases requests
  {
    if requests != [] {
      var n := |requests| - 1;
      var r := requests[n];
      RateBound(l, last, threshold, requests[..n]);
      var before := Run(l, last, threshold, requests[..n]);
      var (v, after) := Check(l, before, r.batch, threshold, r.now);
      PassTimesSpaced(l, before, r.batch, threshold, r.now);
      if v.PassAfter? && r.batch > 0 {
        IntervalCovers(l, r.batch, threshold);
        RatesAdd(l, threshold, Admitted(l, last, threshold, requests[..n]), before - last,
                 r.batch, Interval(l, r.batch, threshold), after - last);
      }
    }
  }

  // ---------- the hotspot throttler ----------

  /** `tokenCount` requests per `durationMs` for one argument. */
  datatype ParamLimits = ParamLimits(tokenCount: int, durationMs: int, maxQueueingTimeMs: int)

  function ParamInterval(l: ParamLimits, batch: nat): int
    requires l.tokenCount > 0
  {
    batch * l.durationMs / l.tokenCount
  }

  /** `last` is `None` before the first access of the argument. */
  function CheckParam(l: ParamLimits, last: Option<int>, batch: nat, now: int): (Verdict, Option<int>) {
    if l.tokenCount <= 0 then (Blocked, last)
    else if last.None? then (PassAfter(0), Some(now))
    else
      var expected := last.value + ParamInterval(l, batch);
      if expected <= now then (PassAfter(0), Some(now))
      else if expected - now < l.maxQueueingTimeMs then (PassAfter(expected - now), Some(expected))
      else (Blocked, last)
  }

  class ThrottlingTrafficShapingController<Arg(==,!new)> {
    const threshold: int
    const durationInSec: nat
    const maxQueueingTimeMs: int
    const specificItems: map<Arg, int>
    var ruleTimeCounter: map<Arg, int>

    constructor (threshold: int, durationInSec: nat, maxQueueingTimeMs: int, specificItems: map<Arg, int>)
      ensures this.threshold == threshold && this.durationInSec == durationInSec
      ensures this.maxQueueingTimeMs == maxQueueingTimeMs && this.specificItems == specificItems
      ensures forall arg :: Last(arg) == None
    {
      this.threshold, this.durationInSec := threshold, durationInSec;
      this.maxQueueingTimeMs, this.specificItems := maxQueueingTimeMs, specificItems;
      ruleTimeCounter := map[];
    }

    ghost function Last(arg: Arg): Option<int>
      reads this
    {
      if arg in ruleTimeCounter then Some(ruleTimeCounter[arg]) else None
    }

    method PerformChecking(arg: Arg, batch: nat, now: int) returns (v: Verdict)
      modifies this
      ensures var tokenCount := if arg in specificItems then specificItems[arg] else threshold;
              (v, Last(arg)) == CheckParam(ParamLimits(tokenCount, durationInSec * 1000, maxQueueingTimeMs),
                                           old(Last(arg)), batch, now)
      ensures forall other :: other != arg ==> Last(other) == old(Last(other))
    {
      var tokenCount := threshold;
      if arg in specificItems {
        tokenCount := specificItems[arg];
      }
      if tokenCount <= 0 {
        return Blocked;
      }
      var interval := batch * (durationInSec * 1000) / tokenCount;
      if arg !in ruleTimeCounter {
        ruleTimeCounter := ruleTimeCounter[arg := now];
        return PassAfter(0);
      }
      var lastPassTime := ruleTimeCounter[arg];
      var expected := lastPassTime + interval;
      if expected <= now || expected - now < maxQueueingTimeMs {
        ruleTimeCounter := ruleTimeCounter[arg := now];
        var await := expected - now;
        if await > 0 {
          ruleTimeCounter := ruleTimeCounter[arg := expected];
          return PassAfter(await);
        }
        return PassAfter(0);
      }
      return Blocked;
    }
  }

  function RunParam(l: ParamLimits, last: Option<int>, requests: seq<Request>): Option<int>
    decreases requests
  {
    if requests == [] then last
    else
      var n := |requests| - 1;
      CheckParam(l, RunParam(l, last, requests[..n]), requests[n].batch, requests[n].now).1
  }

  function AdmittedIntervals(l: ParamLimits, last: Option<int>, requests: seq<Request>): int
    requires l.tokenCount > 0
    decreases requests
  {
    if requests == [] then 0
    else
      var n := |requests| - 1;
      var before := RunParam(l, last, requests[..n]);
      AdmittedIntervals(l, last, requests[..n]) +
      if before.Some? && CheckParam(l, before, requests[n].batch, requests[n].now).0.PassAfter?
      then ParamInterval(l, requests[n].batch) else 0
  }

  /** The same spacing per argument: the intervals of the requests admitted fit between their pass times. */
  lemma {:induction false} ParamSpacing(l: ParamLimits, last: int, requests: seq<Request>)
    requires l.tokenCount > 0
    ensures var end := RunParam(l, Some(last), requests);
            end.Some? && AdmittedIntervals(l, Some(last), requests) <= end.value - last
    decreases requests
  {
    if requests != [] {
      ParamSpacing(l, last, requests[..|requests| - 1]);
    }
  }

  lemma Quotient(x: int, k: int, n: int)
    requires k > 0
    ensures x / k >= n <==> x >= k * n
  {
    var q := x / k;
    assert k * q <= x < k * q + k;
    Product(k, q, n);
    Product(k, n, q + 1);
  }

  lemma Product(k: int, a: int, b: int)
    requires k > 0
    ensures a >= b ==> k * a >= k * b
  {
    if a >= b {
      assert k * a - k * b == k * (a - b);
    }
  }

  /**
   The decision in the rule's own numbers, the interval being a whole number of milliseconds: a batch passes
   at once exactly when fewer than a millisecond is missing, waits for the least time with which that is
   so, and is blocked exactly when it is not so even after a wait one short of the longest.
   */
  lemma CheckParamExactlyWhen(l: ParamLimits, last: int, batch: nat, now: int)
    requires l.tokenCount > 0
    ensures var (v, last') := CheckParam(l, Some(last), batch, now);
            var time := batch * l.durationMs;
            (v == PassAfter(0) <==> time < l.tokenCount * (now - last + 1)) &&
            (v == Blocked <==> time >= l.tokenCount * (now - last + 1) &&
                               time >= l.tokenCount * (now + l.maxQueueingTimeMs - last)) &&
            (v.PassAfter? && v.wait > 0 ==>
               l.tokenCount * (now + v.wait - last) <= time < l.tokenCount * (now + v.wait - last + 1)) &&
            last' == if v == Blocked then Some(last) else Some(now + v.wait)
  {
    var time := batch * l.durationMs;
    Quotient(time, l.tokenCount, now - last + 1);
    Quotient(time, l.tokenCount, now + l.maxQueueingTimeMs - last);
    var v := CheckParam(l, Some(last), batch, now).0;
    if v.PassAfter? {
      Quotient(time, l.tokenCount, now + v.wait - last);
      Quotient(time, l.tokenCount, now + v.wait - last + 1);
    }
  }

  /** The first access of an argument passes at once, whatever its batch; without tokens nothing does. */
  lemma FirstParamPasses(l: ParamLimits, last: Option<int>, batch: nat, now: int)
    ensures l.tokenCount > 0 ==> CheckParam(l, None, batch, now) == (PassAfter(0), Some(now))
    ensures l.tokenCount <= 0 ==> CheckParam(l, last, batch, now) == (Blocked, last)
  {
  }

  /** Requests admitted over a run, and their batches. */
  function ParamAdmitted(l: ParamLimits, last: Option<int>, requests: seq<Request>): (int, int)
    decreases requests
  {
    if requests == [] then (0, 0)
    else
      var n := |requests| - 1;
      var (count, batches) := ParamAdmitted(l, last, requests[..n]);
      if CheckParam(l, RunParam(l, last, requests[..n]), requests[n].batch, requests[n].now).0.PassAfter?
      then (count + 1, batches + requests[n].batch) else (count, batches)
  }

  /** Every request admitted in the run has had to wait. */
  predicate AllWait(l: ParamLimits, last: Option<int>, requests: seq<Request>)
    decreases requests
  {
    requests == [] ||
    var n := |requests| - 1;
    AllWait(l, last, requests[..n]) &&
    CheckParam(l, RunParam(l, last, requests[..n]), requests[n].batch, requests[n].now).0 != PassAfter(0)
  }

  /**
   The rate from both sides: over any sequential run the batches admitted fit the tokens of the pass time gone
   by, but for less than a millisecond each that the division drops; and while requests queue no more
   pass time is given out than they need.
   */
  lemma {:induction false} ParamRate(l: ParamLimits, last: int, requests: seq<Request>)
    requires l.tokenCount > 0
    ensures var (count, batches) := ParamAdmitted(l, Some(last), requests);
            var end := RunParam(l, Some(last), requests);
            end.Some? &&
            batches * l.durationMs <= l.tokenCount * (end.value - last) + count * (l.tokenCount - 1) &&
            (AllWait(l, Some(last), requests) ==> l.tokenCount * (end.value - last) <= batches * l.durationMs)
    decreases requests
  {
    if requests != [] {
      var init, r := requests[..|requests| - 1], requests[|requests| - 1];
      ParamRate(l, last, init);
      var before := RunParam(l, Some(last), init).value;
      CheckParamExactlyWhen(l, before, r.batch, r.now);
      var (count, batches) := ParamAdmitted(l, Some(last), init);
      var (v, after) := CheckParam(l, Some(before), r.batch, r.now);
      if v.PassAfter? {
        RateStep(l.tokenCount, l.durationMs, before - last, after.value - before, batches, r.batch, count, v.wait > 0);
      }
    }
  }

  lemma RateStep(k: int, d: int, elapsed: int, more: int, batches: int, batch: int, count: int, tight: bool)
    requires k > 0 && batches * d <= k * elapsed + count * (k - 1)
    requires batch * d < k * (more + 1) && (tight ==> k * more <= batch * d)
    ensures (batches + batch) * d <= k * (elapsed + more) + (count + 1) * (k - 1)
    ensures tight && k * elapsed <= batches * d ==> k * (elapsed + more) <= (batches + batch) * d
  {
    assert (batches + batch) * d == batches * d + batch * d;
    assert k * (elapsed + more) == k * elapsed + k * more && k * (more + 1) == k * more + k;
    assert (count + 1) * (k - 1) == count * (k - 1) + k - 1;
  }

  lemma ParamWaits(l: ParamLimits, last: Option<int>, batch: nat, now: int)
    ensures var (v, last') := CheckParam(l, last, batch, now);
            match v
            case Blocked => last' == last
            case PassAfter(wait) => last' == Some(now + wait) && (wait == 0 || 0 < wait < l.maxQueueingTimeMs)
  {
  }
}
