/**
 The token bucket that limits each argument of a hotspot rule: refilled in proportion to the time
 passed once a whole duration has gone by, and never above its capacity.
 */
module Hotspot {
  import opened Wrappers

  /** `tokenCount` tokens per `durationMs` for one argument, `maxCount` with the burst. */
  datatype Limits = Limits(tokenCount: int, maxCount: int, durationMs: int)

  /** When tokens were last added, and how many are left. */
  datatype Bucket = Bucket(time: int, tokens: int)

  predicate ValidLimits(l: Limits) {
    l.durationMs > 0 && l.maxCount >= l.tokenCount
  }

  function Min(a: int, b: int): int {
    if a < b then a else b
  }

  /** The tokens a refill after `passed` would leave once the batch is taken. */
  function Refilled(l: Limits, tokens: int, passed: int, batch: nat): int
    requires l.durationMs > 0
  {
    Min(passed * l.tokenCount / l.durationMs + tokens, l.maxCount) - batch
  }

  /** Whether a batch passes and the bucket afterwards; `None` before the first access. */
  function Check(l: Limits, b: Option<Bucket>, batch: nat, now: int): (bool, Option<Bucket>)
    requires l.durationMs > 0
  {
    if l.tokenCount <= 0 || batch > l.maxCount then (false, b)
    else if b.None? then (true, Some(Bucket(now, l.maxCount - batch)))
    else
      var Bucket(time, tokens) := b.value;
      if now - time > l.durationMs then
        var left := Refilled(l, tokens, now - time, batch);
        if left < 0 then (false, b) else (true, Some(Bucket(now, left)))
      else if tokens - batch >= 0 then (true, Some(Bucket(time, tokens - batch)))
      else (false, b)
  }

  class RejectTrafficShapingController<Arg(==,!new)> {
    const threshold: int
    const burstCount: nat
    const durationInSec: int
    const specificItems: map<Arg, int>
    var ruleTimeCounter: map<Arg, int>
    var ruleTokenCounter: map<Arg, int>

    constructor (threshold: int, burstCount: nat, durationInSec: int, specificItems: map<Arg, int>)
      requires durationInSec > 0
      ensures this.threshold == threshold && this.burstCount == burstCount
      ensures this.durationInSec == durationInSec && this.specificItems == specificItems
      ensures Valid() && forall arg :: BucketOf(arg) == None
    {
      this.threshold, this.burstCount := threshold, burstCount;
      this.durationInSec, this.specificItems := durationInSec, specificItems;
      ruleTimeCounter, ruleTokenCounter := map[], map[];
    }

    ghost predicate Valid()
      reads this
    {
      durationInSec > 0 && ruleTimeCounter.Keys == ruleTokenCounter.Keys
    }

    ghost function BucketOf(arg: Arg): Option<Bucket>
      requires Valid()
      reads this
    {
      if arg in ruleTimeCounter then Some(Bucket(ruleTimeCounter[arg], ruleTokenCounter[arg])) else None
    }

    method PerformChecking(arg: Arg, batch: nat, now: int) returns (passed: bool)
      requires Valid()
      modifies this
      ensures Valid()
      ensures var tokenCount := if arg in specificItems then specificItems[arg] else threshold;
              (passed, BucketOf(arg)) == Check(Limits(tokenCount, tokenCount + burstCount, durationInSec * 1000),
                                               old(BucketOf(arg)), batch, now)
      ensures forall other :: other != arg ==> BucketOf(other) == old(BucketOf(other))
    {
      var tokenCount := threshold;
      if arg in specificItems {
        tokenCount := specificItems[arg];
      }
      if tokenCount <= 0 {
        return false;
      }
      var maxCount := tokenCount + burstCount;
      if batch > maxCount {
        return false;
      }
      if arg !in ruleTimeCounter {
        ruleTimeCounter := ruleTimeCounter[arg := now];
        ruleTokenCounter := ruleTokenCounter[arg := maxCount - batch];
        return true;
      }
      var passTime := now - ruleTimeCounter[arg];
      var rest := ruleTokenCounter[arg];
      if passTime > durationInSec * 1000 {
        var toAdd := passTime * tokenCount / (durationInSec * 1000);
        var newQps := if toAdd + rest > maxCount then maxCount - batch else toAdd + rest - batch;
        if newQps < 0 {
          return false;
        }
        ruleTokenCounter := ruleTokenCounter[arg := newQps];
        ruleTimeCounter := ruleTimeCounter[arg := now];
        return true;
      }
      if rest - batch < 0 {
        return false;
      }
      ruleTokenCounter := ruleTokenCounter[arg := rest - batch];
      return true;
    }
  }

  // ---------- one decision ----------

  lemma Quotient(x: int, k: int, n: int)
    requires k > 0
    ensures x / k >= n <==> x >= n * k
  {
    var q := x / k;
    assert q * k <= x < q * k + k;
    if q >= n {
      assert q * k - n * k == (q - n) * k;
    } else {
      assert n * k - (q + 1) * k == (n - q - 1) * k;
    }
  }

  /**
   The decision in the rule's own numbers. The first access takes from a full bucket. Within a duration of
   the last refill a batch passes exactly when there are tokens for it; later exactly when the tokens it
   lacks are earned by the time gone by, and then the bucket is full before it takes them, or holds the
   whole tokens earned on top of what it had.
   */
  lemma CheckExactlyWhen(l: Limits, b: Option<Bucket>, batch: nat, now: int)
    requires ValidLimits(l)
    ensures var (passed, b') := Check(l, b, batch, now);
            (!passed ==> b' == b) &&
            if l.tokenCount <= 0 || batch > l.maxCount then !passed
            else if b.None? then passed && b' == Some(Bucket(now, l.maxCount - batch))
            else
              var time, tokens, gone := b.value.time, b.value.tokens, now - b.value.time;
              if gone <= l.durationMs then
                (passed <==> batch <= tokens) && (passed ==> b' == Some(Bucket(time, tokens - batch)))
              else
                (passed <==> (batch - tokens) * l.durationMs <= gone * l.tokenCount) &&
                (passed ==>
                   b'.Some? && b'.value.time == now && FilledTo(l, tokens, gone, b'.value.tokens + batch))
  {
    if l.tokenCount > 0 && batch <= l.maxCount && b.Some? {
      var tokens, gone := b.value.tokens, now - b.value.time;
      Quotient(gone * l.tokenCount, l.durationMs, batch - tokens);
      Quotient(gone * l.tokenCount, l.durationMs, l.maxCount - tokens);
      var left := Refilled(l, tokens, gone, batch);
      Quotient(gone * l.tokenCount, l.durationMs, left + batch - tokens);
      Quotient(gone * l.tokenCount, l.durationMs, left + batch - tokens + 1);
    }
  }

  /** From `tokens` the bucket has come to `filled` in the time `gone`: full, or by the whole tokens earned. */
  predicate FilledTo(l: Limits, tokens: int, gone: int, filled: int) {
    var earned := gone * l.tokenCount;
    if (l.maxCount - tokens) * l.durationMs <= earned then filled == l.maxCount
    else (filled - tokens) * l.durationMs <= earned < (filled - tokens + 1) * l.durationMs
  }

  // ---------- runs, one request after another ----------

  datatype Request = Request(batch: nat, now: int)

  function Run(l: Limits, requests: seq<Request>): Option<Bucket>
    requires l.durationMs > 0
    decreases requests
  {
    if requests == [] then None
    else
      var n := |requests| - 1;
      Check(l, Run(l, requests[..n]), requests[n].batch, requests[n].now).1
  }

  function Admitted(l: Limits, requests: seq<Request>): nat
    requires l.durationMs > 0
    decreases requests
  {
    if requests == [] then 0
    else
      var n := |requests| - 1;
      Admitted(l, requests[..n]) +
      if Check(l, Run(l, requests[..n]), requests[n].batch, requests[n].now).0 then requests[n].batch else 0
  }

  /** The moment the argument was first let through. */
  function FirstAccess(l: Limits, requests: seq<Request>): int
    requires l.durationMs > 0
    decreases requests
  {
    if requests == [] then 0
    else
      var n := |requests| - 1;
      if Run(l, requests[..n]).None? then requests[n].now else FirstAccess(l, requests[..n])
  }

  /** `spent` more tokens than the capacity are no more than `elapsed` brings in. */
  predicate Earned(l: Limits, spent: int, elapsed: int) {
    spent * l.durationMs <= l.tokenCount * elapsed
  }

  lemma RefillEarns(l: Limits, tokens: int, passed: int, batch: nat, spent: int, elapsed: int)
    requires l.durationMs > 0 && Earned(l, spent, elapsed)
    ensures Earned(l, spent + batch + Refilled(l, tokens, passed, batch) - tokens, elapsed + passed)
  {
    var added := passed * l.tokenCount / l.durationMs;
    DivFloor(passed * l.tokenCount, l.durationMs);
    var spent' := spent + batch + Refilled(l, tokens, passed, batch) - tokens;
    assert spent' <= spent + added;
    assert spent' * l.durationMs <= (spent + added) * l.durationMs;
    assert (spent + added) * l.durationMs == spent * l.durationMs + added * l.durationMs;
    assert l.tokenCount * (elapsed + passed) == l.tokenCount * elapsed + passed * l.tokenCount;
  }

  lemma DivFloor(x: int, d: int)
    requires d > 0
    ensures x / d * d <= x
  {
  }

  /**
   Over any run for one argument: the tokens stay between zero and the capacity, and the tokens
   admitted plus those left are at most the capacity plus what the time from the first access to
   the last refill brings in.
   */
  lemma {:induction false} TokenBound(l: Limits, requests: seq<Request>)
    requires ValidLimits(l)
    ensures match Run(l, requests)
            case None => Admitted(l, requests) == 0
            case Some(b) =>
              0 <= b.tokens <= l.maxCount && l.tokenCount > 0 &&
              FirstAccess(l, requests) <= b.time &&
              Earned(l, Admitted(l, requests) + b.tokens - l.maxCount, b.time - FirstAccess(l, requests))
    decreases requests
  {
    if requests != [] {
      var n := |requests| - 1;
      var init, r := requests[..n], requests[n];
      TokenBound(l, init);
      var before := Run(l, init);
      if before.Some? && r.batch <= l.maxCount {
        var Bucket(time, tokens) := before.value;
        if r.now - time > l.durationMs {
          RefillStaysInRange(l, tokens, r.now - time, r.batch);
          RefillEarns(l, tokens, r.now - time, r.batch, Admitted(l, init) + tokens - l.maxCount,
                      time - FirstAccess(l, init));
        }
      }
    }
  }

  lemma RefillStaysInRange(l: Limits, tokens: int, passed: int, batch: nat)
    requires l.durationMs > 0
    ensures Refilled(l, tokens, passed, batch) <= l.maxCount - batch
  {
  }

  /**
   In whole tokens: what has been admitted never exceeds the capacity plus the tokens earned since the first
   access.
   */
  lemma AdmittedBound(l: Limits, requests: seq<Request>)
    requires ValidLimits(l) && Run(l, requests).Some?
    ensures var elapsed := Run(l, requests).value.time - FirstAccess(l, requests);
            Admitted(l, requests) <= l.maxCount + l.tokenCount * elapsed / l.durationMs
  {
    TokenBound(l, requests);
    var b := Run(l, requests).value;
    var elapsed := b.time - FirstAccess(l, requests);
    var spent := Admitted(l, requests) - l.maxCount;
    assert spent * l.durationMs <= (spent + b.tokens) * l.durationMs;
    AtMostQuotient(spent, l.durationMs, l.tokenCount * elapsed);
  }

  lemma AtMostQuotient(q: int, d: int, x: int)
    requires d > 0 && q * d <= x
    ensures q <= x / d
  {
    var k := x / d;
    assert x == k * d + x % d;
    assert (q - k) * d == q * d - k * d;
    NotPositive(q - k, d);
  }

  lemma NotPositive(a: int, d: int)
    requires d > 0 && a * d < d
    ensures a <= 0
  {
    assert (a - 1) * d == a * d - d;
  }
}
