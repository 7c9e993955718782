/** Circuit breakers: the three strategies as functions on a snapshot, and the runs of one breaker. */
module CircuitBreaking {
  import opened Wrappers

  datatype State = Closed | HalfOpen | Open

  datatype Strategy = SlowRequestRatio(maxAllowedRtMs: nat) | ErrorRatio | ErrorCount

  datatype Rule = Rule(
    strategy: Strategy, retryTimeoutMs: nat, probeNum: nat, minRequestAmount: nat, threshold: real)

  /** One bucket of the sliding window. `bad` counts slow requests or errors, as the strategy says. */
  datatype Counter = Counter(bad: nat, total: nat)

  datatype Breaker = Breaker(
    rule: Rule, state: State, nextRetryTimestampMs: int, curProbeNumber: nat, window: seq<Counter>)

  /** How the window moved since it was last used: oldest buckets that fell out, and whether a new one began. */
  datatype Slide = Slide(expired: nat, begun: bool)

  function NewBreaker(rule: Rule): Breaker {
    Breaker(rule, Closed, 0, 0, [])
  }

  // ---------- the window ----------

  /** The buckets in use now; the last one is current. */
  function Slid(window: seq<Counter>, slide: Slide): (w: seq<Counter>)
    ensures w != []
  {
    var kept := if slide.expired < |window| then window[slide.expired..] else [];
    if slide.begun || kept == [] then kept + [Counter(0, 0)] else kept
  }

  function Record(window: seq<Counter>, bad: bool): (w: seq<Counter>)
    requires window != []
    ensures w != []
  {
    var last := window[|window| - 1];
    window[..|window| - 1] + [Counter(last.bad + (if bad then 1 else 0), last.total + 1)]
  }

  function Total(window: seq<Counter>): nat {
    if window == [] then 0 else window[0].total + Total(window[1..])
  }

  function BadTotal(window: seq<Counter>): nat {
    if window == [] then 0 else window[0].bad + BadTotal(window[1..])
  }

  function Cleared(window: seq<Counter>): (w: seq<Counter>)
    ensures |w| == |window|
  {
    seq(|window|, _ => Counter(0, 0))
  }

  lemma {:induction false} TotalConcat(a: seq<Counter>, b: seq<Counter>)
    ensures Total(a + b) == Total(a) + Total(b) && BadTotal(a + b) == BadTotal(a) + BadTotal(b)
    decreases a
  {
    if a == [] {
      assert a + b == b;
    } else {
      assert (a + b)[1..] == a[1..] + b;
      TotalConcat(a[1..], b);
    }
  }

  lemma {:induction false} ClearedIsEmpty(window: seq<Counter>)
    ensures Total(Cleared(window)) == 0
    decreases window
  {
    if window != [] {
      assert Cleared(window)[1..] == Cleared(window[1..]);
      ClearedIsEmpty(window[1..]);
    }
  }

  /** Recording counts one request; sliding only forgets. */
  lemma RecordCountsOne(window: seq<Counter>, slide: Slide, bad: bool)
    ensures 1 <= Total(Record(Slid(window, slide), bad)) <= Total(window) + 1
  {
    var kept := if slide.expired < |window| then window[slide.expired..] else [];
    if slide.expired < |window| {
      TotalConcat(window[..slide.expired], kept);
      assert window[..slide.expired] + kept == window;
    }
    TotalConcat(kept, [Counter(0, 0)]);
    var w := Slid(window, slide);
    var init, last := w[..|w| - 1], w[|w| - 1];
    TotalConcat(init, [last]);
    assert init + [last] == w;
    var last' := Counter(last.bad + (if bad then 1 else 0), last.total + 1);
    TotalConcat(init, [last']);
    assert Total([last]) == last.total && Total([last']) == last'.total;
  }

  // ---------- one breaker ----------

  /** Acquires permission. An open breaker whose retry time has come turns half-open to let a probe through. */
  function TryPass(b: Breaker, now: int): (bool, Breaker) {
    match b.state
    case Closed => (true, b)
    case Open => if now >= b.nextRetryTimestampMs then (true, b.(state := HalfOpen)) else (false, b)
    case HalfOpen => (b.rule.probeNum > 0, b)
  }

  /** Whether this `TryPass` is the one that turned the breaker half-open. */
  predicate Probes(b: Breaker, now: int) {
    b.state == Open && now >= b.nextRetryTimestampMs
  }

  /** The exit handler of a blocked probe. */
  function RollBack(b: Breaker): Breaker {
    if b.state == HalfOpen then b.(state := Open) else b
  }

  predicate IsBad(rule: Rule, rt: nat, failed: bool) {
    match rule.strategy
    case SlowRequestRatio(maxRt) => rt > maxRt
    case _ => failed
  }

  function Abs(x: real): real {
    if x < 0.0 then -x else x
  }

  predicate FloatEquals(x: real, y: real) {
    Abs(x - y) < 0.00000001
  }

  predicate Exceeds(rule: Rule, bad: nat, total: nat)
    requires total > 0
  {
    match rule.strategy
    case ErrorCount => bad >= (if rule.threshold >= 0.0 then rule.threshold.Floor else 0)
    case _ =>
      var ratio := bad as real / total as real;
      ratio > rule.threshold || FloatEquals(ratio, rule.threshold)
  }

  function Tripped(b: Breaker, now: int): Breaker {
    b.(state := Open, nextRetryTimestampMs := now + b.rule.retryTimeoutMs)
  }

  /** What a completed request does to a breaker; without a current bucket it does nothing. */
  function Complete(b: Breaker, now: int, rt: nat, failed: bool, slide: Option<Slide>): Breaker {
    if slide.None? then b
    else
      var bad := IsBad(b.rule, rt, failed);
      var window := Record(Slid(b.window, slide.value), bad);
      var b := b.(window := window);
      match b.state
      case Open => b
      case HalfOpen =>
        if bad then Tripped(b.(curProbeNumber := 0), now)
        else if b.rule.probeNum == 0 || b.curProbeNumber + 1 >= b.rule.probeNum then
          b.(state := Closed, curProbeNumber := 0, window := Cleared(window))
        else b.(curProbeNumber := b.curProbeNumber + 1)
      case Closed =>
        if Total(window) < b.rule.minRequestAmount then b
        else if Total(window) > 0 && Exceeds(b.rule, BadTotal(window), Total(window)) then Tripped(b, now)
        else b
  }

  // ---------- a run of one breaker ----------

  /**
   A request arrives and may later be blocked by another slot or breaker, which undoes its probe; or
   a request completes.
   */
  datatype Event =
    | Request(now: int, blockedElsewhere: bool)
    | Completion(now: int, rt: nat, failed: bool, slide: Option<Slide>)

  function After(b: Breaker, e: Event): Breaker {
    match e
    case Request(now, blocked) =>
      var b' := TryPass(b, now).1;
      if blocked && Probes(b, now) then RollBack(b') else b'
    case Completion(now, rt, failed, slide) => Complete(b, now, rt, failed, slide)
  }

  function RunBreaker(b: Breaker, events: seq<Event>): Breaker
    decreases events
  {
    if events == [] then b
    else After(RunBreaker(b, events[..|events| - 1]), events[|events| - 1])
  }

  predicate Admits(b: Breaker, e: Event) {
    e.Request? && !e.blockedElsewhere && TryPass(b, e.now).0
  }

  predicate Trips(b: Breaker, e: Event) {
    e.Completion? && b.state != Open && After(b, e).state == Open
  }

  predicate Closes(b: Breaker, e: Event) {
    b.state != Closed && After(b, e).state == Closed
  }

  /** Whether a completion is a success counted towards closing: fast enough, or without an error. */
  predicate Succeeds(b: Breaker, e: Event) {
    e.Completion? && e.slide.Some? && b.state == HalfOpen &&
    match b.rule.strategy
    case SlowRequestRatio(maxRt) => e.rt <= maxRt
    case ErrorRatio => !e.failed
    case ErrorCount => !e.failed
  }

  /** Successful probes since the breaker last tripped or closed, counted from the events alone. */
  function Successes(b: Breaker, events: seq<Event>): nat
    decreases events
  {
    if events == [] then 0
    else
      var init, last := events[..|events| - 1], events[|events| - 1];
      var before := RunBreaker(b, init);
      if Trips(before, last) || Closes(before, last) then 0
      else Successes(b, init) + if Succeeds(before, last) then 1 else 0
  }

  predicate Recorded(e: Event) {
    e.Completion? && e.slide.Some?
  }

  /** Requests completed and recorded since the breaker last closed, or began. */
  function CompletionsSinceClosing(b: Breaker, events: seq<Event>): nat
    decreases events
  {
    if events == [] then 0
    else
      var init, last := events[..|events| - 1], events[|events| - 1];
      if Closes(RunBreaker(b, init), last) then 0
      else CompletionsSinceClosing(b, init) + if Recorded(last) then 1 else 0
  }

  /** A fresh breaker after any run: what its fields mean. */
  ghost predicate Meaning(rule: Rule, events: seq<Event>) {
    var b := RunBreaker(NewBreaker(rule), events);
    b.rule == rule &&
    b.curProbeNumber == Successes(NewBreaker(rule), events) &&
    b.curProbeNumber < Max1(rule.probeNum) &&
    (b.state == Closed ==> b.curProbeNumber == 0) &&
    Total(b.window) <= CompletionsSinceClosing(NewBreaker(rule), events)
  }

  function Max1(n: nat): nat {
    if n > 1 then n else 1
  }

  lemma StepKeepsMeaning(b: Breaker, e: Event)
    requires b.curProbeNumber < Max1(b.rule.probeNum) && (b.state == Closed ==> b.curProbeNumber == 0)
    ensures var b' := After(b, e);
            b'.rule == b.rule && b'.curProbeNumber < Max1(b.rule.probeNum) &&
            (b'.state == Closed ==> b'.curProbeNumber == 0) &&
            b'.curProbeNumber == (if Trips(b, e) || Closes(b, e) then 0
                                  else b.curProbeNumber + if Succeeds(b, e) then 1 else 0) &&
            Total(b'.window) <= (if Closes(b, e) then 0 else Total(b.window) + if Recorded(e) then 1 else 0)
  {
    if e.Completion? && e.slide.Some? {
      var bad := IsBad(b.rule, e.rt, e.failed);
      RecordCountsOne(b.window, e.slide.value, bad);
      ClearedIsEmpty(Record(Slid(b.window, e.slide.value), bad));
    }
  }

  lemma {:induction false} MeaningHolds(rule: Rule, events: seq<Event>)
    ensures Meaning(rule, events)
    decreases events
  {
    if events != [] {
      var init, last := events[..|events| - 1], events[|events| - 1];
      MeaningHolds(rule, init);
      StepKeepsMeaning(RunBreaker(NewBreaker(rule), init), last);
    }
  }

  /**
   A half-open breaker closes exactly on the success that brings the successes since the last trip
   or closing to `max(1, probeNum)`.
   */
  lemma ClosesExactlyWhen(rule: Rule, events: seq<Event>, e: Event)
    ensures var b := RunBreaker(NewBreaker(rule), events);
            Closes(b, e) <==> Succeeds(b, e) && Successes(NewBreaker(rule), events) + 1 == Max1(rule.probeNum)
  {
    MeaningHolds(rule, events);
  }

  /** A trip out of Closed needs at least `minRequestAmount` completions since the last closing. */
  lemma TripNeedsRequests(rule: Rule, events: seq<Event>, e: Event)
    requires RunBreaker(NewBreaker(rule), events).state == Closed && Trips(RunBreaker(NewBreaker(rule), events), e)
    ensures CompletionsSinceClosing(NewBreaker(rule), events) + 1 >= rule.minRequestAmount
  {
    MeaningHolds(rule, events);
    var b := RunBreaker(NewBreaker(rule), events);
    RecordCountsOne(b.window, e.slide.value, IsBad(rule, e.rt, e.failed));
  }

  // ---------- what the window counts ----------

  /** The buckets left when the window has moved, each with its completions, and a new one if need be. */
  function Moved(buckets: seq<seq<Event>>, slide: Slide): (moved: seq<seq<Event>>)
    ensures moved != []
  {
    var gone := if slide.expired <= |buckets| then slide.expired else |buckets|;
    if slide.begun || gone == |buckets| then buckets[gone..] + [[]] else buckets[gone..]
  }

  function RecentAfter(buckets: seq<seq<Event>>, e: Event, closes: bool): seq<seq<Event>> {
    if !Recorded(e) then buckets
    else
      var moved := Moved(buckets, e.slide.value);
      if closes then seq(|moved|, _ => []) else moved[|moved| - 1 := moved[|moved| - 1] + [e]]
  }

  /** The completions in each bucket of the window, the oldest bucket first, from the events alone. */
  function Recent(b: Breaker, events: seq<Event>): seq<seq<Event>>
    decreases events
  {
    if events == [] then []
    else
      var init, e := events[..|events| - 1], events[|events| - 1];
      RecentAfter(Recent(b, init), e, Closes(RunBreaker(b, init), e))
  }

  function Count(es: seq<Event>, p: Event -> bool): nat {
    if es == [] then 0 else (if p(es[0]) then 1 else 0) + Count(es[1..], p)
  }

  function CountAll(buckets: seq<seq<Event>>, p: Event -> bool): nat {
    if buckets == [] then 0 else Count(buckets[0], p) + CountAll(buckets[1..], p)
  }

  const Errors: Event -> bool := (e: Event) => e.Completion? && e.failed

  function SlowerThan(maxRt: nat): Event -> bool {
    (e: Event) => e.Completion? && e.rt > maxRt
  }

  const Any: Event -> bool := (e: Event) => true

  lemma {:induction false} CountSnoc(es: seq<Event>, e: Event, p: Event -> bool)
    ensures Count(es + [e], p) == Count(es, p) + if p(e) then 1 else 0
    decreases es
  {
    if es != [] {
      assert (es + [e])[1..] == es[1..] + [e];
      CountSnoc(es[1..], e, p);
    }
  }

  /** A bucket counts what it should: the completions in it, and the bad ones among them. */
  predicate Counts(c: Counter, es: seq<Event>, bad: Event -> bool) {
    c.total == Count(es, Any) && c.bad == Count(es, bad)
  }

  predicate AllCount(window: seq<Counter>, buckets: seq<seq<Event>>, bad: Event -> bool) {
    |window| == |buckets| && forall i :: 0 <= i < |window| ==> Counts(window[i], buckets[i], bad)
  }

  function BadEvents(rule: Rule): Event -> bool {
    match rule.strategy
    case SlowRequestRatio(maxRt) => SlowerThan(maxRt)
    case ErrorRatio => Errors
    case ErrorCount => Errors
  }

  lemma RecordCounts(window: seq<Counter>, buckets: seq<seq<Event>>, rule: Rule, e: Event)
    requires AllCount(window, buckets, BadEvents(rule)) && window != [] && e.Completion?
    ensures var last := |buckets| - 1;
            AllCount(Record(window, IsBad(rule, e.rt, e.failed)), buckets[last := buckets[last] + [e]], BadEvents(rule))
  {
    var last := |buckets| - 1;
    CountSnoc(buckets[last], e, Any);
    CountSnoc(buckets[last], e, BadEvents(rule));
  }

  lemma SlideCounts(window: seq<Counter>, buckets: seq<seq<Event>>, bad: Event -> bool, slide: Slide)
    requires AllCount(window, buckets, bad)
    ensures AllCount(Slid(window, slide), Moved(buckets, slide), bad)
  {
  }

  lemma StepCounts(b: Breaker, buckets: seq<seq<Event>>, e: Event)
    requires AllCount(b.window, buckets, BadEvents(b.rule))
    ensures AllCount(After(b, e).window, RecentAfter(buckets, e, Closes(b, e)), BadEvents(b.rule))
  {
    if Recorded(e) {
      var window, moved := Slid(b.window, e.slide.value), Moved(buckets, e.slide.value);
      SlideCounts(b.window, buckets, BadEvents(b.rule), e.slide.value);
      RecordCounts(window, moved, b.rule, e);
      assert |Record(window, IsBad(b.rule, e.rt, e.failed))| == |moved|;
      AfterWindow(b, e);
    }
  }

  lemma AfterWindow(b: Breaker, e: Event)
    requires Recorded(e)
    ensures var window := Record(Slid(b.window, e.slide.value), IsBad(b.rule, e.rt, e.failed));
            After(b, e).window == if Closes(b, e) then Cleared(window) else window
  {
  }

  lemma {:induction false} WindowCounts(rule: Rule, events: seq<Event>)
    ensures AllCount(RunBreaker(NewBreaker(rule), events).window, Recent(NewBreaker(rule), events), BadEvents(rule))
    decreases events
  {
    if events != [] {
      var init := events[..|events| - 1];
      WindowCounts(rule, init);
      RuleFixed(NewBreaker(rule), init);
      StepCounts(RunBreaker(NewBreaker(rule), init), Recent(NewBreaker(rule), init), events[|events| - 1]);
    }
  }

  lemma {:induction false} TotalsCount(window: seq<Counter>, buckets: seq<seq<Event>>, bad: Event -> bool)
    requires AllCount(window, buckets, bad)
    ensures Total(window) == CountAll(buckets, Any) && BadTotal(window) == CountAll(buckets, bad)
    decreases window
  {
    if window != [] {
      TotalsCount(window[1..], buckets[1..], bad);
    }
  }

  /**
   After any run the window's total is the completions recorded in its buckets, and its bad count those
   with an error, or with the slow-request strategy those slower than allowed.
   */
  lemma BadCountMeans(rule: Rule, events: seq<Event>)
    ensures Holds(rule, RunBreaker(NewBreaker(rule), events).window, Recent(NewBreaker(rule), events))
  {
    WindowCounts(rule, events);
    TotalsCount(RunBreaker(NewBreaker(rule), events).window, Recent(NewBreaker(rule), events), BadEvents(rule));
  }

  // ---------- when a breaker trips and closes ----------

  /** A ratio within the float tolerance of the threshold, or above it. */
  lemma RatioReaches(bad: nat, total: nat, threshold: real)
    requires total > 0
    ensures var ratio := bad as real / total as real;
            (ratio > threshold || FloatEquals(ratio, threshold)) <==>
                bad as real > (threshold - 0.00000001) * total as real
  {
    var ratio, t := bad as real / total as real, total as real;
    assert ratio * t == bad as real;
    Scaled(ratio, threshold - 0.00000001, t);
  }

  lemma Scaled(x: real, y: real, t: real)
    requires t > 0.0
    ensures x > y <==> x * t > y * t
  {
    assert x * t - y * t == (x - y) * t;
    if x > y {
      assert (x - y) * t > 0.0;
    } else {
      assert (y - x) * t >= 0.0;
    }
  }

  /**
   In Closed a breaker trips exactly on a recorded completion with which the window holds enough of them
   and, counted from the events, the errors reach the whole part of the threshold, or the share of the
   errors or slow requests reaches it but for the float tolerance.
   */
  lemma TripsExactlyWhen(rule: Rule, events: seq<Event>, e: Event)
    requires RunBreaker(NewBreaker(rule), events).state == Closed
    ensures Trips(RunBreaker(NewBreaker(rule), events), e)
            <==> Recorded(e) && Reached(rule, Recent(NewBreaker(rule), events + [e]))
  {
    RuleFixed(NewBreaker(rule), events);
    CountsAfter(rule, events, e, Recent(NewBreaker(rule), events + [e]));
    TripsWhenReached(RunBreaker(NewBreaker(rule), events), e, Recent(NewBreaker(rule), events + [e]));
  }

  lemma TripsWhenReached(b: Breaker, e: Event, recent: seq<seq<Event>>)
    requires b.state == Closed && Holds(b.rule, After(b, e).window, recent)
    ensures Trips(b, e) <==> Recorded(e) && Reached(b.rule, recent)
  {
    var bad := BadTotal(After(b, e).window);
    TripsByCounts(b, e, CountAll(recent, Any), bad);
  }

  /** The window's totals, counted from the events. */
  predicate Holds(rule: Rule, window: seq<Counter>, recent: seq<seq<Event>>) {
    Total(window) == CountAll(recent, Any) &&
    match rule.strategy
    case SlowRequestRatio(maxRt) => BadTotal(window) == CountAll(recent, SlowerThan(maxRt))
    case ErrorRatio => BadTotal(window) == CountAll(recent, Errors)
    case ErrorCount => BadTotal(window) == CountAll(recent, Errors)
  }

  /** Enough completions, and enough bad ones among them. */
  predicate Reached(rule: Rule, recent: seq<seq<Event>>) {
    var total := CountAll(recent, Any);
    match rule.strategy
    case SlowRequestRatio(maxRt) => ReachedBy(rule, total, CountAll(recent, SlowerThan(maxRt)))
    case ErrorRatio => ReachedBy(rule, total, CountAll(recent, Errors))
    case ErrorCount => ReachedBy(rule, total, CountAll(recent, Errors))
  }

  /** The count reaches the whole part of the threshold, or the share reaches it but for the float tolerance. */
  predicate ReachedBy(rule: Rule, total: nat, bad: nat) {
    total > 0 && total >= rule.minRequestAmount &&
    if rule.strategy.ErrorCount? then bad as real > rule.threshold - 1.0
    else bad as real > (rule.threshold - 0.00000001) * total as real
  }

  lemma CountsAfter(rule: Rule, events: seq<Event>, e: Event, recent: seq<seq<Event>>)
    requires recent == Recent(NewBreaker(rule), events + [e])
    ensures Holds(rule, After(RunBreaker(NewBreaker(rule), events), e).window, recent)
  {
    RunSnoc(NewBreaker(rule), events, e);
    BadCountMeans(rule, events + [e]);
  }

  lemma TripsByCounts(b: Breaker, e: Event, total: nat, bad: nat)
    requires b.state == Closed
    requires var window := After(b, e).window; Total(window) == total && BadTotal(window) == bad
    ensures Trips(b, e) <==> Recorded(e) && ReachedBy(b.rule, total, bad)
  {
    if Recorded(e) {
      TripsOn(b, e);
      if total > 0 {
        ExceedsMeans(b.rule, bad, total);
      }
    }
  }

  lemma RunSnoc(b: Breaker, events: seq<Event>, e: Event)
    ensures RunBreaker(b, events + [e]) == After(RunBreaker(b, events), e)
  {
    assert (events + [e])[..|events|] == events;
  }

  lemma TripsOn(b: Breaker, e: Event)
    requires b.state == Closed && Recorded(e)
    ensures var window := After(b, e).window;
            Trips(b, e) <==>
              Total(window) > 0 && Total(window) >= b.rule.minRequestAmount &&
              Exceeds(b.rule, BadTotal(window), Total(window))
  {
  }

  lemma ExceedsMeans(rule: Rule, bad: nat, total: nat)
    requires total > 0
    ensures Exceeds(rule, bad, total)
            <==> if rule.strategy.ErrorCount? then bad as real > rule.threshold - 1.0
                 else bad as real > (rule.threshold - 0.00000001) * total as real
  {
    RatioReaches(bad, total, rule.threshold);
  }

  /**
   In HalfOpen a recorded completion that is too slow, or failed, opens the breaker again; any other counts
   as a success, and the one that brings the successes to the probe number, at least one, closes it.
   */
  lemma HalfOpenDecides(rule: Rule, events: seq<Event>, e: Event)
    requires RunBreaker(NewBreaker(rule), events).state == HalfOpen
    ensures var b := RunBreaker(NewBreaker(rule), events);
            var enough := Successes(NewBreaker(rule), events) + 1 == Max1(rule.probeNum);
            match rule.strategy
            case SlowRequestRatio(maxRt) =>
              (Trips(b, e) <==> Recorded(e) && e.rt > maxRt) &&
              (Closes(b, e) <==> Recorded(e) && e.rt <= maxRt && enough)
            case _ =>
              (Trips(b, e) <==> Recorded(e) && e.failed) && (Closes(b, e) <==> Recorded(e) && !e.failed && enough)
  {
    RuleFixed(NewBreaker(rule), events);
    ClosesExactlyWhen(rule, events, e);
  }

  /**
   A request gets in exactly when the breaker is closed, or open with its retry time come, or half-open with a
   probe number.
   */
  lemma AdmitsExactlyWhen(b: Breaker, now: int)
    ensures Admits(b, Request(now, false)) <==>
              b.state == Closed || (b.state == Open && now >= b.nextRetryTimestampMs) ||
              (b.state == HalfOpen && b.rule.probeNum > 0)
    ensures After(b, Request(now, false))
         == if b.state == Open && now >= b.nextRetryTimestampMs then b.(state := HalfOpen) else b
    ensures After(b, Request(now, true)) == b
  {
  }

  /** A breaker that has just tripped lets a probe through exactly from the retry timeout on. */
  lemma ProbedExactlyFrom(b: Breaker, e: Event, now: int)
    requires Trips(b, e)
    ensures Admits(After(b, e), Request(now, false)) <==> now >= e.now + b.rule.retryTimeoutMs
  {
  }

  predicate Ordered(events: seq<Event>) {
    forall i, j :: 0 <= i < j < |events| ==> events[i].now <= events[j].now
  }

  /** From a trip on, the breaker is open until the retry time, or that time has come. */
  lemma {:induction false} OpenUntilRetry(b: Breaker, events: seq<Event>, k: nat)
    requires Ordered(events) && k < |events| && Trips(RunBreaker(b, events[..k]), events[k])
    ensures var b' := RunBreaker(b, events);
            events[|events| - 1].now >= events[k].now + b.rule.retryTimeoutMs ||
            (b'.state == Open && b'.nextRetryTimestampMs == events[k].now + b.rule.retryTimeoutMs)
    decreases events
  {
    var init, last := events[..|events| - 1], events[|events| - 1];
    RuleFixed(b, init);
    if k == |init| {
      assert events[..k] == init;
    } else {
      assert init[..k] == events[..k];
      OpenUntilRetry(b, init, k);
    }
  }

  lemma {:induction false} RuleFixed(b: Breaker, events: seq<Event>)
    ensures RunBreaker(b, events).rule == b.rule
    decreases events
  {
    if events != [] {
      RuleFixed(b, events[..|events| - 1]);
    }
  }

  /**
   After a trip at time `t` no request is admitted before `t + retryTimeoutMs`, in any run whose clock does not
   go back.
   */
  lemma NothingAdmittedBeforeRetry(b: Breaker, events: seq<Event>, k: nat, j: nat)
    requires Ordered(events) && k < j < |events|
    requires Trips(RunBreaker(b, events[..k]), events[k]) && Admits(RunBreaker(b, events[..j]), events[j])
    ensures events[j].now >= events[k].now + b.rule.retryTimeoutMs
  {
    assert events[..j][..k] == events[..k];
    NothingAdmittedNext(b, events[..j], k, events[j]);
  }

  lemma NothingAdmittedNext(b: Breaker, events: seq<Event>, k: nat, e: Event)
    requires Ordered(events) && k < |events| && events[|events| - 1].now <= e.now
    requires Trips(RunBreaker(b, events[..k]), events[k]) && Admits(RunBreaker(b, events), e)
    ensures e.now >= events[k].now + b.rule.retryTimeoutMs
  {
    OpenUntilRetry(b, events, k);
    NotAdmittedYet(RunBreaker(b, events), e, events[|events| - 1].now, events[k].now + b.rule.retryTimeoutMs);
  }

  lemma NotAdmittedYet(b: Breaker, e: Event, last: int, due: int)
    requires Admits(b, e) && last <= e.now && (last >= due || (b.state == Open && b.nextRetryTimestampMs == due))
    ensures e.now >= due
  {
  }

  /** The probe number does not limit the probes in flight: a half-open breaker admits any number of them. */
  lemma {:induction false} HalfOpenAdmitsAny(b: Breaker, now: int, n: nat)
    requires b.state == HalfOpen && b.rule.probeNum > 0
    ensures RunBreaker(b, seq(n, _ => Request(now, false))) == b && Admits(b, Request(now, false))
    decreases n
  {
    if n > 0 {
      assert seq(n, _ => Request(now, false))[..n - 1] == seq(n - 1, _ => Request(now, false));
      HalfOpenAdmitsAny(b, now, n - 1);
    }
  }
}
