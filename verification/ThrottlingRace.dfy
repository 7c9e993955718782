/**
 The flow throttler under concurrency: a step of a thread is one atomic operation on the pass time
 given out last.
 */
module ThrottlingRace {
  import opened Wrappers
  import opened Throttling

  /** A limiter with its threshold; the checks below all go by the same one. */
  datatype Limiter = Limiter(limits: Limits, threshold: real)

  predicate ValidLimiter(r: Limiter) {
    r.threshold > 0.0 && r.limits.maxQueueingTimeNs >= 0 && r.limits.statIntervalNs > 0
  }

  function Cost(r: Limiter, batch: nat): int {
    if r.threshold > 0.0 then Interval(r.limits, batch, r.threshold) else 0
  }

  /** What a thread will do next with its batch; `now` is the time it read on entering. */
  datatype Thread =
    | Outside
    | Load(batch: nat, now: int)
    | Swap(batch: nat, now: int, loaded: int)
    | LoadAgain(batch: nat, now: int)
    | Add(batch: nat, now: int)
    | TakeBack(batch: nat)
    | Done(verdict: Verdict)

  /** A successful swap, the addition of an interval, and its undoing. */
  datatype Write = Swapped(to: int) | Added(d: int) | TakenBack(d: int)

  /** The pass time, and the batches and intervals granted so far. */
  datatype Shared = Shared(last: int, granted: nat, grantedTime: int)

  /** One operation of a thread: the shared state and the thread after it, and what it wrote. */
  function Move(r: Limiter, g: Shared, t: Thread): (Shared, Thread, Option<Write>) {
    match t
    case Load(batch, now) =>
      (g, if g.last + Cost(r, batch) <= now then Swap(batch, now, g.last) else LoadAgain(batch, now), None)
    case Swap(batch, now, loaded) =>
      if g.last == loaded then
        (Shared(now, g.granted + batch, g.grantedTime + Cost(r, batch)), Done(PassAfter(0)), Some(Swapped(now)))
      else (g, LoadAgain(batch, now), None)
    case LoadAgain(batch, now) =>
      (g, if g.last + Cost(r, batch) - now > r.limits.maxQueueingTimeNs then Done(Blocked) else Add(batch, now), None)
    case Add(batch, now) =>
      var sum, write := g.last + Cost(r, batch), Some(Added(Cost(r, batch)));
      if sum - now > r.limits.maxQueueingTimeNs then (g.(last := sum), TakeBack(batch), write)
      else (Shared(sum, g.granted + batch, g.grantedTime + Cost(r, batch)),
            Done(PassAfter(if sum - now > 0 then sum - now else 0)), write)
    case TakeBack(batch) =>
      (g.(last := g.last - Cost(r, batch)), Done(Blocked), Some(TakenBack(Cost(r, batch))))
    case _ => (g, t, None)
  }

  /** The tests before the pass time is looked at. */
  function Enter(r: Limiter, batch: nat, now: int): Thread {
    if batch == 0 then Done(PassAfter(0))
    else if r.threshold <= 0.0 || batch as real > r.threshold then Done(Blocked)
    else Load(batch, now)
  }

  /** A thread that is outside or done may enter with a batch; the clock never goes back. */
  datatype Env = Env(now: int, request: Option<nat>)

  datatype Entry = Entry(thread: nat, write: Write)

  /** An admitted request: when it passes, the pass time it left stored, and its interval. */
  datatype Grant = Grant(moment: int, stored: int, cost: int)

  datatype Race = Race(shared: Shared, clock: int, threads: seq<Thread>, log: seq<Entry>, grants: seq<Grant>)

  /** What a thread's operation admits, if it does, leaving `last` stored. */
  function GrantOf(r: Limiter, t: Thread, last: int, t': Thread): seq<Grant> {
    if (t.Swap? || t.Add?) && t'.Done? && t'.verdict.PassAfter? then
      [Grant(t.now + t'.verdict.wait, last, Cost(r, t.batch))]
    else []
  }

  function Step(r: Limiter, s: Race, i: nat, env: Env): Race {
    var clock := if env.now > s.clock then env.now else s.clock;
    if i >= |s.threads| then s.(clock := clock)
    else if s.threads[i].Outside? || s.threads[i].Done? then
      if env.request.None? then s.(clock := clock)
      else s.(clock := clock, threads := s.threads[i := Enter(r, env.request.value, clock)])
    else
      var (g, t, write) := Move(r, s.shared, s.threads[i]);
      Race(g, clock, s.threads[i := t], if write.Some? then s.log + [Entry(i, write.value)] else s.log,
           s.grants + GrantOf(r, s.threads[i], g.last, t))
  }

  function Run(r: Limiter, s: Race, schedule: seq<(nat, Env)>): Race
    decreases schedule
  {
    if schedule == [] then s
    else
      var last := schedule[|schedule| - 1];
      Step(r, Run(r, s, schedule[..|schedule| - 1]), last.0, last.1)
  }

  function Initial(threads: nat, last: int, now: int): Race {
    Race(Shared(last, 0, 0), now, seq(threads, _ => Outside), [], [])
  }

  // ---------- waiting ----------

  predicate WaitsWithin(r: Limiter, t: Thread) {
    t.Done? && t.verdict.PassAfter? ==> 0 <= t.verdict.wait <= r.limits.maxQueueingTimeNs
  }

  /** In every interleaving, whoever is admitted waits at most the queueing time. */
  lemma {:induction false} AdmittedWaitAtMost(r: Limiter, s: Race, schedule: seq<(nat, Env)>)
    requires r.limits.maxQueueingTimeNs >= 0 && forall i :: 0 <= i < |s.threads| ==> WaitsWithin(r, s.threads[i])
    ensures var s' := Run(r, s, schedule);
            |s'.threads| == |s.threads| && forall i :: 0 <= i < |s'.threads| ==> WaitsWithin(r, s'.threads[i])
    decreases schedule
  {
    if schedule != [] {
      AdmittedWaitAtMost(r, s, schedule[..|schedule| - 1]);
    }
  }

  // ---------- the rate ----------

  /** What a thread has added and must still take back. */
  function Owed(r: Limiter, t: Thread): int {
    if t.TakeBack? then Cost(r, t.batch) else 0
  }

  function AllOwed(r: Limiter, threads: seq<Thread>): int {
    if threads == [] then 0 else Owed(r, threads[0]) + AllOwed(r, threads[1..])
  }

  lemma {:induction false} OwedUpdate(r: Limiter, threads: seq<Thread>, i: nat, t: Thread)
    requires i < |threads|
    ensures AllOwed(r, threads[i := t]) == AllOwed(r, threads) - Owed(r, threads[i]) + Owed(r, t)
    decreases threads
  {
    if i == 0 {
      assert threads[i := t][1..] == threads[1..];
    } else {
      assert threads[i := t][1..] == threads[1..][i - 1 := t];
      OwedUpdate(r, threads[1..], i - 1, t);
    }
  }

  /** A swap is only tried when the time it loaded lies an interval back. */
  predicate SwapsLate(r: Limiter, t: Thread) {
    t.Swap? ==> t.loaded + Cost(r, t.batch) <= t.now
  }

  /** Pass time beyond what is granted or still to be taken back. */
  function Slack(r: Limiter, s: Race): int {
    s.shared.last - s.shared.grantedTime - AllOwed(r, s.threads)
  }

  lemma MoveKeepsSlack(r: Limiter, g: Shared, t: Thread)
    requires SwapsLate(r, t)
    ensures var (g', t', _) := Move(r, g, t);
            SwapsLate(r, t') &&
            g'.last - g'.grantedTime - Owed(r, t') >= g.last - g.grantedTime - Owed(r, t)
  {
  }

  lemma {:induction false} SlackGrows(r: Limiter, s: Race, schedule: seq<(nat, Env)>)
    requires forall i :: 0 <= i < |s.threads| ==> SwapsLate(r, s.threads[i])
    ensures var s' := Run(r, s, schedule);
            |s'.threads| == |s.threads| && Slack(r, s') >= Slack(r, s) &&
            forall i :: 0 <= i < |s'.threads| ==> SwapsLate(r, s'.threads[i])
    decreases schedule
  {
    if schedule != [] {
      var (i, env) := schedule[|schedule| - 1];
      SlackGrows(r, s, schedule[..|schedule| - 1]);
      StepKeepsSlack(r, Run(r, s, schedule[..|schedule| - 1]), i, env);
    }
  }

  lemma StepKeepsSlack(r: Limiter, s: Race, i: nat, env: Env)
    requires forall j :: 0 <= j < |s.threads| ==> SwapsLate(r, s.threads[j])
    ensures var s' := Step(r, s, i, env);
            |s'.threads| == |s.threads| && Slack(r, s') >= Slack(r, s) &&
            forall j :: 0 <= j < |s'.threads| ==> SwapsLate(r, s'.threads[j])
  {
    if i < |s.threads| {
      OwedUpdate(r, s.threads, i, Step(r, s, i, env).threads[i]);
      assert s.threads[i := s.threads[i]] == s.threads;
      MoveKeepsSlack(r, s.shared, s.threads[i]);
    }
  }

  /** What is granted fits the rate, batch by batch. */
  lemma {:induction false} GrantedCovered(r: Limiter, s: Race, schedule: seq<(nat, Env)>)
    requires ValidLimiter(r)
    ensures var s' := Run(r, s, schedule);
            s'.shared.granted >= s.shared.granted &&
            WithinRate(r.limits, s'.shared.granted - s.shared.granted, r.threshold,
                       s'.shared.grantedTime - s.shared.grantedTime)
    decreases schedule
  {
    if schedule != [] {
      var (i, env) := schedule[|schedule| - 1];
      GrantedCovered(r, s, schedule[..|schedule| - 1]);
      var before, after := Run(r, s, schedule[..|schedule| - 1]), Run(r, s, schedule);
      if i < |before.threads| && after.shared.granted != before.shared.granted {
        var batch := before.threads[i].batch;
        IntervalCovers(r.limits, batch, r.threshold);
        RatesAdd(r.limits, r.threshold, before.shared.granted - s.shared.granted,
                 before.shared.grantedTime - s.shared.grantedTime,
                 batch, Cost(r, batch), after.shared.grantedTime - s.shared.grantedTime);
      } else if i < |before.threads| && after.shared.grantedTime != before.shared.grantedTime {
        CostPositive(r, before.threads[i].batch);
        RatesAdd(r.limits, r.threshold, before.shared.granted - s.shared.granted,
                 before.shared.grantedTime - s.shared.grantedTime,
                 0, 0, after.shared.grantedTime - s.shared.grantedTime);
      }
    }
  }

  lemma CostPositive(r: Limiter, batch: nat)
    requires ValidLimiter(r)
    ensures Cost(r, batch) >= 0 && (batch > 0 ==> Cost(r, batch) > 0)
  {
    var x := batch as real / r.threshold;
    assert x >= 0.0 && (batch > 0 ==> x > 0.0);
    ProductPositive(x, r.limits.statIntervalNs as real);
    CeilBound(x * r.limits.statIntervalNs as real);
  }

  lemma ProductPositive(x: real, y: real)
    requires x >= 0.0 && y > 0.0
    ensures x * y >= 0.0 && (x > 0.0 ==> x * y > 0.0)
  {
  }

  /**
   In every interleaving, over any stretch that begins while no rejected request still has to take
   back what it added, the admitted batches fit the threshold times the pass time gone by.
   */
  lemma RateInEveryInterleaving(r: Limiter, threads: nat, last: int, now: int, before: seq<(nat, Env)>,
                                stretch: seq<(nat, Env)>)
    requires ValidLimiter(r)
    requires var s := Run(r, Initial(threads, last, now), before);
             forall i :: 0 <= i < |s.threads| ==> !s.threads[i].TakeBack?
    ensures var s := Run(r, Initial(threads, last, now), before);
            var s' := Run(r, s, stretch);
            WithinRate(r.limits, s'.shared.granted - s.shared.granted, r.threshold, s'.shared.last - s.shared.last)
  {
    var s := Run(r, Initial(threads, last, now), before);
    var s' := Run(r, s, stretch);
    SlackGrows(r, Initial(threads, last, now), before);
    SlackGrows(r, s, stretch);
    GrantedCovered(r, s, stretch);
    NothingOwed(r, s.threads);
    OwedPositive(r, s'.threads);
    RatesAdd(r.limits, r.threshold, s'.shared.granted - s.shared.granted, s'.shared.grantedTime - s.shared.grantedTime,
             0, 0, s'.shared.last - s.shared.last);
  }

  lemma {:induction false} NothingOwed(r: Limiter, threads: seq<Thread>)
    requires forall i :: 0 <= i < |threads| ==> !threads[i].TakeBack?
    ensures AllOwed(r, threads) == 0
    decreases threads
  {
    if threads != [] {
      NothingOwed(r, threads[1..]);
    }
  }

  lemma {:induction false} OwedPositive(r: Limiter, threads: seq<Thread>)
    requires ValidLimiter(r)
    ensures AllOwed(r, threads) >= 0
    decreases threads
  {
    if threads != [] {
      OwedPositive(r, threads[1..]);
      if threads[0].TakeBack? {
        CostPositive(r, threads[0].batch);
      }
    }
  }

  predicate ReadNoLater(t: Thread, clock: int) {
    t.Load? || t.Swap? || t.LoadAgain? || t.Add? ==> t.now <= clock
  }

  /** The latest pass time that may be given out by then. */
  function Horizon(r: Limiter, last: int, clock: int): int {
    if clock + r.limits.maxQueueingTimeNs > last then clock + r.limits.maxQueueingTimeNs else last
  }

  lemma {:induction false} WithinHorizon(r: Limiter, threads: nat, last: int, now: int, schedule: seq<(nat, Env)>)
    requires ValidLimiter(r)
    ensures var s := Run(r, Initial(threads, last, now), schedule);
            s.shared.last - AllOwed(r, s.threads) <= Horizon(r, last, s.clock) &&
            forall i :: 0 <= i < |s.threads| ==> ReadNoLater(s.threads[i], s.clock)
    decreases schedule
  {
    if schedule == [] {
      NothingOwed(r, Initial(threads, last, now).threads);
    } else {
      var (i, env) := schedule[|schedule| - 1];
      WithinHorizon(r, threads, last, now, schedule[..|schedule| - 1]);
      StepWithinHorizon(r, Run(r, Initial(threads, last, now), schedule[..|schedule| - 1]), i, env, last);
    }
  }

  lemma StepWithinHorizon(r: Limiter, s: Race, i: nat, env: Env, last: int)
    requires ValidLimiter(r) && s.shared.last - AllOwed(r, s.threads) <= Horizon(r, last, s.clock)
    requires forall j :: 0 <= j < |s.threads| ==> ReadNoLater(s.threads[j], s.clock)
    ensures var s' := Step(r, s, i, env);
            s'.shared.last - AllOwed(r, s'.threads) <= Horizon(r, last, s'.clock) &&
            forall j :: 0 <= j < |s'.threads| ==> ReadNoLater(s'.threads[j], s'.clock)
  {
    if i < |s.threads| {
      var s' := Step(r, s, i, env);
      OwedPositive(r, s'.threads);
      OwedUpdate(r, s.threads, i, s'.threads[i]);
      assert s.threads[i := s.threads[i]] == s.threads && s'.threads == s.threads[i := s'.threads[i]];
      MoveWithinHorizon(r, s.shared, s.threads[i], s.clock);
    }
  }

  /** An operation leaves the pass time owed to nobody as it was, or sets a time within the queueing time. */
  lemma MoveWithinHorizon(r: Limiter, g: Shared, t: Thread, clock: int)
    requires ReadNoLater(t, clock) && r.limits.maxQueueingTimeNs >= 0
    ensures var (g', t', _) := Move(r, g, t);
            ReadNoLater(t', clock) &&
            (g'.last - Owed(r, t') == g.last - Owed(r, t) ||
             (Owed(r, t') == 0 && g'.last <= clock + r.limits.maxQueueingTimeNs))
  {
  }

  /**
   By the clock: in every interleaving the admitted batches fit the threshold times the time gone by and the
   queueing time.
   */
  lemma AdmittedByTheClock(r: Limiter, threads: nat, last: int, now: int, schedule: seq<(nat, Env)>)
    requires ValidLimiter(r)
    ensures var s := Run(r, Initial(threads, last, now), schedule);
            WithinRate(r.limits, s.shared.granted, r.threshold, Horizon(r, last, s.clock) - last)
  {
    var start := Initial(threads, last, now);
    var s := Run(r, start, schedule);
    NothingOwed(r, start.threads);
    SlackGrows(r, start, schedule);
    GrantedCovered(r, start, schedule);
    WithinHorizon(r, threads, last, now, schedule);
    RatesAdd(r.limits, r.threshold, s.shared.granted, s.shared.grantedTime, 0, 0, Horizon(r, last, s.clock) - last);
  }

  // ---------- spacing ----------

  /** Each request passes at least its interval after all that were admitted before it. */
  predicate MomentsSpaced(grants: seq<Grant>) {
    forall i, j :: 0 <= i < j < |grants| ==> grants[j].moment >= grants[i].moment + grants[j].cost
  }

  /** The same of the pass times they left stored. */
  predicate TimesSpaced(grants: seq<Grant>) {
    forall i, j :: 0 <= i < j < |grants| ==> grants[j].stored >= grants[i].stored + grants[j].cost
  }

  predicate Grants(r: Limiter, g: Shared, t: Thread) {
    (t.Swap? && g.last == t.loaded) ||
    (t.Add? && g.last + Cost(r, t.batch) - t.now <= r.limits.maxQueueingTimeNs)
  }

  /** Nobody is admitted while another thread has yet to take back what it added. */
  predicate KeepsOut(r: Limiter, s: Race, i: nat) {
    i < |s.threads| && Grants(r, s.shared, s.threads[i]) ==>
      forall j :: 0 <= j < |s.threads| && j != i ==> !s.threads[j].TakeBack?
  }

  /** Nobody is admitted by an addition that does not even reach the time it came in. */
  predicate OnTime(r: Limiter, s: Race, i: nat) {
    i < |s.threads| && s.threads[i].Add? && Grants(r, s.shared, s.threads[i]) ==>
      s.shared.last + Cost(r, s.threads[i].batch) >= s.threads[i].now
  }

  predicate Serialised(r: Limiter, s: Race, schedule: seq<(nat, Env)>)
    decreases schedule
  {
    schedule == [] ||
    (Serialised(r, s, schedule[..|schedule| - 1]) &&
     KeepsOut(r, Run(r, s, schedule[..|schedule| - 1]), schedule[|schedule| - 1].0))
  }

  predicate AllOnTime(r: Limiter, s: Race, schedule: seq<(nat, Env)>)
    decreases schedule
  {
    schedule == [] ||
    (AllOnTime(r, s, schedule[..|schedule| - 1]) &&
     OnTime(r, Run(r, s, schedule[..|schedule| - 1]), schedule[|schedule| - 1].0))
  }

  /** No admitted request is later than the pass time, less what is still to be taken back. */
  predicate Ahead(r: Limiter, s: Race) {
    TimesSpaced(s.grants) && (forall i :: 0 <= i < |s.threads| ==> SwapsLate(r, s.threads[i])) &&
    forall k :: 0 <= k < |s.grants| ==> s.grants[k].stored <= s.shared.last - AllOwed(r, s.threads)
  }

  lemma StepStaysAhead(r: Limiter, s: Race, i: nat, env: Env)
    requires ValidLimiter(r) && Ahead(r, s) && KeepsOut(r, s, i)
    ensures Ahead(r, Step(r, s, i, env))
  {
    if i < |s.threads| {
      var t, s' := s.threads[i], Step(r, s, i, env);
      OwedUpdate(r, s.threads, i, s'.threads[i]);
      assert s.threads[i := t] == s.threads && s'.threads == s.threads[i := s'.threads[i]];
      if Grants(r, s.shared, t) {
        NothingOwed(r, s.threads);
        CostPositive(r, t.batch);
      }
    }
  }

  /**
   In every schedule in which nobody is admitted while another thread has yet to take back, the stored
   pass times are spaced by the intervals.
   */
  lemma {:induction false} SerialisedTimesSpaced(r: Limiter, threads: nat, last: int, now: int,
                                                 schedule: seq<(nat, Env)>)
    requires ValidLimiter(r) && Serialised(r, Initial(threads, last, now), schedule)
    ensures Ahead(r, Run(r, Initial(threads, last, now), schedule))
    ensures TimesSpaced(Run(r, Initial(threads, last, now), schedule).grants)
    decreases schedule
  {
    if schedule != [] {
      var (i, env) := schedule[|schedule| - 1];
      SerialisedTimesSpaced(r, threads, last, now, schedule[..|schedule| - 1]);
      StepStaysAhead(r, Run(r, Initial(threads, last, now), schedule[..|schedule| - 1]), i, env);
    }
  }

  predicate Prompt(grants: seq<Grant>) {
    forall k :: 0 <= k < |grants| ==> grants[k].moment == grants[k].stored
  }

  lemma {:induction false} PassesWhenStored(r: Limiter, threads: nat, last: int, now: int, schedule: seq<(nat, Env)>)
    requires AllOnTime(r, Initial(threads, last, now), schedule)
    ensures Prompt(Run(r, Initial(threads, last, now), schedule).grants)
    decreases schedule
  {
    if schedule != [] {
      var (i, env) := schedule[|schedule| - 1];
      PassesWhenStored(r, threads, last, now, schedule[..|schedule| - 1]);
      StepIsPrompt(r, Run(r, Initial(threads, last, now), schedule[..|schedule| - 1]), i, env);
    }
  }

  lemma StepIsPrompt(r: Limiter, s: Race, i: nat, env: Env)
    requires Prompt(s.grants) && OnTime(r, s, i)
    ensures Prompt(Step(r, s, i, env).grants)
  {
    if i < |s.threads| {
      var (g, t, _) := Move(r, s.shared, s.threads[i]);
      assert Prompt(GrantOf(r, s.threads[i], g.last, t));
    }
  }

  /** If, besides, no addition falls short of the time its request came in, the requests themselves are spaced. */
  lemma SerialisedMomentsSpaced(r: Limiter, threads: nat, last: int, now: int, schedule: seq<(nat, Env)>)
    requires ValidLimiter(r)
    requires Serialised(r, Initial(threads, last, now), schedule) && AllOnTime(r, Initial(threads, last, now), schedule)
    ensures MomentsSpaced(Run(r, Initial(threads, last, now), schedule).grants)
  {
    SerialisedTimesSpaced(r, threads, last, now, schedule);
    PassesWhenStored(r, threads, last, now, schedule);
  }

  // ---------- rejected requests ----------

  function Apply(last: int, log: seq<Entry>): int
    decreases log
  {
    if log == [] then last
    else
      var before := Apply(last, log[..|log| - 1]);
      match log[|log| - 1].write
      case Swapped(to) => to
      case Added(d) => before + d
      case TakenBack(d) => before - d
  }

  /** The last thing the thread wrote, if the log has anything of it. */
  function LastOf(log: seq<Entry>, i: nat): (k: Option<nat>)
    ensures match k
            case Some(p) => p < |log| && log[p].thread == i && forall q :: p < q < |log| ==> log[q].thread != i
            case None => forall q :: 0 <= q < |log| ==> log[q].thread != i
  {
    if log == [] then None
    else if log[|log| - 1].thread == i then Some(|log| - 1)
    else LastOf(log[..|log| - 1], i)
  }

  /** The log explains the pass time, and a thread about to take back wrote its addition last. */
  ghost predicate Explained(r: Limiter, last: int, s: Race) {
    s.shared.last == Apply(last, s.log) && (forall i :: 0 <= i < |s.threads| ==> HasBatch(s.threads[i])) &&
    forall i :: 0 <= i < |s.threads| && s.threads[i].TakeBack? ==> WroteLast(r, s.log, i, s.threads[i])
  }

  predicate HasBatch(t: Thread) {
    t.Outside? || t.Done? || t.batch > 0
  }

  predicate WroteLast(r: Limiter, log: seq<Entry>, i: nat, t: Thread)
    requires t.TakeBack?
  {
    var p := LastOf(log, i);
    p.Some? && log[p.value].write == Added(Cost(r, t.batch))
  }

  lemma {:induction false} LogExplains(r: Limiter, threads: nat, last: int, now: int, schedule: seq<(nat, Env)>)
    ensures Explained(r, last, Run(r, Initial(threads, last, now), schedule))
    decreases schedule
  {
    if schedule != [] {
      var (i, env) := schedule[|schedule| - 1];
      LogExplains(r, threads, last, now, schedule[..|schedule| - 1]);
      StepExplains(r, last, Run(r, Initial(threads, last, now), schedule[..|schedule| - 1]), i, env);
    }
  }

  lemma LastOfSnoc(log: seq<Entry>, e: Entry, j: nat)
    ensures LastOf(log + [e], j) == if e.thread == j then Some(|log|) else LastOf(log, j)
  {
    assert (log + [e])[..|log|] == log;
  }

  lemma MoveWrites(r: Limiter, g: Shared, t: Thread)
    ensures var (g', t', write) := Move(r, g, t);
            (t'.TakeBack? ==> write == Some(Added(Cost(r, t'.batch))) || t' == t) &&
            g'.last == match write
                       case None => g.last
                       case Some(Swapped(to)) => to
                       case Some(Added(d)) => g.last + d
                       case Some(TakenBack(d)) => g.last - d
    ensures t.TakeBack? ==> Move(r, g, t).1.Done?
    ensures HasBatch(t) ==> HasBatch(Move(r, g, t).1)
  {
  }

  lemma StepExplains(r: Limiter, last: int, s: Race, i: nat, env: Env)
    requires Explained(r, last, s)
    ensures Explained(r, last, Step(r, s, i, env))
  {
    var s' := Step(r, s, i, env);
    if i < |s.threads| && !s.threads[i].Outside? && !s.threads[i].Done? {
      var (g, t, write) := Move(r, s.shared, s.threads[i]);
      MoveWrites(r, s.shared, s.threads[i]);
      if write.Some? {
        var e := Entry(i, write.value);
        assert (s.log + [e])[..|s.log|] == s.log;
        forall j | 0 <= j < |s'.threads| && s'.threads[j].TakeBack?
          ensures WroteLast(r, s.log + [e], j, s'.threads[j])
        {
          LastOfSnoc(s.log, e, j);
          assert j != i ==> WroteLast(r, s.log, j, s.threads[j]);
        }
      }
    }
  }

  /** Another thread swapped the pass time. */
  predicate SwapAmong(log: seq<Entry>) {
    exists k :: 0 <= k < |log| && log[k].write.Swapped?
  }

  /** Adding `d` before some writes and taking it back after them is undone unless a swap comes between. */
  lemma {:induction false} UndoneUnlessSwapped(start: int, d: int, between: seq<Entry>)
    ensures Apply(start + d, between) == if SwapAmong(between) then Apply(start, between) else Apply(start, between) + d
    decreases between
  {
    if between != [] {
      var init, n := between[..|between| - 1], |between| - 1;
      UndoneUnlessSwapped(start, d, init);
      assert SwapAmong(init) ==> SwapAmong(between);
      assert SwapAmong(between) && !SwapAmong(init) ==> between[n].write.Swapped?;
    }
  }

  lemma {:induction false} ApplyConcat(last: int, a: seq<Entry>, b: seq<Entry>)
    ensures Apply(last, a + b) == Apply(Apply(last, a), b)
    decreases b
  {
    if b == [] {
      assert a + b == a;
    } else {
      assert (a + b)[..|a + b| - 1] == a + b[..|b| - 1];
      ApplyConcat(last, a, b[..|b| - 1]);
    }
  }

  /**
   In every schedule, a rejected request that is about to take back what it added will leave the pass
   time as the others made it exactly when none of them swapped it since. (A swap keeps nothing of
   the addition, but the undoing still takes it off.)
   */
  lemma RejectionIsTracelessExactlyWhen(r: Limiter, threads: nat, last: int, now: int, schedule: seq<(nat, Env)>,
                                        i: nat, env: Env)
    requires var s := Run(r, Initial(threads, last, now), schedule); i < |s.threads| && s.threads[i].TakeBack?
    requires ValidLimiter(r)
    ensures var s := Run(r, Initial(threads, last, now), schedule);
            var p := LastOf(s.log, i);
            p.Some? && s.log[p.value].write == Added(Cost(r, s.threads[i].batch)) &&
            var others := s.log[..p.value] + s.log[p.value + 1..];
            (Step(r, s, i, env).shared.last == Apply(last, others) <==> !SwapAmong(s.log[p.value + 1..]))
  {
    var s := Run(r, Initial(threads, last, now), schedule);
    LogExplains(r, threads, last, now, schedule);
    assert WroteLast(r, s.log, i, s.threads[i]);
    CostPositive(r, s.threads[i].batch);
    Undoing(last, s.log, LastOf(s.log, i).value, Cost(r, s.threads[i].batch));
  }

  lemma Undoing(last: int, log: seq<Entry>, p: nat, d: int)
    requires p < |log| && log[p].write == Added(d)
    ensures Apply(last, log) == Apply(last, log[..p] + log[p + 1..]) + if SwapAmong(log[p + 1..]) then 0 else d
  {
    var before, between := log[..p], log[p + 1..];
    assert log == (before + [log[p]]) + between;
    ApplyConcat(last, before + [log[p]], between);
    assert (before + [log[p]])[..p] == before;
    ApplyConcat(last, before, between);
    UndoneUnlessSwapped(Apply(last, before), d, between);
  }

  // ---------- one thread at a time ----------

  /** What a check comes to when the others do `others[0]` to the pass time before its first operation, and so on. */
  function Follow(r: Limiter, last: int, t: Thread, others: seq<int -> int>): (Verdict, int)
    decreases others
  {
    if t.Done? then (t.verdict, last)
    else if others == [] then (Blocked, last)
    else
      var (g, t', _) := Move(r, Shared(others[0](last), 0, 0), t);
      Follow(r, g.last, t', others[1..])
  }

  /** Left alone, a thread of the machine does one sequential check. */
  lemma AloneIsCheck(r: Limiter, last: int, batch: nat, now: int, others: seq<int -> int>)
    requires |others| >= 3 && forall k, x :: 0 <= k < |others| ==> others[k](x) == x
    ensures Follow(r, last, Enter(r, batch, now), others) == Check(r.limits, last, batch, r.threshold, now)
  {
    var after := others[1..];
    assert after[0](last) == last && after[1..][0] == others[2];
    if batch > 0 && r.threshold > 0.0 && batch as real <= r.threshold {
      AloneLoads(r, last, batch, now, others);
    }
  }

  lemma AloneLoads(r: Limiter, last: int, batch: nat, now: int, others: seq<int -> int>)
    requires batch > 0 && r.threshold > 0.0 && batch as real <= r.threshold
    requires |others| >= 3 && others[0](last) == last && others[1](last) == last && others[2](last) == last
    ensures Follow(r, last, Load(batch, now), others) == Check(r.limits, last, batch, r.threshold, now)
  {
    var cost := Cost(r, batch);
    var one, two := others[1..], others[1..][1..];
    assert one[0] == others[1] && two[0] == others[2];
    if last + cost <= now {
      assert Follow(r, last, Load(batch, now), others) == Follow(r, last, Swap(batch, now, last), one);
      assert Follow(r, last, Swap(batch, now, last), one) == Follow(r, now, Done(PassAfter(0)), two);
    } else {
      assert Follow(r, last, Load(batch, now), others) == Follow(r, last, LoadAgain(batch, now), one);
      if last + cost - now > r.limits.maxQueueingTimeNs {
        assert Follow(r, last, LoadAgain(batch, now), one) == Follow(r, last, Done(Blocked), two);
      } else {
        assert Follow(r, last, LoadAgain(batch, now), one) == Follow(r, last, Add(batch, now), two);
        assert Follow(r, last, Add(batch, now), two)
            == Follow(r, last + cost, Done(PassAfter(last + cost - now)), two[1..]);
      }
    }
  }

  class ThrottlingChecker {
    const limits: Limits
    var lastPassedTime: int

    constructor (timeoutMs: nat, statIntervalMs: nat)
      ensures lastPassedTime == 0
      ensures limits == Limits(timeoutMs * 1000000, (if statIntervalMs == 0 then 1000 else statIntervalMs) * 1000000)
    {
      limits := Limits(timeoutMs * 1000000, (if statIntervalMs == 0 then 1000 else statIntervalMs) * 1000000);
      lastPassedTime := 0;
    }

    /** Line by line the machine's thread, whatever the others do to the pass time before each operation. */
    method DoCheck(batch: nat, threshold: real, now: int, others: seq<int -> int>) returns (v: Verdict)
      requires |others| == 5
      modifies this
      ensures (v, lastPassedTime) == Follow(Limiter(limits, threshold), old(lastPassedTime),
                                            Enter(Limiter(limits, threshold), batch, now), others)
      ensures (forall k, x :: 0 <= k < 5 ==> others[k](x) == x) ==>
                (v, lastPassedTime) == Check(limits, old(lastPassedTime), batch, threshold, now)
    {
      ghost var r := Limiter(limits, threshold);
      if forall k, x :: 0 <= k < 5 ==> others[k](x) == x {
        AloneIsCheck(r, lastPassedTime, batch, now, others);
      }
      if batch <= 0 {
        return PassAfter(0);
      }
      if threshold <= 0.0 || batch as real > threshold {
        return Blocked;
      }
      var interval := Interval(limits, batch, threshold);
      lastPassedTime := others[0](lastPassedTime);
      var loaded := lastPassedTime;
      var rest := others[1..];
      assert Follow(r, old(lastPassedTime), Load(batch, now), others)
          == Follow(r, loaded, if loaded + interval <= now then Swap(batch, now, loaded)
                               else LoadAgain(batch, now), rest);
      if loaded + interval <= now {
        lastPassedTime := rest[0](lastPassedTime);
        if lastPassedTime == loaded {
          lastPassedTime := now;
          assert Follow(r, loaded, Swap(batch, now, loaded), rest) == Follow(r, now, Done(PassAfter(0)), rest[1..]);
          return PassAfter(0);
        }
        assert Follow(r, loaded, Swap(batch, now, loaded), rest)
            == Follow(r, lastPassedTime, LoadAgain(batch, now), rest[1..]);
        rest := rest[1..];
      }
      v := Queue(batch, threshold, now, interval, rest);
    }

    method Queue(batch: nat, threshold: real, now: int, interval: int, others: seq<int -> int>) returns (v: Verdict)
      requires |others| >= 3 && threshold > 0.0 && interval == Interval(limits, batch, threshold)
      modifies this
      ensures (v, lastPassedTime) == Follow(Limiter(limits, threshold), old(lastPassedTime), LoadAgain(batch, now),
                                            others)
    {
      ghost var r, last := Limiter(limits, threshold), lastPassedTime;
      lastPassedTime := others[0](lastPassedTime);
      if lastPassedTime + interval - now > limits.maxQueueingTimeNs {
        assert Follow(r, last, LoadAgain(batch, now), others) == Follow(r, lastPassedTime, Done(Blocked), others[1..]);
        return Blocked;
      }
      assert Follow(r, last, LoadAgain(batch, now), others) == Follow(r, lastPassedTime, Add(batch, now), others[1..]);
      v := Reserve(batch, threshold, now, interval, others[1..]);
    }

    method Reserve(batch: nat, threshold: real, now: int, interval: int, others: seq<int -> int>) returns (v: Verdict)
      requires |others| >= 2 && threshold > 0.0 && interval == Interval(limits, batch, threshold)
      modifies this
      ensures (v, lastPassedTime) == Follow(Limiter(limits, threshold), old(lastPassedTime), Add(batch, now), others)
    {
      ghost var r, last := Limiter(limits, threshold), lastPassedTime;
      lastPassedTime := others[0](lastPassedTime);
      lastPassedTime := lastPassedTime + interval;
      var queueing := lastPassedTime - now;
      if queueing > limits.maxQueueingTimeNs {
        ghost var sum := lastPassedTime;
        assert Follow(r, last, Add(batch, now), others) == Follow(r, sum, TakeBack(batch), others[1..]);
        lastPassedTime := others[1](lastPassedTime);
        lastPassedTime := lastPassedTime - interval;
        assert Follow(r, sum, TakeBack(batch), others[1..])
            == Follow(r, lastPassedTime, Done(Blocked), others[1..][1..]);
        return Blocked;
      }
      v := PassAfter(if queueing > 0 then queueing else 0);
      assert Follow(r, last, Add(batch, now), others) == Follow(r, lastPassedTime, Done(v), others[1..]);
    }
  }

  // ---------- spacing can be lost ----------

  /** What matters of a race in the examples. */
  datatype View = View(last: int, clock: int, threads: seq<Thread>, grants: seq<Grant>)

  ghost predicate Reached(r: Limiter, schedule: seq<(nat, Env)>, v: View) {
    var s := Run(r, Initial(|v.threads|, 0, 0), schedule);
    View(s.shared.last, s.clock, s.threads, s.grants) == v
  }

  /** Thread `i` comes in with a batch. */
  lemma Enters(r: Limiter, schedule: seq<(nat, Env)>, v: View, i: nat, batch: nat, now: int)
      returns (more: seq<(nat, Env)>, v': View)
    requires Reached(r, schedule, v) && i < |v.threads| && now >= v.clock
    requires v.threads[i].Outside? || v.threads[i].Done?
    requires 1 <= batch && batch as real <= r.threshold
    ensures Reached(r, more, v') && v' == View(v.last, now, v.threads[i := Load(batch, now)], v.grants)
  {
    more := schedule + [(i, Env(now, Some(batch)))];
    assert more[..|schedule|] == schedule;
    v' := View(v.last, now, v.threads[i := Load(batch, now)], v.grants);
  }

  /** It does its next operation. */
  function Next(r: Limiter, last: int, t: Thread): (int, Thread) {
    var (g, t', _) := Move(r, Shared(last, 0, 0), t);
    (g.last, t')
  }

  lemma NextIsMove(r: Limiter, g: Shared, t: Thread)
    ensures var (g', t', _) := Move(r, g, t); (g'.last, t') == Next(r, g.last, t)
  {
  }

  lemma Goes(r: Limiter, schedule: seq<(nat, Env)>, v: View, i: nat, last: int, t: Thread)
      returns (more: seq<(nat, Env)>, v': View)
    requires Reached(r, schedule, v) && i < |v.threads| && !v.threads[i].Outside? && !v.threads[i].Done?
    requires Next(r, v.last, v.threads[i]) == (last, t)
    ensures Reached(r, more, v')
    ensures v' == View(last, v.clock, v.threads[i := t], v.grants + GrantOf(r, v.threads[i], last, t))
  {
    more := schedule + [(i, Env(v.clock, None))];
    assert more[..|schedule|] == schedule;
    NextIsMove(r, Run(r, Initial(|v.threads|, 0, 0), schedule).shared, v.threads[i]);
    v' := View(last, v.clock, v.threads[i := t], v.grants + GrantOf(r, v.threads[i], last, t));
  }

  const EXAMPLE := Limiter(Limits(5, 10), 1.0)

  lemma ExampleCost()
    ensures Cost(EXAMPLE, 1) == 10
  {
    assert 1 as real / 1.0 * 10 as real == 10.0;
  }

  lemma TwiceAtOnce(grants: seq<Grant>)
    requires |grants| >= 2 && grants[|grants| - 1].cost > 0
    ensures grants[|grants| - 1].stored <= grants[|grants| - 2].stored ==> !TimesSpaced(grants)
    ensures grants[|grants| - 1].moment <= grants[|grants| - 2].moment ==> !MomentsSpaced(grants)
  {
  }

  /**
   Two requests with an interval of 10 are both let through at time 40. The first thread adds 10 too
   many; the third swaps the pass time to 40 before the first takes its 10 back; the fourth then finds
   30 and passes at once, where a pass time of 40 would have blocked it.
   */
  lemma SpacingLost() returns (schedule: seq<(nat, Env)>)
    ensures var grants := Run(EXAMPLE, Initial(4, 0, 0), schedule).grants;
            grants == [Grant(10, 10, 10), Grant(40, 40, 10), Grant(40, 40, 10)] && !TimesSpaced(grants) &&
            !MomentsSpaced(grants)
    ensures Check(EXAMPLE.limits, 40, 1, EXAMPLE.threshold, 40).0 == Blocked
    ensures Check(EXAMPLE.limits, 30, 1, EXAMPLE.threshold, 40).0 == PassAfter(0)
  {
    var v;
    ExampleCost();
    schedule, v := ThirdSwaps();
    schedule, v := Goes(EXAMPLE, schedule, v, 0, 30, Done(Blocked));
    schedule, v := Enters(EXAMPLE, schedule, v, 3, 1, 40);
    schedule, v := Goes(EXAMPLE, schedule, v, 3, 30, Swap(1, 40, 30));
    schedule, v := Goes(EXAMPLE, schedule, v, 3, 40, Done(PassAfter(0)));
    TwiceAtOnce(v.grants);
  }

  lemma ThirdSwaps() returns (schedule: seq<(nat, Env)>, v: View)
    ensures Reached(EXAMPLE, schedule, v) && v.last == 40 && v.clock == 40
    ensures |v.threads| == 4 && v.threads[0] == TakeBack(1) && v.threads[3] == Outside
    ensures v.grants == [Grant(10, 10, 10), Grant(40, 40, 10)]
  {
    ExampleCost();
    schedule, v := TwoAdded();
    schedule, v := Enters(EXAMPLE, schedule, v, 2, 1, 40);
    schedule, v := Goes(EXAMPLE, schedule, v, 2, 20, Swap(1, 40, 20));
    schedule, v := Goes(EXAMPLE, schedule, v, 2, 40, Done(PassAfter(0)));
  }

  /** Both of two threads have found room for one more interval, and both have added it. */
  lemma TwoAdded() returns (schedule: seq<(nat, Env)>, v: View)
    ensures Reached(EXAMPLE, schedule, v) && v.last == 20 && v.clock == 5
    ensures |v.threads| == 4 && v.threads[0] == TakeBack(1) && v.threads[2] == v.threads[3] == Outside
    ensures v.grants == [Grant(10, 10, 10)]
  {
    ExampleCost();
    schedule, v := Ready(EXAMPLE, 4, 1);
    schedule, v := Enters(EXAMPLE, schedule, v, 1, 1, 5);
    schedule, v := Goes(EXAMPLE, schedule, v, 1, 0, LoadAgain(1, 5));
    schedule, v := Goes(EXAMPLE, schedule, v, 1, 0, Add(1, 5));
    schedule, v := Goes(EXAMPLE, schedule, v, 1, 10, Done(PassAfter(5)));
    schedule, v := Goes(EXAMPLE, schedule, v, 0, 20, TakeBack(1));
  }

  /** The first thread has found room for an interval of 10 and is about to add it. */
  lemma Ready(r: Limiter, threads: nat, batch: nat) returns (schedule: seq<(nat, Env)>, v: View)
    requires threads > 0 && Cost(r, batch) == 10 && r.limits.maxQueueingTimeNs == 5
    requires 1 <= batch && batch as real <= r.threshold
    ensures Reached(r, schedule, v) && v == View(0, 5, Initial(threads, 0, 0).threads[0 := Add(batch, 5)], [])
  {
    schedule, v := [], View(0, 0, Initial(threads, 0, 0).threads, []);
    schedule, v := Enters(r, schedule, v, 0, batch, 5);
    schedule, v := Goes(r, schedule, v, 0, 0, LoadAgain(batch, 5));
    schedule, v := Goes(r, schedule, v, 0, 0, Add(batch, 5));
  }

  const DOUBLE := Limiter(Limits(5, 10), 2.0)

  lemma DoubleCost()
    ensures Cost(DOUBLE, 1) == 5 && Cost(DOUBLE, 2) == 10
  {
    assert 1 as real / 2.0 * 10 as real == 5.0;
    assert 2 as real / 2.0 * 10 as real == 10.0;
  }

  /**
   Nobody swaps while a request has yet to take back, and yet two requests with an interval of 5 pass at
   time 20. The third thread is admitted by its addition on top of the 10 that the first takes back.
   */
  lemma SpacingLostToAddition() returns (schedule: seq<(nat, Env)>)
    ensures var grants := Run(DOUBLE, Initial(5, 0, 0), schedule).grants;
            grants == [Grant(5, 5, 5), Grant(20, 20, 5), Grant(15, 15, 5), Grant(20, 20, 5)] &&
            !TimesSpaced(grants) && !MomentsSpaced(grants)
  {
    var v;
    DoubleCost();
    schedule, v := ThirdAdds();
    schedule, v := Goes(DOUBLE, schedule, v, 0, 10, Done(Blocked));
    schedule, v := Enters(DOUBLE, schedule, v, 3, 1, 15);
    schedule, v := Goes(DOUBLE, schedule, v, 3, 10, Swap(1, 15, 10));
    schedule, v := Goes(DOUBLE, schedule, v, 3, 15, Done(PassAfter(0)));
    schedule, v := Queues(schedule, v, 4);
    assert v.grants[1].stored > v.grants[2].stored;
  }

  lemma ThirdAdds() returns (schedule: seq<(nat, Env)>, v: View)
    ensures Reached(DOUBLE, schedule, v) && v.last == 20 && v.clock == 15
    ensures |v.threads| == 5 && v.threads[0] == TakeBack(2) && v.threads[3] == v.threads[4] == Outside
    ensures v.grants == [Grant(5, 5, 5), Grant(20, 20, 5)]
  {
    DoubleCost();
    schedule, v := Ready(DOUBLE, 5, 2);
    schedule, v := Enters(DOUBLE, schedule, v, 1, 1, 5);
    schedule, v := Goes(DOUBLE, schedule, v, 1, 0, Swap(1, 5, 0));
    schedule, v := Goes(DOUBLE, schedule, v, 1, 5, Done(PassAfter(0)));
    schedule, v := Goes(DOUBLE, schedule, v, 0, 15, TakeBack(2));
    schedule, v := Queues(schedule, v, 2);
  }

  /** From 15 a request that comes in at 15 is given 20. */
  lemma Queues(schedule: seq<(nat, Env)>, v: View, i: nat) returns (more: seq<(nat, Env)>, v': View)
    requires Reached(DOUBLE, schedule, v) && v.last == 15 && v.clock <= 15 && i < |v.threads| && v.threads[i] == Outside
    ensures Reached(DOUBLE, more, v')
    ensures v' == View(20, 15, v.threads[i := Done(PassAfter(5))], v.grants + [Grant(20, 20, 5)])
  {
    DoubleCost();
    more, v' := Enters(DOUBLE, schedule, v, i, 1, 15);
    more, v' := Goes(DOUBLE, more, v', i, 15, LoadAgain(1, 15));
    more, v' := Goes(DOUBLE, more, v', i, 15, Add(1, 15));
    more, v' := Goes(DOUBLE, more, v', i, 20, Done(PassAfter(5)));
    assert v'.threads == v.threads[i := Done(PassAfter(5))];
  }

  // ---------- when spacing holds ----------

  /** What one thread on its own is about to do fits the pass time it has looked at. */
  predicate Fits(r: Limiter, g: Shared, t: Thread) {
    match t
    case Swap(_, _, loaded) => loaded == g.last
    case LoadAgain(batch, now) => g.last + Cost(r, batch) > now
    case Add(batch, now) => 0 < g.last + Cost(r, batch) - now <= r.limits.maxQueueingTimeNs
    case TakeBack(_) => false
    case _ => true
  }

  lemma {:induction false} OneThreadSerialised(r: Limiter, threads: nat, last: int, now: int, schedule: seq<(nat, Env)>)
    requires threads <= 1
    ensures var s := Run(r, Initial(threads, last, now), schedule);
            |s.threads| == threads && forall i :: 0 <= i < threads ==> Fits(r, s.shared, s.threads[i])
    ensures Serialised(r, Initial(threads, last, now), schedule) && AllOnTime(r, Initial(threads, last, now), schedule)
    decreases schedule
  {
    if schedule != [] {
      var (i, env) := schedule[|schedule| - 1];
      OneThreadSerialised(r, threads, last, now, schedule[..|schedule| - 1]);
      var s := Run(r, Initial(threads, last, now), schedule[..|schedule| - 1]);
      if i < |s.threads| {
        FitsNext(r, s.shared, s.threads[i]);
        assert i == 0 && |s.threads| == 1;
      }
    }
  }

  lemma FitsNext(r: Limiter, g: Shared, t: Thread)
    requires Fits(r, g, t)
    ensures Fits(r, Move(r, g, t).0, Move(r, g, t).1)
  {
  }

  /** With a threshold below one every batch is refused before the pass time is looked at. */
  lemma {:induction false} NobodyAdmitted(r: Limiter, threads: nat, last: int, now: int, schedule: seq<(nat, Env)>)
    requires r.threshold < 1.0
    ensures var s := Run(r, Initial(threads, last, now), schedule);
            s.grants == [] && forall i :: 0 <= i < |s.threads| ==> s.threads[i].Outside? || s.threads[i].Done?
    decreases schedule
  {
    if schedule != [] {
      NobodyAdmitted(r, threads, last, now, schedule[..|schedule| - 1]);
    }
  }

  /**
   With two threads the second swaps between the first one's load and its swap. The first then queues
   with an addition that does not even reach its own time, passes at once, and the second, back again,
   passes at the same time. The pass times they leave stored are spaced all the same.
   */
  lemma TwiceAtThree(r: Limiter, threads: nat) returns (schedule: seq<(nat, Env)>)
    requires ValidLimiter(r) && threads >= 2 && r.threshold >= 1.0
    ensures var grants := Run(r, Initial(threads, 0, 0), schedule).grants; TimesSpaced(grants) && !MomentsSpaced(grants)
  {
    var c, v := Cost(r, 1), View(0, 0, [], []);
    CostPositive(r, 1);
    schedule, v := FirstAdds(r, threads);
    schedule, v := Enters(r, schedule, v, 1, 1, 3 * c);
    schedule, v := Goes(r, schedule, v, 1, 2 * c, Swap(1, 3 * c, 2 * c));
    schedule, v := Goes(r, schedule, v, 1, 3 * c, Done(PassAfter(0)));
    TwiceAtOnce(v.grants);
  }

  lemma FirstAdds(r: Limiter, threads: nat) returns (schedule: seq<(nat, Env)>, v: View)
    requires ValidLimiter(r) && threads >= 2 && r.threshold >= 1.0
    ensures var c := Cost(r, 1);
            Reached(r, schedule, v) && v.last == 2 * c && v.clock == 3 * c && |v.threads| == threads &&
            v.threads[1].Done? &&
            v.grants == [Grant(c, c, c), Grant(3 * c, 2 * c, c)]
  {
    var c := Cost(r, 1);
    CostPositive(r, 1);
    schedule, v := BothLoaded(r, threads);
    schedule, v := Goes(r, schedule, v, 1, c, Done(PassAfter(0)));
    schedule, v := Goes(r, schedule, v, 0, c, LoadAgain(1, 3 * c));
    schedule, v := Goes(r, schedule, v, 0, c, Add(1, 3 * c));
    schedule, v := Goes(r, schedule, v, 0, 2 * c, Done(PassAfter(0)));
  }

  lemma BothLoaded(r: Limiter, threads: nat) returns (schedule: seq<(nat, Env)>, v: View)
    requires ValidLimiter(r) && threads >= 2 && r.threshold >= 1.0
    ensures var c := Cost(r, 1);
            Reached(r, schedule, v) && v.last == 0 && v.clock == 3 * c && |v.threads| == threads &&
            v.threads[0] == Swap(1, 3 * c, 0) && v.threads[1] == Swap(1, c, 0) && v.grants == []
  {
    var c := Cost(r, 1);
    CostPositive(r, 1);
    schedule, v := [], View(0, 0, Initial(threads, 0, 0).threads, []);
    schedule, v := Enters(r, schedule, v, 1, 1, c);
    schedule, v := Goes(r, schedule, v, 1, 0, Swap(1, c, 0));
    schedule, v := Enters(r, schedule, v, 0, 1, 3 * c);
    schedule, v := Goes(r, schedule, v, 0, 0, Swap(1, 3 * c, 0));
  }

  /**
   In every schedule each request passes at least its interval after all that were admitted before it,
   exactly when there is but one thread, or the threshold lets nobody in.
   */
  lemma SpacedExactlyWhen(r: Limiter, threads: nat)
    requires ValidLimiter(r)
    ensures (forall last: int, now: int,
             schedule: seq<(nat, Env)> {:trigger Run(r, Initial(threads, last, now), schedule)} ::
               MomentsSpaced(Run(r, Initial(threads, last, now), schedule).grants))
            <==> threads <= 1 || r.threshold < 1.0
  {
    if threads <= 1 || r.threshold < 1.0 {
      forall last: int, now: int, schedule: seq<(nat, Env)> {:trigger Run(r, Initial(threads, last, now), schedule)}
        ensures MomentsSpaced(Run(r, Initial(threads, last, now), schedule).grants)
      {
        if threads <= 1 {
          OneThreadSerialised(r, threads, last, now, schedule);
          SerialisedMomentsSpaced(r, threads, last, now, schedule);
        } else {
          NobodyAdmitted(r, threads, last, now, schedule);
        }
      }
    } else {
      var schedule := TwiceAtThree(r, threads);
    }
  }
}
