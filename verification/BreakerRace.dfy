/**
 One circuit breaker under concurrency: a step of a thread is one atomic operation on the breaker's
 state, retry time or probe counter.
 */
module BreakerRace {
  import opened Wrappers
  import opened CircuitBreaking

  /**
   `switches` counts the transitions to half-open, `openAdmissions` the requests let in by a breaker not
   closed; `lastTrip` is when a completion last opened the breaker.
   */
  datatype Shared = Shared(
    state: State, nextRetryTimestampMs: int, curProbeNumber: nat, now: int, switches: nat, openAdmissions: nat,
    lastTrip: Option<int>)

  /** What a thread will do next. An admitted thread remembers whether it turned the breaker half-open. */
  datatype Thread =
    | Outside
    // TryPass
    | ReadState
    | ReadRetryTime
    | CasOpenHalfOpen
    | Won
    | Inside(probe: bool)
    // the exit of a blocked entry
    | Undo
    // OnRequestComplete
    | Judge(bad: bool)
    | FailProbe
    | AddProbe
    | TestProbe
    | CasHalfOpenClosed
    | ResetProbe(retryToo: bool)
    | ReadAgain
    | CasClosedOpen
    | StoreRetryTime

  datatype Race = Race(shared: Shared, threads: seq<Thread>)

  /** What a thread does in its own time: the clock, whether its entry is blocked, what it found in the window. */
  datatype Env = Env(now: int, enters: bool, blocked: bool, bad: bool, exceeds: bool)

  /** A compare-and-swap that leads to one of two places. */
  function Cas(g: Shared, expected: State, update: State, won: Thread, lost: Thread): (Shared, Thread) {
    if g.state == expected then (g.(state := update), won) else (g, lost)
  }

  /** A completion opens the breaker; the retry time is still to be stored. */
  function Trip(g: Shared, expected: State, won: Thread): (Shared, Thread) {
    if g.state == expected then (g.(state := Open, lastTrip := Some(g.now)), won) else (g, Outside)
  }

  function MoveTryPass(rule: Rule, g: Shared, t: Thread, env: Env): (Shared, Thread) {
    match t
    case ReadState =>
      (match g.state
       case Closed => (g, Inside(false))
       case Open => (g, ReadRetryTime)
       case HalfOpen =>
         if rule.probeNum > 0 then (g.(openAdmissions := g.openAdmissions + 1), Inside(false)) else (g, Outside))
    case ReadRetryTime => (g, if g.now >= g.nextRetryTimestampMs then CasOpenHalfOpen else Outside)
    case CasOpenHalfOpen =>
      var (g', t') := Cas(g, Open, HalfOpen, Won, Outside);
      (if t'.Won? then g'.(switches := g.switches + 1) else g', t')
    case Won => (g.(openAdmissions := g.openAdmissions + 1), Inside(true))
    case Undo => Cas(g, HalfOpen, Open, Outside, Outside)
    case _ => (g, t)
  }

  function MoveComplete(rule: Rule, g: Shared, t: Thread, env: Env): (Shared, Thread) {
    match t
    case Judge(bad) =>
      (match g.state
       case Open => (g, Outside)
       case HalfOpen => (g, if bad then FailProbe else AddProbe)
       case Closed => (g, if env.exceeds then ReadAgain else Outside))
    case FailProbe => Trip(g, HalfOpen, ResetProbe(true))
    case AddProbe => (g.(curProbeNumber := g.curProbeNumber + 1), TestProbe)
    case TestProbe => (g, if rule.probeNum == 0 || g.curProbeNumber >= rule.probeNum then CasHalfOpenClosed
                          else Outside)
    case CasHalfOpenClosed => Cas(g, HalfOpen, Closed, ResetProbe(false), Outside)
    case ResetProbe(retryToo) => (g.(curProbeNumber := 0), if retryToo then StoreRetryTime else Outside)
    case ReadAgain => (g, match g.state case Closed => CasClosedOpen case HalfOpen => FailProbe case Open => Outside)
    case CasClosedOpen => Trip(g, Closed, StoreRetryTime)
    case StoreRetryTime => (g.(nextRetryTimestampMs := g.now + rule.retryTimeoutMs), Outside)
    case _ => (g, t)
  }

  function Move(rule: Rule, g: Shared, t: Thread, env: Env): (Shared, Thread) {
    match t
    case Outside => (g, if env.enters then ReadState else Outside)
    case Inside(probe) => (g, if !env.blocked then Judge(env.bad) else if probe then Undo else Outside)
    case ReadState | ReadRetryTime | CasOpenHalfOpen | Won | Undo => MoveTryPass(rule, g, t, env)
    case _ => MoveComplete(rule, g, t, env)
  }

  function Step(rule: Rule, s: Race, i: nat, env: Env): Race {
    if i >= |s.threads| then s
    else
      var g := if env.now > s.shared.now then s.shared.(now := env.now) else s.shared;
      var (g', t) := Move(rule, g, s.threads[i], env);
      Race(g', s.threads[i := t])
  }

  function Run(rule: Rule, s: Race, schedule: seq<(nat, Env)>): Race
    decreases schedule
  {
    if schedule == [] then s
    else
      var last := schedule[|schedule| - 1];
      Step(rule, Run(rule, s, schedule[..|schedule| - 1]), last.0, last.1)
  }

  function Initial(threads: nat, now: int): Race {
    Race(Shared(Closed, 0, 0, now, 0, 0, None), seq(threads, _ => Outside))
  }

  function Winning(t: Thread): nat {
    if t.Won? then 1 else 0
  }

  /** Threads that have switched the breaker and not yet returned. */
  function Winners(threads: seq<Thread>): nat {
    if threads == [] then 0 else Winning(threads[0]) + Winners(threads[1..])
  }

  lemma {:induction false} WinnersUpdate(threads: seq<Thread>, i: nat, t: Thread)
    requires i < |threads|
    ensures Winners(threads[i := t]) == Winners(threads) - Winning(threads[i]) + Winning(t)
    decreases threads
  {
    if i == 0 {
      assert threads[i := t][1..] == threads[1..];
    } else {
      assert threads[i := t][1..] == threads[1..][i - 1 := t];
      WinnersUpdate(threads[1..], i - 1, t);
    }
  }

  lemma {:induction false} NoWinners(threads: seq<Thread>)
    requires forall i :: 0 <= i < |threads| ==> !threads[i].Won?
    ensures Winners(threads) == 0
    decreases threads
  {
    if threads != [] {
      NoWinners(threads[1..]);
    }
  }

  lemma MoveCounts(rule: Rule, g: Shared, t: Thread, env: Env)
    requires rule.probeNum == 0
    ensures var (g', t') := Move(rule, g, t, env);
            g'.switches - g'.openAdmissions - Winning(t') == g.switches - g.openAdmissions - Winning(t)
  {
  }

  /**
   In every interleaving, a breaker with probe number 0 that is not closed lets in one request for
   each switch to half-open: the one that switched it, once it returns.
   */
  lemma {:induction false} OneRequestPerSwitch(rule: Rule, threads: nat, now: int, schedule: seq<(nat, Env)>)
    requires rule.probeNum == 0
    ensures var s := Run(rule, Initial(threads, now), schedule);
            s.shared.switches == s.shared.openAdmissions + Winners(s.threads)
    decreases schedule
  {
    if schedule == [] {
      NoWinners(Initial(threads, now).threads);
    } else {
      var init, last := schedule[..|schedule| - 1], schedule[|schedule| - 1];
      OneRequestPerSwitch(rule, threads, now, init);
      var s := Run(rule, Initial(threads, now), init);
      var (i, env) := last;
      if i < |s.threads| {
        var g := if env.now > s.shared.now then s.shared.(now := env.now) else s.shared;
        MoveCounts(rule, g, s.threads[i], env);
        WinnersUpdate(s.threads, i, Move(rule, g, s.threads[i], env).1);
      }
    }
  }

  /**
   Without a lock around a trip the retry time can be missed: between the swap to Open and the
   store of the retry time another thread still sees the old one, and is admitted at the very
   moment of the trip.
   */
  lemma AdmittedAtTheTrip(rule: Rule, now: int) returns (schedule: seq<(nat, Env)>)
    requires now >= 0
    ensures var s := Run(rule, Initial(2, now), schedule);
            s.threads == [StoreRetryTime, Inside(true)] && s.shared == Shared(HalfOpen, 0, 0, now, 1, 1, Some(now))
  {
    var g := Initial(2, now).shared;
    var open := g.(state := Open, lastTrip := Some(now));
    var half := open.(state := HalfOpen, switches := 1);
    var enter := Env(now, true, false, false, false);
    schedule := TripUnderWay(rule, now);
    schedule := Second(rule, now, schedule, open, StoreRetryTime, Outside, enter, open, ReadState);
    schedule := Second(rule, now, schedule, open, StoreRetryTime, ReadState, enter, open, ReadRetryTime);
    schedule := Second(rule, now, schedule, open, StoreRetryTime, ReadRetryTime, enter, open, CasOpenHalfOpen);
    schedule := Second(rule, now, schedule, open, StoreRetryTime, CasOpenHalfOpen, enter, half, Won);
    schedule := Second(rule, now, schedule, half, StoreRetryTime, Won, enter, half.(openAdmissions := 1), Inside(true));
  }

  lemma TripUnderWay(rule: Rule, now: int) returns (schedule: seq<(nat, Env)>)
    ensures var s := Run(rule, Initial(2, now), schedule);
            s == Race(Initial(2, now).shared.(state := Open, lastTrip := Some(now)), [StoreRetryTime, Outside])
    ensures ReadersKeepOut(rule, Initial(2, now), schedule)
  {
    var g := Initial(2, now).shared;
    var trip := Env(now, true, false, true, true);
    schedule := OneJudged(rule, now);
    schedule := First(rule, now, schedule, g, ReadAgain, Outside, trip, g, CasClosedOpen);
    schedule := First(rule, now, schedule, g, CasClosedOpen, Outside, trip, g.(state := Open, lastTrip := Some(now)),
                      StoreRetryTime);
  }

  lemma OneJudged(rule: Rule, now: int) returns (schedule: seq<(nat, Env)>)
    ensures Run(rule, Initial(2, now), schedule) == Race(Initial(2, now).shared, [ReadAgain, Outside])
    ensures ReadersKeepOut(rule, Initial(2, now), schedule)
  {
    var g := Initial(2, now).shared;
    var trip := Env(now, true, false, true, true);
    schedule := OneInside(rule, now);
    schedule := First(rule, now, schedule, g, Inside(false), Outside, trip, g, Judge(true));
    schedule := First(rule, now, schedule, g, Judge(true), Outside, trip, g, ReadAgain);
  }

  lemma OneInside(rule: Rule, now: int) returns (schedule: seq<(nat, Env)>)
    ensures Run(rule, Initial(2, now), schedule) == Race(Initial(2, now).shared, [Inside(false), Outside])
    ensures ReadersKeepOut(rule, Initial(2, now), schedule)
  {
    var g := Initial(2, now).shared;
    var enter := Env(now, true, false, false, false);
    assert Initial(2, now).threads == [Outside, Outside];
    schedule := First(rule, now, [], g, Outside, Outside, enter, g, ReadState);
    schedule := First(rule, now, schedule, g, ReadState, Outside, enter, g, Inside(false));
  }

  lemma First(rule: Rule, now: int, schedule: seq<(nat, Env)>, g: Shared, a: Thread, b: Thread, env: Env, g': Shared,
              a': Thread)
      returns (more: seq<(nat, Env)>)
    requires Run(rule, Initial(2, now), schedule) == Race(g, [a, b])
    requires g.now <= env.now && Move(rule, g.(now := env.now), a, env) == (g', a')
    ensures Run(rule, Initial(2, now), more) == Race(g', [a', b])
    ensures ReadersKeepOut(rule, Initial(2, now), schedule) && (a.ReadRetryTime? ==> !Storing(b)) ==>
              ReadersKeepOut(rule, Initial(2, now), more)
  {
    more := schedule + [(0, env)];
    assert more[..|more| - 1] == schedule && [a, b][0 := a'] == [a', b];
  }

  lemma Second(rule: Rule, now: int, schedule: seq<(nat, Env)>, g: Shared, a: Thread, b: Thread, env: Env, g': Shared,
               b': Thread)
      returns (more: seq<(nat, Env)>)
    requires Run(rule, Initial(2, now), schedule) == Race(g, [a, b])
    requires g.now <= env.now && Move(rule, g.(now := env.now), b, env) == (g', b')
    ensures Run(rule, Initial(2, now), more) == Race(g', [a, b'])
    ensures ReadersKeepOut(rule, Initial(2, now), schedule) && (b.ReadRetryTime? ==> !Storing(a)) ==>
              ReadersKeepOut(rule, Initial(2, now), more)
  {
    more := schedule + [(1, env)];
    assert more[..|more| - 1] == schedule && [a, b][1 := b'] == [a, b'];
  }

  // ---------- when the retry time is kept ----------

  /** Between opening the breaker and storing the new retry time. */
  predicate Storing(t: Thread) {
    t == ResetProbe(true) || t == StoreRetryTime
  }

  predicate AboutToTrip(g: Shared, t: Thread) {
    (t.FailProbe? && g.state == HalfOpen) || (t.CasClosedOpen? && g.state == Closed)
  }

  /**
   A step that does not get between another thread's parts: nobody reads the retry time while one is
   still to be stored, and nobody opens the breaker while another has read the retry time and is about to
   act on it.
   */
  predicate KeepsOut(s: Race, i: nat) {
    ReaderKeepsOut(s, i) &&
    (i < |s.threads| && AboutToTrip(s.shared, s.threads[i]) ==>
       forall j :: 0 <= j < |s.threads| && j != i ==> !s.threads[j].CasOpenHalfOpen?)
  }

  /** The first half alone. */
  predicate ReaderKeepsOut(s: Race, i: nat) {
    i < |s.threads| && s.threads[i].ReadRetryTime? ==>
      forall j :: 0 <= j < |s.threads| && j != i ==> !Storing(s.threads[j])
  }

  predicate ReadersKeepOut(rule: Rule, s: Race, schedule: seq<(nat, Env)>)
    decreases schedule
  {
    schedule == [] ||
    (ReadersKeepOut(rule, s, schedule[..|schedule| - 1]) &&
     ReaderKeepsOut(Run(rule, s, schedule[..|schedule| - 1]), schedule[|schedule| - 1].0))
  }

  predicate Serialised(rule: Rule, s: Race, schedule: seq<(nat, Env)>)
    decreases schedule
  {
    schedule == [] ||
    (Serialised(rule, s, schedule[..|schedule| - 1]) &&
     KeepsOut(Run(rule, s, schedule[..|schedule| - 1]), schedule[|schedule| - 1].0))
  }

  /** After a trip the retry time is the trip's, or still to be stored, and whoever is about to switch is not early. */
  predicate RetryKept(rule: Rule, s: Race) {
    s.shared.lastTrip.Some? ==>
      var due := s.shared.lastTrip.value + rule.retryTimeoutMs;
      s.shared.lastTrip.value <= s.shared.now &&
      (s.shared.nextRetryTimestampMs >= due || exists j :: 0 <= j < |s.threads| && Storing(s.threads[j])) &&
      forall j :: 0 <= j < |s.threads| && s.threads[j].CasOpenHalfOpen? ==> s.shared.now >= due
  }

  lemma MoveRetry(rule: Rule, g: Shared, t: Thread, env: Env)
    ensures var (g', t') := Move(rule, g, t, env);
            g'.now == g.now &&
            g'.nextRetryTimestampMs
                == (if t == StoreRetryTime then g.now + rule.retryTimeoutMs else g.nextRetryTimestampMs) &&
            (if AboutToTrip(g, t) then g'.lastTrip == Some(g.now) && Storing(t') else g'.lastTrip == g.lastTrip) &&
            (Storing(t) && t != StoreRetryTime ==> Storing(t')) &&
            (t'.CasOpenHalfOpen? ==> t.ReadRetryTime? && g.now >= g.nextRetryTimestampMs) &&
            (g'.switches != g.switches ==> t.CasOpenHalfOpen?)
  {
  }

  lemma StepKeepsRetry(rule: Rule, s: Race, i: nat, env: Env)
    requires RetryKept(rule, s) && KeepsOut(s, i)
    ensures RetryKept(rule, Step(rule, s, i, env))
  {
    if i < |s.threads| {
      var g := if env.now > s.shared.now then s.shared.(now := env.now) else s.shared;
      MoveRetry(rule, g, s.threads[i], env);
      var s' := Step(rule, s, i, env);
      if Storing(s'.threads[i]) {
      } else if s.shared.lastTrip.Some? &&
                s.shared.nextRetryTimestampMs < s.shared.lastTrip.value + rule.retryTimeoutMs {
        var j :| 0 <= j < |s.threads| && Storing(s.threads[j]);
        assert j != i ==> Storing(s'.threads[j]);
      }
    }
  }

  lemma {:induction false} SerialisedKeepsRetry(rule: Rule, threads: nat, now: int, schedule: seq<(nat, Env)>)
    requires Serialised(rule, Initial(threads, now), schedule)
    ensures RetryKept(rule, Run(rule, Initial(threads, now), schedule))
    decreases schedule
  {
    if schedule != [] {
      var init, last := schedule[..|schedule| - 1], schedule[|schedule| - 1];
      SerialisedKeepsRetry(rule, threads, now, init);
      StepKeepsRetry(rule, Run(rule, Initial(threads, now), init), last.0, last.1);
    }
  }

  /**
   In every schedule whose threads keep out of each other's parts, no switch to half-open comes before
   the last trip plus the retry timeout.
   */
  lemma NoSwitchBeforeRetry(rule: Rule, threads: nat, now: int, schedule: seq<(nat, Env)>, i: nat, env: Env)
    requires Serialised(rule, Initial(threads, now), schedule)
    ensures var s := Run(rule, Initial(threads, now), schedule);
            var s' := Step(rule, s, i, env);
            s'.shared.switches != s.shared.switches && s.shared.lastTrip.Some? ==>
              s'.shared.now >= s.shared.lastTrip.value + rule.retryTimeoutMs
  {
    SerialisedKeepsRetry(rule, threads, now, schedule);
    var s := Run(rule, Initial(threads, now), schedule);
    if i < |s.threads| {
      var g := if env.now > s.shared.now then s.shared.(now := env.now) else s.shared;
      MoveRetry(rule, g, s.threads[i], env);
    }
  }

  // ---------- when the retry time is kept in every schedule ----------

  lemma Then(rule: Rule, start: Race, schedule: seq<(nat, Env)>, s: Race, i: nat, env: Env)
      returns (more: seq<(nat, Env)>, s': Race)
    requires Run(rule, start, schedule) == s
    ensures Run(rule, start, more) == s' == Step(rule, s, i, env)
  {
    more, s' := schedule + [(i, env)], Step(rule, s, i, env);
    assert more[..|schedule|] == schedule;
  }

  lemma JudgesBad(rule: Rule, threads: nat) returns (schedule: seq<(nat, Env)>, s: Race)
    requires threads >= 2
    ensures Run(rule, Initial(threads, 0), schedule) == s && s.shared == Initial(threads, 0).shared
    ensures |s.threads| == threads && s.threads[0] == Judge(true) && s.threads[1] == Outside
  {
    var enter := Env(0, true, false, true, true);
    schedule, s := [], Initial(threads, 0);
    schedule, s := Then(rule, Initial(threads, 0), schedule, s, 0, enter);
    schedule, s := Then(rule, Initial(threads, 0), schedule, s, 0, enter);
    schedule, s := Then(rule, Initial(threads, 0), schedule, s, 0, enter);
  }

  /** The first thread has opened the breaker, and has yet to store the retry time. */
  lemma Trips(rule: Rule, threads: nat) returns (schedule: seq<(nat, Env)>, s: Race)
    requires threads >= 2
    ensures Run(rule, Initial(threads, 0), schedule) == s
    ensures s.shared == Initial(threads, 0).shared.(state := Open, lastTrip := Some(0))
    ensures |s.threads| == threads && s.threads[1] == Outside
  {
    var trip := Env(0, false, false, true, true);
    schedule, s := JudgesBad(rule, threads);
    schedule, s := Then(rule, Initial(threads, 0), schedule, s, 0, trip);
    schedule, s := Then(rule, Initial(threads, 0), schedule, s, 0, trip);
    schedule, s := Then(rule, Initial(threads, 0), schedule, s, 0, trip);
  }

  /** The second thread finds the old retry time come. */
  lemma FindsOldTime(rule: Rule, threads: nat) returns (schedule: seq<(nat, Env)>, s: Race)
    requires threads >= 2
    ensures Run(rule, Initial(threads, 0), schedule) == s
    ensures s.shared == Initial(threads, 0).shared.(state := Open, lastTrip := Some(0))
    ensures |s.threads| == threads && s.threads[1] == CasOpenHalfOpen
  {
    var enter := Env(0, true, false, false, false);
    schedule, s := Trips(rule, threads);
    schedule, s := Then(rule, Initial(threads, 0), schedule, s, 1, enter);
    schedule, s := Then(rule, Initial(threads, 0), schedule, s, 1, enter);
    schedule, s := Then(rule, Initial(threads, 0), schedule, s, 1, enter);
  }

  /** The step is no switch to half-open, or comes no earlier than the last trip plus the retry timeout. */
  predicate InTime(rule: Rule, s: Race, i: nat, env: Env) {
    var s' := Step(rule, s, i, env);
    s'.shared.switches != s.shared.switches && s.shared.lastTrip.Some? ==>
      s'.shared.now >= s.shared.lastTrip.value + rule.retryTimeoutMs
  }

  lemma {:induction false} OneThreadSerialised(rule: Rule, threads: nat, now: int, schedule: seq<(nat, Env)>)
    requires threads <= 1
    ensures |Run(rule, Initial(threads, now), schedule).threads| == threads
    ensures Serialised(rule, Initial(threads, now), schedule)
    decreases schedule
  {
    if schedule != [] {
      OneThreadSerialised(rule, threads, now, schedule[..|schedule| - 1]);
    }
  }

  lemma {:induction false} TripIsPast(rule: Rule, threads: nat, now: int, schedule: seq<(nat, Env)>)
    ensures var g := Run(rule, Initial(threads, now), schedule).shared; g.lastTrip.Some? ==> g.lastTrip.value <= g.now
    decreases schedule
  {
    if schedule != [] {
      var (i, env) := schedule[|schedule| - 1];
      TripIsPast(rule, threads, now, schedule[..|schedule| - 1]);
      var s := Run(rule, Initial(threads, now), schedule[..|schedule| - 1]);
      if i < |s.threads| {
        MoveRetry(rule, if env.now > s.shared.now then s.shared.(now := env.now) else s.shared, s.threads[i], env);
      }
    }
  }

  /**
   In every schedule every switch to half-open comes no earlier than the last trip plus the retry
   timeout, exactly when there is but one thread, or no timeout.
   */
  lemma InTimeExactlyWhen(rule: Rule, threads: nat)
    ensures (forall now: int, schedule: seq<(nat, Env)>, i: nat, env: Env
               {:trigger InTime(rule, Run(rule, Initial(threads, now), schedule), i, env)} ::
               InTime(rule, Run(rule, Initial(threads, now), schedule), i, env))
            <==> threads <= 1 || rule.retryTimeoutMs == 0
  {
    if threads <= 1 || rule.retryTimeoutMs == 0 {
      forall now: int, schedule: seq<(nat, Env)>, i: nat, env: Env
        {:trigger InTime(rule, Run(rule, Initial(threads, now), schedule), i, env)}
        ensures InTime(rule, Run(rule, Initial(threads, now), schedule), i, env)
      {
        if threads <= 1 {
          OneThreadSerialised(rule, threads, now, schedule);
          NoSwitchBeforeRetry(rule, threads, now, schedule, i, env);
        } else {
          TripIsPast(rule, threads, now, schedule);
        }
      }
    } else {
      var schedule, s := FindsOldTime(rule, threads);
      assert !InTime(rule, s, 1, Env(0, true, false, false, false));
    }
  }

  /**
   Keeping readers out while the retry time is to be stored is not enough. The second thread finds the
   retry time come; the first then probes, fails and opens the breaker again, storing the new retry time
   with nobody looking; and the second switches the breaker at the moment of that trip.
   */
  lemma SwitchedOnStaleTime(rule: Rule, now: int) returns (schedule: seq<(nat, Env)>)
    requires now >= 0
    ensures var s := Run(rule, Initial(2, now), schedule);
            var later := now + rule.retryTimeoutMs;
            ReadersKeepOut(rule, Initial(2, now), schedule) &&
            s.threads == [Outside, Won] && s.shared.lastTrip == Some(later) && s.shared.now == later &&
            s.shared.nextRetryTimestampMs == later + rule.retryTimeoutMs && s.shared.state == HalfOpen
  {
    var later := now + rule.retryTimeoutMs;
    var idle := Env(later, false, false, true, false);
    schedule := SecondHasLooked(rule, now);
    schedule := ProbeFails(rule, now, schedule);
    var g := Shared(Open, later + rule.retryTimeoutMs, 0, later, 1, 1, Some(later));
    schedule := Second(rule, now, schedule, g, Outside, CasOpenHalfOpen, idle, g.(state := HalfOpen, switches := 2),
                       Won);
  }

  lemma SecondHasLooked(rule: Rule, now: int) returns (schedule: seq<(nat, Env)>)
    requires now >= 0
    ensures var later := now + rule.retryTimeoutMs;
            Run(rule, Initial(2, now), schedule)
            == Race(Shared(Open, later, 0, later, 0, 0, Some(now)), [Outside, CasOpenHalfOpen])
    ensures ReadersKeepOut(rule, Initial(2, now), schedule)
  {
    var later := now + rule.retryTimeoutMs;
    var stay, enter := Env(now, false, false, false, false), Env(later, true, false, true, false);
    var tripped := Shared(Open, 0, 0, now, 0, 0, Some(now));
    var stored := tripped.(nextRetryTimestampMs := later);
    schedule := TripUnderWay(rule, now);
    schedule := First(rule, now, schedule, tripped, StoreRetryTime, Outside, stay, stored, Outside);
    schedule := Second(rule, now, schedule, stored, Outside, Outside, enter, stored.(now := later), ReadState);
    schedule := Second(rule, now, schedule, stored.(now := later), Outside, ReadState, enter, stored.(now := later),
                       ReadRetryTime);
    schedule := Second(rule, now, schedule, stored.(now := later), Outside, ReadRetryTime, enter,
                       stored.(now := later), CasOpenHalfOpen);
  }

  lemma ProbeFails(rule: Rule, now: int, schedule: seq<(nat, Env)>) returns (more: seq<(nat, Env)>)
    requires var later := now + rule.retryTimeoutMs;
             Run(rule, Initial(2, now), schedule)
             == Race(Shared(Open, later, 0, later, 0, 0, Some(now)), [Outside, CasOpenHalfOpen])
    requires ReadersKeepOut(rule, Initial(2, now), schedule)
    ensures ReadersKeepOut(rule, Initial(2, now), more)
    ensures var later := now + rule.retryTimeoutMs;
            Run(rule, Initial(2, now), more)
            == Race(Shared(Open, later + rule.retryTimeoutMs, 0, later, 1, 1, Some(later)), [Outside, CasOpenHalfOpen])
  {
    var later := now + rule.retryTimeoutMs;
    var bad := Env(later, true, false, true, false);
    var open := Shared(Open, later, 0, later, 1, 1, Some(later));
    more := ProbeTrips(rule, now, schedule);
    more := First(rule, now, more, open, ResetProbe(true), CasOpenHalfOpen, bad, open, StoreRetryTime);
    more := First(rule, now, more, open, StoreRetryTime, CasOpenHalfOpen, bad,
                  open.(nextRetryTimestampMs := later + rule.retryTimeoutMs), Outside);
  }

  lemma ProbeTrips(rule: Rule, now: int, schedule: seq<(nat, Env)>) returns (more: seq<(nat, Env)>)
    requires var later := now + rule.retryTimeoutMs;
             Run(rule, Initial(2, now), schedule)
             == Race(Shared(Open, later, 0, later, 0, 0, Some(now)), [Outside, CasOpenHalfOpen])
    requires ReadersKeepOut(rule, Initial(2, now), schedule)
    ensures ReadersKeepOut(rule, Initial(2, now), more)
    ensures var later := now + rule.retryTimeoutMs;
            Run(rule, Initial(2, now), more)
            == Race(Shared(Open, later, 0, later, 1, 1, Some(later)), [ResetProbe(true), CasOpenHalfOpen])
  {
    var later := now + rule.retryTimeoutMs;
    var bad := Env(later, true, false, true, false);
    var half := Shared(HalfOpen, later, 0, later, 1, 1, Some(now));
    more := FirstProbes(rule, now, schedule);
    more := First(rule, now, more, half, Inside(true), CasOpenHalfOpen, bad, half, Judge(true));
    more := First(rule, now, more, half, Judge(true), CasOpenHalfOpen, bad, half, FailProbe);
    more := First(rule, now, more, half, FailProbe, CasOpenHalfOpen, bad,
                  half.(state := Open, lastTrip := Some(later)), ResetProbe(true));
  }

  lemma FirstProbes(rule: Rule, now: int, schedule: seq<(nat, Env)>) returns (more: seq<(nat, Env)>)
    requires var later := now + rule.retryTimeoutMs;
             Run(rule, Initial(2, now), schedule)
             == Race(Shared(Open, later, 0, later, 0, 0, Some(now)), [Outside, CasOpenHalfOpen])
    requires ReadersKeepOut(rule, Initial(2, now), schedule)
    ensures ReadersKeepOut(rule, Initial(2, now), more)
    ensures var later := now + rule.retryTimeoutMs;
            Run(rule, Initial(2, now), more)
            == Race(Shared(HalfOpen, later, 0, later, 1, 1, Some(now)), [Inside(true), CasOpenHalfOpen])
  {
    var later := now + rule.retryTimeoutMs;
    var enter := Env(later, true, false, true, false);
    var open := Shared(Open, later, 0, later, 0, 0, Some(now));
    var half := open.(state := HalfOpen, switches := 1);
    more := First(rule, now, schedule, open, Outside, CasOpenHalfOpen, enter, open, ReadState);
    more := First(rule, now, more, open, ReadState, CasOpenHalfOpen, enter, open, ReadRetryTime);
    more := First(rule, now, more, open, ReadRetryTime, CasOpenHalfOpen, enter, open, CasOpenHalfOpen);
    more := First(rule, now, more, open, CasOpenHalfOpen, CasOpenHalfOpen, enter, half, Won);
    more := First(rule, now, more, half, Won, CasOpenHalfOpen, enter, half.(openAdmissions := 1), Inside(true));
  }

  // ---------- one thread at a time ----------

  /** A thread on its own, until it is inside or outside the breaker. */
  function Alone(rule: Rule, g: Shared, t: Thread, env: Env, fuel: nat): (Shared, Thread)
    decreases fuel
  {
    if fuel == 0 || t.Inside? || t.Outside? then (g, t)
    else
      var (g', t') := Move(rule, g, t, env);
      Alone(rule, g', t', env, fuel - 1)
  }

  predicate Shows(g: Shared, b: Breaker) {
    g.state == b.state && g.nextRetryTimestampMs == b.nextRetryTimestampMs && g.curProbeNumber == b.curProbeNumber
  }

  /** The steps of an entering thread on its own are the sequential `TryPass`. */
  lemma AloneIsTryPass(b: Breaker, g: Shared, env: Env)
    requires Shows(g, b)
    ensures var (g', t') := Alone(b.rule, g, ReadState, env, 4);
            var (passed, b') := TryPass(b, g.now);
            Shows(g', b') && (if passed then t' == Inside(CircuitBreaking.Probes(b, g.now)) else t' == Outside)
  {
  }

  /** The steps of a completing thread on its own are the sequential `Complete`, as far as the state goes. */
  lemma AloneIsComplete(b: Breaker, g: Shared, env: Env, rt: nat, failed: bool, slide: Slide)
    requires Shows(g, b)
    requires env.exceeds == FindsExceeded(b, rt, failed, slide)
    ensures var (g', t') := Alone(b.rule, g, Judge(IsBad(b.rule, rt, failed)), env, 5);
            Shows(g', Complete(b, g.now, rt, failed, Some(slide))) && t' == Outside
  {
    var bad := IsBad(b.rule, rt, failed);
    match b.state {
      case Open =>
      case Closed => AloneInClosed(b, g, env, bad);
      case HalfOpen => AloneInHalfOpen(b, g, env, bad);
    }
  }

  /** What the completing thread finds in the window, once it has recorded the request. */
  predicate FindsExceeded(b: Breaker, rt: nat, failed: bool, slide: Slide) {
    var window := Record(Slid(b.window, slide), IsBad(b.rule, rt, failed));
    Total(window) >= b.rule.minRequestAmount && Total(window) > 0 && Exceeds(b.rule, BadTotal(window), Total(window))
  }

  lemma AloneInClosed(b: Breaker, g: Shared, env: Env, bad: bool)
    requires Shows(g, b) && b.state == Closed
    ensures var (g', t') := Alone(b.rule, g, Judge(bad), env, 5);
            Shows(g', if env.exceeds then Tripped(b, g.now) else b) && t' == Outside
  {
    if env.exceeds {
      var open := g.(state := Open, lastTrip := Some(g.now));
      assert Alone(b.rule, open, StoreRetryTime, env, 2)
          == Alone(b.rule, open.(nextRetryTimestampMs := g.now + b.rule.retryTimeoutMs), Outside, env, 1);
      assert Alone(b.rule, g, ReadAgain, env, 4) == Alone(b.rule, g, CasClosedOpen, env, 3);
    }
  }

  lemma AloneInHalfOpen(b: Breaker, g: Shared, env: Env, bad: bool)
    requires Shows(g, b) && b.state == HalfOpen
    ensures var (g', t') := Alone(b.rule, g, Judge(bad), env, 5);
            t' == Outside &&
            Shows(g', if bad then Tripped(b.(curProbeNumber := 0), g.now)
                      else if b.rule.probeNum == 0 ||
                          b.curProbeNumber + 1 >= b.rule.probeNum then b.(state := Closed, curProbeNumber := 0)
                      else b.(curProbeNumber := b.curProbeNumber + 1))
  {
    if bad {
      AloneFails(b.rule, g, env);
    } else {
      AloneSucceeds(b.rule, g, env);
    }
  }

  lemma AloneFails(rule: Rule, g: Shared, env: Env)
    requires g.state == HalfOpen
    ensures Alone(rule, g, FailProbe, env, 4)
         == (g.(state := Open, lastTrip := Some(g.now), curProbeNumber := 0,
                nextRetryTimestampMs := g.now + rule.retryTimeoutMs), Outside)
  {
    var open := g.(state := Open, lastTrip := Some(g.now));
    assert Alone(rule, g, FailProbe, env, 4) == Alone(rule, open, ResetProbe(true), env, 3);
    assert Alone(rule, open.(curProbeNumber := 0), StoreRetryTime, env, 2)
        == Alone(rule, open.(curProbeNumber := 0, nextRetryTimestampMs := g.now + rule.retryTimeoutMs), Outside, env,
                 1);
  }

  lemma AloneSucceeds(rule: Rule, g: Shared, env: Env)
    requires g.state == HalfOpen
    ensures var more := g.(curProbeNumber := g.curProbeNumber + 1);
            Alone(rule, g, AddProbe, env, 4)
            == (if rule.probeNum == 0 ||
                more.curProbeNumber >= rule.probeNum then g.(state := Closed, curProbeNumber := 0) else more, Outside)
  {
    var more := g.(curProbeNumber := g.curProbeNumber + 1);
    assert Alone(rule, g, AddProbe, env, 4) == Alone(rule, more, TestProbe, env, 3);
    if rule.probeNum == 0 || more.curProbeNumber >= rule.probeNum {
      assert Alone(rule, more, CasHalfOpenClosed, env, 2)
          == Alone(rule, more.(state := Closed), ResetProbe(false), env, 1);
    }
  }
}
