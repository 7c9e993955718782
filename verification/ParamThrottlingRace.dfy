/**
 The hotspot throttler under concurrency, for one argument: a step of a thread is one operation on the
 pass time of the argument.
 */
module ParamThrottlingRace {
  import opened Wrappers
  import opened Throttling

  /** What a thread will do next with its batch; `now` is the time it has read. */
  datatype Thread =
    | Outside
    | AddIfAbsent(batch: nat, now: int)
    | Load(batch: nat, now: int)
    | Swap(batch: nat, now: int, loaded: int)
    | Retry(batch: nat)
    | Store(now: int, expected: int)
    | Done(verdict: Verdict)

  /** An admitted request: when it passes, and its interval. */
  datatype Grant = Grant(moment: int, cost: int)

  function Cost(l: ParamLimits, batch: nat): int {
    if l.tokenCount > 0 then ParamInterval(l, batch) else 0
  }

  predicate ValidLimits(l: ParamLimits) {
    l.durationMs > 0
  }

  /** One operation: the pass time and the thread after it, and whom it admitted. */
  function Move(l: ParamLimits, last: Option<int>, t: Thread, clock: int): (Option<int>, Thread, seq<Grant>) {
    match t
    case AddIfAbsent(batch, now) =>
      if last.None? then (Some(now), Done(PassAfter(0)), [Grant(now, Cost(l, batch))]) else (last, Load(batch, now), [])
    case Load(batch, now) =>
      if last.None? then (last, t, [])
      else
        var expected := last.value + Cost(l, batch);
        (last, if expected <= now || expected - now < l.maxQueueingTimeMs then Swap(batch, now, last.value)
               else Done(Blocked), [])
    case Swap(batch, now, loaded) =>
      var expected := loaded + Cost(l, batch);
      if last != Some(loaded) then (last, Retry(batch), [])
      else if expected - now > 0 then (Some(now), Store(now, expected), [Grant(expected, Cost(l, batch))])
      else (Some(now), Done(PassAfter(0)), [Grant(now, Cost(l, batch))])
    case Retry(batch) => (last, AddIfAbsent(batch, clock), [])
    case Store(now, expected) => (Some(expected), Done(PassAfter(expected - now)), [])
    case _ => (last, t, [])
  }

  function Enter(l: ParamLimits, batch: nat, now: int): Thread {
    if l.tokenCount <= 0 then Done(Blocked) else AddIfAbsent(batch, now)
  }

  /** A thread that is outside or done may come in with a batch; the clock never goes back. */
  datatype Env = Env(now: int, request: Option<nat>)

  datatype Race = Race(last: Option<int>, clock: int, threads: seq<Thread>, grants: seq<Grant>)

  function Step(l: ParamLimits, s: Race, i: nat, env: Env): Race {
    var clock := if env.now > s.clock then env.now else s.clock;
    if i >= |s.threads| then s.(clock := clock)
    else if s.threads[i].Outside? || s.threads[i].Done? then
      if env.request.None? then s.(clock := clock)
      else s.(clock := clock, threads := s.threads[i := Enter(l, env.request.value, clock)])
    else
      var (last, t, grant) := Move(l, s.last, s.threads[i], clock);
      Race(last, clock, s.threads[i := t], s.grants + grant)
  }

  function RunRace(l: ParamLimits, s: Race, schedule: seq<(nat, Env)>): Race
    decreases schedule
  {
    if schedule == [] then s
    else
      var last := schedule[|schedule| - 1];
      Step(l, RunRace(l, s, schedule[..|schedule| - 1]), last.0, last.1)
  }

  function Initial(threads: nat, now: int): Race {
    Race(None, now, seq(threads, _ => Outside), [])
  }

  // ---------- waiting ----------

  predicate WaitsWithin(l: ParamLimits, t: Thread) {
    match t
    case Swap(batch, now, loaded) =>
      loaded + Cost(l, batch) <= now || loaded + Cost(l, batch) - now < l.maxQueueingTimeMs
    case Store(now, expected) => 0 < expected - now < l.maxQueueingTimeMs
    case Done(PassAfter(wait)) => wait == 0 || 0 < wait < l.maxQueueingTimeMs
    case _ => true
  }

  lemma MoveWaits(l: ParamLimits, last: Option<int>, t: Thread, clock: int)
    requires WaitsWithin(l, t)
    ensures WaitsWithin(l, Move(l, last, t, clock).1)
  {
  }

  /** In every interleaving, whoever is admitted waits less than the queueing time. */
  lemma {:induction false} AdmittedWaitLess(l: ParamLimits, threads: nat, now: int, schedule: seq<(nat, Env)>)
    ensures var s := RunRace(l, Initial(threads, now), schedule);
            |s.threads| == threads && forall i :: 0 <= i < threads ==> WaitsWithin(l, s.threads[i])
    decreases schedule
  {
    if schedule != [] {
      var (i, env) := schedule[|schedule| - 1];
      AdmittedWaitLess(l, threads, now, schedule[..|schedule| - 1]);
      var s := RunRace(l, Initial(threads, now), schedule[..|schedule| - 1]);
      if i < threads {
        MoveWaits(l, s.last, s.threads[i], if env.now > s.clock then env.now else s.clock);
      }
    }
  }

  // ---------- spacing ----------

  /** Each request passes at least its interval after all that were admitted before it. */
  predicate Spaced(grants: seq<Grant>) {
    forall i, j :: 0 <= i < j < |grants| ==> grants[j].moment >= grants[i].moment + grants[j].cost
  }

  /** Nobody swaps the pass time while another thread has yet to store the one it was given. */
  predicate KeepsOut(s: Race, i: nat) {
    i < |s.threads| && s.threads[i].Swap? && s.last == Some(s.threads[i].loaded) ==>
      forall j :: 0 <= j < |s.threads| && j != i ==> !s.threads[j].Store?
  }

  predicate Serialised(l: ParamLimits, s: Race, schedule: seq<(nat, Env)>)
    decreases schedule
  {
    schedule == [] ||
    (Serialised(l, s, schedule[..|schedule| - 1]) &&
     KeepsOut(RunRace(l, s, schedule[..|schedule| - 1]), schedule[|schedule| - 1].0))
  }

  predicate NobodyStores(threads: seq<Thread>) {
    forall i :: 0 <= i < |threads| ==> !threads[i].Store?
  }

  predicate NotAfter(grants: seq<Grant>, time: int) {
    forall k :: 0 <= k < |grants| ==> grants[k].moment <= time
  }

  /** Nobody was admitted later than the pass time that is stored or about to be; at most one thread is storing. */
  predicate Ahead(s: Race) {
    Spaced(s.grants) &&
    (s.last.None? ==> s.grants == [] && NobodyStores(s.threads)) &&
    (s.last.Some? && NobodyStores(s.threads) ==> NotAfter(s.grants, s.last.value)) &&
    (forall i :: 0 <= i < |s.threads| && s.threads[i].Store? ==> NotAfter(s.grants, s.threads[i].expected)) &&
    forall i, j :: 0 <= i < j < |s.threads| ==> !(s.threads[i].Store? && s.threads[j].Store?)
  }

  lemma StepStaysAhead(l: ParamLimits, s: Race, i: nat, env: Env)
    requires ValidLimits(l) && Ahead(s) && KeepsOut(s, i)
    ensures Ahead(Step(l, s, i, env))
  {
    if i < |s.threads| && !s.threads[i].Outside? && !s.threads[i].Done? {
      match s.threads[i] {
        case Swap(batch, now, loaded) => SwapStaysAhead(l, s, i, env);
        case Store(_, _) =>
          var s' := Step(l, s, i, env);
          assert forall j :: 0 <= j < |s.threads| && j != i ==> s'.threads[j] == s.threads[j] && !s.threads[j].Store?;
          assert NobodyStores(s'.threads);
        case _ => OthersStayAhead(l, s, i, env);
      }
    } else {
      OthersStayAhead(l, s, i, env);
    }
  }

  lemma OthersStayAhead(l: ParamLimits, s: Race, i: nat, env: Env)
    requires Ahead(s) && (i < |s.threads| ==> !s.threads[i].Swap? && !s.threads[i].Store?)
    ensures Ahead(Step(l, s, i, env))
  {
    var s' := Step(l, s, i, env);
    SameStorers(s.threads, s'.threads);
    if s.last != s'.last {
      assert |s'.grants| == 1 && NobodyStores(s'.threads);
    } else {
      assert s'.grants == s.grants;
    }
  }

  lemma SameStorers(ts: seq<Thread>, ts': seq<Thread>)
    requires |ts'| == |ts| && forall j :: 0 <= j < |ts| ==> ts'[j] == ts[j] || (!ts[j].Store? && !ts'[j].Store?)
    ensures NobodyStores(ts') <==> NobodyStores(ts)
    ensures forall j :: 0 <= j < |ts| && ts'[j].Store? ==> ts[j] == ts'[j]
  {
    if !NobodyStores(ts) {
      var j :| 0 <= j < |ts| && ts[j].Store?;
      assert ts'[j].Store?;
    }
    if !NobodyStores(ts') {
      var j :| 0 <= j < |ts'| && ts'[j].Store?;
      assert ts[j].Store?;
    }
  }

  lemma SwapStaysAhead(l: ParamLimits, s: Race, i: nat, env: Env)
    requires ValidLimits(l) && Ahead(s) && KeepsOut(s, i) && i < |s.threads| && s.threads[i].Swap?
    ensures Ahead(Step(l, s, i, env))
  {
    var s', t := Step(l, s, i, env), s.threads[i];
    if s.last == Some(t.loaded) {
      var g := Move(l, s.last, t, s'.clock).2[0];
      assert NobodyStores(s.threads);
      CostPositive(l, t.batch);
      GrantAppended(s.grants, t.loaded, g);
      assert forall j :: 0 <= j < |s.threads| && j != i ==> !s'.threads[j].Store?;
      assert s'.grants == s.grants + [g] && if s'.threads[i].Store? then s'.threads[i].expected == g.moment
                                            else s'.last == Some(g.moment);
    } else {
      SameStorers(s.threads, s'.threads);
    }
  }

  lemma GrantAppended(grants: seq<Grant>, last: int, g: Grant)
    requires Spaced(grants) && NotAfter(grants, last) && g.cost >= 0 && g.moment >= last + g.cost
    ensures Spaced(grants + [g]) && NotAfter(grants + [g], g.moment)
  {
  }

  lemma CostPositive(l: ParamLimits, batch: nat)
    requires ValidLimits(l)
    ensures Cost(l, batch) >= 0
  {
    if l.tokenCount > 0 {
      assert batch * l.durationMs >= 0;
    }
  }

  /**
   In every schedule in which nobody swaps the pass time while another thread has yet to store its own,
   each request passes at least its interval after all that were admitted before it.
   */
  lemma {:induction false} SerialisedSpaced(l: ParamLimits, threads: nat, now: int, schedule: seq<(nat, Env)>)
    requires ValidLimits(l) && Serialised(l, Initial(threads, now), schedule)
    ensures Ahead(RunRace(l, Initial(threads, now), schedule))
    ensures Spaced(RunRace(l, Initial(threads, now), schedule).grants)
    decreases schedule
  {
    if schedule != [] {
      var (i, env) := schedule[|schedule| - 1];
      SerialisedSpaced(l, threads, now, schedule[..|schedule| - 1]);
      StepStaysAhead(l, RunRace(l, Initial(threads, now), schedule[..|schedule| - 1]), i, env);
    }
  }

  // ---------- when spacing holds ----------

  lemma {:induction false} NeverBetween(l: ParamLimits, threads: nat, now: int, schedule: seq<(nat, Env)>)
    requires threads <= 1 || l.maxQueueingTimeMs <= 1 || l.tokenCount <= 0
    ensures Serialised(l, Initial(threads, now), schedule)
    ensures l.tokenCount <= 0 ==>
              var ts := RunRace(l, Initial(threads, now), schedule).threads;
              forall i :: 0 <= i < |ts| ==> ts[i].Outside? || ts[i].Done?
    decreases schedule
  {
    AdmittedWaitLess(l, threads, now, schedule);
    if schedule != [] {
      NeverBetween(l, threads, now, schedule[..|schedule| - 1]);
      AdmittedWaitLess(l, threads, now, schedule[..|schedule| - 1]);
    }
  }

  ghost predicate Reached(l: ParamLimits, schedule: seq<(nat, Env)>, s: Race) {
    RunRace(l, Initial(|s.threads|, 0), schedule) == s
  }

  lemma Then(l: ParamLimits, schedule: seq<(nat, Env)>, s: Race, i: nat, env: Env)
      returns (more: seq<(nat, Env)>, s': Race)
    requires Reached(l, schedule, s)
    ensures s' == Step(l, s, i, env) && Reached(l, more, s')
  {
    more, s' := schedule + [(i, env)], Step(l, s, i, env);
    assert more[..|schedule|] == schedule;
  }

  /**
   The first thread has swapped in its own time and has yet to store the later one it was given; the
   second goes by the earlier and passes too soon.
   */
  lemma PassedTooSoon(l: ParamLimits, threads: nat) returns (schedule: seq<(nat, Env)>)
    requires ValidLimits(l) && threads >= 2 && l.maxQueueingTimeMs > 1 && l.tokenCount > 0
    ensures !Spaced(RunRace(l, Initial(threads, 0), schedule).grants)
  {
    var c, s := l.durationMs, Initial(threads, 0);
    var request := Env(2 * c - 1, Some(l.tokenCount));
    WholeCost(l);
    schedule, s := AboutToStore(l, threads);
    schedule, s := Then(l, schedule, s, 1, request);
    schedule, s := Then(l, schedule, s, 1, request);
    schedule, s := Then(l, schedule, s, 1, request);
    schedule, s := Then(l, schedule, s, 1, request);
    assert s.grants[1].moment == c && s.grants[2] == Grant(2 * c - 1, c);
  }

  lemma AboutToStore(l: ParamLimits, threads: nat) returns (schedule: seq<(nat, Env)>, s: Race)
    requires ValidLimits(l) && threads >= 2 && l.maxQueueingTimeMs > 1 && l.tokenCount > 0
    ensures var c := l.durationMs;
            Reached(l, schedule, s) && |s.threads| == threads && s.threads[1] == Outside && s.last == Some(c - 1) &&
            s.clock == c - 1 && s.grants == [Grant(0, c), Grant(c, c)]
  {
    var c := l.durationMs;
    var request := Env(c - 1, Some(l.tokenCount));
    WholeCost(l);
    schedule, s := UsedOnce(l, threads);
    schedule, s := Then(l, schedule, s, 0, request);
    schedule, s := Then(l, schedule, s, 0, request);
    schedule, s := Then(l, schedule, s, 0, request);
    schedule, s := Then(l, schedule, s, 0, request);
  }

  /** The first access, at time 0. */
  lemma UsedOnce(l: ParamLimits, threads: nat) returns (schedule: seq<(nat, Env)>, s: Race)
    requires threads >= 2 && l.tokenCount > 0
    ensures Reached(l, schedule, s) && |s.threads| == threads && s.threads[0] == Done(PassAfter(0)) &&
            s.threads[1] == Outside
    ensures s.last == Some(0) && s.clock == 0 && s.grants == [Grant(0, l.durationMs)]
  {
    WholeCost(l);
    schedule, s := [], Initial(threads, 0);
    schedule, s := Then(l, schedule, s, 0, Env(0, Some(l.tokenCount)));
    schedule, s := Then(l, schedule, s, 0, Env(0, None));
  }

  lemma WholeCost(l: ParamLimits)
    requires l.tokenCount > 0
    ensures Cost(l, l.tokenCount) == l.durationMs
  {
    var k, d := l.tokenCount, l.durationMs;
    Quotient(k, d, k * d / k, k * d % k);
  }

  lemma Quotient(k: int, d: int, q: int, rest: int)
    requires k > 0 && k * d == k * q + rest && 0 <= rest < k
    ensures q == d
  {
    Difference(k, d, q);
    if d - q >= 1 {
      AtLeast(k, d - q);
    } else if d - q <= -1 {
      AtLeast(k, q - d);
      Difference(k, q, d);
    }
  }

  lemma Difference(k: int, d: int, q: int)
    ensures k * (d - q) == k * d - k * q
  {
  }

  lemma AtLeast(k: int, x: int)
    requires k > 0 && x >= 1
    ensures k * x >= k
  {
  }

  /**
   In every schedule each request passes at least its interval after all that were admitted before it,
   exactly when there is but one thread, or nobody ever waits, or nobody is let in.
   */
  lemma SpacedExactlyWhen(l: ParamLimits, threads: nat)
    requires ValidLimits(l)
    ensures (forall now: int, schedule: seq<(nat, Env)> {:trigger RunRace(l, Initial(threads, now), schedule)} ::
               Spaced(RunRace(l, Initial(threads, now), schedule).grants))
            <==> threads <= 1 || l.maxQueueingTimeMs <= 1 || l.tokenCount <= 0
  {
    if threads <= 1 || l.maxQueueingTimeMs <= 1 || l.tokenCount <= 0 {
      forall now: int, schedule: seq<(nat, Env)> {:trigger RunRace(l, Initial(threads, now), schedule)}
        ensures Spaced(RunRace(l, Initial(threads, now), schedule).grants)
      {
        NeverBetween(l, threads, now, schedule);
        SerialisedSpaced(l, threads, now, schedule);
      }
    } else {
      var schedule := PassedTooSoon(l, threads);
    }
  }

  // ---------- one thread at a time ----------

  /** A thread on its own, until it is done. */
  function Alone(l: ParamLimits, last: Option<int>, t: Thread, steps: nat): (Thread, Option<int>)
    decreases steps
  {
    if steps == 0 || t.Outside? || t.Done? then (t, last)
    else Alone(l, Move(l, last, t, 0).0, Move(l, last, t, 0).1, steps - 1)
  }

  /** The steps of a thread on its own are the sequential check. */
  lemma AloneIsCheck(l: ParamLimits, last: Option<int>, batch: nat, now: int)
    ensures var (v, last') := CheckParam(l, last, batch, now);
            Alone(l, last, Enter(l, batch, now), 4) == (Done(v), last')
  {
    if l.tokenCount > 0 && last.Some? {
      var load := Load(batch, now);
      assert Alone(l, last, AddIfAbsent(batch, now), 4) == Alone(l, last, load, 3);
      var expected := last.value + ParamInterval(l, batch);
      if expected <= now || expected - now < l.maxQueueingTimeMs {
        var swap := Swap(batch, now, last.value);
        assert Alone(l, last, load, 3) == Alone(l, last, swap, 2);
        assert expected > now ==> Alone(l, last, swap, 2) == Alone(l, Some(now), Store(now, expected), 1);
      } else {
        assert Alone(l, last, load, 3) == Alone(l, last, Done(Blocked), 2);
      }
    }
  }
}
