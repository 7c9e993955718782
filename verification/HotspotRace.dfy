/** The hotspot token bucket under concurrency: a step of a thread is one operation on a counter. */
module HotspotRace {
  import opened Wrappers
  import opened Hotspot

  /** The two counters, each set once before it is updated; the clock; and when the argument was first seen. */
  datatype Shared = Shared(time: Option<int>, tokens: Option<int>, now: int, first: int)

  /** What a thread with a batch does next. */
  datatype Thread =
    | Outside
    | Enter(batch: nat)
    | AddTime(batch: nat, now: int)
    | FillFirst(batch: nat)
    | LoadTime(batch: nat, now: int)
    | FillAgain(batch: nat, now: int, passed: int)
    | LoadTokens(batch: nat, now: int, passed: int)
    | CasRefill(batch: nat, now: int, rest: int, left: int)
    | StoreTime(now: int)
    | GetTokens(batch: nat)
    | CasTake(batch: nat, rest: int)

  datatype Race = Race(shared: Shared, threads: seq<Thread>, admitted: nat)

  /** A new request's batch, and the clock. */
  datatype Env = Env(batch: nat, now: int)

  /** The next step, the shared counters after it, and the batch admitted by it. */
  function Move(l: Limits, g: Shared, t: Thread, env: Env): (Shared, Thread, nat)
    requires l.durationMs > 0
  {
    match t
    case Outside => (g, if l.tokenCount <= 0 || env.batch > l.maxCount then Outside else Enter(env.batch), 0)
    case Enter(batch) => (g, AddTime(batch, g.now), 0)
    case AddTime(batch, now) =>
      if g.time.None? then (g.(time := Some(now), first := now), FillFirst(batch), 0) else (g, LoadTime(batch, now), 0)
    case FillFirst(batch) =>
      (if g.tokens.None? then g.(tokens := Some(l.maxCount - batch)) else g, Outside, batch)
    case LoadTime(batch, now) =>
      if g.time.None? then (g, t, 0)
      else
        var passed := now - g.time.value;
        (g, if passed > l.durationMs then FillAgain(batch, now, passed) else GetTokens(batch), 0)
    case FillAgain(batch, now, passed) =>
      if g.tokens.None? then (g.(tokens := Some(l.maxCount - batch)), StoreTime(now), batch)
      else (g, LoadTokens(batch, now, passed), 0)
    case LoadTokens(batch, now, passed) =>
      if g.tokens.None? then (g, t, 0)
      else
        var left := Refilled(l, g.tokens.value, passed, batch);
        (g, if left < 0 then Outside else CasRefill(batch, now, g.tokens.value, left), 0)
    case CasRefill(batch, now, rest, left) =>
      if g.tokens == Some(rest) then (g.(tokens := Some(left)), StoreTime(now), batch) else (g, Enter(batch), 0)
    case StoreTime(now) => (g.(time := Some(now)), Outside, 0)
    case GetTokens(batch) =>
      if g.tokens.None? then (g, Enter(batch), 0)
      else (g, if g.tokens.value - batch >= 0 then CasTake(batch, g.tokens.value) else Outside, 0)
    case CasTake(batch, rest) =>
      if g.tokens == Some(rest) then (g.(tokens := Some(rest - batch)), Outside, batch) else (g, Enter(batch), 0)
  }

  function Step(l: Limits, s: Race, i: nat, env: Env): Race
    requires l.durationMs > 0
  {
    if i >= |s.threads| then s
    else
      var g := if env.now > s.shared.now then s.shared.(now := env.now) else s.shared;
      var (g', t, admitted) := Move(l, g, s.threads[i], env);
      Race(g', s.threads[i := t], s.admitted + admitted)
  }

  function RunRace(l: Limits, s: Race, schedule: seq<(nat, Env)>): Race
    requires l.durationMs > 0
    decreases schedule
  {
    if schedule == [] then s
    else
      var last := schedule[|schedule| - 1];
      Step(l, RunRace(l, s, schedule[..|schedule| - 1]), last.0, last.1)
  }

  function Initial(threads: nat, now: int): Race {
    Race(Shared(None, None, now, now), seq(threads, _ => Outside), 0)
  }

  predicate InRange(l: Limits, tokens: int) {
    0 <= tokens <= l.maxCount
  }

  /** What a thread is about to store is in range. */
  predicate Sound(l: Limits, t: Thread) {
    match t
    case Outside => true
    case StoreTime(_) => true
    case CasRefill(batch, _, _, left) => batch <= l.maxCount && InRange(l, left)
    case CasTake(batch, rest) => batch <= l.maxCount && batch <= rest
    case _ => t.batch <= l.maxCount
  }

  lemma MoveStaysInRange(l: Limits, g: Shared, t: Thread, env: Env)
    requires ValidLimits(l) && Sound(l, t) && (g.tokens.Some? ==> InRange(l, g.tokens.value))
    ensures var (g', t', _) := Move(l, g, t, env);
            Sound(l, t') && (g'.tokens.Some? ==> InRange(l, g'.tokens.value))
  {
  }

  /** In every interleaving the stored tokens stay between zero and the capacity. */
  lemma {:induction false} TokensInRange(l: Limits, threads: nat, now: int, schedule: seq<(nat, Env)>)
    requires ValidLimits(l)
    ensures var s := RunRace(l, Initial(threads, now), schedule);
            (s.shared.tokens.Some? ==> InRange(l, s.shared.tokens.value)) &&
            forall i :: 0 <= i < |s.threads| ==> Sound(l, s.threads[i])
    decreases schedule
  {
    if schedule != [] {
      var init := schedule[..|schedule| - 1];
      var (i, env) := schedule[|schedule| - 1];
      TokensInRange(l, threads, now, init);
      var s := RunRace(l, Initial(threads, now), init);
      if i < |s.threads| {
        var g := if env.now > s.shared.now then s.shared.(now := env.now) else s.shared;
        MoveStaysInRange(l, g, s.threads[i], env);
      }
    }
  }

  // ---------- what is admitted, when refills keep out of each other ----------

  /** From finding the time passed to storing the new one. */
  predicate Refilling(t: Thread) {
    t.FillAgain? || t.LoadTokens? || t.CasRefill? || t.StoreTime?
  }

  predicate StartsRefill(l: Limits, g: Shared, t: Thread) {
    t.LoadTime? && g.time.Some? && t.now - g.time.value > l.durationMs
  }

  /** No thread starts a refill while another is refilling or still filling for the first time. */
  predicate KeepsOut(l: Limits, s: Race, i: nat) {
    i < |s.threads| && StartsRefill(l, s.shared, s.threads[i]) ==>
      forall j :: 0 <= j < |s.threads| && j != i ==> !Refilling(s.threads[j]) && !s.threads[j].FillFirst?
  }

  predicate Serialised(l: Limits, s: Race, schedule: seq<(nat, Env)>)
    requires l.durationMs > 0
    decreases schedule
  {
    schedule == [] ||
    (Serialised(l, s, schedule[..|schedule| - 1]) &&
     KeepsOut(l, RunRace(l, s, schedule[..|schedule| - 1]), schedule[|schedule| - 1].0))
  }

  /** At most one thread is refilling or filling for the first time. */
  predicate OneFiller(s: Race) {
    forall i, j :: 0 <= i < j < |s.threads| ==> !(Fills(s.threads[i]) && Fills(s.threads[j]))
  }

  predicate Fills(t: Thread) {
    Refilling(t) || t.FillFirst?
  }

  /** What a thread knows is still so. */
  predicate UpToDate(l: Limits, g: Shared, t: Thread)
    requires l.durationMs > 0
  {
    match t
    case Outside | Enter(_) | AddTime(_, _) => true
    case FillFirst(batch) => g.time.Some? && g.tokens.None?
    case FillAgain(_, now, passed) =>
        g.time.Some? && g.tokens.Some? && passed == now - g.time.value && passed > l.durationMs
    case LoadTokens(_, now, passed) =>
        g.time.Some? && g.tokens.Some? && passed == now - g.time.value && passed > l.durationMs
    case CasRefill(batch, now, rest, left) =>
      g.time.Some? && g.tokens.Some? && now - g.time.value > l.durationMs &&
      left == Refilled(l, rest, now - g.time.value, batch)
    case StoreTime(now) => g.time.Some? && g.tokens.Some? && now > g.time.value
    case _ => g.time.Some?
  }

  /** The time of the last refill, stored or about to be. */
  function LastRefill(g: Shared, threads: seq<Thread>): int
    requires g.time.Some?
  {
    if threads == [] then g.time.value
    else if threads[0].StoreTime? then threads[0].now
    else LastRefill(g, threads[1..])
  }

  /** The counters agree with what was admitted. */
  predicate Books(l: Limits, s: Race) {
    (s.shared.time.None? ==> s.shared.tokens.None?) &&
    (s.shared.time.Some? ==> l.tokenCount > 0 && s.shared.first <= s.shared.time.value) &&
    (s.shared.tokens.None? ==> s.admitted == 0) &&
    (s.shared.time.Some? && s.shared.tokens.None? ==> exists j :: 0 <= j < |s.threads| && s.threads[j].FillFirst?) &&
    (s.shared.tokens.Some? ==>
       s.shared.time.Some? &&
       Earned(l, s.admitted + s.shared.tokens.value - l.maxCount, LastRefill(s.shared, s.threads) - s.shared.first))
  }

  predicate Consistent(l: Limits, s: Race)
    requires l.durationMs > 0
  {
    OneFiller(s) && Books(l, s) && (forall i :: 0 <= i < |s.threads| ==> UpToDate(l, s.shared, s.threads[i])) &&
    (l.tokenCount <= 0 ==> forall i :: 0 <= i < |s.threads| ==> s.threads[i].Outside?)
  }

  lemma {:induction false} LastRefillIs(g: Shared, threads: seq<Thread>, i: nat)
    requires g.time.Some? && i < |threads| && forall j :: 0 <= j < |threads| && j != i ==> !threads[j].StoreTime?
    ensures LastRefill(g, threads) == if threads[i].StoreTime? then threads[i].now else g.time.value
    decreases threads
  {
    if i > 0 {
      LastRefillIs(g, threads[1..], i - 1);
    } else if !threads[0].StoreTime? {
      NoStore(g, threads[1..]);
    }
  }

  lemma {:induction false} NoStore(g: Shared, threads: seq<Thread>)
    requires g.time.Some? && forall j :: 0 <= j < |threads| ==> !threads[j].StoreTime?
    ensures LastRefill(g, threads) == g.time.value
    decreases threads
  {
    if threads != [] {
      NoStore(g, threads[1..]);
    }
  }

  lemma {:induction false} LastRefillSame(g: Shared, g': Shared, threads: seq<Thread>, i: nat, t: Thread)
    requires g.time.Some? && g'.time == g.time && i < |threads| && !threads[i].StoreTime? && !t.StoreTime?
    ensures LastRefill(g', threads[i := t]) == LastRefill(g, threads)
    decreases threads
  {
    if i == 0 {
      assert threads[i := t][1..] == threads[1..];
      SameTime(g, g', threads[1..]);
    } else {
      assert threads[i := t][1..] == threads[1..][i - 1 := t];
      LastRefillSame(g, g', threads[1..], i - 1, t);
    }
  }

  lemma {:induction false} SameTime(g: Shared, g': Shared, threads: seq<Thread>)
    requires g.time.Some? && g'.time == g.time
    ensures LastRefill(g', threads) == LastRefill(g, threads)
    decreases threads
  {
    if threads != [] {
      SameTime(g, g', threads[1..]);
    }
  }

  lemma {:induction false} SerialisedIsConsistent(l: Limits, threads: nat, now: int, schedule: seq<(nat, Env)>)
    requires ValidLimits(l) && Serialised(l, Initial(threads, now), schedule)
    ensures Consistent(l, RunRace(l, Initial(threads, now), schedule))
    decreases schedule
  {
    if schedule != [] {
      var init, last := schedule[..|schedule| - 1], schedule[|schedule| - 1];
      SerialisedIsConsistent(l, threads, now, init);
      StepIsConsistent(l, RunRace(l, Initial(threads, now), init), last.0, last.1);
    }
  }

  /** What a step does to the counters, and who may do it. */
  predicate Effect(l: Limits, g: Shared, t: Thread, g': Shared, t': Thread, admitted: nat)
    requires l.durationMs > 0
  {
    match t
    case AddTime(_, now) =>
      g'.tokens == g.tokens && admitted == 0 &&
      if g.time.None? then g'.time == Some(now) && g'.first == now && t'.FillFirst?
      else g'.time == g.time && g'.first == g.first && !Fills(t')
    case FillFirst(batch) =>
        g' == g.(tokens := Some(l.maxCount - batch), now := g'.now) && admitted == batch && t'.Outside?
    case CasRefill(batch, now, rest, left) =>
      if g.tokens == Some(rest) then
        g' == g.(tokens := Some(left), now := g'.now) && admitted == batch && t' == StoreTime(now)
      else g' == g && admitted == 0 && !Fills(t')
    case StoreTime(now) => g' == g.(time := Some(now)) && admitted == 0 && t'.Outside?
    case CasTake(batch, rest) =>
      !Fills(t') && if g.tokens == Some(rest) then g' == g.(tokens := Some(rest - batch)) && admitted == batch
                    else g' == g && admitted == 0
    case _ =>
      g' == g && admitted == 0 && !t'.StoreTime? && !t'.FillFirst? &&
      (Fills(t') ==> Fills(t) || StartsRefill(l, g, t))
  }

  lemma MoveFills(l: Limits, g: Shared, t: Thread, env: Env)
    requires l.durationMs > 0 && UpToDate(l, g, t) && (g.time.None? ==> g.tokens.None?) &&
             (StartsRefill(l, g, t) ==> g.tokens.Some?)
    ensures var (g', t', admitted) := Move(l, g, t, env); UpToDate(l, g', t') && Effect(l, g, t, g', t', admitted)
  {
  }

  lemma OthersUpToDate(l: Limits, g: Shared, t: Thread, g': Shared, t': Thread, admitted: nat, other: Thread)
    requires l.durationMs > 0 && UpToDate(l, g, t) && Effect(l, g, t, g', t', admitted)
    requires UpToDate(l, g, other) && !(Fills(t) && Fills(other))
    ensures UpToDate(l, g', other)
  {
  }

  lemma ClockMoves(l: Limits, s: Race, now: int)
    requires l.durationMs > 0 && Consistent(l, s)
    ensures Consistent(l, s.(shared := s.shared.(now := now)))
  {
    var g := s.shared.(now := now);
    if g.time.Some? {
      SameTime(s.shared, g, s.threads);
    }
    forall j | 0 <= j < |s.threads|
      ensures UpToDate(l, g, s.threads[j])
    {
      assert UpToDate(l, s.shared, s.threads[j]);
    }
  }

  lemma StepIsConsistent(l: Limits, s: Race, i: nat, env: Env)
    requires ValidLimits(l) && Consistent(l, s) && KeepsOut(l, s, i)
    ensures Consistent(l, Step(l, s, i, env))
  {
    var now := if env.now > s.shared.now then env.now else s.shared.now;
    ClockMoves(l, s, now);
    if i < |s.threads| {
      ThreadMoves(l, s.(shared := s.shared.(now := now)), i, env);
    }
  }

  lemma TokensThere(l: Limits, s: Race, i: nat)
    requires l.durationMs > 0 && Books(l, s) && KeepsOut(l, s, i) && i < |s.threads| &&
             StartsRefill(l, s.shared, s.threads[i])
    ensures s.shared.tokens.Some?
  {
  }

  lemma ThreadMoves(l: Limits, s: Race, i: nat, env: Env)
    requires ValidLimits(l) && Consistent(l, s) && KeepsOut(l, s, i) && i < |s.threads|
    ensures var (g', t', admitted) := Move(l, s.shared, s.threads[i], env);
            Consistent(l, Race(g', s.threads[i := t'], s.admitted + admitted))
  {
    var g, t := s.shared, s.threads[i];
    assert UpToDate(l, g, t);
    if StartsRefill(l, g, t) {
      TokensThere(l, s, i);
    }
    MoveFills(l, g, t, env);
    var (g', t', admitted) := Move(l, g, t, env);
    FillersStayApart(l, s, i, g, g', t', admitted);
    forall j | 0 <= j < |s.threads| && j != i
      ensures UpToDate(l, g', s.threads[j])
    {
      OthersUpToDate(l, g, t, g', t', admitted, s.threads[j]);
    }
    BooksKept(l, s, i, g', t', admitted);
  }

  lemma FillersStayApart(l: Limits, s: Race, i: nat, g: Shared, g': Shared, t': Thread, admitted: nat)
    requires l.durationMs > 0 && i < |s.threads| && OneFiller(s) && KeepsOut(l, s, i) && g == s.shared.(now := g.now)
    requires forall j :: 0 <= j < |s.threads| ==> UpToDate(l, s.shared, s.threads[j])
    requires Effect(l, g, s.threads[i], g', t', admitted)
    ensures forall j :: 0 <= j < |s.threads| && j != i ==> !(Fills(t') && Fills(s.threads[j]))
  {
    forall j | 0 <= j < |s.threads| && j != i
      ensures !(Fills(t') && Fills(s.threads[j]))
    {
      assert UpToDate(l, s.shared, s.threads[j]);
    }
  }

  /** The books after one thread's step, by what the step did. */
  lemma BooksKept(l: Limits, s: Race, i: nat, g': Shared, t': Thread, admitted: nat)
    requires ValidLimits(l) && i < |s.threads| && OneFiller(s) && Books(l, s)
    requires forall j :: 0 <= j < |s.threads| ==> UpToDate(l, s.shared, s.threads[j])
    requires l.tokenCount <= 0 ==> s.threads[i].Outside?
    requires Effect(l, s.shared, s.threads[i], g', t', admitted)
    ensures Books(l, Race(g', s.threads[i := t'], s.admitted + admitted))
  {
    var t, g := s.threads[i], s.shared;
    assert UpToDate(l, g, t);
    match t {
      case AddTime(_, _) => BooksAfterAddTime(l, s, i, g', t');
      case FillFirst(_) => BooksAfterFirst(l, s, i, g', t', admitted);
      case CasRefill(_, _, rest, _) =>
        if g.tokens == Some(rest) {
          BooksAfterRefill(l, s, i, g', t', admitted);
        } else {
          BooksUnmoved(l, s, i, g', t', admitted);
        }
      case StoreTime(_) => BooksAfterStore(l, s, i, g', t');
      case _ => BooksUnmoved(l, s, i, g', t', admitted);
    }
  }

  lemma BooksAfterAddTime(l: Limits, s: Race, i: nat, g': Shared, t': Thread)
    requires l.durationMs > 0 && i < |s.threads| && Books(l, s) && s.threads[i].AddTime? && l.tokenCount > 0
    requires Effect(l, s.shared, s.threads[i], g', t', 0)
    ensures Books(l, Race(g', s.threads[i := t'], s.admitted))
  {
    var ts := s.threads[i := t'];
    if s.shared.time.None? {
      assert ts[i].FillFirst?;
    } else {
      BooksUnmoved(l, s, i, g', t', 0);
    }
  }

  lemma BooksUnmoved(l: Limits, s: Race, i: nat, g': Shared, t': Thread, admitted: nat)
    requires l.durationMs > 0 && i < |s.threads| && Books(l, s)
    requires g'.time == s.shared.time && g'.first == s.shared.first && !s.threads[i].StoreTime? && !t'.StoreTime? &&
             !s.threads[i].FillFirst?
    requires if s.shared.tokens.None? then g'.tokens.None? && admitted == 0
             else g'.tokens.Some? && g'.tokens.value + admitted == s.shared.tokens.value
    ensures Books(l, Race(g', s.threads[i := t'], s.admitted + admitted))
  {
    var ts := s.threads[i := t'];
    if s.shared.time.Some? {
      LastRefillSame(s.shared, g', s.threads, i, t');
      if s.shared.tokens.None? {
        var j :| 0 <= j < |s.threads| && s.threads[j].FillFirst?;
        assert ts[j].FillFirst?;
      }
    }
  }

  lemma OnlyStore(s: Race, i: nat)
    requires i < |s.threads| && OneFiller(s) && Fills(s.threads[i])
    ensures forall j :: 0 <= j < |s.threads| && j != i ==> !s.threads[j].StoreTime?
  {
  }

  lemma BooksAfterFirst(l: Limits, s: Race, i: nat, g': Shared, t': Thread, admitted: nat)
    requires l.durationMs > 0 && i < |s.threads| && Books(l, s) && OneFiller(s) && s.threads[i].FillFirst?
    requires UpToDate(l, s.shared, s.threads[i]) && Effect(l, s.shared, s.threads[i], g', t', admitted)
    ensures Books(l, Race(g', s.threads[i := t'], s.admitted + admitted))
  {
    OnlyStore(s, i);
    LastRefillIs(g', s.threads[i := t'], i);
    ProductSign(l.tokenCount, s.shared.time.value - s.shared.first);
  }

  lemma ProductSign(a: int, b: int)
    requires a >= 0 && b >= 0
    ensures 0 <= a * b
  {
  }

  lemma BooksAfterRefill(l: Limits, s: Race, i: nat, g': Shared, t': Thread, admitted: nat)
    requires l.durationMs > 0 && i < |s.threads| && Books(l, s) && OneFiller(s)
    requires s.threads[i].CasRefill? && s.shared.tokens == Some(s.threads[i].rest)
    requires UpToDate(l, s.shared, s.threads[i]) && Effect(l, s.shared, s.threads[i], g', t', admitted)
    ensures Books(l, Race(g', s.threads[i := t'], s.admitted + admitted))
  {
    OnlyStore(s, i);
    LastRefillIs(s.shared, s.threads, i);
    LastRefillIs(g', s.threads[i := t'], i);
    var CasRefill(batch, now, rest, left) := s.threads[i];
    var time, first := s.shared.time.value, s.shared.first;
    RefillEarns(l, rest, now - time, batch, s.admitted + rest - l.maxCount, time - first);
    assert s.admitted + rest - l.maxCount + batch + left - rest == s.admitted + batch + left - l.maxCount;
    assert time - first + (now - time) == now - first;
  }

  lemma BooksAfterStore(l: Limits, s: Race, i: nat, g': Shared, t': Thread)
    requires l.durationMs > 0 && i < |s.threads| && Books(l, s) && OneFiller(s) && s.threads[i].StoreTime?
    requires UpToDate(l, s.shared, s.threads[i]) && Effect(l, s.shared, s.threads[i], g', t', 0)
    ensures Books(l, Race(g', s.threads[i := t'], s.admitted))
  {
    OnlyStore(s, i);
    LastRefillIs(s.shared, s.threads, i);
    LastRefillIs(g', s.threads[i := t'], i);
  }

  /**
   In every schedule whose refills keep out of each other, the tokens admitted plus those left are at most
   the capacity plus what the time from the first access to the last refill brings in.
   */
  lemma AdmittedBoundInRace(l: Limits, threads: nat, now: int, schedule: seq<(nat, Env)>)
    requires ValidLimits(l) && Serialised(l, Initial(threads, now), schedule)
    ensures var s := RunRace(l, Initial(threads, now), schedule);
            match s.shared.tokens
            case None => s.admitted == 0
            case Some(tokens) =>
              0 <= tokens <= l.maxCount && s.shared.time.Some? &&
              Earned(l, s.admitted + tokens - l.maxCount, LastRefill(s.shared, s.threads) - s.shared.first)
  {
    SerialisedIsConsistent(l, threads, now, schedule);
    TokensInRange(l, threads, now, schedule);
  }

  // ---------- when the bound holds in every schedule ----------

  /** The bound on what is admitted. */
  predicate Within(l: Limits, s: Race) {
    match s.shared.tokens
    case None => s.admitted == 0
    case Some(tokens) =>
      s.shared.time.Some? &&
      Earned(l, s.admitted + tokens - l.maxCount, LastRefill(s.shared, s.threads) - s.shared.first)
  }

  lemma {:induction false} NeverTwo(l: Limits, threads: nat, now: int, schedule: seq<(nat, Env)>)
    requires l.durationMs > 0 && threads <= 1
    ensures |RunRace(l, Initial(threads, now), schedule).threads| == threads
    ensures Serialised(l, Initial(threads, now), schedule)
    decreases schedule
  {
    if schedule != [] {
      NeverTwo(l, threads, now, schedule[..|schedule| - 1]);
    }
  }

  lemma {:induction false} NobodyEnters(l: Limits, threads: nat, now: int, schedule: seq<(nat, Env)>)
    requires l.durationMs > 0 && l.tokenCount <= 0
    ensures var s := RunRace(l, Initial(threads, now), schedule);
            s.admitted == 0 && s.shared.tokens == None && forall i :: 0 <= i < |s.threads| ==> s.threads[i] == Outside
    decreases schedule
  {
    if schedule != [] {
      NobodyEnters(l, threads, now, schedule[..|schedule| - 1]);
    }
  }

  lemma After(l: Limits, start: Race, schedule: seq<(nat, Env)>, s: Race, i: nat, env: Env)
      returns (more: seq<(nat, Env)>, s': Race)
    requires l.durationMs > 0 && RunRace(l, start, schedule) == s
    ensures RunRace(l, start, more) == s' == Step(l, s, i, env)
  {
    more, s' := schedule + [(i, env)], Step(l, s, i, env);
    assert more[..|schedule|] == schedule;
  }

  /** At time 0 the first access takes all the tokens. */
  lemma Emptied(l: Limits, threads: nat) returns (schedule: seq<(nat, Env)>, s: Race)
    requires ValidLimits(l) && l.tokenCount > 0 && threads >= 2
    ensures RunRace(l, Initial(threads, 0), schedule) == s
    ensures s == Race(Shared(Some(0), Some(0), 0, 0), Initial(threads, 0).threads, l.maxCount)
  {
    var start, env := Initial(threads, 0), Env(l.maxCount, 0);
    schedule, s := [], start;
    schedule, s := After(l, start, schedule, s, 0, env);
    schedule, s := After(l, start, schedule, s, 0, env);
    schedule, s := After(l, start, schedule, s, 0, env);
    schedule, s := After(l, start, schedule, s, 0, env);
    assert s.threads == start.threads;
  }

  /** A refill for a little more than the duration gives at least the tokens of the duration. */
  lemma RefillSuffices(l: Limits, tokens: int)
    requires ValidLimits(l) && l.tokenCount > 0 && 0 <= tokens <= l.maxCount
    ensures 0 <= Refilled(l, tokens, l.durationMs + 1, l.tokenCount)
  {
    var d, n := l.durationMs, l.tokenCount;
    var added := (d + 1) * n / d;
    assert (d + 1) * n == d * n + n;
    WholePart(d, n, n, added);
  }

  lemma WholePart(d: int, n: int, rest: int, q: int)
    requires d > 0 && rest >= 0 && q == (d * n + rest) / d
    ensures q >= n
  {
    assert d * q + (d * n + rest) % d == d * n + rest;
    Difference(d, n, q);
    AtLeast(d, n - q);
  }

  lemma Difference(d: int, n: int, q: int)
    ensures d * (n - q) == d * n - d * q
  {
  }

  lemma AtLeast(d: int, x: int)
    requires d > 0
    ensures x >= 1 ==> d * x >= d
  {
  }

  /** A thread that comes in later and loads the time of the first access. */
  lemma LoadsOldTime(l: Limits, start: Race, schedule: seq<(nat, Env)>, s: Race, i: nat)
      returns (more: seq<(nat, Env)>, s': Race)
    requires ValidLimits(l) && l.tokenCount > 0 && RunRace(l, start, schedule) == s
    requires i < |s.threads| && s.threads[i] == Outside
    requires s.shared.time == Some(0) && s.shared.tokens.Some? && s.shared.now <= l.durationMs + 1
    ensures RunRace(l, start, more) == s'
    ensures var late := l.durationMs + 1;
            s' == Race(s.shared.(now := late), s.threads[i := FillAgain(l.tokenCount, late, late)], s.admitted)
  {
    var env := Env(l.tokenCount, l.durationMs + 1);
    more, s' := After(l, start, schedule, s, i, env);
    more, s' := After(l, start, more, s', i, env);
    more, s' := After(l, start, more, s', i, env);
    more, s' := After(l, start, more, s', i, env);
    assert s'.threads == s.threads[i := FillAgain(l.tokenCount, l.durationMs + 1, l.durationMs + 1)];
  }

  /** And refills for it, taking the tokens of the duration. */
  lemma RefillsForIt(l: Limits, start: Race, schedule: seq<(nat, Env)>, s: Race, i: nat)
      returns (more: seq<(nat, Env)>, s': Race)
    requires ValidLimits(l) && l.tokenCount > 0 && RunRace(l, start, schedule) == s
    requires i < |s.threads| && s.threads[i] == Outside
    requires s.shared.time == Some(0) && s.shared.tokens.Some? && 0 <= s.shared.tokens.value <= l.maxCount
    requires s.shared.now <= l.durationMs + 1
    ensures RunRace(l, start, more) == s'
    ensures var late, left := l.durationMs + 1, Refilled(l, s.shared.tokens.value, l.durationMs + 1, l.tokenCount);
            0 <= left <= l.maxCount &&
            s' == Race(s.shared.(now := late, tokens := Some(left)), s.threads[i := StoreTime(late)],
                       s.admitted + l.tokenCount)
  {
    var env := Env(l.tokenCount, l.durationMs + 1);
    RefillSuffices(l, s.shared.tokens.value);
    more, s' := LoadsOldTime(l, start, schedule, s, i);
    more, s' := After(l, start, more, s', i, env);
    more, s' := After(l, start, more, s', i, env);
    more, s' := After(l, start, more, s', i, env);
    assert s'.threads == s.threads[i := StoreTime(l.durationMs + 1)];
  }

  lemma Exceeds(l: Limits, threads: nat) returns (schedule: seq<(nat, Env)>)
    requires ValidLimits(l) && l.tokenCount > 0 && l.durationMs > 1 && threads >= 2
    ensures !Within(l, RunRace(l, Initial(threads, 0), schedule))
  {
    var start, s := Initial(threads, 0), Initial(threads, 0);
    schedule, s := Emptied(l, threads);
    schedule, s := RefillsForIt(l, start, schedule, s, 0);
    schedule, s := RefillsForIt(l, start, schedule, s, 1);
    assert s.threads[0] == StoreTime(l.durationMs + 1);
    TwiceIsTooMuch(l, s.shared.tokens.value);
  }

  lemma TwiceIsTooMuch(l: Limits, left: int)
    requires l.tokenCount > 0 && l.durationMs > 1 && left >= 0
    ensures !Earned(l, 2 * l.tokenCount + left, l.durationMs + 1)
  {
    var d, n := l.durationMs, l.tokenCount;
    assert (2 * n + left) * d == 2 * (n * d) + left * d && n * (d + 1) == n * d + n;
    assert left * d >= 0;
    assert n * d > n * 1;
  }

  /**
   In every schedule what is admitted keeps the bound, exactly when there is but one thread or no request
   is let in. (A duration is a whole number of seconds, so more than a millisecond.)
   */
  lemma WithinExactlyWhen(l: Limits, threads: nat)
    requires ValidLimits(l) && l.durationMs > 1
    ensures (forall now: int, schedule: seq<(nat, Env)> {:trigger RunRace(l, Initial(threads, now), schedule)} ::
               Within(l, RunRace(l, Initial(threads, now), schedule)))
            <==> threads <= 1 || l.tokenCount <= 0
  {
    if threads <= 1 || l.tokenCount <= 0 {
      forall now: int, schedule: seq<(nat, Env)> {:trigger RunRace(l, Initial(threads, now), schedule)}
        ensures Within(l, RunRace(l, Initial(threads, now), schedule))
      {
        if threads <= 1 {
          NeverTwo(l, threads, now, schedule);
          AdmittedBoundInRace(l, threads, now, schedule);
        } else {
          NobodyEnters(l, threads, now, schedule);
        }
      }
    } else {
      var schedule := Exceeds(l, threads);
    }
  }

  // ---------- one thread at a time ----------

  /** A thread on its own, until it is done; the batch it has admitted. */
  function Alone(l: Limits, g: Shared, t: Thread, fuel: nat): (Shared, Thread, nat)
    requires l.durationMs > 0
    decreases fuel
  {
    if fuel == 0 || t.Outside? then (g, t, 0)
    else
      var (g', t', admitted) := Move(l, g, t, Env(0, g.now));
      var (g'', t'', more) := Alone(l, g', t', fuel - 1);
      (g'', t'', admitted + more)
  }

  predicate Shows(g: Shared, b: Option<Bucket>) {
    match b
    case None => g.time.None? && g.tokens.None?
    case Some(Bucket(time, tokens)) => g.time == Some(time) && g.tokens == Some(tokens)
  }

  /** The steps of a thread on its own are the sequential check. */
  lemma AloneIsCheck(l: Limits, b: Option<Bucket>, g: Shared, batch: nat)
    requires l.durationMs > 0 && l.tokenCount > 0 && batch <= l.maxCount && Shows(g, b)
    ensures var (g', t', admitted) := Alone(l, g, Enter(batch), 8);
            var (passed, b') := Check(l, b, batch, g.now);
            t'.Outside? && Shows(g', b') && admitted == if passed then batch else 0
  {
    assert Alone(l, g, Enter(batch), 8) == Alone(l, g, AddTime(batch, g.now), 7);
    if b.None? {
      AloneFirst(l, g, batch);
    } else {
      AloneAgain(l, b.value, g, batch);
    }
  }

  lemma AloneAgain(l: Limits, b: Bucket, g: Shared, batch: nat)
    requires l.durationMs > 0 && l.tokenCount > 0 && batch <= l.maxCount && Shows(g, Some(b))
    ensures var (g', t', admitted) := Alone(l, g, AddTime(batch, g.now), 7);
            var (passed, b') := Check(l, Some(b), batch, g.now);
            t'.Outside? && Shows(g', b') && admitted == if passed then batch else 0
  {
    assert Alone(l, g, AddTime(batch, g.now), 7) == Alone(l, g, LoadTime(batch, g.now), 6);
    var passed := g.now - b.time;
    if passed > l.durationMs {
      AloneFinds(l, g, batch, passed);
      AloneRefills(l, g, batch, b.tokens, passed);
    } else {
      assert Alone(l, g, LoadTime(batch, g.now), 6) == Alone(l, g, GetTokens(batch), 5);
      AloneTakes(l, g, batch, b.tokens);
    }
  }

  lemma AloneFinds(l: Limits, g: Shared, batch: nat, passed: int)
    requires l.durationMs > 0 && g.time.Some? && g.tokens.Some? && passed == g.now - g.time.value &&
             passed > l.durationMs
    ensures Alone(l, g, LoadTime(batch, g.now), 6) == Alone(l, g, LoadTokens(batch, g.now, passed), 4)
  {
    assert Alone(l, g, LoadTime(batch, g.now), 6) == Alone(l, g, FillAgain(batch, g.now, passed), 5);
    assert Alone(l, g, FillAgain(batch, g.now, passed), 5) == Alone(l, g, LoadTokens(batch, g.now, passed), 4);
  }

  lemma AloneFirst(l: Limits, g: Shared, batch: nat)
    requires l.durationMs > 0 && g.time.None? && g.tokens.None?
    ensures Alone(l, g, AddTime(batch, g.now), 7)
         == (g.(time := Some(g.now), first := g.now, tokens := Some(l.maxCount - batch)), Outside, batch)
  {
    var timed := g.(time := Some(g.now), first := g.now);
    assert Alone(l, timed, FillFirst(batch), 6) == (timed.(tokens := Some(l.maxCount - batch)), Outside, batch);
  }

  lemma AloneRefills(l: Limits, g: Shared, batch: nat, tokens: int, passed: int)
    requires l.durationMs > 0 && g.tokens == Some(tokens)
    ensures var left := Refilled(l, tokens, passed, batch);
            Alone(l, g, LoadTokens(batch, g.now, passed), 4)
            == if left < 0 then (g, Outside, 0) else (g.(tokens := Some(left), time := Some(g.now)), Outside, batch)
  {
    var left := Refilled(l, tokens, passed, batch);
    if left >= 0 {
      var taken := g.(tokens := Some(left));
      assert Alone(l, taken, StoreTime(g.now), 2) == (taken.(time := Some(g.now)), Outside, 0);
      assert Alone(l, g, CasRefill(batch, g.now, tokens, left), 3) == (taken.(time := Some(g.now)), Outside, batch);
    }
  }

  lemma AloneTakes(l: Limits, g: Shared, batch: nat, tokens: int)
    requires l.durationMs > 0 && g.tokens == Some(tokens)
    ensures Alone(l, g, GetTokens(batch), 5)
         == if tokens - batch >= 0 then (g.(tokens := Some(tokens - batch)), Outside, batch) else (g, Outside, 0)
  {
    if tokens - batch >= 0 {
      assert Alone(l, g, CasTake(batch, tokens), 4) == (g.(tokens := Some(tokens - batch)), Outside, batch);
    }
  }

  // ---------- when they do not ----------

  const EXAMPLE := Limits(10, 10, 1000)

  ghost predicate Reached(schedule: seq<(nat, Env)>, s: Race) {
    RunRace(EXAMPLE, Initial(2, 0), schedule) == s
  }

  /** Whoever has refilled stores the time before anyone else moves. */
  predicate StoresAtOnce(schedule: seq<(nat, Env)>)
    decreases schedule
  {
    schedule == [] ||
    (StoresAtOnce(schedule[..|schedule| - 1]) &&
     OnlyTheStorer(RunRace(EXAMPLE, Initial(2, 0), schedule[..|schedule| - 1]), schedule[|schedule| - 1].0))
  }

  predicate OnlyTheStorer(s: Race, i: nat) {
    forall j :: 0 <= j < |s.threads| && s.threads[j].StoreTime? ==> j == i
  }

  lemma Then(schedule: seq<(nat, Env)>, i: nat, env: Env, s: Race, s': Race) returns (more: seq<(nat, Env)>)
    requires Reached(schedule, s) && Step(EXAMPLE, s, i, env) == s'
    ensures Reached(more, s') && (StoresAtOnce(schedule) && OnlyTheStorer(s, i) ==> StoresAtOnce(more))
  {
    more := schedule + [(i, env)];
    assert more[..|more| - 1] == schedule;
  }

  /** A step of one of two threads at time 1001, with the counters as they are. */
  lemma MoveTo(schedule: seq<(nat, Env)>, i: nat, g: Shared, ts: seq<Thread>, admitted: nat, g': Shared, t': Thread,
               more: nat)
      returns (longer: seq<(nat, Env)>)
    requires i < |ts| == 2 && Reached(schedule, Race(g, ts, admitted)) && g.now <= 1001
    requires Move(EXAMPLE, g.(now := 1001), ts[i], Env(10, 1001)) == (g', t', more)
    ensures Reached(longer, Race(g', ts[i := t'], admitted + more))
    ensures StoresAtOnce(schedule) && !ts[1 - i].StoreTime? ==> StoresAtOnce(longer)
  {
    longer := Then(schedule, i, Env(10, 1001), Race(g, ts, admitted), Race(g', ts[i := t'], admitted + more));
  }

  const USED := Shared(Some(0), Some(0), 0, 0)
  const LATER := Shared(Some(0), Some(0), 1001, 0)

  /** The bucket is filled and emptied at time 0. */
  lemma FirstUse() returns (schedule: seq<(nat, Env)>)
    ensures Reached(schedule, Race(USED, [Outside, Outside], 10)) && StoresAtOnce(schedule)
  {
    var start, early := Shared(None, None, 0, 0), Env(10, 0);
    assert Initial(2, 0).threads == [Outside, Outside];
    schedule := Then([], 0, early, Race(start, [Outside, Outside], 0), Race(start, [Enter(10), Outside], 0));
    schedule := Then(schedule, 0, early, Race(start, [Enter(10), Outside], 0),
                     Race(start, [AddTime(10, 0), Outside], 0));
    schedule := Then(schedule, 0, early, Race(start, [AddTime(10, 0), Outside], 0),
                     Race(Shared(Some(0), None, 0, 0), [FillFirst(10), Outside], 0));
    schedule := Then(schedule, 0, early, Race(Shared(Some(0), None, 0, 0), [FillFirst(10), Outside], 0),
                     Race(USED, [Outside, Outside], 10));
  }

  /** A thread comes in at time 1001 and finds the time passed. */
  lemma FindsTime(schedule: seq<(nat, Env)>, i: nat, g: Shared, ts: seq<Thread>, admitted: nat)
      returns (more: seq<(nat, Env)>)
    requires i < |ts| == 2 && ts[i] == Outside && g.(now := 1001) == LATER && g.now <= 1001
    requires Reached(schedule, Race(g, ts, admitted))
    ensures Reached(more, Race(LATER, ts[i := FillAgain(10, 1001, 1001)], admitted))
    ensures StoresAtOnce(schedule) && !ts[1 - i].StoreTime? ==> StoresAtOnce(more)
  {
    more := MoveTo(schedule, i, g, ts, admitted, LATER, Enter(10), 0);
    more := MoveTo(more, i, LATER, ts[i := Enter(10)], admitted, LATER, AddTime(10, 1001), 0);
    more := LoadsTime(more, i, ts, admitted);
  }

  lemma LoadsTime(schedule: seq<(nat, Env)>, i: nat, ts: seq<Thread>, admitted: nat) returns (more: seq<(nat, Env)>)
    requires i < |ts| == 2 && Reached(schedule, Race(LATER, ts[i := AddTime(10, 1001)], admitted))
    ensures Reached(more, Race(LATER, ts[i := FillAgain(10, 1001, 1001)], admitted))
    ensures StoresAtOnce(schedule) && !ts[1 - i].StoreTime? ==> StoresAtOnce(more)
  {
    more := MoveTo(schedule, i, LATER, ts[i := AddTime(10, 1001)], admitted, LATER, LoadTime(10, 1001), 0);
    more := MoveTo(more, i, LATER, ts[i := LoadTime(10, 1001)], admitted, LATER, FillAgain(10, 1001, 1001), 0);
  }

  /** It refills the empty bucket and takes 10 tokens, but has yet to store the time. */
  lemma Refills(schedule: seq<(nat, Env)>, i: nat, g: Shared, ts: seq<Thread>, admitted: nat)
      returns (more: seq<(nat, Env)>)
    requires i < |ts| == 2 && ts[i] == FillAgain(10, 1001, 1001) && g.tokens == Some(0) && g.now == 1001
    requires Reached(schedule, Race(g, ts, admitted))
    ensures Reached(more, Race(g, ts[i := StoreTime(1001)], admitted + 10))
    ensures StoresAtOnce(schedule) && !ts[1 - i].StoreTime? ==> StoresAtOnce(more)
  {
    more := MoveTo(schedule, i, g, ts, admitted, g, LoadTokens(10, 1001, 1001), 0);
    more := MoveTo(more, i, g, ts[i := LoadTokens(10, 1001, 1001)], admitted, g, CasRefill(10, 1001, 0, 0), 0);
    more := MoveTo(more, i, g, ts[i := CasRefill(10, 1001, 0, 0)], admitted, g, StoreTime(1001), 10);
  }

  /**
   The refill stores the tokens before the time, so in between a second thread can refill from the same
   old time: here 30 tokens are admitted within 1001 ms where capacity and elapsed time allow 20.
   */
  lemma RefilledTwice() returns (schedule: seq<(nat, Env)>)
    ensures Reached(schedule, Race(LATER, [StoreTime(1001), StoreTime(1001)], 30))
    ensures 10 + 10 * 1001 / 1000 == 20
  {
    schedule := FirstUse();
    schedule := FindsTime(schedule, 0, USED, [Outside, Outside], 10);
    schedule := Refills(schedule, 0, LATER, [FillAgain(10, 1001, 1001), Outside], 10);
    schedule := FindsTime(schedule, 1, LATER, [StoreTime(1001), Outside], 20);
    schedule := Refills(schedule, 1, LATER, [StoreTime(1001), FillAgain(10, 1001, 1001)], 20);
  }

  /**
   Storing the time at once is not enough. The second thread finds the time passed; the first then does a
   whole refill, storing the time with nobody moving in between; and the second still refills for the time
   it found: 30 tokens again.
   */
  lemma RefilledFromStaleTime() returns (schedule: seq<(nat, Env)>)
    ensures StoresAtOnce(schedule)
    ensures Reached(schedule, Race(Shared(Some(1001), Some(0), 1001, 0), [Outside, Outside], 30))
  {
    var found := FillAgain(10, 1001, 1001);
    schedule := BothFindTime();
    schedule := Refills(schedule, 0, LATER, [found, found], 10);
    assert [found, found][0 := StoreTime(1001)] == [StoreTime(1001), found];
    schedule := MoveTo(schedule, 0, LATER, [StoreTime(1001), found], 20, Shared(Some(1001), Some(0), 1001, 0), Outside,
                       0);
    schedule := SecondRefills(schedule);
  }

  lemma SecondRefills(schedule: seq<(nat, Env)>) returns (more: seq<(nat, Env)>)
    requires StoresAtOnce(schedule)
    requires Reached(schedule, Race(Shared(Some(1001), Some(0), 1001, 0), [Outside, FillAgain(10, 1001, 1001)], 20))
    ensures StoresAtOnce(more) && Reached(more, Race(Shared(Some(1001), Some(0), 1001, 0), [Outside, Outside], 30))
  {
    var stored := Shared(Some(1001), Some(0), 1001, 0);
    more := Refills(schedule, 1, stored, [Outside, FillAgain(10, 1001, 1001)], 20);
    more := MoveTo(more, 1, stored, [Outside, StoreTime(1001)], 30, stored, Outside, 0);
  }

  lemma BothFindTime() returns (schedule: seq<(nat, Env)>)
    ensures StoresAtOnce(schedule)
    ensures Reached(schedule, Race(LATER, [FillAgain(10, 1001, 1001), FillAgain(10, 1001, 1001)], 10))
  {
    var found := FillAgain(10, 1001, 1001);
    schedule := FirstUse();
    schedule := FindsTime(schedule, 1, USED, [Outside, Outside], 10);
    assert [Outside, Outside][1 := found] == [Outside, found];
    schedule := FindsTime(schedule, 0, LATER, [Outside, found], 10);
    assert [Outside, found][0 := found] == [found, found];
  }
}
