/** Which connection a call goes through, when all connections share one client variable. */
module SharedClient {
  import opened Wrappers
  import opened Pool

  /** Whoever has a connection would call through that one. */
  predicate CallsOwn(s: Pool) {
    forall i :: 0 <= i < |s.threads| && s.threads[i].Lent? ==> Client(s.shared) == Some(s.threads[i].c)
  }

  // ---------- never more than one connection ----------

  /** One connection, idle or in some thread's account. */
  predicate Single(s: Pool) {
    |s.shared.idle| + Tokens(s.threads) <= 1
  }

  predicate Newest(g: Shared, c: nat) {
    Client(g) == Some(c)
  }

  predicate HoldsNewest(g: Shared, t: Thread) {
    Token(t) == 1 && Held(t).Some? ==> Newest(g, Held(t).value)
  }

  /** All that is idle or accounted for was dialled last. */
  predicate AllNewest(s: Pool) {
    (forall a :: 0 <= a < |s.shared.idle| ==> Newest(s.shared, s.shared.idle[a].c)) &&
    forall i :: 0 <= i < |s.threads| ==> HoldsNewest(s.shared, s.threads[i])
  }

  lemma {:induction false} NoneHasOne(threads: seq<Thread>)
    requires Tokens(threads) == 0
    ensures forall i :: 0 <= i < |threads| ==> Token(threads[i]) == 0
    decreases threads
  {
    if threads != [] {
      NoneHasOne(threads[1..]);
      assert forall i :: 1 <= i < |threads| ==> threads[i] == threads[1..][i - 1];
    }
  }

  lemma OnlyOne(s: Pool, i: nat)
    requires Single(s) && i < |s.threads| && Token(s.threads[i]) == 1
    ensures s.shared.idle == [] && forall j :: 0 <= j < |s.threads| && j != i ==> Token(s.threads[j]) == 0
  {
    TokensUpdate(s.threads, i, Outside);
    NoneHasOne(s.threads[i := Outside]);
    assert forall j :: 0 <= j < |s.threads| && j != i ==> s.threads[i := Outside][j] == s.threads[j];
  }

  /** A step hands on what was dialled last, or dials and has that. */
  lemma MoveHandsOn(cfg: Config, g: Shared, i: nat, t: Thread, env: Env)
    requires HoldsNewest(g, t) && forall a :: 0 <= a < |g.idle| ==> Newest(g, g.idle[a].c)
    ensures var (g', t') := Move(cfg, g, i, t, env);
            HoldsNewest(g', t') &&
            if g'.dialled == g.dialled then forall a :: 0 <= a < |g'.idle| ==> Newest(g', g'.idle[a].c)
            else t == Dialling && g'.idle == g.idle
  {
    var (g', t') := Move(cfg, g, i, t, env);
    MoveHands(cfg, g, i, t, env);
    MoveAccounts(cfg, g, i, t, env);
    if g'.dialled == g.dialled && g'.idle != g.idle && t.PutPush? {
      Pushed(g, t.c, g'.idle, t.t);
    }
  }

  lemma Pushed(g: Shared, c: nat, idle: seq<IdleConn>, stamp: int)
    requires Newest(g, c) && forall a :: 0 <= a < |g.idle| ==> Newest(g, g.idle[a].c)
    requires idle == [IdleConn(c, stamp)] + g.idle
    ensures forall a :: 0 <= a < |idle| ==> Newest(g, idle[a].c)
  {
  }

  /** Only a dial makes a connection, and nobody comes to account for one it had given up. */
  lemma MoveAccounts(cfg: Config, g: Shared, i: nat, t: Thread, env: Env)
    ensures var (g', t') := Move(cfg, g, i, t, env);
            (g'.dialled != g.dialled ==> t == Dialling && g'.idle == g.idle) &&
            (Token(t') == 1 && Held(t').Some? && Held(t') == Held(t) ==> Token(t) == 1) &&
            (g'.idle != g.idle ==> t.PutPush? || t == GetTake || t == EvictTest)
  {
  }

  lemma StepKeepsNewest(cfg: Config, s: Pool, i: nat, env: Env)
    requires Single(s) && AllNewest(s)
    ensures AllNewest(Step(cfg, s, i, env))
  {
    if i < |s.threads| {
      var g := Advance(s.shared, env);
      MoveHandsOn(cfg, g, i, s.threads[i], env);
      if s.threads[i] == Dialling {
        OnlyOne(s, i);
      }
    }
  }

  lemma MoveStaysSingle(cfg: Config, g: Shared, i: nat, t: Thread, env: Env)
    requires |g.idle| + Token(t) <= 1
    ensures var (g', t') := Move(cfg, g, i, t, env); |g'.idle| + Token(t') <= 1
  {
  }

  lemma {:induction false} RunIsSingle(cfg: Config, threads: nat, now: int, schedule: seq<(nat, Env)>)
    requires threads <= 1 || cfg.maxConn <= 1
    ensures var s := Run(cfg, Initial(threads, now), schedule); |s.threads| == threads && Single(s)
    decreases schedule
  {
    EveryInterleaving(cfg, threads, now, schedule);
    if schedule == [] {
      NoTokensOutside(Initial(threads, now).threads);
    } else {
      var (i, env) := schedule[|schedule| - 1];
      RunIsSingle(cfg, threads, now, schedule[..|schedule| - 1]);
      var s := Run(cfg, Initial(threads, now), schedule[..|schedule| - 1]);
      if i < threads <= 1 {
        assert s.threads == [s.threads[0]] && Step(cfg, s, 0, env).threads == [Step(cfg, s, 0, env).threads[0]];
        OneToken(s.threads[0]);
        OneToken(Step(cfg, s, 0, env).threads[0]);
        MoveStaysSingle(cfg, Advance(s.shared, env), 0, s.threads[0], env);
      }
    }
  }

  lemma OneToken(t: Thread)
    ensures Tokens([t]) == Token(t)
  {
    assert [t][1..] == [];
  }

  lemma {:induction false} RunKeepsNewest(cfg: Config, threads: nat, now: int, schedule: seq<(nat, Env)>)
    requires threads <= 1 || cfg.maxConn <= 1
    ensures AllNewest(Run(cfg, Initial(threads, now), schedule))
    decreases schedule
  {
    if schedule != [] {
      var (i, env) := schedule[|schedule| - 1];
      RunKeepsNewest(cfg, threads, now, schedule[..|schedule| - 1]);
      RunIsSingle(cfg, threads, now, schedule[..|schedule| - 1]);
      StepKeepsNewest(cfg, Run(cfg, Initial(threads, now), schedule[..|schedule| - 1]), i, env);
    }
  }

  // ---------- two connections ----------

  lemma Then(cfg: Config, start: Pool, schedule: seq<(nat, Env)>, s: Pool, i: nat, env: Env)
    returns (more: seq<(nat, Env)>, s': Pool)
    requires Run(cfg, start, schedule) == s
    ensures Run(cfg, start, more) == s' == Step(cfg, s, i, env)
  {
    more, s' := schedule + [(i, env)], Step(cfg, s, i, env);
    assert more[..|schedule|] == schedule;
  }

  /** A thread finds nobody idle and room for one more, and dials. */
  lemma Dials(cfg: Config, start: Pool, schedule: seq<(nat, Env)>, s: Pool, i: nat)
      returns (more: seq<(nat, Env)>, s': Pool)
    requires Run(cfg, start, schedule) == s && i < |s.threads| && s.threads[i] == Outside
    requires s.shared.lock == None && s.shared.idle == [] && s.shared.count < cfg.maxConn
    ensures Run(cfg, start, more) == s'
    ensures s' == Pool(s.shared.(count := s.shared.count + 1, dialled := s.shared.dialled + 1),
                       s.threads[i := Lent(s.shared.dialled)])
  {
    var env := Env(s.shared.now, Get, true);
    more, s' := CountsUp(cfg, start, schedule, s, i);
    more, s' := Then(cfg, start, more, s', i, env);
    more, s' := Then(cfg, start, more, s', i, env);
    more, s' := Then(cfg, start, more, s', i, env);
    assert s'.threads == s.threads[i := Lent(s.shared.dialled)];
  }

  lemma CountsUp(cfg: Config, start: Pool, schedule: seq<(nat, Env)>, s: Pool, i: nat)
      returns (more: seq<(nat, Env)>, s': Pool)
    requires Run(cfg, start, schedule) == s && i < |s.threads| && s.threads[i] == Outside
    requires s.shared.lock == None && s.shared.idle == [] && s.shared.count < cfg.maxConn
    ensures Run(cfg, start, more) == s'
    ensures s' == Pool(s.shared.(lock := Some(i), count := s.shared.count + 1), s.threads[i := GetCounted])
  {
    var env := Env(s.shared.now, Get, true);
    more, s' := Then(cfg, start, schedule, s, i, env);
    more, s' := Then(cfg, start, more, s', i, env);
    more, s' := Then(cfg, start, more, s', i, env);
    more, s' := Then(cfg, start, more, s', i, env);
    assert s'.threads == s.threads[i := GetCounted];
  }

  /** Two threads have a connection each, and both would call through the second. */
  lemma BothThroughOne(cfg: Config, threads: nat, now: int) returns (schedule: seq<(nat, Env)>)
    requires threads >= 2 && cfg.maxConn >= 2
    ensures var s := Run(cfg, Initial(threads, now), schedule);
            |s.threads| == threads && s.threads[0] == Lent(0) && s.threads[1] == Lent(1) && Client(s.shared) == Some(1)
  {
    var start := Initial(threads, now);
    var s := start;
    schedule := [];
    schedule, s := Dials(cfg, start, schedule, s, 0);
    schedule, s := Dials(cfg, start, schedule, s, 1);
  }

  /**
   In every interleaving every call goes through the caller's own connection, exactly when there is never a
   second connection or a second thread.
   */
  lemma CallsOwnExactlyWhen(cfg: Config, threads: nat)
    ensures (forall now: int, schedule: seq<(nat, Env)> {:trigger Run(cfg, Initial(threads, now), schedule)} ::
               CallsOwn(Run(cfg, Initial(threads, now), schedule)))
            <==> threads <= 1 || cfg.maxConn <= 1
  {
    if threads <= 1 || cfg.maxConn <= 1 {
      forall now: int, schedule: seq<(nat, Env)> {:trigger Run(cfg, Initial(threads, now), schedule)}
        ensures CallsOwn(Run(cfg, Initial(threads, now), schedule))
      {
        RunKeepsNewest(cfg, threads, now, schedule);
        assert forall t: Thread :: t.Lent? ==> Token(t) == 1 && Held(t) == Some(t.c);
      }
    } else {
      var schedule := BothThroughOne(cfg, threads, 0);
      assert !CallsOwn(Run(cfg, Initial(threads, 0), schedule));
    }
  }
}
