/**
 The connection pool under concurrency. Any number of threads run the pool's operations; one step
 of one thread is a lock operation, an access to the shared counter, an access to the idle list
 under the lock, or a call that touches no shared state. A schedule picks the threads.
 */
module Pool {
  import opened Wrappers

  datatype Config = Config(maxConn: nat, idleTimeout: nat, timeout: nat)

  datatype IdleConn = IdleConn(c: nat, t: int)

  /** What a thread will do next. Connections are numbered in the order they were dialled. */
  datatype Thread =
    | Outside
    // Get
    | GetLock(expire: int)
    | GetTest(expire: int)
    | GetRelease(expire: int)
    | GetSleep(expire: int)
    | GetTake
    | GetCounted
    | Dialling
    | Checking(c: nat)
    | GetPopped(c: nat)
    | Uncount
    | Lent(c: nat)
    // Put
    | PutTest(c: nat)
    | PutUncount(c: nat)
    | PutClose(c: nat)
    | PutLock(c: nat)
    | PutStamp(c: nat)
    | PutPush(c: nat, t: int)
    | PutRelease
    // Reconnect and CloseConn
    | ReconnectClose(c: nat)
    | HandBackClose(c: nat)
    // CheckTimeout
    | EvictLock
    | EvictTest
    | EvictRelease(c: nat)
    | EvictClose(c: nat)
    | EvictUncount
    | EvictDone

  /** The lock, the list from front to back, the counter; then the clock and the connections dialled and closed. */
  datatype Shared = Shared(
    lock: Option<nat>, idle: seq<IdleConn>, count: int, now: int, dialled: nat, closed: set<nat>)

  /**
   The agent's dial function stores every client it makes in one and the same variable, and each
   connection handed out refers to that variable. So a call goes through the connection dialled last.
   */
  function Client(g: Shared): Option<nat> {
    if g.dialled == 0 then None else Some(g.dialled - 1)
  }

  datatype Pool = Pool(shared: Shared, threads: seq<Thread>)

  datatype Wish = Rest | Get | CheckTimeout | Put | Reconnect | CloseConn

  /** What the world decides in a step: the clock, the caller's wish, how a dial or a liveness check ends. */
  datatype Env = Env(now: int, wish: Wish, works: bool)

  function Initial(threads: nat, now: int): Pool {
    Pool(Shared(None, [], 0, now, 0, {}), seq(threads, _ => Outside))
  }

  function Advance(g: Shared, env: Env): Shared {
    if env.now > g.now then g.(now := env.now) else g
  }

  /** Thread `i` tries to take the lock; it waits where it is while the lock is held. */
  function Acquire(g: Shared, i: nat, waiting: Thread, inside: Thread): (Shared, Thread) {
    if g.lock.Some? then (g, waiting) else (g.(lock := Some(i)), inside)
  }

  function Release(g: Shared, outside: Thread): (Shared, Thread) {
    (g.(lock := None), outside)
  }

  function CloseThen(g: Shared, c: nat, next: Thread): (Shared, Thread) {
    (g.(closed := g.closed + {c}), next)
  }

  function CountDown(g: Shared, next: Thread): (Shared, Thread) {
    (g.(count := g.count - 1), next)
  }

  /** The connections are used up: nobody idle and the counter at its maximum. */
  predicate Exhausted(cfg: Config, g: Shared) {
    g.idle == [] && g.count >= cfg.maxConn
  }

  predicate OverLimit(cfg: Config, g: Shared) {
    g.count > cfg.maxConn
  }

  predicate Expired(cfg: Config, now: int, x: IdleConn) {
    x.t + cfg.idleTimeout <= now
  }

  function MoveCaller(cfg: Config, g: Shared, t: Thread, env: Env): (Shared, Thread) {
    match t
    case Outside =>
      (match env.wish
       case Get => (g, GetLock(g.now + cfg.timeout))
       case CheckTimeout => (g, EvictLock)
       case _ => (g, t))
    case Lent(c) =>
      (match env.wish
       case Put => (g, PutTest(c))
       case Reconnect => (g, ReconnectClose(c))
       case CloseConn => (g, HandBackClose(c))
       case _ => (g, t))
    case ReconnectClose(c) => CloseThen(g, c, Dialling)
    case HandBackClose(c) => CloseThen(g, c, Uncount)
    case _ => (g, t)
  }

  function MoveGet(cfg: Config, g: Shared, i: nat, t: Thread, env: Env): (Shared, Thread) {
    match t
    case GetLock(expire) => Acquire(g, i, t, GetTest(expire))
    case GetTest(expire) => (g, if Exhausted(cfg, g) then GetRelease(expire) else GetTake)
    case GetRelease(expire) => Release(g, GetSleep(expire))
    case GetSleep(expire) => (g, if g.now > expire then Outside else GetLock(expire))
    case GetTake =>
      if g.idle == [] then (g.(count := g.count + 1), GetCounted)
      else (g.(idle := g.idle[1..]), GetPopped(g.idle[0].c))
    case GetCounted => Release(g, Dialling)
    case Dialling => if env.works then (g.(dialled := g.dialled + 1), Checking(g.dialled)) else (g, Uncount)
    case GetPopped(c) => Release(g, Checking(c))
    case Checking(c) => (g, if env.works then Lent(c) else Uncount)
    case Uncount => CountDown(g, Outside)
    case _ => (g, t)
  }

  function MovePut(cfg: Config, g: Shared, i: nat, t: Thread, env: Env): (Shared, Thread) {
    match t
    case PutTest(c) => (g, if OverLimit(cfg, g) || !env.works then PutUncount(c) else PutLock(c))
    case PutUncount(c) => CountDown(g, PutClose(c))
    case PutClose(c) => CloseThen(g, c, Outside)
    case PutLock(c) => Acquire(g, i, t, PutStamp(c))
    case PutStamp(c) => (g, PutPush(c, g.now))
    case PutPush(c, stamp) => (g.(idle := [IdleConn(c, stamp)] + g.idle), PutRelease)
    case PutRelease => Release(g, Outside)
    case _ => (g, t)
  }

  function MoveEvict(cfg: Config, g: Shared, i: nat, t: Thread): (Shared, Thread) {
    match t
    case EvictLock => Acquire(g, i, t, EvictTest)
    case EvictTest =>
      if g.idle == [] || !Expired(cfg, g.now, g.idle[|g.idle| - 1]) then (g, EvictDone)
      else (g.(idle := g.idle[..|g.idle| - 1]), EvictRelease(g.idle[|g.idle| - 1].c))
    case EvictRelease(c) => Release(g, EvictClose(c))
    case EvictClose(c) => CloseThen(g, c, EvictUncount)
    case EvictUncount => CountDown(g, EvictLock)
    case EvictDone => Release(g, Outside)
    case _ => (g, t)
  }

  /** One step of a thread, as seen by that thread. */
  function Move(cfg: Config, g: Shared, i: nat, t: Thread, env: Env): (Shared, Thread) {
    match t
    case Outside | Lent(_) | ReconnectClose(_) | HandBackClose(_) => MoveCaller(cfg, g, t, env)
    case PutTest(_) | PutUncount(_) | PutClose(_) | PutLock(_) | PutStamp(_) | PutPush(_, _) | PutRelease =>
      MovePut(cfg, g, i, t, env)
    case EvictLock | EvictTest | EvictRelease(_) | EvictClose(_) | EvictUncount | EvictDone => MoveEvict(cfg, g, i, t)
    case _ => MoveGet(cfg, g, i, t, env)
  }

  function Step(cfg: Config, s: Pool, i: nat, env: Env): Pool {
    if i >= |s.threads| then s
    else
      var (g, t) := Move(cfg, Advance(s.shared, env), i, s.threads[i], env);
      Pool(g, s.threads[i := t])
  }

  function Run(cfg: Config, s: Pool, schedule: seq<(nat, Env)>): Pool
    decreases schedule
  {
    if schedule == [] then s
    else
      var last := schedule[|schedule| - 1];
      Step(cfg, Run(cfg, s, schedule[..|schedule| - 1]), last.0, last.1)
  }

  // ---------- what each thread holds ----------

  predicate Locked(t: Thread) {
    match t
    case GetTest(_) | GetRelease(_) | GetTake | GetCounted | GetPopped(_) => true
    case PutStamp(_) | PutPush(_, _) | PutRelease => true
    case EvictTest | EvictRelease(_) | EvictDone => true
    case _ => false
  }

  /**
   Whether one unit of `count` is this thread's: a connection lent out, a dial or a check in
   flight, or a removal not yet counted down.
   */
  function Token(t: Thread): nat {
    match t
    case GetCounted | Dialling | Checking(_) | GetPopped(_) | Uncount | Lent(_) => 1
    case PutTest(_) | PutUncount(_) | PutLock(_) | PutStamp(_) | PutPush(_, _) => 1
    case ReconnectClose(_) | HandBackClose(_) => 1
    case EvictRelease(_) | EvictClose(_) | EvictUncount => 1
    case _ => 0
  }

  /** The connection only this thread may use. */
  function Held(t: Thread): Option<nat> {
    match t
    case Checking(c) => Some(c)
    case GetPopped(c) => Some(c)
    case Lent(c) => Some(c)
    case PutTest(c) => Some(c)
    case PutUncount(c) => Some(c)
    case PutClose(c) => Some(c)
    case PutLock(c) => Some(c)
    case PutStamp(c) => Some(c)
    case PutPush(c, _) => Some(c)
    case ReconnectClose(c) => Some(c)
    case HandBackClose(c) => Some(c)
    case EvictRelease(c) => Some(c)
    case EvictClose(c) => Some(c)
    case _ => None
  }

  function Tokens(threads: seq<Thread>): nat {
    if threads == [] then 0 else Token(threads[0]) + Tokens(threads[1..])
  }

  lemma {:induction false} TokensUpdate(threads: seq<Thread>, i: nat, t: Thread)
    requires i < |threads|
    ensures Tokens(threads[i := t]) == Tokens(threads) - Token(threads[i]) + Token(t)
    decreases threads
  {
    if i == 0 {
      assert threads[i := t][1..] == threads[1..];
    } else {
      assert threads[i := t][1..] == threads[1..][i - 1 := t];
      TokensUpdate(threads[1..], i - 1, t);
    }
  }

  // ---------- invariants ----------

  /** At most one thread is inside the lock, and it is the one the lock names. */
  predicate MutualExclusion(s: Pool) {
    (s.shared.lock.Some? ==> s.shared.lock.value < |s.threads|) &&
    forall i :: 0 <= i < |s.threads| ==> (Locked(s.threads[i]) <==> s.shared.lock == Some(i))
  }

  /** `count` is the idle connections plus every unit some thread accounts for. */
  predicate Conserved(s: Pool) {
    s.shared.count == |s.shared.idle| + Tokens(s.threads)
  }

  /** Whoever is about to count up has seen room. */
  predicate HasRoom(cfg: Config, g: Shared, t: Thread) {
    t.GetTake? && g.idle == [] ==> g.count < cfg.maxConn
  }

  predicate Bounded(cfg: Config, s: Pool) {
    s.shared.count <= cfg.maxConn && forall i :: 0 <= i < |s.threads| ==> HasRoom(cfg, s.shared, s.threads[i])
  }

  /** Newest first, and nothing from the future. */
  predicate Sorted(g: Shared) {
    (forall a, b :: 0 <= a < b < |g.idle| ==> g.idle[a].t >= g.idle[b].t) &&
    forall a :: 0 <= a < |g.idle| ==> g.idle[a].t <= g.now
  }

  /** A stamp about to be pushed is newer than all that are idle. */
  predicate StampFresh(g: Shared, t: Thread) {
    t.PutPush? ==> t.t <= g.now && (g.idle != [] ==> g.idle[0].t <= t.t)
  }

  predicate NewestFirst(s: Pool) {
    Sorted(s.shared) && forall i :: 0 <= i < |s.threads| ==> StampFresh(s.shared, s.threads[i])
  }

  predicate Listed(idle: seq<IdleConn>, c: nat) {
    exists a :: 0 <= a < |idle| && idle[a].c == c
  }

  predicate IdleDistinct(g: Shared) {
    (forall a, b :: 0 <= a < b < |g.idle| ==> g.idle[a].c != g.idle[b].c) &&
    (forall a :: 0 <= a < |g.idle| ==> g.idle[a].c < g.dialled && g.idle[a].c !in g.closed) &&
    forall c :: c in g.closed ==> c < g.dialled
  }

  /** The thread's connection, if any, is open and not idle. */
  predicate Private(g: Shared, t: Thread) {
    Held(t).Some? ==> Held(t).value < g.dialled && Held(t).value !in g.closed && !Listed(g.idle, Held(t).value)
  }

  /** No connection is idle twice, held by two threads, or both; none of these is closed. */
  predicate Exclusive(s: Pool) {
    IdleDistinct(s.shared) &&
    (forall i :: 0 <= i < |s.threads| ==> Private(s.shared, s.threads[i])) &&
    forall i, j :: 0 <= i < j < |s.threads| && Held(s.threads[i]).Some? ==> Held(s.threads[i]) != Held(s.threads[j])
  }

  predicate Invariant(cfg: Config, s: Pool) {
    MutualExclusion(s) && Conserved(s) && Bounded(cfg, s) && NewestFirst(s) && Exclusive(s)
  }

  // ---------- one thread's step, and what it means for the others ----------

  lemma MoveLocks(cfg: Config, g: Shared, i: nat, t: Thread, env: Env)
    requires Locked(t) <==> g.lock == Some(i)
    ensures var (g', t') := Move(cfg, g, i, t, env);
            (Locked(t') <==> g'.lock == Some(i)) &&
            (g'.lock == g.lock || (g.lock == None && g'.lock == Some(i)) || (g.lock == Some(i) && g'.lock == None))
  {
  }

  lemma StepExcludes(cfg: Config, s: Pool, i: nat, env: Env)
    requires MutualExclusion(s)
    ensures MutualExclusion(Step(cfg, s, i, env))
  {
    if i < |s.threads| {
      MoveLocks(cfg, Advance(s.shared, env), i, s.threads[i], env);
    }
  }

  lemma MoveConserves(cfg: Config, g: Shared, i: nat, t: Thread, env: Env)
    ensures var (g', t') := Move(cfg, g, i, t, env);
            g'.count - |g'.idle| - Token(t') == g.count - |g.idle| - Token(t)
  {
  }

  lemma StepConserves(cfg: Config, s: Pool, i: nat, env: Env)
    requires Conserved(s)
    ensures Conserved(Step(cfg, s, i, env))
  {
    if i < |s.threads| {
      var g := Advance(s.shared, env);
      MoveConserves(cfg, g, i, s.threads[i], env);
      TokensUpdate(s.threads, i, Move(cfg, g, i, s.threads[i], env).1);
    }
  }

  /** Without the lock a thread leaves the idle list alone and can only count down. */
  lemma MoveBounds(cfg: Config, g: Shared, i: nat, t: Thread, env: Env)
    requires g.count <= cfg.maxConn && HasRoom(cfg, g, t)
    ensures var (g', t') := Move(cfg, g, i, t, env);
            g'.count <= cfg.maxConn && HasRoom(cfg, g', t') &&
            (Locked(t) || (g'.idle == g.idle && g'.count <= g.count))
  {
  }

  lemma StepBounds(cfg: Config, s: Pool, i: nat, env: Env)
    requires MutualExclusion(s) && Bounded(cfg, s)
    ensures Bounded(cfg, Step(cfg, s, i, env))
  {
    if i < |s.threads| {
      MoveBounds(cfg, Advance(s.shared, env), i, s.threads[i], env);
      var s' := Step(cfg, s, i, env);
      forall j | 0 <= j < |s'.threads|
        ensures HasRoom(cfg, s'.shared, s'.threads[j])
      {
        assert HasRoom(cfg, s.shared, s.threads[j]);
        assert Locked(s.threads[i]) && j != i ==> !Locked(s.threads[j]);
      }
    }
  }

  /** Who touches the idle list, and how. */
  lemma MoveTouchesIdle(cfg: Config, g: Shared, i: nat, t: Thread, env: Env)
    ensures var (g', t') := Move(cfg, g, i, t, env);
            g'.now == g.now && (t'.PutPush? ==> t' == t || t'.t == g.now) &&
            (t.PutPush? ==> g'.idle == [IdleConn(t.c, t.t)] + g.idle) &&
            (g'.idle != g.idle && !t.PutPush? ==>
               g.idle != [] && ((t == GetTake && g'.idle == g.idle[1..]) ||
                                (t == EvictTest && g'.idle == g.idle[..|g.idle| - 1])))
  {
  }

  lemma MoveKeepsSorted(cfg: Config, g: Shared, i: nat, t: Thread, env: Env)
    requires Sorted(g) && StampFresh(g, t)
    ensures var (g', t') := Move(cfg, g, i, t, env);
            Sorted(g') && StampFresh(g', t') && g'.now == g.now && (Locked(t) || g'.idle == g.idle)
  {
    MoveTouchesIdle(cfg, g, i, t, env);
  }

  lemma StepKeepsNewestFirst(cfg: Config, s: Pool, i: nat, env: Env)
    requires MutualExclusion(s) && NewestFirst(s)
    ensures NewestFirst(Step(cfg, s, i, env))
  {
    if i < |s.threads| {
      assert StampFresh(s.shared, s.threads[i]);
      MoveKeepsSorted(cfg, Advance(s.shared, env), i, s.threads[i], env);
      var s' := Step(cfg, s, i, env);
      forall j | 0 <= j < |s'.threads|
        ensures StampFresh(s'.shared, s'.threads[j])
      {
        assert StampFresh(s.shared, s.threads[j]);
        assert Locked(s.threads[i]) && j != i ==> !Locked(s.threads[j]);
      }
    }
  }

  /**
   How connections change hands: dialled, lent from the front, evicted from the back, put in front, kept or
   closed.
   */
  predicate Hands(g: Shared, t: Thread, g': Shared, t': Thread) {
    var n := |g.idle|;
    (g' == g.(lock := g'.lock, count := g'.count, dialled := g.dialled + 1) && Held(t') == Some(g.dialled)) ||
    (g'.dialled == g.dialled && g'.closed == g.closed &&
     ((n > 0 && g'.idle == g.idle[1..] && Held(t') == Some(g.idle[0].c)) ||
      (n > 0 && g'.idle == g.idle[..n - 1] && Held(t') == Some(g.idle[n - 1].c)) ||
      (t.PutPush? && g'.idle == [IdleConn(t.c, t.t)] + g.idle && Held(t').None?) ||
      (g'.idle == g.idle && (Held(t').None? || Held(t') == Held(t))))) ||
    (g'.dialled == g.dialled && g'.idle == g.idle && Held(t).Some? && Held(t').None? &&
     g'.closed == g.closed + {Held(t).value})
  }

  lemma MoveHands(cfg: Config, g: Shared, i: nat, t: Thread, env: Env)
    ensures var (g', t') := Move(cfg, g, i, t, env); Hands(g, t, g', t')
  {
    MoveGetHands(cfg, g, i, t, env);
    MoveEvictHands(cfg, g, i, t);
  }

  lemma MoveGetHands(cfg: Config, g: Shared, i: nat, t: Thread, env: Env)
    ensures var (g', t') := MoveGet(cfg, g, i, t, env); Hands(g, t, g', t')
  {
  }

  lemma MoveEvictHands(cfg: Config, g: Shared, i: nat, t: Thread)
    ensures var (g', t') := MoveEvict(cfg, g, i, t); Hands(g, t, g', t')
  {
  }

  predicate OwnsOnly(g: Shared, t: Thread, g': Shared, t': Thread) {
    g.dialled <= g'.dialled &&
    (forall c :: c in g'.closed ==> c in g.closed || Held(t) == Some(c)) &&
    (forall a :: 0 <= a < |g'.idle| ==> Listed(g.idle, g'.idle[a].c) || Held(t) == Some(g'.idle[a].c)) &&
    (Held(t').Some? ==> Held(t') == Held(t) || Listed(g.idle, Held(t').value) || Held(t').value == g.dialled)
  }

  lemma FrontTaken(g: Shared, idle: seq<IdleConn>)
    requires IdleDistinct(g) && g.idle != [] && idle == g.idle[1..]
    ensures IdleDistinct(g.(idle := idle)) && Listed(g.idle, g.idle[0].c) && !Listed(idle, g.idle[0].c)
    ensures forall a :: 0 <= a < |idle| ==> Listed(g.idle, idle[a].c)
  {
    forall a | 0 <= a < |idle|
      ensures idle[a] == g.idle[a + 1] && Listed(g.idle, idle[a].c)
    {
    }
  }

  lemma BackTaken(g: Shared, idle: seq<IdleConn>)
    requires IdleDistinct(g) && g.idle != [] && idle == g.idle[..|g.idle| - 1]
    ensures IdleDistinct(g.(idle := idle))
    ensures Listed(g.idle, g.idle[|g.idle| - 1].c) && !Listed(idle, g.idle[|g.idle| - 1].c)
    ensures forall a :: 0 <= a < |idle| ==> Listed(g.idle, idle[a].c)
  {
    forall a | 0 <= a < |idle|
      ensures idle[a] == g.idle[a] && Listed(g.idle, idle[a].c)
    {
    }
  }

  lemma PutInFront(g: Shared, x: IdleConn, idle: seq<IdleConn>)
    requires IdleDistinct(g) && x.c < g.dialled && x.c !in g.closed && !Listed(g.idle, x.c) && idle == [x] + g.idle
    ensures IdleDistinct(g.(idle := idle))
    ensures forall a :: 0 <= a < |idle| ==> idle[a] == x || Listed(g.idle, idle[a].c)
  {
    forall a | 1 <= a < |idle|
      ensures idle[a] == g.idle[a - 1] && Listed(g.idle, idle[a].c)
    {
    }
  }

  lemma HandsOwn(g: Shared, t: Thread, g': Shared, t': Thread)
    requires IdleDistinct(g) && Private(g, t) && Hands(g, t, g', t')
    ensures IdleDistinct(g') && Private(g', t') && OwnsOnly(g, t, g', t')
  {
    if g'.idle == g.idle {
      KeepsOwn(g, t, g', t');
    } else if t.PutPush? && Held(t').None? && g'.idle == [IdleConn(t.c, t.t)] + g.idle {
      PutInFront(g, IdleConn(t.c, t.t), g'.idle);
    } else {
      TakesOwn(g, t, g', t');
    }
  }

  lemma KeepsOwn(g: Shared, t: Thread, g': Shared, t': Thread)
    requires IdleDistinct(g) && Private(g, t) && Hands(g, t, g', t') && g'.idle == g.idle
    ensures IdleDistinct(g') && Private(g', t') && OwnsOnly(g, t, g', t')
  {
    assert forall a :: 0 <= a < |g.idle| ==> Listed(g.idle, g.idle[a].c);
  }

  lemma TakesOwn(g: Shared, t: Thread, g': Shared, t': Thread)
    requires IdleDistinct(g) && Private(g, t) && g.idle != []
    requires g'.dialled == g.dialled && g'.closed == g.closed
    requires (g'.idle == g.idle[1..] && Held(t') == Some(g.idle[0].c)) ||
             (g'.idle == g.idle[..|g.idle| - 1] && Held(t') == Some(g.idle[|g.idle| - 1].c))
    ensures IdleDistinct(g') && Private(g', t') && OwnsOnly(g, t, g', t')
  {
    if g'.idle == g.idle[1..] && Held(t') == Some(g.idle[0].c) {
      FrontTaken(g, g'.idle);
    } else {
      BackTaken(g, g'.idle);
    }
  }

  lemma StepKeepsExclusive(cfg: Config, s: Pool, i: nat, env: Env)
    requires Exclusive(s)
    ensures Exclusive(Step(cfg, s, i, env))
  {
    if i < |s.threads| {
      var g := Advance(s.shared, env);
      assert Private(s.shared, s.threads[i]);
      MoveHands(cfg, g, i, s.threads[i], env);
      var (g', t') := Move(cfg, g, i, s.threads[i], env);
      HandsOwn(g, s.threads[i], g', t');
      var s' := Step(cfg, s, i, env);
      forall j | 0 <= j < |s'.threads|
        ensures Private(s'.shared, s'.threads[j])
        ensures j != i && Held(s'.threads[j]).Some? ==> Held(s'.threads[j]) != Held(s'.threads[i])
      {
        assert Private(s.shared, s.threads[j]);
      }
    }
  }

  lemma StepKeepsInvariant(cfg: Config, s: Pool, i: nat, env: Env)
    requires Invariant(cfg, s)
    ensures Invariant(cfg, Step(cfg, s, i, env))
  {
    StepExcludes(cfg, s, i, env);
    StepConserves(cfg, s, i, env);
    StepBounds(cfg, s, i, env);
    StepKeepsNewestFirst(cfg, s, i, env);
    StepKeepsExclusive(cfg, s, i, env);
  }

  lemma {:induction false} NoTokensOutside(threads: seq<Thread>)
    requires forall i :: 0 <= i < |threads| ==> threads[i] == Outside
    ensures Tokens(threads) == 0
    decreases threads
  {
    if threads != [] {
      NoTokensOutside(threads[1..]);
    }
  }

  lemma {:induction false} RunKeepsInvariant(cfg: Config, s: Pool, schedule: seq<(nat, Env)>)
    requires Invariant(cfg, s)
    ensures Invariant(cfg, Run(cfg, s, schedule))
    decreases schedule
  {
    if schedule != [] {
      var init, last := schedule[..|schedule| - 1], schedule[|schedule| - 1];
      RunKeepsInvariant(cfg, s, init);
      StepKeepsInvariant(cfg, Run(cfg, s, init), last.0, last.1);
    }
  }

  /**
   In every interleaving: the counter is exact and within its bounds, so the over-limit branch of
   `Put` is never taken; the idle list is newest-first; no connection is in two hands, and none
   that is idle or lent has been closed.
   */
  lemma EveryInterleaving(cfg: Config, threads: nat, now: int, schedule: seq<(nat, Env)>)
    ensures var s := Run(cfg, Initial(threads, now), schedule);
            Invariant(cfg, s) && 0 <= s.shared.count <= cfg.maxConn && !OverLimit(cfg, s.shared)
  {
    NoTokensOutside(Initial(threads, now).threads);
    RunKeepsInvariant(cfg, Initial(threads, now), schedule);
  }

  /**
   In every interleaving: eviction is done exactly when every idle connection was stamped less than the
   idle timeout ago; until then it takes the one at the back, which was not.
   */
  lemma EvictionIsExact(cfg: Config, threads: nat, start: int, schedule: seq<(nat, Env)>, i: nat, env: Env)
    requires var s := Run(cfg, Initial(threads, start), schedule); i < |s.threads| && s.threads[i] == EvictTest
    ensures var s := Run(cfg, Initial(threads, start), schedule);
            var before, s' := s.shared.idle, Step(cfg, s, i, env);
            var now, idle := s'.shared.now, s'.shared.idle;
            if forall x :: x in before ==> x.t + cfg.idleTimeout > now then s'.threads[i] == EvictDone && idle == before
            else
              var last := before[|before| - 1];
              last.t + cfg.idleTimeout <= now && idle == before[..|before| - 1] && s'.threads[i] == EvictRelease(last.c)
  {
    EveryInterleaving(cfg, threads, start, schedule);
    EvictionStep(cfg, Run(cfg, Initial(threads, start), schedule), i, env);
  }

  lemma EvictionStep(cfg: Config, s: Pool, i: nat, env: Env)
    requires Invariant(cfg, s) && i < |s.threads| && s.threads[i] == EvictTest
    ensures var before, s' := s.shared.idle, Step(cfg, s, i, env);
            var now, idle := s'.shared.now, s'.shared.idle;
            if forall x :: x in before ==> x.t + cfg.idleTimeout > now then s'.threads[i] == EvictDone && idle == before
            else
              var last := before[|before| - 1];
              last.t + cfg.idleTimeout <= now && idle == before[..|before| - 1] && s'.threads[i] == EvictRelease(last.c)
  {
    var idle := s.shared.idle;
    if idle != [] {
      assert idle[|idle| - 1] in idle;
    }
  }

  /** With every thread outside, exactly the idle connections are counted: none has leaked. */
  lemma NothingLeaks(cfg: Config, s: Pool)
    requires Invariant(cfg, s) && forall i :: 0 <= i < |s.threads| ==> s.threads[i] == Outside
    ensures s.shared.count == |s.shared.idle| && s.shared.lock == None
  {
    NoTokensOutside(s.threads);
  }

  // ---------- one thread on its own ----------

  /** Thread `i` alone goes through `path` while nobody else moves; `envs` are the worlds of its steps. */
  ghost predicate Alone(cfg: Config, i: nat, path: seq<(Shared, Thread)>, envs: seq<Env>) {
    |path| == |envs| + 1 &&
    forall k {:trigger envs[k]} :: 0 <= k < |envs| ==>
      path[k + 1] == Move(cfg, Advance(path[k].0, envs[k]), i, path[k].1, envs[k])
  }

  lemma AloneSnoc(cfg: Config, i: nat, path: seq<(Shared, Thread)>, envs: seq<Env>, env: Env)
    requires Alone(cfg, i, path, envs)
    ensures var (g, t) := path[|envs|];
            Alone(cfg, i, path + [Move(cfg, Advance(g, env), i, t, env)], envs + [env])
  {
    var (g, t) := path[|envs|];
    var more := path + [Move(cfg, Advance(g, env), i, t, env)];
    forall k {:trigger (envs + [env])[k]} | 0 <= k < |envs| + 1
      ensures more[k + 1] == Move(cfg, Advance(more[k].0, (envs + [env])[k]), i, more[k].1, (envs + [env])[k])
    {
      if k < |envs| {
        assert (envs + [env])[k] == envs[k];
      }
    }
  }

  /** It is a schedule like any other, whatever the other threads are up to. */
  lemma {:induction false} AloneIsARun(cfg: Config, s: Pool, i: nat, path: seq<(Shared, Thread)>, envs: seq<Env>)
    requires i < |s.threads| && Alone(cfg, i, path, envs) && path[0] == (s.shared, s.threads[i])
    ensures var (g, t) := path[|envs|];
            Run(cfg, s, seq(|envs|, k requires 0 <= k < |envs| => (i, envs[k]))) == Pool(g, s.threads[i := t])
    decreases envs
  {
    var schedule := seq(|envs|, k requires 0 <= k < |envs| => (i, envs[k]));
    if envs != [] {
      var last := |envs| - 1;
      var init := envs[..last];
      assert schedule[..last] == seq(|init|, k requires 0 <= k < |init| => (i, init[k]));
      assert Alone(cfg, i, path[..|envs|], init) by {
        assert forall k :: 0 <= k < last ==> init[k] == envs[k];
      }
      AloneIsARun(cfg, s, i, path[..|envs|], init);
      assert schedule[last] == (i, envs[last]);
    } else {
      assert s.threads[i := s.threads[i]] == s.threads;
    }
  }

  /** Whatever one thread does, it takes from `count` and the idle list only what it still holds afterwards. */
  lemma {:induction false} AloneConserves(cfg: Config, i: nat, path: seq<(Shared, Thread)>, envs: seq<Env>, k: nat)
    requires Alone(cfg, i, path, envs) && k <= |envs|
    ensures var (g, t) := path[k]; var (g0, t0) := path[0];
            g.count - |g.idle| - Token(t) == g0.count - |g0.idle| - Token(t0)
    decreases k
  {
    if k > 0 {
      AloneConserves(cfg, i, path, envs, k - 1);
      var (g, t) := path[k - 1];
      MoveConserves(cfg, Advance(g, envs[k - 1]), i, t, envs[k - 1]);
    }
  }
}
