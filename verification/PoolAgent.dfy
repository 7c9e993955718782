/**
 The pool's operations as one thread runs them line by line, and the agent's `Do` on top. Each
 line that touches shared state is a step of the concurrent machine of module `Pool`.
 */
module PoolAgent {
  import opened Wrappers
  import opened Pool

  datatype PoolError = OverMax | SocketDisconnect | DialFailed

  datatype Lease = Connected(c: nat) | Refused(e: PoolError)

  /** How a call through a connection fails. */
  datatype Failure = NetError | TransportException | OtherFailure

  const INTERVAL := 50

  // Where a thread goes on after taking the lock, releasing it, counting down, or only looking.

  function AfterLock(t: Thread): Option<Thread> {
    match t
    case GetLock(expire) => Some(GetTest(expire))
    case PutLock(c) => Some(PutStamp(c))
    case EvictLock => Some(EvictTest)
    case _ => None
  }

  function AfterUnlock(t: Thread): Option<Thread> {
    match t
    case GetRelease(expire) => Some(GetSleep(expire))
    case GetCounted => Some(Dialling)
    case GetPopped(c) => Some(Checking(c))
    case PutRelease => Some(Outside)
    case EvictRelease(c) => Some(EvictClose(c))
    case EvictDone => Some(Outside)
    case _ => None
  }

  function AfterCountDown(t: Thread): Option<Thread> {
    match t
    case Uncount => Some(Outside)
    case PutUncount(c) => Some(PutClose(c))
    case EvictUncount => Some(EvictLock)
    case _ => None
  }

  function AfterLook(cfg: Config, g: Shared, t: Thread, works: bool): Option<Thread> {
    match t
    case GetTest(expire) => Some(if Exhausted(cfg, g) then GetRelease(expire) else GetTake)
    case Dialling => if works then None else Some(Uncount)
    case Checking(c) => Some(if works then Lent(c) else Uncount)
    case PutTest(c) => Some(if OverLimit(cfg, g) || !works then PutUncount(c) else PutLock(c))
    case PutStamp(c) => Some(PutPush(c, g.now))
    case EvictTest => if g.idle == [] || !Expired(cfg, g.now, g.idle[|g.idle| - 1]) then Some(EvictDone) else None
    case _ => None
  }

  // What the operations make of the pool.

  /** A dial and a check of the new connection; a failure gives the unit of `count` back. */
  function Dialled(g: Shared, dials: bool, alive: bool): (Lease, Shared) {
    if !dials then (Refused(DialFailed), g.(count := g.count - 1))
    else if !alive then (Refused(SocketDisconnect), g.(dialled := g.dialled + 1, count := g.count - 1))
    else (Connected(g.dialled), g.(dialled := g.dialled + 1))
  }

  /** Waits in vain until `later`, or takes the front connection, or dials. */
  function Leased(cfg: Config, g: Shared, dials: bool, alive: bool, later: int): (Lease, Shared) {
    if Exhausted(cfg, g) then (Refused(OverMax), g.(now := later))
    else if g.idle == [] then Dialled(g.(count := g.count + 1), dials, alive)
    else if alive then (Connected(g.idle[0].c), g.(idle := g.idle[1..]))
    else (Refused(SocketDisconnect), g.(idle := g.idle[1..], count := g.count - 1))
  }

  predicate Breaks(err: Option<Failure>) {
    err == Some(NetError) || err == Some(TransportException)
  }

  function HandedBack(cfg: Config, g: Shared, c: nat, err: Option<Failure>, alive: bool): Shared {
    if Breaks(err) || !alive || OverLimit(cfg, g) then g.(count := g.count - 1, closed := g.closed + {c})
    else g.(idle := [IdleConn(c, g.now)] + g.idle)
  }

  class ThriftPool {
    const cfg: Config
    const me: nat

    var lock: Option<nat>
    var idle: seq<IdleConn>
    var count: int
    var now: int
    var dialled: nat
    var closed: set<nat>

    // The states of the machine passed through so far, and the worlds its steps saw.
    ghost var path: seq<(Shared, Thread)>
    ghost var trace: seq<Env>

    constructor (cfg: Config, me: nat, now: int)
      ensures this.cfg == cfg && this.me == me && At(Outside)
      ensures Now() == Shared(None, [], 0, now, 0, {})
    {
      this.cfg, this.me, this.now := cfg, me, now;
      lock, idle, count, dialled, closed := None, [], 0, 0, {};
      path, trace := [(Shared(None, [], 0, now, 0, {}), Outside)], [];
    }

    ghost function Now(): Shared
      reads this
    {
      Shared(lock, idle, count, now, dialled, closed)
    }

    /** What every connection's client refers to. */
    function RawClient(): (c: Option<nat>)
      reads this
      ensures c == Client(Now())
    {
      if dialled == 0 then None else Some(dialled - 1)
    }

    /** The steps taken so far lead the machine to this state, with the thread about to do `t`. */
    ghost predicate At(t: Thread)
      reads this
    {
      Passed(Now(), t)
    }

    ghost predicate Passed(g: Shared, t: Thread)
      reads this`path, this`trace
    {
      Alone(cfg, me, path, trace) && path[|trace|] == (g, t)
    }

    /** The line just run was the machine's step from `g`. */
    ghost method Tick(g: Shared, t: Thread, env: Env)
      requires Passed(g, t) && Move(cfg, Advance(g, env), me, t, env).0 == Now()
      modifies this`path, this`trace
      ensures At(Move(cfg, Advance(g, env), me, t, env).1)
    {
      AloneSnoc(cfg, me, path, trace, env);
      path := path + [Move(cfg, Advance(g, env), me, t, env)];
      trace := trace + [env];
    }

    ghost method Begin(t: Thread, wish: Wish)
      requires At(t) && MoveCaller(cfg, Now(), t, Env(now, wish, true)).0 == Now()
      requires t == Outside || t.Lent?
      modifies this`path, this`trace
      ensures At(MoveCaller(cfg, Now(), t, Env(now, wish, true)).1)
    {
      Tick(Now(), t, Env(now, wish, true));
    }

    /** A step that only this thread notices. */
    ghost method Silent(t: Thread, works: bool)
      requires At(t) && AfterLook(cfg, Now(), t, works).Some?
      modifies this`path, this`trace
      ensures At(AfterLook(cfg, Now(), t, works).value)
    {
      Tick(Now(), t, Env(now, Rest, works));
    }

    method Lock(ghost t: Thread)
      requires lock == None && At(t) && AfterLock(t).Some?
      modifies this`lock, this`path, this`trace
      ensures Now() == old(Now()).(lock := Some(me)) && At(AfterLock(t).value)
    {
      ghost var g := Now();
      lock := Some(me);
      Tick(g, t, Env(now, Rest, true));
    }

    method Unlock(ghost t: Thread)
      requires At(t) && AfterUnlock(t).Some?
      modifies this`lock, this`path, this`trace
      ensures Now() == old(Now()).(lock := None) && At(AfterUnlock(t).value)
    {
      ghost var g := Now();
      lock := None;
      Tick(g, t, Env(now, Rest, true));
    }

    /** `atomic.AddInt32(&p.count, 1)`, with the lock held and nobody idle. */
    method CountUp()
      requires At(GetTake) && idle == []
      modifies this`count, this`path, this`trace
      ensures Now() == old(Now()).(count := old(count) + 1) && At(GetCounted)
    {
      ghost var g := Now();
      count := count + 1;
      Tick(g, GetTake, Env(now, Rest, true));
    }

    /** `atomic.AddInt32(&p.count, -1)`. */
    method CountDown(ghost t: Thread)
      requires At(t) && AfterCountDown(t).Some?
      modifies this`count, this`path, this`trace
      ensures Now() == old(Now()).(count := old(count) - 1) && At(AfterCountDown(t).value)
    {
      ghost var g := Now();
      count := count - 1;
      Tick(g, t, Env(now, Rest, true));
    }

    method CloseIt(c: nat, ghost t: Thread)
      requires At(t) && Held(t) == Some(c) && (t.ReconnectClose? || t.HandBackClose? || t.PutClose? || t.EvictClose?)
      modifies this`closed, this`path, this`trace
      ensures Now() == old(Now()).(closed := old(closed) + {c})
      ensures At(match t
                 case ReconnectClose(_) => Dialling
                 case HandBackClose(_) => Uncount
                 case PutClose(_) => Outside
                 case _ => EvictUncount)
    {
      ghost var g := Now();
      closed := closed + {c};
      Tick(g, t, Env(now, Rest, true));
    }

    /** Dials and checks the new connection; gives the unit of `count` back if either fails. */
    method DialAndCheck(dials: bool, alive: bool) returns (r: Lease)
      requires At(Dialling)
      modifies this`count, this`dialled, this`path, this`trace
      ensures (r, Now()) == Dialled(old(Now()), dials, alive)
      ensures At(if r.Connected? then Lent(r.c) else Outside)
    {
      ghost var g := Now();
      if !dials {
        Silent(Dialling, false);
        CountDown(Uncount);
        return Refused(DialFailed);
      }
      var c := dialled;
      dialled := dialled + 1;
      Tick(g, Dialling, Env(now, Rest, true));
      r := Check(c, alive);
    }

    method Check(c: nat, alive: bool) returns (r: Lease)
      requires At(Checking(c))
      modifies this`count, this`path, this`trace
      ensures r == if alive then Connected(c) else Refused(SocketDisconnect)
      ensures Now() == old(Now()).(count := if alive then old(count) else old(count) - 1)
      ensures At(if alive then Lent(c) else Outside)
    {
      Silent(Checking(c), alive);
      if !alive {
        CountDown(Uncount);
        return Refused(SocketDisconnect);
      }
      return Connected(c);
    }

    /** Sleeps and looks again until a connection may be taken, or until `expire` has passed. */
    method Wait(expire: int) returns (timedOut: bool)
      requires At(GetRelease(expire)) && lock == Some(me) && Exhausted(cfg, Now())
      modifies this`lock, this`now, this`path, this`trace
      ensures timedOut && expire < now && (old(now) <= expire ==> now <= expire + 50) &&
              Now() == old(Now()).(lock := None, now := now) && At(Outside)
    {
      Unlock(GetRelease(expire));
      while true
        invariant At(GetSleep(expire)) && Now() == old(Now()).(lock := None, now := now)
        invariant old(now) <= expire ==> now <= expire
        decreases expire - now
      {
        ghost var g := Now();
        now := now + INTERVAL;
        Tick(g, GetSleep(expire), Env(now, Rest, true));
        if now > expire {
          return true;
        }
        Lock(GetLock(expire));
        Silent(GetTest(expire), true);
        Unlock(GetRelease(expire));
      }
    }

    /** `dials` and `alive` say how a dial and the liveness check end. */
    method Get(dials: bool, alive: bool) returns (r: Lease)
      requires At(Outside) && lock == None
      modifies this`lock, this`idle, this`count, this`now, this`dialled, this`path, this`trace
      ensures At(if r.Connected? then Lent(r.c) else Outside) && lock == None
      ensures (r, Now()) == Leased(cfg, old(Now()), dials, alive, now)
      ensures if old(idle) == [] && old(count) >= cfg.maxConn then
                old(now) + cfg.timeout < now <= old(now) + cfg.timeout + 50
              else now == old(now)
    {
      var expire := now + cfg.timeout;
      Begin(Outside, Wish.Get);
      Lock(GetLock(expire));
      Silent(GetTest(expire), true);
      if |idle| == 0 && count >= cfg.maxConn {
        var timedOut := Wait(expire);
        return Refused(OverMax);
      }
      r := TakeOrDial(dials, alive);
    }

    method TakeOrDial(dials: bool, alive: bool) returns (r: Lease)
      requires At(GetTake) && lock == Some(me) && !Exhausted(cfg, Now())
      modifies this`lock, this`idle, this`count, this`dialled, this`path, this`trace
      ensures At(if r.Connected? then Lent(r.c) else Outside)
      ensures (r, Now()) == Leased(cfg, old(Now()).(lock := None), dials, alive, now) && now == old(now)
    {
      if |idle| == 0 {
        CountUp();
        Unlock(GetCounted);
        r := DialAndCheck(dials, alive);
      } else {
        var c := PopFront();
        Unlock(GetPopped(c));
        r := Check(c, alive);
      }
    }

    method PopFront() returns (c: nat)
      requires At(GetTake) && idle != []
      modifies this`idle, this`path, this`trace
      ensures c == old(idle)[0].c && Now() == old(Now()).(idle := old(idle)[1..]) && At(GetPopped(c))
    {
      ghost var g := Now();
      c := idle[0].c;
      idle := idle[1..];
      Tick(g, GetTake, Env(now, Rest, true));
    }

    method PushFront(c: nat)
      requires At(PutStamp(c))
      modifies this`idle, this`path, this`trace
      ensures Now() == old(Now()).(idle := [IdleConn(c, now)] + old(idle)) && At(PutRelease)
    {
      Silent(PutStamp(c), true);
      ghost var g := Now();
      idle := [IdleConn(c, now)] + idle;
      Tick(g, PutPush(c, now), Env(now, Rest, true));
    }

    /** Hands a connection back: to the front of the idle list, or closed when it is dead or one too many. */
    method Put(c: nat, alive: bool)
      requires At(Lent(c)) && lock == None
      modifies this`lock, this`idle, this`count, this`closed, this`path, this`trace
      ensures At(Outside)
      ensures Now() == HandedBack(cfg, old(Now()), c, None, alive)
    {
      Begin(Lent(c), Wish.Put);
      Silent(PutTest(c), alive);
      if count > cfg.maxConn || !alive {
        CountDown(PutUncount(c));
        CloseIt(c, PutClose(c));
      } else {
        Keep(c);
      }
    }

    method Keep(c: nat)
      requires At(PutLock(c)) && lock == None
      modifies this`lock, this`idle, this`path, this`trace
      ensures At(Outside) && Now() == old(Now()).(idle := [IdleConn(c, now)] + old(idle))
    {
      Lock(PutLock(c));
      PushFront(c);
      Unlock(PutRelease);
    }

    /** Replaces a broken connection; on failure the unit of `count` is already given back. */
    method Reconnect(c: nat, dials: bool, alive: bool) returns (r: Lease)
      requires At(Lent(c)) && lock == None
      modifies this`count, this`dialled, this`closed, this`path, this`trace
      ensures (r, Now()) == Dialled(old(Now()).(closed := old(closed) + {c}), dials, alive)
      ensures At(if r.Connected? then Lent(r.c) else Outside)
    {
      Begin(Lent(c), Wish.Reconnect);
      CloseIt(c, ReconnectClose(c));
      r := DialAndCheck(dials, alive);
    }

    method CloseConn(c: nat)
      requires At(Lent(c)) && lock == None
      modifies this`count, this`closed, this`path, this`trace
      ensures At(Outside) && Now() == old(Now()).(closed := old(closed) + {c}, count := old(count) - 1)
    {
      Begin(Lent(c), Wish.CloseConn);
      CloseIt(c, HandBackClose(c));
      CountDown(Uncount);
    }

    /**
     Evicts from the back. On a newest-first list exactly the connections go whose stamp plus the idle
     timeout does not lie after the clock, each of them closed and counted down.
     */
    method CheckTimeout()
      requires At(Outside) && lock == None && Sorted(Now())
      modifies this`lock, this`idle, this`count, this`closed, this`path, this`trace
      ensures At(Outside) && Evicted(old(Now()), Now())
      ensures forall a :: 0 <= a < |old(idle)| ==> (a < |idle| <==> old(idle)[a].t + cfg.idleTimeout > now)
    {
      Begin(Outside, Wish.CheckTimeout);
      Lock(EvictLock);
      EvictAll();
      Unlock(EvictDone);
    }

    /** Evicts until the last idle connection is not expired. */
    method EvictAll()
      requires At(EvictTest) && lock == Some(me) && Sorted(Now())
      modifies this`lock, this`idle, this`count, this`closed, this`path, this`trace
      ensures At(EvictDone) && Evicted(old(Now()), Now())
      ensures forall a :: 0 <= a < |old(idle)| ==> (a < |idle| <==> old(idle)[a].t + cfg.idleTimeout > now)
    {
      ghost var was := Now();
      while |idle| != 0
        invariant At(EvictTest) && Evicted(was, Now())
        invariant forall a :: |idle| <= a < |was.idle| ==> Expired(cfg, now, was.idle[a])
        decreases |idle|
      {
        if idle[|idle| - 1].t + cfg.idleTimeout > now {
          break;
        }
        OneMoreEvicted(was, Now());
        EvictBack();
      }
      Silent(EvictTest, true);
      SurvivorsAreFresh(cfg, was, Now());
    }

    method EvictBack()
      requires At(EvictTest) && lock == Some(me) && idle != [] && Expired(cfg, now, idle[|idle| - 1])
      modifies this`lock, this`idle, this`count, this`closed, this`path, this`trace
      ensures At(EvictTest) && Now() == OneEvicted(old(Now()))
    {
      var c := TakeBack();
      Unlock(EvictRelease(c));
      CloseTaken(c);
    }

    /** Closes and counts down outside the lock, then takes it again. */
    method CloseTaken(c: nat)
      requires At(EvictClose(c)) && lock == None
      modifies this`lock, this`count, this`closed, this`path, this`trace
      ensures At(EvictTest) && Now()
              == old(Now()).(lock := Some(me), count := old(count) - 1, closed := old(closed) + {c})
    {
      CloseIt(c, EvictClose(c));
      CountDown(EvictUncount);
      Lock(EvictLock);
    }

    method TakeBack() returns (c: nat)
      requires At(EvictTest) && idle != [] && Expired(cfg, now, idle[|idle| - 1])
      modifies this`idle, this`path, this`trace
      ensures c == old(idle)[|old(idle)| - 1].c && Now() == old(Now()).(idle := old(idle)[..|old(idle)| - 1]) &&
              At(EvictRelease(c))
    {
      ghost var g := Now();
      c := idle[|idle| - 1].c;
      idle := idle[..|idle| - 1];
      Tick(g, EvictTest, Env(now, Rest, true));
    }
  }

  function OneEvicted(g: Shared): Shared
    requires g.idle != []
  {
    var n := |g.idle| - 1;
    g.(idle := g.idle[..n], count := g.count - 1, closed := g.closed + {g.idle[n].c})
  }

  /** Only connections at the back are gone; they are closed and counted down. */
  ghost predicate Evicted(was: Shared, g: Shared) {
    g == was.(idle := g.idle, count := g.count, closed := g.closed) &&
    g.idle <= was.idle && g.count - |g.idle| == was.count - |was.idle| &&
    forall c: nat :: c in g.closed <==> c in was.closed || Listed(was.idle[|g.idle|..], c)
  }

  lemma SurvivorsAreFresh(cfg: Config, was: Shared, g: Shared)
    requires Evicted(was, g) && Sorted(was) && (g.idle != [] ==> !Expired(cfg, g.now, g.idle[|g.idle| - 1]))
    ensures forall a :: 0 <= a < |g.idle| ==> !Expired(cfg, g.now, was.idle[a])
  {
  }

  lemma OneMoreEvicted(was: Shared, g: Shared)
    requires Evicted(was, g) && g.idle != []
    ensures Evicted(was, OneEvicted(g))
  {
    var k := |g.idle| - 1;
    assert was.idle[k..] == [g.idle[k]] + was.idle[k + 1..];
    ListedCons(g.idle[k], was.idle[k + 1..]);
  }

  lemma ListedCons(x: IdleConn, idle: seq<IdleConn>)
    ensures forall c: nat :: Listed([x] + idle, c) <==> c == x.c || Listed(idle, c)
  {
    forall c: nat
      ensures Listed([x] + idle, c) <==> c == x.c || Listed(idle, c)
    {
      if Listed(idle, c) {
        var a :| 0 <= a < |idle| && idle[a].c == c;
        assert ([x] + idle)[a + 1].c == c;
      }
      assert ([x] + idle)[0].c == x.c;
    }
  }

  // ---------- the agent ----------

  /** How everything outside the pool turns out while `Do` runs. */
  datatype World = World(
    dials: bool, alive: bool, first: Option<Failure>,
    redials: bool, realive: bool, second: Option<Failure>, aliveAtEnd: bool)

  /**
   No connection to be had, or the error of the last call made, the connection lent for it and the one it went
   through.
   */
  datatype DoResult = NoConnection(e: PoolError) | Called(err: Option<Failure>, lent: nat, through: Option<nat>)

  /** The deferred hand-back, which looks at the error that the outer variable holds. */
  method HandBack(pool: ThriftPool, client: Option<nat>, err: Option<Failure>, alive: bool)
    requires pool.lock == None && pool.At(if client.Some? then Lent(client.value) else Outside)
    modifies pool`lock, pool`idle, pool`count, pool`closed, pool`path, pool`trace
    ensures pool.At(Outside)
    ensures var was := old(pool.Now());
            pool.Now() ==
            if client.None? then was else HandedBack(pool.cfg, was, client.value, err, alive)
  {
    if client.None? {
      return;
    }
    if Breaks(err) {
      pool.CloseConn(client.value);
    } else {
      pool.Put(client.value, alive);
    }
  }

  /** The connection `Get` would hand out, and the idle ones it leaves. */
  function FirstChoice(g: Shared): nat {
    if g.idle == [] then g.dialled else g.idle[0].c
  }

  function Others(g: Shared): seq<IdleConn> {
    if g.idle == [] then [] else g.idle[1..]
  }

  /**
   What `Do` returns and what it leaves of the pool: a call goes through a pooled connection, and once
   more through a fresh one if the first was broken. `later` is when a wait for a connection ends.
   */
  function DoSpec(cfg: Config, g: Shared, w: World, later: int): (DoResult, Shared) {
    var (lease, got) := Leased(cfg, g, w.dials, w.alive, later);
    if lease.Refused? then (NoConnection(lease.e), got)
    else if !Breaks(w.first)
        then (Called(w.first, lease.c, Client(got)), HandedBack(cfg, got, lease.c, w.first, w.aliveAtEnd))
    else
      var (again, renewed) := Dialled(got.(closed := got.closed + {lease.c}), w.redials, w.realive);
      if again.Refused? then (NoConnection(again.e), renewed)
      else (Called(w.second, again.c, Client(renewed)), HandedBack(cfg, renewed, again.c, None, w.aliveAtEnd))
  }

  /** Every path leaves the thread outside the pool with nothing in hand. */
  method Do(pool: ThriftPool, w: World) returns (r: DoResult)
    requires pool.lock == None && pool.At(Outside)
    modifies pool`lock, pool`idle, pool`count, pool`now, pool`dialled, pool`closed, pool`path, pool`trace
    ensures pool.At(Outside) && (r, pool.Now()) == DoSpec(pool.cfg, old(pool.Now()), w, pool.now)
    ensures if old(pool.idle) == [] && old(pool.count) >= pool.cfg.maxConn then
              old(pool.now) + pool.cfg.timeout < pool.now <= old(pool.now) + pool.cfg.timeout + 50
            else pool.now == old(pool.now)
  {
    var lease := pool.Get(w.dials, w.alive);
    if lease.Refused? {
      HandBack(pool, None, None, w.aliveAtEnd);
      return NoConnection(lease.e);
    }
    if Breaks(w.first) {
      var again := pool.Reconnect(lease.c, w.redials, w.realive);
      if again.Refused? {
        HandBack(pool, None, None, w.aliveAtEnd);
        return NoConnection(again.e);
      }
      r := Called(w.second, again.c, pool.RawClient());
      HandBack(pool, Some(again.c), None, w.aliveAtEnd);
      return;
    }
    r := Called(w.first, lease.c, pool.RawClient());
    HandBack(pool, Some(lease.c), w.first, w.aliveAtEnd);
  }

  /**
   The unit of `count` taken is given back exactly once: the difference between `count` and the idle
   list is unchanged. The last connection used goes to the front of the idle list unless it is dead,
   whatever its call returned; a broken first one is closed. The other idle ones stay.
   */
  lemma DoBalances(cfg: Config, g: Shared, w: World, later: int)
    requires !OverLimit(cfg, g)
    ensures var (r, after) := DoSpec(cfg, g, w, later);
            after.lock == g.lock && after.count - |after.idle| == g.count - |g.idle| && !OverLimit(cfg, after) &&
            match r
            case NoConnection(_) => after.idle == Others(g)
            case Called(err, c, through) =>
              var broken := if Breaks(w.first) then {FirstChoice(g)} else {};
              through == Client(after) && err == (if Breaks(w.first) then w.second else w.first) &&
              c == (if Breaks(w.first) then after.dialled - 1 else FirstChoice(g)) &&
              (if w.aliveAtEnd then after.idle == [IdleConn(c, after.now)] + Others(g) &&
               after.closed == g.closed + broken
               else after.idle == Others(g) && after.closed == g.closed + broken + {c})
  {
    LeaseBalances(cfg, g, w.dials, w.alive, later);
  }

  lemma LeaseBalances(cfg: Config, g: Shared, dials: bool, alive: bool, later: int)
    requires !OverLimit(cfg, g)
    ensures var (lease, got) := Leased(cfg, g, dials, alive, later);
            !OverLimit(cfg, got) && got.idle == Others(g) && got.closed == g.closed && got.lock == g.lock &&
            got.count - |got.idle| == g.count - |g.idle| + (if lease.Connected? then 1 else 0) &&
            (lease.Connected? ==> lease.c == FirstChoice(g))
  {
  }

  /**
   What `Get` comes to, in the pool's own numbers: it waits in vain exactly with nobody idle and the counter at
   its maximum; otherwise it fails exactly when the front connection is dead, or a dial fails or ends dead.
   */
  lemma LeasedExactlyWhen(cfg: Config, g: Shared, dials: bool, alive: bool, later: int)
    ensures var (lease, got) := Leased(cfg, g, dials, alive, later);
            (lease == Refused(OverMax) <==> g.idle == [] && g.count >= cfg.maxConn) &&
            (lease.Connected? <==> alive && (g.idle != [] || (dials && g.count < cfg.maxConn))) &&
            (lease.Connected? ==> lease.c == (if g.idle != [] then g.idle[0].c else g.dialled)) &&
            got.count == g.count + (if lease.Connected? && g.idle == [] then 1 else 0)
                         - (if !lease.Connected? && g.idle != [] then 1 else 0)
  {
  }

  /** A connection handed back is closed exactly when its call broke it, it is dead, or there are too many. */
  lemma ClosedExactlyWhen(cfg: Config, g: Shared, c: nat, err: Option<Failure>, alive: bool)
    requires c !in g.closed
    ensures var after := HandedBack(cfg, g, c, err, alive);
            (c in after.closed <==>
             err == Some(NetError) || err == Some(TransportException) || !alive || g.count > cfg.maxConn) &&
            (c !in after.closed ==> after.idle == [IdleConn(c, g.now)] + g.idle && after.count == g.count) &&
            (c in after.closed ==> after.idle == g.idle && after.count == g.count - 1)
  {
  }

  /**
   The call is made again exactly when the first failed on the network or in the transport and a new connection
   is had.
   */
  lemma RetriesExactlyWhen(cfg: Config, g: Shared, w: World, later: int)
    requires Leased(cfg, g, w.dials, w.alive, later).0.Connected?
    ensures var lease, r := Leased(cfg, g, w.dials, w.alive, later).0, DoSpec(cfg, g, w, later).0;
            if w.first == Some(NetError) || w.first == Some(TransportException) then
              (r.Called? <==> w.redials && w.realive) && (r.Called? ==> r.err == w.second) &&
              (r.NoConnection? ==> r.e == if w.redials then SocketDisconnect else DialFailed)
            else r.Called? && r.err == w.first && r.lent == lease.c
  {
  }

  /** All that is idle or closed has been dialled, and nothing is both. */
  ghost predicate Sound(g: Shared) {
    (forall a :: 0 <= a < |g.idle| ==> g.idle[a].c < g.dialled && g.idle[a].c !in g.closed) &&
    forall c :: c in g.closed ==> c < g.dialled
  }

  /**
   The connection last lent is closed exactly when it is dead at the end. So the rule that a connection
   is closed when the call made with it broke or it is dead holds in every world but one: a
   retried call that broke its connection too, while the connection still looks alive.
   */
  lemma BrokenIsClosedExactlyWhen(cfg: Config, g: Shared, w: World, later: int)
    requires Sound(g) && !OverLimit(cfg, g) && DoSpec(cfg, g, w, later).0.Called?
    ensures var (r, after) := DoSpec(cfg, g, w, later);
            (r.lent in after.closed <==> !w.aliveAtEnd) &&
            ((r.lent in after.closed <==> Breaks(r.err) || !w.aliveAtEnd)
             <==> !(Breaks(w.first) && Breaks(w.second) && w.aliveAtEnd))
  {
    var (lease, got) := Leased(cfg, g, w.dials, w.alive, later);
    assert lease.Connected? && lease.c !in got.closed && lease.c < got.dialled && !OverLimit(cfg, got);
  }

  /**
   Without others, the last call goes through the connection lent for it exactly when it is a retry or no idle
   one but the newest was taken.
   */
  lemma DoCallsOwnExactlyWhen(cfg: Config, g: Shared, w: World, later: int)
    requires DoSpec(cfg, g, w, later).0.Called?
    ensures var r := DoSpec(cfg, g, w, later).0;
            r.through == Some(r.lent) <==> Breaks(w.first) || g.idle == [] || Client(g) == Some(g.idle[0].c)
  {
  }

  /** Both calls fail on the network, and the second connection waits at the front for the next caller. */
  lemma BrokenIsKept()
    ensures var w := World(true, true, Some(NetError), true, true, Some(NetError), true);
            DoSpec(Config(1, 10, 10), Shared(None, [], 0, 0, 0, {}), w, 0)
            == (Called(Some(NetError), 1, Some(1)), Shared(None, [IdleConn(1, 0)], 1, 0, 2, {0}))
  {
    var w := World(true, true, Some(NetError), true, true, Some(NetError), true);
    var cfg, g := Config(1, 10, 10), Shared(None, [], 0, 0, 0, {});
    assert g.closed + {0} == {0} && [IdleConn(1, 0)] + g.idle == [IdleConn(1, 0)];
    assert Leased(cfg, g, true, true, 0) == (Connected(0), g.(count := 1, dialled := 1));
  }
}
