/**
 Circuit breakers as objects, the slot chain an entry goes through, and the exit handlers that roll
 back the probes of a blocked entry.
 */
module BreakerSlots {
  import opened Wrappers
  import opened CircuitBreaking

  class CircuitBreaker {
    const rule: Rule
    var state: State
    var nextRetryTimestampMs: int
    var curProbeNumber: nat
    var window: seq<Counter>

    constructor (rule: Rule)
      ensures Now() == NewBreaker(rule)
    {
      this.rule := rule;
      state, nextRetryTimestampMs, curProbeNumber, window := Closed, 0, 0, [];
    }

    ghost function Now(): Breaker
      reads this
    {
      Breaker(rule, state, nextRetryTimestampMs, curProbeNumber, window)
    }

    method Cas(expected: State, update: State) returns (swapped: bool)
      modifies this`state
      ensures swapped <==> old(state) == expected
      ensures state == if swapped then update else old(state)
    {
      if state != expected {
        return false;
      }
      state := update;
      return true;
    }

    /** The entry learns, if this call made the transition, that its block must undo it. */
    method FromOpenToHalfOpen(entry: SentinelEntry) returns (done: bool)
      modifies this`state, entry`exitHandlers
      ensures done <==> old(state) == Open
      ensures state == if done then HalfOpen else old(state)
      ensures entry.exitHandlers == old(entry.exitHandlers) + if done then [this] else []
    {
      done := Cas(Open, HalfOpen);
      if done {
        entry.WhenExit(this);
      }
    }

    method TryPass(entry: SentinelEntry, now: int) returns (passed: bool)
      modifies this`state, entry`exitHandlers
      ensures (passed, Now()) == CircuitBreaking.TryPass(old(Now()), now)
      ensures entry.exitHandlers == old(entry.exitHandlers) + if Probes(old(Now()), now) then [this] else []
    {
      var curStatus := state;
      if curStatus == Closed {
        return true;
      } else if curStatus == Open {
        if now >= nextRetryTimestampMs {
          var done := FromOpenToHalfOpen(entry);
          if done {
            return true;
          }
        }
      } else if curStatus == HalfOpen && rule.probeNum > 0 {
        return true;
      }
      return false;
    }

    /** The handler an exiting entry runs for this breaker. */
    method ExitHandler(blocked: bool)
      modifies this`state
      ensures Now() == if blocked then RollBack(old(Now())) else old(Now())
    {
      if blocked {
        var undone := Cas(HalfOpen, Open);
      }
    }

    method FromHalfOpenToOpen(now: int) returns (done: bool)
      modifies this
      ensures done <==> old(state) == HalfOpen
      ensures Now() == if done then Tripped(old(Now()).(curProbeNumber := 0), now) else old(Now())
    {
      done := Cas(HalfOpen, Open);
      if done {
        curProbeNumber := 0;
        nextRetryTimestampMs := now + rule.retryTimeoutMs;
      }
    }

    method FromClosedToOpen(now: int) returns (done: bool)
      modifies this
      ensures done <==> old(state) == Closed
      ensures Now() == if done then Tripped(old(Now()), now) else old(Now())
    {
      done := Cas(Closed, Open);
      if done {
        nextRetryTimestampMs := now + rule.retryTimeoutMs;
      }
    }

    method FromHalfOpenToClosed() returns (done: bool)
      modifies this
      ensures done <==> old(state) == HalfOpen
      ensures Now() == if done then old(Now()).(state := Closed, curProbeNumber := 0) else old(Now())
    {
      done := Cas(HalfOpen, Closed);
      if done {
        curProbeNumber := 0;
      }
    }

    method ResetMetric()
      modifies this`window
      ensures window == Cleared(old(window))
    {
      for i := 0 to |window|
        invariant |window| == |old(window)|
        invariant forall j :: 0 <= j < i ==> window[j] == Counter(0, 0)
      {
        window := window[i := Counter(0, 0)];
      }
    }

    method Totals() returns (bad: nat, total: nat)
      ensures bad == BadTotal(window) && total == Total(window)
    {
      bad, total := 0, 0;
      for i := 0 to |window|
        invariant bad + BadTotal(window[i..]) == BadTotal(window)
        invariant total + Total(window[i..]) == Total(window)
      {
        assert window[i..][1..] == window[i + 1..];
        bad, total := bad + window[i].bad, total + window[i].total;
      }
    }

    method OnRequestComplete(now: int, rt: nat, failed: bool, slide: Option<Slide>)
      modifies this
      ensures Now() == Complete(old(Now()), now, rt, failed, slide)
    {
      if slide.None? {
        return;
      }
      var bad := IsBad(rule, rt, failed);
      window := Record(Slid(window, slide.value), bad);
      var badCount, totalCount := Totals();
      if state == Open {
        return;
      }
      if state == HalfOpen {
        if bad {
          var done := FromHalfOpenToOpen(now);
        } else {
          curProbeNumber := curProbeNumber + 1;
          if rule.probeNum == 0 || curProbeNumber >= rule.probeNum {
            var done := FromHalfOpenToClosed();
            ResetMetric();
          }
        }
        return;
      }
      if totalCount < rule.minRequestAmount {
        return;
      }
      if totalCount > 0 && Exceeds(rule, badCount, totalCount) {
        var done := FromClosedToOpen(now);
      }
    }
  }

  /** The part of the pooled context that matters here. */
  class EntryContext {
    var blocked: bool
    var failed: bool

    constructor ()
      ensures !blocked && !failed
    {
      blocked, failed := false, false;
    }

    method Reset()
      modifies this
      ensures !blocked && !failed
    {
      blocked, failed := false, false;
    }
  }

  function Without<T>(s: seq<T>, k: nat): (t: seq<T>)
    requires k < |s|
    ensures |t| == |s| - 1 && forall i :: 0 <= i < |t| ==> t[i] == if i < k then s[i] else s[i + 1]
  {
    s[..k] + s[k + 1..]
  }

  /** A slot chain's pool of contexts. It hands out any of them, or a new one. */
  class SlotChain {
    var ctxPool: seq<EntryContext>

    constructor ()
      ensures ctxPool == []
    {
      ctxPool := [];
    }

    /** A pooled context comes as it is; it was reset when it was given back. */
    method GetPooledContext(pick: nat) returns (ctx: EntryContext)
      modifies this
      ensures if pick < |old(ctxPool)| then ctx == old(ctxPool)[pick] && ctxPool == Without(old(ctxPool), pick)
              else fresh(ctx) && !ctx.blocked && !ctx.failed && ctxPool == old(ctxPool)
    {
      if pick < |ctxPool| {
        ctx, ctxPool := ctxPool[pick], Without(ctxPool, pick);
      } else {
        ctx := new EntryContext();
      }
    }

    method RefurbishContext(c: EntryContext)
      modifies this, c
      ensures !c.blocked && !c.failed && ctxPool == old(ctxPool) + [c]
    {
      c.Reset();
      ctxPool := ctxPool + [c];
    }
  }

  class SentinelEntry {
    const ctx: EntryContext
    const sc: SlotChain
    const breakers: seq<CircuitBreaker>
    var exitHandlers: seq<CircuitBreaker>
    var exited: bool

    constructor (ctx: EntryContext, sc: SlotChain, breakers: seq<CircuitBreaker>)
      ensures this.ctx == ctx && this.sc == sc && this.breakers == breakers && exitHandlers == [] && !exited
    {
      this.ctx, this.sc, this.breakers := ctx, sc, breakers;
      exitHandlers, exited := [], false;
    }

    method WhenExit(handler: CircuitBreaker)
      modifies this`exitHandlers
      ensures exitHandlers == old(exitHandlers) + [handler]
    {
      exitHandlers := exitHandlers + [handler];
    }

    /**
     Ends the entry once: the handlers run, a passed entry completes at every breaker of its
     resource, and the context is reset and goes back to the pool. Ending it again only stores the
     error, in a context that may be another entry's by now. `slides` says how each window has moved.
     */
    method Exit(failed: bool, now: int, rt: nat, slides: seq<Option<Slide>>)
      requires |slides| == |breakers| && Distinct(breakers) && Distinct(exitHandlers)
      requires forall h :: h in exitHandlers ==> h in breakers
      modifies this`exited, ctx, sc, breakers
      ensures exited
      ensures forall i :: 0 <= i < |breakers| ==>
                var b := old(breakers[i].Now());
                breakers[i].Now() ==
                if old(exited) then b
                else if old(ctx.blocked) then (if breakers[i] in exitHandlers then RollBack(b) else b)
                else Complete(b, now, rt, failed || old(ctx.failed), slides[i])
      ensures if old(exited) then
                ctx.blocked == old(ctx.blocked) && ctx.failed == (failed || old(ctx.failed)) &&
                sc.ctxPool == old(sc.ctxPool)
              else !ctx.blocked && !ctx.failed && sc.ctxPool == old(sc.ctxPool) + [ctx]
    {
      if failed {
        ctx.failed := true;
      }
      if exited {
        return;
      }
      exited := true;
      RunHandlers();
      if !ctx.blocked {
        OnCompleted(now, rt, slides);
      }
      sc.RefurbishContext(ctx);
    }

    method RunHandlers()
      requires Distinct(breakers) && Distinct(exitHandlers) && forall h :: h in exitHandlers ==> h in breakers
      modifies breakers
      ensures forall i :: 0 <= i < |breakers| ==>
                var b := old(breakers[i].Now());
                breakers[i].Now() == if ctx.blocked && breakers[i] in exitHandlers then RollBack(b) else b
    {
      for k := 0 to |exitHandlers|
        invariant forall b :: b in breakers ==>
                    b.Now() == if ctx.blocked && b in exitHandlers[..k] then RollBack(old(b.Now())) else old(b.Now())
      {
        assert exitHandlers[k] in exitHandlers;
        exitHandlers[k].ExitHandler(ctx.blocked);
      }
    }

    method OnCompleted(now: int, rt: nat, slides: seq<Option<Slide>>)
      requires |slides| == |breakers| && Distinct(breakers)
      modifies breakers
      ensures forall i :: 0 <= i < |breakers| ==>
                breakers[i].Now() == Complete(old(breakers[i].Now()), now, rt, ctx.failed, slides[i])
    {
      for k := 0 to |breakers|
        invariant forall i :: 0 <= i < |breakers| ==>
                    breakers[i].Now() ==
                    if i < k then Complete(old(breakers[i].Now()), now, rt, ctx.failed, slides[i])
                    else old(breakers[i].Now())
      {
        breakers[k].OnRequestComplete(now, rt, ctx.failed, slides[k]);
      }
    }
  }

  ghost predicate Distinct<T>(s: seq<T>) {
    forall i, j :: 0 <= i < j < |s| ==> s[i] != s[j]
  }

  /** A rule check of the chain: the breakers' own, or another one that blocks or not. */
  datatype RuleCheck = BreakerCheck | OtherCheck(blocks: bool)

  ghost function Snapshot(breakers: seq<CircuitBreaker>): (s: seq<Breaker>)
    reads breakers
    ensures |s| == |breakers| && forall i :: 0 <= i < |s| ==> s[i] == breakers[i].Now()
  {
    seq(|breakers|, i requires 0 <= i < |breakers| reads breakers => breakers[i].Now())
  }

  /** Whether every breaker, each looked at in its own moment, lets the request through. */
  predicate AllPass(was: seq<Breaker>, times: seq<int>)
    requires |times| == |was|
  {
    forall i :: 0 <= i < |was| ==> CircuitBreaking.TryPass(was[i], times[i]).0
  }

  /**
   The first `reached` breakers let the request through and those that had to probe for it have a
   handler in the entry; the others are as they were.
   */
  ghost predicate Checked(entry: SentinelEntry, was: seq<Breaker>, times: seq<int>, reached: nat)
    requires |times| == |was| == |entry.breakers|
    reads entry, entry.breakers
  {
    reached <= |was| && Distinct(entry.exitHandlers) &&
    (forall h :: h in entry.exitHandlers ==> h in entry.breakers) &&
    forall i :: 0 <= i < |was| ==>
      var b := entry.breakers[i];
      (b in entry.exitHandlers <==> i < reached && Probes(was[i], times[i])) &&
      (if i < reached then (true, b.Now()) == CircuitBreaking.TryPass(was[i], times[i]) else b.Now() == was[i])
  }

  /** Asks the breakers of the resource in order, up to the first refusal. */
  method CheckPass(entry: SentinelEntry, times: seq<int>) returns (passed: bool, ghost reached: nat)
    requires |times| == |entry.breakers| && Distinct(entry.breakers) && entry.exitHandlers == []
    modifies entry`exitHandlers, entry.breakers
    ensures Checked(entry, old(Snapshot(entry.breakers)), times, reached)
    ensures passed <==> AllPass(old(Snapshot(entry.breakers)), times)
    ensures passed ==> reached == |times|
  {
    ghost var was := Snapshot(entry.breakers);
    reached := 0;
    for k := 0 to |entry.breakers|
      invariant reached == k && Checked(entry, was, times, k)
    {
      ghost var before := entry.exitHandlers;
      passed := entry.breakers[k].TryPass(entry, times[k]);
      if !passed {
        assert !Probes(was[k], times[k]) && entry.exitHandlers == before;
        return;
      }
      Appended(before, entry.breakers[k], entry.exitHandlers);
      reached := k + 1;
    }
    passed := true;
  }

  lemma Appended(before: seq<CircuitBreaker>, b: CircuitBreaker, handlers: seq<CircuitBreaker>)
    requires Distinct(before) && b !in before && (handlers == before + [b] || handlers == before + [])
    ensures Distinct(handlers) && forall c :: c in handlers ==> c in before || c == b
  {
  }

  predicate AtMostOneBreakerCheck(checks: seq<RuleCheck>) {
    forall i, j :: 0 <= i < j < |checks| ==> !(checks[i].BreakerCheck? && checks[j].BreakerCheck?)
  }

  predicate Blocks(check: RuleCheck, was: seq<Breaker>, times: seq<int>)
    requires |times| == |was|
  {
    if check.BreakerCheck? then !AllPass(was, times) else check.blocks
  }

  /** The chain's rule checks, in order, up to the first that blocks. */
  method ChainEntry(entry: SentinelEntry, checks: seq<RuleCheck>, times: seq<int>)
      returns (blocked: bool, ghost reached: nat)
    requires |times| == |entry.breakers| && Distinct(entry.breakers) && entry.exitHandlers == []
    requires AtMostOneBreakerCheck(checks)
    modifies entry`exitHandlers, entry.breakers, entry.ctx`blocked
    ensures Checked(entry, old(Snapshot(entry.breakers)), times, reached)
    ensures blocked <==> exists c :: c in checks && Blocks(c, old(Snapshot(entry.breakers)), times)
    ensures !blocked && BreakerCheck in checks ==> reached == |times|
    ensures entry.ctx.blocked == blocked
  {
    ghost var was := Snapshot(entry.breakers);
    reached := 0;
    blocked := false;
    for k := 0 to |checks|
      invariant !blocked && Checked(entry, was, times, reached)
      invariant if BreakerCheck in checks[..k] then reached == |times|
                else entry.exitHandlers == [] && Snapshot(entry.breakers) == was
      invariant forall c :: c in checks[..k] ==> !Blocks(c, was, times)
    {
      match checks[k] {
        case BreakerCheck =>
          var passed;
          passed, reached := CheckPass(entry, times);
          blocked := !passed;
        case OtherCheck(blocks) =>
          blocked := blocks;
      }
      if blocked {
        assert checks[k] in checks && Blocks(checks[k], was, times);
        break;
      }
    }
    assert !blocked ==> checks[..|checks|] == checks;
    entry.ctx.blocked := blocked;
  }

  /**
   A request enters the resource, with the pool's context `pick` or a new one. When it is blocked, by
   whichever slot or breaker, every breaker is as it was and the context is back in the pool; when it
   passes, those whose retry time had come have turned half-open.
   */
  method Enter(sc: SlotChain, pick: nat, breakers: seq<CircuitBreaker>, checks: seq<RuleCheck>, times: seq<int>)
      returns (entry: SentinelEntry, blocked: bool)
    requires |times| == |breakers| && Distinct(breakers) && AtMostOneBreakerCheck(checks)
    modifies breakers, sc, sc.ctxPool
    ensures fresh(entry) && entry.sc == sc && entry.breakers == breakers
    ensures if pick < |old(sc.ctxPool)| then entry.ctx == old(sc.ctxPool)[pick] else fresh(entry.ctx)
    ensures !blocked ==> entry.ctx.failed == (pick < |old(sc.ctxPool)| && old(sc.ctxPool[pick].failed))
    ensures blocked ==> !entry.ctx.blocked && !entry.ctx.failed
    ensures forall c :: c in old(sc.ctxPool) && c != entry.ctx ==>
              c.blocked == old(c.blocked) && c.failed == old(c.failed)
    ensures var others := if pick < |old(sc.ctxPool)| then Without(old(sc.ctxPool), pick) else old(sc.ctxPool);
            sc.ctxPool == if blocked then others + [entry.ctx] else others
    ensures blocked <==> exists c :: c in checks && Blocks(c, old(Snapshot(breakers)), times)
    ensures blocked ==> Snapshot(breakers) == old(Snapshot(breakers)) && entry.exited
    ensures !blocked && BreakerCheck in checks ==>
              forall i :: 0 <= i < |breakers| ==>
                (true, breakers[i].Now()) == CircuitBreaking.TryPass(old(breakers[i].Now()), times[i])
    ensures !blocked ==> !entry.exited && !entry.ctx.blocked &&
                         Distinct(entry.exitHandlers) && forall h :: h in entry.exitHandlers ==> h in breakers
  {
    ghost var was := Snapshot(breakers);
    var ctx := sc.GetPooledContext(pick);
    entry := new SentinelEntry(ctx, sc, breakers);
    assert Snapshot(breakers) == was;
    ghost var reached;
    blocked, reached := ChainEntry(entry, checks, times);
    if blocked {
      ExitBlocked(entry, was, times, reached);
    }
  }

  /** The exit of a blocked entry undoes what its checks did. */
  method ExitBlocked(entry: SentinelEntry, ghost was: seq<Breaker>, ghost times: seq<int>, ghost reached: nat)
    requires |times| == |was| == |entry.breakers| && Distinct(entry.breakers)
    requires Checked(entry, was, times, reached) && entry.ctx.blocked && !entry.exited
    modifies entry`exited, entry.ctx, entry.sc, entry.breakers
    ensures Snapshot(entry.breakers) == was && entry.exited && entry.sc.ctxPool == old(entry.sc.ctxPool) + [entry.ctx]
    ensures !entry.ctx.blocked && !entry.ctx.failed
  {
    ghost var mid := Snapshot(entry.breakers);
    entry.Exit(false, 0, 0, seq(|entry.breakers|, _ => None));
    forall i | 0 <= i < |was|
      ensures entry.breakers[i].Now() == was[i]
    {
      assert entry.breakers[i].Now() == if entry.breakers[i] in entry.exitHandlers then RollBack(mid[i]) else mid[i];
      RolledBack(was[i], times[i]);
    }
  }

  /** Undoing the probe a request made gives the breaker back. */
  lemma RolledBack(b: Breaker, now: int)
    ensures var (passed, b') := CircuitBreaking.TryPass(b, now);
            b == if Probes(b, now) then RollBack(b') else b'
  {
  }

  /**
   An entry ends; the next one passes and is given its context; the first is ended again, with an
   error. The second ends well, and every breaker counts it as failed.
   */
  method LateExitFailsAnother(first: SentinelEntry, breakers: seq<CircuitBreaker>, checks: seq<RuleCheck>,
                              times: seq<int>, now: int, rt: nat, slides: seq<Option<Slide>>)
                                  returns (second: SentinelEntry, blocked: bool)
    requires first.exited && Distinct(first.breakers) && Distinct(first.exitHandlers)
    requires forall h :: h in first.exitHandlers ==> h in first.breakers
    requires first.sc.ctxPool != [] && first.ctx == first.sc.ctxPool[0]
    requires |slides| == |times| == |breakers| && Distinct(breakers) && AtMostOneBreakerCheck(checks) &&
             BreakerCheck in checks
    modifies breakers, first`exited, first.ctx, first.sc, first.sc.ctxPool, first.breakers
    ensures !blocked ==>
              forall i :: 0 <= i < |breakers| ==>
                breakers[i].Now() == Complete(CircuitBreaking.TryPass(old(breakers[i].Now()), times[i]).1, now, rt,
                                              true, slides[i])
  {
    second, blocked := Enter(first.sc, 0, breakers, checks, times);
    if !blocked {
      first.Exit(true, 0, 0, seq(|first.breakers|, _ => None));
      second.Exit(false, now, rt, slides);
    }
  }
}
