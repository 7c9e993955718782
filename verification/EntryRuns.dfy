/**
 Runs of entries that share a pool of contexts, ended more than once if their callers like: when is a
 completion judged by its own error?
 */
module EntryRuns {
  import opened Wrappers
  import opened CircuitBreaking
  import opened BreakerSlots

  /**
   An entry: its context, whether it passed, and whether it has yet to end. A blocked one ends at once, and no
   caller gets it.
   */
  datatype Ticket = Ticket(ctx: nat, passed: bool, live: bool)

  /** For each context whether it holds an error; the pooled ones; the entries so far. */
  datatype System = System(marked: seq<bool>, pool: seq<nat>, tickets: seq<Ticket>)

  datatype Event = Enter(pick: nat, blocked: bool) | Exit(ticket: nat, failed: bool)

  /** The context an entry gets: the pooled one it picks, or a new one. */
  function ContextFor(s: System, pick: nat): nat {
    if pick < |s.pool| then s.pool[pick] else |s.marked|
  }

  function After(s: System, e: Event): System {
    match e
    case Enter(pick, blocked) =>
      var c := ContextFor(s, pick);
      var others := Others(s, pick);
      var marked := if c < |s.marked| then s.marked else s.marked + [false];
      System(if blocked && c < |marked| then marked[c := false] else marked,
             if blocked then others + [c] else others, s.tickets + [Ticket(c, !blocked, !blocked)])
    case Exit(i, failed) =>
      if i >= |s.tickets| || !s.tickets[i].passed || s.tickets[i].ctx >= |s.marked| then s
      else
        var c := s.tickets[i].ctx;
        if s.tickets[i].live then
          System(s.marked[c := false], s.pool + [c], s.tickets[i := s.tickets[i].(live := false)])
        else s.(marked := s.marked[c := failed || s.marked[c]])
  }

  function Run(events: seq<Event>): System
    decreases events
  {
    if events == [] then System([], [], []) else After(Run(events[..|events| - 1]), events[|events| - 1])
  }

  lemma RunSnoc(events: seq<Event>, e: Event)
    ensures Run(events + [e]) == After(Run(events), e)
  {
    assert (events + [e])[..|events|] == events;
  }

  /** How the completion of an entry that ends now is recorded. */
  predicate Verdict(s: System, i: nat, failed: bool)
    requires i < |s.tickets| && s.tickets[i].ctx < |s.marked|
  {
    failed || s.marked[s.tickets[i].ctx]
  }

  // ---------- who has a context ----------

  /** A context is pooled at most once, or held by one live entry, and not both. */
  predicate HeldOnce(s: System) {
    (forall k :: 0 <= k < |s.pool| ==> s.pool[k] < |s.marked|) &&
    (forall i :: 0 <= i < |s.tickets| ==>
       s.tickets[i].ctx < |s.marked| && (s.tickets[i].live ==> s.tickets[i].passed)) &&
    (forall j, k :: 0 <= j < k < |s.pool| ==> s.pool[j] != s.pool[k]) &&
    (forall i, j :: 0 <= i < j < |s.tickets| && s.tickets[i].live && s.tickets[j].live ==>
       s.tickets[i].ctx != s.tickets[j].ctx) &&
    forall i, k :: 0 <= i < |s.tickets| && s.tickets[i].live && 0 <= k < |s.pool| ==> s.tickets[i].ctx != s.pool[k]
  }

  /** The pool without the context an entry gets. */
  function Others(s: System, pick: nat): seq<nat> {
    if pick < |s.pool| then Without(s.pool, pick) else s.pool
  }

  lemma ContextIsFree(s: System, pick: nat)
    requires HeldOnce(s)
    ensures var c, others := ContextFor(s, pick), Others(s, pick);
            c <= |s.marked| &&
            (forall k :: 0 <= k < |others| ==> others[k] < |s.marked| && others[k] != c && others[k] in s.pool) &&
            (forall j, k :: 0 <= j < k < |others| ==> others[j] != others[k]) &&
            forall i :: 0 <= i < |s.tickets| && s.tickets[i].live ==> s.tickets[i].ctx != c
  {
  }

  lemma EnterHeldOnce(s: System, pick: nat, blocked: bool)
    requires HeldOnce(s)
    ensures HeldOnce(After(s, Enter(pick, blocked)))
  {
    var s' := After(s, Enter(pick, blocked));
    var c, others := ContextFor(s, pick), Others(s, pick);
    ContextIsFree(s, pick);
    assert |s'.marked| == if c < |s.marked| then |s.marked| else |s.marked| + 1;
    assert s'.pool == (if blocked then others + [c] else others) &&
        s'.tickets == s.tickets + [Ticket(c, !blocked, !blocked)];
    LiveApart(s, others, c, blocked);
  }

  /** The new entry and the new pool get nothing that another live entry has. */
  lemma LiveApart(s: System, others: seq<nat>, c: nat, blocked: bool)
    requires HeldOnce(s) && forall k :: 0 <= k < |others| ==> others[k] != c && others[k] in s.pool
    requires forall i :: 0 <= i < |s.tickets| && s.tickets[i].live ==> s.tickets[i].ctx != c
    ensures var tickets, pool := s.tickets + [Ticket(c, !blocked, !blocked)], if blocked then others + [c] else others;
            (forall i, j :: 0 <= i < j < |tickets| && tickets[i].live && tickets[j].live ==>
               tickets[i].ctx != tickets[j].ctx) &&
            forall i, k :: 0 <= i < |tickets| && tickets[i].live && 0 <= k < |pool| ==> tickets[i].ctx != pool[k]
  {
    var tickets, pool := s.tickets + [Ticket(c, !blocked, !blocked)], if blocked then others + [c] else others;
    forall i, k | 0 <= i < |tickets| && tickets[i].live && 0 <= k < |pool|
      ensures tickets[i].ctx != pool[k]
    {
      if i < |s.tickets| && k < |others| {
        assert others[k] in s.pool;
      }
    }
  }

  lemma ExitHeldOnce(s: System, i: nat, failed: bool)
    requires HeldOnce(s)
    ensures HeldOnce(After(s, Exit(i, failed)))
  {
  }

  lemma {:induction false} RunHeldOnce(events: seq<Event>)
    ensures HeldOnce(Run(events))
    decreases events
  {
    if events != [] {
      var init := events[..|events| - 1];
      RunHeldOnce(init);
      match events[|events| - 1] {
        case Enter(pick, blocked) => EnterHeldOnce(Run(init), pick, blocked);
        case Exit(i, failed) => ExitHeldOnce(Run(init), i, failed);
      }
    }
  }

  // ---------- when a context holds an error ----------

  /** Event `e` resets context `c` and pools it: an entry with it ends for the first time, or is blocked. */
  predicate Resets(s: System, e: Event, c: nat) {
    match e
    case Enter(pick, blocked) => blocked && ContextFor(s, pick) == c
    case Exit(i, _) => i < |s.tickets| && s.tickets[i].live && s.tickets[i].ctx == c
  }

  /** It ends an entry that had context `c`, and has ended before, again and with an error. */
  predicate LateError(s: System, e: Event, c: nat) {
    e.Exit? && e.failed && e.ticket < |s.tickets| &&
    s.tickets[e.ticket].passed && !s.tickets[e.ticket].live && s.tickets[e.ticket].ctx == c
  }

  /** At event `k` there was a late error in context `c`, and the context has not been reset since. */
  predicate LastMarked(events: seq<Event>, c: nat, k: nat) {
    k < |events| && LateError(Run(events[..k]), events[k], c) &&
    forall m :: k < m < |events| ==> !Resets(Run(events[..m]), events[m], c)
  }

  predicate MarkedSinceReset(events: seq<Event>, c: nat) {
    exists k :: 0 <= k < |events| && LastMarked(events, c, k)
  }

  /** One event more. */
  lemma LastMarkedSnoc(init: seq<Event>, e: Event, c: nat, k: nat)
    ensures LastMarked(init + [e], c, k)
            <==> if k < |init| then LastMarked(init, c, k) && !Resets(Run(init), e, c)
                 else k == |init| && LateError(Run(init), e, c)
  {
    var events, n := init + [e], |init|;
    assert events[..n] == init;
    assert forall m :: 0 <= m < n ==> init[..m] == events[..m] && init[m] == events[m];
    if k < n && LastMarked(init, c, k) && !Resets(Run(init), e, c) {
      forall m | k < m < |events|
        ensures !Resets(Run(events[..m]), events[m], c)
      {
        assert m < n ==> !Resets(Run(init[..m]), init[m], c);
      }
    }
  }

  /** A late error now, or one before and no reset now. */
  lemma MarkedSnoc(init: seq<Event>, e: Event, c: nat)
    ensures MarkedSinceReset(init + [e], c)
            <==> LateError(Run(init), e, c) || (MarkedSinceReset(init, c) && !Resets(Run(init), e, c))
  {
    var events := init + [e];
    LastMarkedSnoc(init, e, c, |init|);
    if MarkedSinceReset(init, c) {
      var k :| 0 <= k < |init| && LastMarked(init, c, k);
      LastMarkedSnoc(init, e, c, k);
    }
    if MarkedSinceReset(events, c) {
      var k :| 0 <= k < |events| && LastMarked(events, c, k);
      LastMarkedSnoc(init, e, c, k);
    }
  }

  /** In every run a context holds an error exactly when there was a late one since it was last reset. */
  lemma {:induction false} MarkedExactlyWhen(events: seq<Event>, c: nat)
    ensures c < |Run(events).marked| && Run(events).marked[c] <==> MarkedSinceReset(events, c)
    decreases events
  {
    if events != [] {
      var init := events[..|events| - 1];
      MarkedExactlyWhen(init, c);
      assert init + [events[|events| - 1]] == events;
      MarkedSnoc(init, events[|events| - 1], c);
      RunHeldOnce(init);
      AfterMarks(Run(init), events[|events| - 1], c);
    }
  }

  lemma AfterMarks(s: System, e: Event, c: nat)
    requires HeldOnce(s)
    ensures var s' := After(s, e);
            (c < |s'.marked| && s'.marked[c])
            <==> LateError(s, e, c) || (c < |s.marked| && s.marked[c] && !Resets(s, e, c))
  {
  }

  /**
   In every run, repeated exits allowed: the completion of an entry that ends now is recorded as failed
   exactly when its own exit failed, or an entry that had its context before was ended again with an
   error after the context was last reset.
   */
  lemma JudgedExactlyWhen(events: seq<Event>, i: nat, failed: bool)
    requires i < |Run(events).tickets| && Run(events).tickets[i].live
    ensures var s := Run(events);
            s.tickets[i].ctx < |s.marked| &&
            (Verdict(s, i, failed) <==> failed || MarkedSinceReset(events, s.tickets[i].ctx))
  {
    RunHeldOnce(events);
    MarkedExactlyWhen(events, Run(events).tickets[i].ctx);
  }

  /** If no repeated exit carries an error, every completion is judged by its own error. */
  lemma JudgedByOwnError(events: seq<Event>, i: nat, failed: bool)
    requires i < |Run(events).tickets| && Run(events).tickets[i].live
    requires forall k, c :: 0 <= k < |events| ==> !LateError(Run(events[..k]), events[k], c)
    ensures var s := Run(events); s.tickets[i].ctx < |s.marked| && (Verdict(s, i, failed) <==> failed)
  {
    JudgedExactlyWhen(events, i, failed);
  }

  /**
   While an entry is live nobody else resets its context; so the error it may find is from after its context
   was last pooled.
   */
  lemma NotResetWhileHeld(events: seq<Event>, i: nat, e: Event)
    requires i < |Run(events).tickets| && Run(events).tickets[i].live
    ensures Resets(Run(events), e, Run(events).tickets[i].ctx) <==> e.Exit? && e.ticket == i
  {
    RunHeldOnce(events);
  }

  // ---------- two ways to be misjudged ----------

  /** The first entry is ended again while the second has its context. */
  lemma MarkedInUse()
    ensures var events := [Enter(0, false), Exit(0, false), Enter(0, false), Exit(0, true)];
            var s := Run(events);
            s == System([true], [], [Ticket(0, true, false), Ticket(0, true, true)]) && Verdict(s, 1, false)
  {
    var events := [Enter(0, false), Exit(0, false), Enter(0, false), Exit(0, true)];
    UsedTwice();
    assert events[..3] == [Enter(0, false), Exit(0, false), Enter(0, false)];
  }

  lemma UsedTwice()
    ensures Run([Enter(0, false), Exit(0, false), Enter(0, false)])
         == System([false], [], [Ticket(0, true, false), Ticket(0, true, true)])
  {
    var events := [Enter(0, false), Exit(0, false), Enter(0, false)];
    UsedOnce();
    assert events[..2] == [Enter(0, false), Exit(0, false)];
    assert Without([0 as nat], 0) == [];
  }

  lemma UsedOnce()
    ensures Run([Enter(0, false), Exit(0, false)]) == System([false], [0], [Ticket(0, true, false)])
  {
    var events := [Enter(0, false), Exit(0, false)];
    assert events[..1] == [Enter(0, false)] && events[..1][..0] == [];
    assert Run([Enter(0, false)]) == System([false], [], [Ticket(0, true, true)]);
  }

  /** It is ended again while nobody has the context, and the next entry to get it finds the error. */
  lemma MarkedInPool()
    ensures var events := [Enter(0, false), Exit(0, false), Exit(0, true), Enter(0, false)];
            var s := Run(events);
            s == System([true], [], [Ticket(0, true, false), Ticket(0, true, true)]) && Verdict(s, 1, false)
  {
    var events := [Enter(0, false), Exit(0, false), Exit(0, true), Enter(0, false)];
    UsedOnce();
    assert events[..3][..2] == [Enter(0, false), Exit(0, false)];
    assert Run(events[..3]) == System([true], [0], [Ticket(0, true, false)]);
    assert Without([0 as nat], 0) == [];
  }

  // ---------- the objects ----------

  /** What an entry object shows. */
  datatype View = View(ctx: EntryContext, sc: SlotChain, exited: bool, handlers: seq<CircuitBreaker>,
                       breakers: seq<CircuitBreaker>)

  ghost predicate Usable(v: View) {
    Distinct(v.breakers) && Distinct(v.handlers) && forall h :: h in v.handlers ==> h in v.breakers
  }

  ghost function ViewOf(e: SentinelEntry): View
    reads e
  {
    View(e.ctx, e.sc, e.exited, e.exitHandlers, e.breakers)
  }

  /** For each context object whether it holds an error. */
  ghost function Failed(ctxs: seq<EntryContext>): (marks: seq<bool>)
    reads ctxs
    ensures |marks| == |ctxs| && forall c :: 0 <= c < |marks| ==> marks[c] == ctxs[c].failed
  {
    seq(|ctxs|, c requires 0 <= c < |ctxs| reads ctxs => ctxs[c].failed)
  }

  ghost predicate ShowsPool(pooled: seq<EntryContext>, ctxs: seq<EntryContext>, pool: seq<nat>) {
    |pooled| == |pool| && forall k :: 0 <= k < |pool| ==> pool[k] < |ctxs| && pooled[k] == ctxs[pool[k]]
  }

  ghost predicate ShowsView(v: View, sc: SlotChain, ctxs: seq<EntryContext>, t: Ticket) {
    t.ctx < |ctxs| && v.ctx == ctxs[t.ctx] && v.sc == sc && v.exited == !t.live && (t.passed ==> Usable(v))
  }

  ghost predicate ShowsEntries(entries: seq<SentinelEntry>, sc: SlotChain, ctxs: seq<EntryContext>,
                               tickets: seq<Ticket>)
    reads entries
  {
    |entries| == |tickets| &&
    forall i :: 0 <= i < |entries| ==> ShowsView(ViewOf(entries[i]), sc, ctxs, tickets[i])
  }

  /** A live entry has passed, and its context says so. */
  ghost predicate Unblocked(ctxs: seq<EntryContext>, tickets: seq<Ticket>)
    reads ctxs
  {
    forall i :: 0 <= i < |tickets| && tickets[i].live ==> tickets[i].ctx < |ctxs| && !ctxs[tickets[i].ctx].blocked
  }

  /** The objects are in the state the run has led to; `ctxs` are the contexts in the order they were made. */
  ghost predicate Shows(sc: SlotChain, ctxs: seq<EntryContext>, entries: seq<SentinelEntry>, s: System)
    reads sc, ctxs, entries
  {
    Distinct(ctxs) && Distinct(entries) && Failed(ctxs) == s.marked && ShowsPool(sc.ctxPool, ctxs, s.pool) &&
    ShowsEntries(entries, sc, ctxs, s.tickets) && Unblocked(ctxs, s.tickets)
  }

  /** What remains pooled, and the entry's own context behind it if it was blocked. */
  lemma PoolShown(pooled: seq<EntryContext>, ctxs: seq<EntryContext>, s: System, pick: nat, ctx: EntryContext,
                  ctxs': seq<EntryContext>,
                  blocked: bool)
    requires ShowsPool(pooled, ctxs, s.pool) && |ctxs| == |s.marked| && HeldOnce(s)
    requires if pick < |pooled| then ctx == pooled[pick] && ctxs' == ctxs else ctxs' == ctxs + [ctx]
    ensures var others := if pick < |pooled| then Without(pooled, pick) else pooled;
            ShowsPool(if blocked then others + [ctx] else others, ctxs', After(s, Enter(pick, blocked)).pool)
    ensures ContextFor(s, pick) < |ctxs'| && ctxs'[ContextFor(s, pick)] == ctx
  {
  }

  lemma EntryShown(entries: seq<SentinelEntry>, sc: SlotChain, ctxs: seq<EntryContext>, ctxs': seq<EntryContext>,
                   tickets: seq<Ticket>,
                   entry: SentinelEntry, t: Ticket)
    requires ShowsEntries(entries, sc, ctxs, tickets) && ctxs <= ctxs' && ShowsView(ViewOf(entry), sc, ctxs', t)
    ensures ShowsEntries(entries + [entry], sc, ctxs', tickets + [t])
  {
    forall i | 0 <= i < |entries|
      ensures ShowsView(ViewOf(entries[i]), sc, ctxs', tickets[i])
    {
    }
  }

  /** Only context `c` may have changed, or it has been added. */
  lemma ContextsShown(ctxs: seq<EntryContext>, marked: seq<bool>, c: nat, ctx: EntryContext)
    requires Distinct(ctxs) && |ctxs| == |marked| && c <= |ctxs| &&
             (if c < |ctxs| then ctx == ctxs[c] else ctx !in ctxs)
    requires forall d :: 0 <= d < |ctxs| && d != c ==> ctxs[d].failed == marked[d]
    ensures if c < |ctxs| then Failed(ctxs) == marked[c := ctx.failed]
            else Distinct(ctxs + [ctx]) && Failed(ctxs + [ctx]) == marked + [ctx.failed]
  {
  }

  /** What the run makes of the contexts, by the error the entry's own is left with. */
  lemma EnterShows(s: System, pick: nat, blocked: bool, failed: bool)
    requires HeldOnce(s)
    requires failed == (!blocked && pick < |s.pool| && s.marked[s.pool[pick]])
    ensures var c, s' := ContextFor(s, pick), After(s, Enter(pick, blocked));
            s'.tickets == s.tickets + [Ticket(c, !blocked, !blocked)] &&
            s'.marked == if c < |s.marked| then s.marked[c := failed] else s.marked + [failed]
  {
  }

  /** What an entry leaves when it has come in, given that it left everything else alone. */
  lemma EnterShown(s: System, sc: SlotChain, ctxs: seq<EntryContext>, ctxs': seq<EntryContext>,
                   entries: seq<SentinelEntry>,
                   pooled: seq<EntryContext>, pick: nat, entry: SentinelEntry, blocked: bool)
    requires HeldOnce(s) && Distinct(ctxs) && |ctxs| == |s.marked| && Distinct(entries) && entry !in entries
    requires ShowsPool(pooled, ctxs, s.pool) && ShowsEntries(entries, sc, ctxs, s.tickets)
    requires if pick < |pooled| then entry.ctx == pooled[pick] && ctxs' == ctxs
             else entry.ctx !in ctxs && ctxs' == ctxs + [entry.ctx]
    requires forall d :: 0 <= d < |ctxs| && ctxs[d] != entry.ctx ==> ctxs[d].failed == s.marked[d]
    requires forall i :: 0 <= i < |s.tickets| && s.tickets[i].live && ctxs[s.tickets[i].ctx] != entry.ctx ==>
               !ctxs[s.tickets[i].ctx].blocked
    requires entry.ctx.failed == (!blocked && pick < |s.pool| && s.marked[s.pool[pick]]) && !entry.ctx.blocked
    requires entry.sc == sc && entry.exited == blocked && (!blocked ==> Usable(ViewOf(entry)))
    requires sc.ctxPool == var others := if pick < |pooled| then Without(pooled, pick) else pooled;
                           if blocked then others + [entry.ctx] else others
    ensures Shows(sc, ctxs', entries + [entry], After(s, Enter(pick, blocked)))
  {
    var c := ContextFor(s, pick);
    ContextIsFree(s, pick);
    PoolShown(pooled, ctxs, s, pick, entry.ctx, ctxs', blocked);
    EnterShows(s, pick, blocked, entry.ctx.failed);
    EntryShown(entries, sc, ctxs, ctxs', s.tickets, entry, Ticket(c, !blocked, !blocked));
    ContextsShown(ctxs, s.marked, c, entry.ctx);
    StillUnblocked(s, ctxs, ctxs', c, entry.ctx, blocked);
  }

  lemma StillUnblocked(s: System, ctxs: seq<EntryContext>, ctxs': seq<EntryContext>, c: nat, ctx: EntryContext,
                       blocked: bool)
    requires HeldOnce(s) && Distinct(ctxs) && |ctxs| == |s.marked| && ctxs <= ctxs' && c < |ctxs'| && ctxs'[c] == ctx
    requires if c < |ctxs| then ctx == ctxs[c] else ctx !in ctxs
    requires forall i :: 0 <= i < |s.tickets| && s.tickets[i].live ==> s.tickets[i].ctx != c
    requires forall i :: 0 <= i < |s.tickets| && s.tickets[i].live && ctxs[s.tickets[i].ctx] != ctx ==>
               !ctxs[s.tickets[i].ctx].blocked
    requires !ctx.blocked
    ensures Unblocked(ctxs', s.tickets + [Ticket(c, !blocked, !blocked)])
  {
    forall i | 0 <= i < |s.tickets| && s.tickets[i].live
      ensures !ctxs'[s.tickets[i].ctx].blocked
    {
      assert ctxs[s.tickets[i].ctx] != ctx;
    }
  }

  /** An entry comes in, and the objects show the run with that event more. */
  method EnterOne(sc: SlotChain, ghost ctxs: seq<EntryContext>, entries: seq<SentinelEntry>, ghost events: seq<Event>,
                  pick: nat,
                  breakers: seq<CircuitBreaker>, checks: seq<RuleCheck>, times: seq<int>)
      returns (entry: SentinelEntry, blocked: bool, ghost ctxs': seq<EntryContext>)
    requires Shows(sc, ctxs, entries, Run(events))
    requires |times| == |breakers| && Distinct(breakers) && AtMostOneBreakerCheck(checks)
    modifies breakers, sc, sc.ctxPool
    ensures Shows(sc, ctxs', entries + [entry], Run(events + [Enter(pick, blocked)]))
    ensures blocked <==> exists c :: c in checks && Blocks(c, old(Snapshot(breakers)), times)
    ensures entry.breakers == breakers
  {
    ghost var s, pooled := Run(events), sc.ctxPool;
    RunHeldOnce(events);
    entry, blocked := BreakerSlots.Enter(sc, pick, breakers, checks, times);
    ctxs' := if pick < |s.pool| then ctxs else ctxs + [entry.ctx];
    forall i | 0 <= i < |entries|
      ensures ViewOf(entries[i]) == old(ViewOf(entries[i]))
    {
      assert entries[i].exited == old(entries[i].exited) && entries[i].exitHandlers == old(entries[i].exitHandlers);
    }
    forall d | 0 <= d < |ctxs| && ctxs[d] != entry.ctx
      ensures ctxs[d].failed == old(ctxs[d].failed) && ctxs[d].blocked == old(ctxs[d].blocked)
    {
    }
    EnterShown(s, sc, ctxs, ctxs', entries, pooled, pick, entry, blocked);
    RunSnoc(events, Enter(pick, blocked));
  }

  /**
   An entry is ended, perhaps not for the first time. If it is, every breaker records the completion with
   the verdict of the run; if not, no breaker is touched.
   */
  method ExitOne(sc: SlotChain, ghost ctxs: seq<EntryContext>, entries: seq<SentinelEntry>, ghost events: seq<Event>,
                 i: nat,
                 entry: SentinelEntry, failed: bool, now: int, rt: nat, slides: seq<Option<Slide>>)
    requires Shows(sc, ctxs, entries, Run(events)) && i < |entries| && entry == entries[i] &&
             Run(events).tickets[i].passed
    requires |slides| == |entry.breakers|
    modifies entry`exited, entry.ctx, sc, entry.breakers
    ensures Shows(sc, ctxs, entries, Run(events + [Exit(i, failed)]))
    ensures forall k :: 0 <= k < |slides| ==>
              var b := old(entry.breakers[k].Now());
              entry.breakers[k].Now() ==
              if Run(events).tickets[i].live then Complete(b, now, rt, Verdict(Run(events), i, failed), slides[k])
              else b
  {
    ghost var s, pooled := Run(events), sc.ctxPool;
    RunHeldOnce(events);
    entry.Exit(failed, now, rt, slides);
    forall j | 0 <= j < |entries| && j != i
      ensures ViewOf(entries[j]) == old(ViewOf(entries[j]))
    {
      assert entries[j] != entry;
    }
    forall d | 0 <= d < |ctxs| && ctxs[d] != entry.ctx
      ensures ctxs[d].failed == old(ctxs[d].failed) && ctxs[d].blocked == old(ctxs[d].blocked)
    {
    }
    ExitShown(s, sc, ctxs, entries, pooled, i, failed);
    RunSnoc(events, Exit(i, failed));
  }

  /** What an entry leaves when it is ended, given that it left everything else alone. */
  lemma ExitShown(s: System, sc: SlotChain, ctxs: seq<EntryContext>, entries: seq<SentinelEntry>,
                  pooled: seq<EntryContext>, i: nat, failed: bool)
    requires HeldOnce(s) && Distinct(ctxs) && |ctxs| == |s.marked| && Distinct(entries) && |entries| == |s.tickets|
    requires i < |entries| && s.tickets[i].passed && ShowsPool(pooled, ctxs, s.pool)
    requires forall j :: 0 <= j < |entries| && j != i ==> ShowsView(ViewOf(entries[j]), sc, ctxs, s.tickets[j])
    requires ShowsView(ViewOf(entries[i]), sc, ctxs, s.tickets[i].(live := false))
    requires forall d :: 0 <= d < |ctxs| && d != s.tickets[i].ctx ==> ctxs[d].failed == s.marked[d]
    requires forall j :: 0 <= j < |entries| && s.tickets[j].live && s.tickets[j].ctx != s.tickets[i].ctx ==>
               !ctxs[s.tickets[j].ctx].blocked
    requires var t := s.tickets[i];
             if t.live then sc.ctxPool == pooled + [ctxs[t.ctx]] && !ctxs[t.ctx].failed
             else sc.ctxPool == pooled && ctxs[t.ctx].failed == (failed || s.marked[t.ctx]) &&
                  forall j :: 0 <= j < |entries| && s.tickets[j].live && s.tickets[j].ctx == t.ctx ==>
                    !ctxs[t.ctx].blocked
    ensures Shows(sc, ctxs, entries, After(s, Exit(i, failed)))
  {
    var c := s.tickets[i].ctx;
    ContextsShown(ctxs, s.marked, c, ctxs[c]);
  }
}
