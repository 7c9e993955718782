/**
 Pass and complete accounting of entries, for a resource's node and the node of all inbound
 traffic, and the isolation rule that limits the entries in flight.
 */
module Statistics {
  import opened Wrappers

  const TWO32 := 0x1_0000_0000

  type uint32 = x: int | 0 <= x < TWO32
  type int32 = x: int | -0x8000_0000 <= x < 0x8000_0000

  /** `atomic.AddInt32` wraps around. */
  function Wrap(x: int): int32 {
    var u := x % TWO32;
    if u < 0x8000_0000 then u else u - TWO32
  }

  // ---------- a node ----------

  /** The concurrency counter and the totals of each metric event. */
  datatype Node = Node(concurrency: int32, pass: int, block: int, complete: int, error: int, rt: int)

  const EmptyNode := Node(0, 0, 0, 0, 0, 0)

  function Passed(n: Node, batch: uint32): Node {
    n.(concurrency := Wrap(n.concurrency + 1), pass := n.pass + batch)
  }

  function Blocked(n: Node, batch: uint32): Node {
    n.(block := n.block + batch)
  }

  function Completed(n: Node, batch: uint32, rt: nat, failed: bool): Node {
    n.(concurrency := Wrap(n.concurrency - 1), complete := n.complete + batch, rt := n.rt + rt,
       error := if failed then n.error + batch else n.error)
  }

  datatype MetricEvent = Pass | Block | Complete | Error | Rt

  class BaseStatNode {
    var concurrency: int32
    var counts: map<MetricEvent, int>

    constructor ()
      ensures Valid() && Now() == EmptyNode
    {
      concurrency := 0;
      counts := map[MetricEvent.Pass := 0, Block := 0, Complete := 0, Error := 0, Rt := 0];
    }

    ghost predicate Valid()
      reads this
    {
      MetricEvent.Pass in counts && Block in counts && Complete in counts && Error in counts && Rt in counts
    }

    ghost function Now(): Node
      requires Valid()
      reads this
    {
      Node(concurrency, counts[MetricEvent.Pass], counts[Block], counts[Complete], counts[Error], counts[Rt])
    }

    method AddCount(event: MetricEvent, count: int)
      requires Valid()
      modifies this`counts
      ensures Valid() && event in old(counts) && counts == old(counts)[event := old(counts)[event] + count]
    {
      assert event in counts by {
        match event {
          case Pass =>
          case Block =>
          case Complete =>
          case Error =>
          case Rt =>
        }
      }
      counts := counts[event := counts[event] + count];
    }

    method RecordPass(batch: uint32)
      requires Valid()
      modifies this
      ensures Valid() && Now() == Passed(old(Now()), batch)
    {
      concurrency := Wrap(concurrency + 1);
      AddCount(MetricEvent.Pass, batch);
    }

    method RecordBlock(batch: uint32)
      requires Valid()
      modifies this
      ensures Valid() && Now() == Blocked(old(Now()), batch)
    {
      AddCount(Block, batch);
    }

    method RecordComplete(batch: uint32, rt: nat, failed: bool)
      requires Valid()
      modifies this
      ensures Valid() && Now() == Completed(old(Now()), batch, rt, failed)
    {
      if failed {
        AddCount(Error, batch);
      }
      AddCount(Rt, rt);
      AddCount(Complete, batch);
      concurrency := Wrap(concurrency - 1);
    }
  }

  // ---------- isolation ----------

  /** Passes when every threshold admits the sum, which wraps around at 32 bits. */
  predicate Admits(thresholds: seq<uint32>, concurrency: int32, batch: uint32) {
    forall i :: 0 <= i < |thresholds| ==> WrappedSum(concurrency, batch) <= thresholds[i]
  }

  function WrappedSum(concurrency: int32, batch: uint32): uint32 {
    ((if concurrency >= 0 then concurrency else 0) + batch) % TWO32
  }

  method CheckPass(thresholds: seq<uint32>, node: BaseStatNode, batch: uint32) returns (passed: bool)
    ensures passed <==> Admits(thresholds, node.concurrency, batch)
  {
    for i := 0 to |thresholds|
      invariant forall j :: 0 <= j < i ==> WrappedSum(node.concurrency, batch) <= thresholds[j]
    {
      var curCount := if node.concurrency >= 0 then node.concurrency else 0;
      if (curCount + batch) % TWO32 > thresholds[i] {
        return false;
      }
    }
    return true;
  }

  // ---------- entries of one chain ----------

  class Entry {
    const node: BaseStatNode
    const inboundNode: BaseStatNode
    const inbound: bool
    const batch: uint32
    var passed: bool
    var exited: bool

    ghost predicate Valid()
      reads this, node, inboundNode
    {
      node != inboundNode && node.Valid() && inboundNode.Valid()
    }

    constructor (node: BaseStatNode, inboundNode: BaseStatNode, inbound: bool, batch: uint32)
      requires node != inboundNode && node.Valid() && inboundNode.Valid()
      ensures Valid() && this.node == node && this.inboundNode == inboundNode && this.inbound == inbound &&
              this.batch == batch
      ensures !passed && !exited
    {
      this.node, this.inboundNode, this.inbound, this.batch := node, inboundNode, inbound, batch;
      passed, exited := false, false;
    }

    /** Goes through the checks and the statistics; a blocked entry is over at once. */
    method Enter(thresholds: seq<uint32>, otherBlocks: bool)
      requires Valid() && !passed && !exited
      modifies this, node, inboundNode
      ensures Valid() && passed == (!otherBlocks && Admits(thresholds, old(node.concurrency), batch)) &&
              exited == !passed
      ensures node.Now() == if passed then Passed(old(node.Now()), batch) else Blocked(old(node.Now()), batch)
      ensures inboundNode.Now() ==
              if !inbound then old(inboundNode.Now())
              else if passed then Passed(old(inboundNode.Now()), batch)
              else Blocked(old(inboundNode.Now()), batch)
    {
      if otherBlocks {
        passed := false;
      } else {
        passed := CheckPass(thresholds, node, batch);
      }
      if passed {
        node.RecordPass(batch);
        if inbound {
          inboundNode.RecordPass(batch);
        }
      } else {
        node.RecordBlock(batch);
        if inbound {
          inboundNode.RecordBlock(batch);
        }
        exited := true;
      }
    }

    /** Completes a passed entry, once however often it is called. */
    method Exit(rt: nat, failed: bool)
      requires Valid()
      modifies this`exited, node, inboundNode
      ensures Valid() && exited
      ensures node.Now() ==
              if old(exited) || !passed then old(node.Now()) else Completed(old(node.Now()), batch, rt, failed)
      ensures inboundNode.Now() ==
              if old(exited) || !passed || !inbound then old(inboundNode.Now())
              else Completed(old(inboundNode.Now()), batch, rt, failed)
    {
      if exited {
        return;
      }
      exited := true;
      if !passed {
        return;
      }
      node.RecordComplete(batch, rt, failed);
      if inbound {
        inboundNode.RecordComplete(batch, rt, failed);
      }
    }
  }

  // ---------- whole runs ----------

  /** An entry as the system sees it. */
  datatype Ticket = Ticket(resource: string, inbound: bool, batch: uint32, live: bool)

  datatype System = System(nodes: map<string, Node>, inbound: Node, tickets: seq<Ticket>)

  datatype Event =
    | Enter(resource: string, inbound: bool, batch: uint32, otherBlocks: bool)
    | Exit(ticket: nat, rt: nat, failed: bool)

  type Rules = string -> seq<uint32>

  /** A resource's node, or with `None` the node of all inbound traffic. */
  function NodeOf(s: System, which: Option<string>): Node {
    match which
    case None => s.inbound
    case Some(resource) => if resource in s.nodes then s.nodes[resource] else EmptyNode
  }

  function After(rules: Rules, s: System, e: Event): System {
    match e
    case Enter(resource, inbound, batch, otherBlocks) =>
      var node := NodeOf(s, Some(resource));
      var passed := !otherBlocks && Admits(rules(resource), node.concurrency, batch);
      var record := (n: Node) => if passed then Passed(n, batch) else Blocked(n, batch);
      System(s.nodes[resource := record(node)], if inbound then record(s.inbound) else s.inbound,
             s.tickets + [Ticket(resource, inbound, batch, passed)])
    case Exit(i, rt, failed) =>
      if i >= |s.tickets| || !s.tickets[i].live then s
      else
        var t := s.tickets[i];
        System(s.nodes[t.resource := Completed(NodeOf(s, Some(t.resource)), t.batch, rt, failed)],
               if t.inbound then Completed(s.inbound, t.batch, rt, failed) else s.inbound,
               s.tickets[i := t.(live := false)])
  }

  function Run(rules: Rules, events: seq<Event>): System
    decreases events
  {
    if events == [] then System(map[], EmptyNode, [])
    else After(rules, Run(rules, events[..|events| - 1]), events[|events| - 1])
  }

  predicate InFlightOn(t: Ticket, which: Option<string>) {
    t.live && (if which.None? then t.inbound else t.resource == which.value)
  }

  /** Entries passed and not yet exited, and their batches. */
  function InFlight(tickets: seq<Ticket>, which: Option<string>): nat {
    if tickets == [] then 0 else (if InFlightOn(tickets[0], which) then 1 else 0) + InFlight(tickets[1..], which)
  }

  function BatchesInFlight(tickets: seq<Ticket>, which: Option<string>): nat {
    if tickets == [] then 0
    else (if InFlightOn(tickets[0], which) then tickets[0].batch else 0) + BatchesInFlight(tickets[1..], which)
  }

  lemma {:induction false} TicketAdded(tickets: seq<Ticket>, t: Ticket, which: Option<string>)
    ensures InFlight(tickets + [t], which) == InFlight(tickets, which) + if InFlightOn(t, which) then 1 else 0
    ensures BatchesInFlight(tickets + [t], which)
            == BatchesInFlight(tickets, which) + if InFlightOn(t, which) then t.batch else 0
    decreases tickets
  {
    if tickets != [] {
      assert (tickets + [t])[1..] == tickets[1..] + [t];
      TicketAdded(tickets[1..], t, which);
    }
  }

  lemma {:induction false} TicketEnded(tickets: seq<Ticket>, i: nat, which: Option<string>)
    requires i < |tickets|
    ensures var after, was := tickets[i := tickets[i].(live := false)], InFlightOn(tickets[i], which);
            InFlight(after, which) == InFlight(tickets, which) - (if was then 1 else 0) &&
            BatchesInFlight(after, which) == BatchesInFlight(tickets, which) - (if was then tickets[i].batch else 0)
    decreases tickets
  {
    var after := tickets[i := tickets[i].(live := false)];
    if i == 0 {
      assert after[1..] == tickets[1..];
    } else {
      assert after[1..] == tickets[1..][i - 1 := tickets[i].(live := false)];
      TicketEnded(tickets[1..], i - 1, which);
    }
  }

  predicate Accounted(s: System, which: Option<string>) {
    NodeOf(s, which).concurrency == Wrap(InFlight(s.tickets, which)) &&
    NodeOf(s, which).pass - NodeOf(s, which).complete == BatchesInFlight(s.tickets, which)
  }

  /**
   In every run, repeated exits included: a node's concurrency is the number of its entries in
   flight, as far as 32 bits hold it, and passes minus completions are their batches. The same for the
   inbound node.
   */
  lemma {:induction false} AccountsBalance(rules: Rules, events: seq<Event>, which: Option<string>)
    ensures Accounted(Run(rules, events), which)
    decreases events
  {
    if events != [] {
      var init, e := events[..|events| - 1], events[|events| - 1];
      AccountsBalance(rules, init, which);
      StepAccounts(rules, Run(rules, init), e, which);
    }
  }

  lemma StepAccounts(rules: Rules, s: System, e: Event, which: Option<string>)
    requires Accounted(s, which)
    ensures Accounted(After(rules, s, e), which)
  {
    match e {
      case Enter(resource, inbound, batch, otherBlocks) =>
        EnterAccounts(rules, s, resource, inbound, batch, otherBlocks, which);
      case Exit(i, rt, failed) =>
        ExitAccounts(rules, s, i, rt, failed, which);
    }
  }

  lemma ExitAccounts(rules: Rules, s: System, i: nat, rt: nat, failed: bool, which: Option<string>)
    requires Accounted(s, which)
    ensures Accounted(After(rules, s, Exit(i, rt, failed)), which)
  {
    if i < |s.tickets| {
      TicketEnded(s.tickets, i, which);
      WrapCounts(InFlight(s.tickets, which));
    }
  }

  lemma EnterAccounts(rules: Rules, s: System, resource: string, inbound: bool, batch: uint32, otherBlocks: bool,
                      which: Option<string>)
    requires Accounted(s, which)
    ensures Accounted(After(rules, s, Enter(resource, inbound, batch, otherBlocks)), which)
  {
    var passed := !otherBlocks && Admits(rules(resource), NodeOf(s, Some(resource)).concurrency, batch);
    TicketAdded(s.tickets, Ticket(resource, inbound, batch, passed), which);
    WrapCounts(InFlight(s.tickets, which));
  }

  lemma WrapCounts(k: int)
    ensures Wrap(Wrap(k) + 1) == Wrap(k + 1) && Wrap(Wrap(k) - 1) == Wrap(k - 1)
  {
    WrapStep(k, 1);
    WrapStep(k, -1);
  }

  lemma WrapStep(k: int, d: int)
    requires -1 <= d <= 1
    ensures Wrap(Wrap(k) + d) == Wrap(k + d)
  {
    var turns := if k % TWO32 < 0x8000_0000 then k / TWO32 else k / TWO32 + 1;
    assert k == Wrap(k) + TWO32 * turns;
    SameRemainder(Wrap(k) + d, turns);
  }

  lemma SameRemainder(x: int, turns: int)
    ensures (x + TWO32 * turns) % TWO32 == x % TWO32
  {
  }

  // ---------- the totals ----------

  predicate Concerns(resource: string, inbound: bool, which: Option<string>) {
    if which.None? then inbound else resource == which.value
  }

  /** What is counted where, from the events: batches passed, blocked, completed and failed, and response times. */
  datatype Totals = Totals(pass: int, block: int, complete: int, error: int, rt: int)

  function Counted(rules: Rules, events: seq<Event>, which: Option<string>): Totals
    decreases events
  {
    if events == [] then Totals(0, 0, 0, 0, 0)
    else
      var init, e := events[..|events| - 1], events[|events| - 1];
      var t, tickets := Counted(rules, init, which), Run(rules, init).tickets;
      match e
      case Enter(resource, inbound, batch, otherBlocks) =>
        if !Concerns(resource, inbound, which) then t
        else if Passes(rules, init, e) then t.(pass := t.pass + batch) else t.(block := t.block + batch)
      case Exit(i, rt, failed) =>
        if i >= |tickets| || !tickets[i].live || !Concerns(tickets[i].resource, tickets[i].inbound, which) then t
        else t.(complete := t.complete + tickets[i].batch, rt := t.rt + rt,
                error := if failed then t.error + tickets[i].batch else t.error)
  }

  /** No other rule blocks it, and every threshold of its resource has room for it. */
  predicate Passes(rules: Rules, init: seq<Event>, e: Event)
    requires e.Enter?
  {
    !e.otherBlocks && Admits(rules(e.resource), NodeOf(Run(rules, init), Some(e.resource)).concurrency, e.batch)
  }

  predicate Shows(n: Node, t: Totals) {
    n.pass == t.pass && n.block == t.block && n.complete == t.complete && n.error == t.error && n.rt == t.rt
  }

  /**
   In every run a node's totals are what the events say: each entry counts as passed or blocked when it
   comes in, and a passed one once as completed, with its response time and its error, when it first ends.
   */
  lemma {:induction false} TotalsMean(rules: Rules, events: seq<Event>, which: Option<string>)
    ensures Shows(NodeOf(Run(rules, events), which), Counted(rules, events, which))
    decreases events
  {
    if events != [] {
      var init, e := events[..|events| - 1], events[|events| - 1];
      TotalsMean(rules, init, which);
      match e {
        case Enter(resource, inbound, batch, otherBlocks) =>
          EnterShows(rules, Run(rules, init), resource, inbound, batch, otherBlocks, which);
        case Exit(i, rt, failed) =>
          ExitShows(rules, Run(rules, init), i, rt, failed, which);
      }
    }
  }

  lemma EnterShows(rules: Rules, s: System, resource: string, inbound: bool, batch: uint32, otherBlocks: bool,
                   which: Option<string>)
    ensures var n, n' := NodeOf(s, which), NodeOf(After(rules, s, Enter(resource, inbound, batch, otherBlocks)), which);
            var passed := !otherBlocks && Admits(rules(resource), NodeOf(s, Some(resource)).concurrency, batch);
            if !Concerns(resource, inbound, which) then n' == n
            else n'.complete == n.complete && n'.error == n.error && n'.rt == n.rt &&
                 n'.pass == n.pass + (if passed then batch else 0) &&
                 n'.block == n.block + (if passed then 0 else batch)
  {
  }

  lemma ExitShows(rules: Rules, s: System, i: nat, rt: nat, failed: bool, which: Option<string>)
    ensures var n, n' := NodeOf(s, which), NodeOf(After(rules, s, Exit(i, rt, failed)), which);
            if i >= |s.tickets| || !s.tickets[i].live || !Concerns(s.tickets[i].resource, s.tickets[i].inbound, which)
            then n' == n
            else n'.pass == n.pass && n'.block == n.block && n'.complete == n.complete + s.tickets[i].batch &&
                 n'.rt == n.rt + rt && n'.error == n.error + (if failed then s.tickets[i].batch else 0)
  {
  }

  // ---------- what isolation guarantees ----------

  predicate BatchesWithin(events: seq<Event>, resource: string, min: uint32, max: uint32) {
    forall i :: 0 <= i < |events| && events[i].Enter? && events[i].resource == resource ==>
        min <= events[i].batch <= max
  }

  /** The fewest entries in flight with which a threshold of `n` refuses the smallest batch. */
  function Full(n: uint32, min: uint32): nat {
    if n >= min then n - min + 1 else 0
  }

  /**
   No batch is empty, the counter can hold `Full` as a positive number, and no batch added to it
   overflows 32 bits.
   */
  predicate Isolates(n: uint32, min: uint32, max: uint32) {
    min >= 1 && Full(n, min) < 0x8000_0000 && Full(n, min) + max < TWO32
  }

  lemma {:induction false} IsolationHolds(rules: Rules, resource: string, n: uint32, min: uint32, max: uint32,
                                          events: seq<Event>)
    requires n in rules(resource) && Isolates(n, min, max) && BatchesWithin(events, resource, min, max)
    ensures InFlight(Run(rules, events).tickets, Some(resource)) <= Full(n, min)
    decreases events
  {
    if events != [] {
      var init, e := events[..|events| - 1], events[|events| - 1];
      IsolationHolds(rules, resource, n, min, max, init);
      AccountsBalance(rules, init, Some(resource));
      var s := Run(rules, init);
      match e {
        case Enter(res, inbound, batch, otherBlocks) =>
          var passed := !otherBlocks && Admits(rules(res), NodeOf(s, Some(res)).concurrency, batch);
          TicketAdded(s.tickets, Ticket(res, inbound, batch, passed), Some(resource));
          if res == resource && passed {
            AdmittedBelow(rules(res), NodeOf(s, Some(res)).concurrency, n, batch, min, max,
                          InFlight(s.tickets, Some(resource)));
          }
        case Exit(i, _, _) =>
          if i < |s.tickets| {
            TicketEnded(s.tickets, i, Some(resource));
          }
      }
    }
  }

  lemma AdmittedBelow(thresholds: seq<uint32>, concurrency: int32, n: uint32, batch: uint32, min: uint32, max: uint32,
                      inFlight: nat)
    requires n in thresholds && Isolates(n, min, max) && min <= batch <= max
    requires inFlight <= Full(n, min) && concurrency == Wrap(inFlight) && Admits(thresholds, concurrency, batch)
    ensures inFlight < Full(n, min)
  {
    assert concurrency == inFlight && WrappedSum(concurrency, batch) == inFlight + batch;
  }

  // Where isolation fails, there is a batch for every number in flight up to the threshold.

  /** The smallest batch where it still passes, and otherwise the largest, whose sum wraps around. */
  function Batch(n: uint32, min: uint32, max: uint32, inFlight: nat): uint32 {
    var k := Wrap(inFlight);
    if (if k >= 0 then k else 0) + min <= n then min else max
  }

  lemma BatchPasses(n: uint32, min: uint32, max: uint32, inFlight: nat)
    requires min <= max && inFlight <= n && !Isolates(n, min, max)
    ensures Admits([n], Wrap(inFlight), Batch(n, min, max, inFlight))
  {
    var k := Wrap(inFlight);
    var count := if k >= 0 then k else 0;
    CountBelow(inFlight);
    if count + min <= n {
      assert WrappedSum(k, min) == count + min;
    } else {
      assert count >= Full(n, min) && min >= 1;
      assert WrappedSum(k, max) == count + max - TWO32;
    }
  }

  lemma CountBelow(inFlight: nat)
    ensures Wrap(inFlight) <= inFlight
  {
  }

  function Fill(resource: string, n: uint32, min: uint32, max: uint32, k: nat): seq<Event> {
    seq(k, i requires 0 <= i < k => Enter(resource, false, Batch(n, min, max, i), false))
  }

  lemma {:induction false} Filled(rules: Rules, resource: string, n: uint32, min: uint32, max: uint32, k: nat)
    requires rules(resource) == [n] && min <= max && k <= n + 1 && !Isolates(n, min, max)
    ensures InFlight(Run(rules, Fill(resource, n, min, max, k)).tickets, Some(resource)) == k
    decreases k
  {
    if k > 0 {
      var init := Fill(resource, n, min, max, k - 1);
      assert Fill(resource, n, min, max, k)[..k - 1] == init;
      Filled(rules, resource, n, min, max, k - 1);
      AccountsBalance(rules, init, Some(resource));
      BatchPasses(n, min, max, k - 1);
      TicketAdded(Run(rules, init).tickets, Ticket(resource, false, Batch(n, min, max, k - 1), true), Some(resource));
    }
  }

  /**
   A threshold of `n` keeps at most `n` entries of the resource in flight, in every run with batches
   from `min` to `max`, exactly when it isolates them; and then at most `Full` of them.
   */
  lemma IsolationExactlyWhen(resource: string, n: uint32, min: uint32, max: uint32)
    requires min <= max
    ensures (forall rules: Rules, events: seq<Event> {:trigger Run(rules, events)} ::
               n in rules(resource) && BatchesWithin(events, resource, min, max) ==>
                 InFlight(Run(rules, events).tickets, Some(resource)) <= n)
            <==> Isolates(n, min, max)
  {
    if Isolates(n, min, max) {
      forall rules: Rules, events: seq<Event> {:trigger Run(rules, events)}
        | n in rules(resource) && BatchesWithin(events, resource, min, max)
        ensures InFlight(Run(rules, events).tickets, Some(resource)) <= n
      {
        IsolationHolds(rules, resource, n, min, max, events);
      }
    } else {
      var rules: Rules := _ => [n];
      var events := Fill(resource, n, min, max, n + 1);
      Filled(rules, resource, n, min, max, n + 1);
      assert n in rules(resource) && BatchesWithin(events, resource, min, max);
    }
  }

  /**
   With batches of one and more the condition is that the threshold is below 2^31 and the largest batch does
   not overflow it.
   */
  lemma IsolatesFromOne(n: uint32, max: uint32)
    ensures Isolates(n, 1, max) <==> n < 0x8000_0000 && n + max < TWO32
  {
  }

  /** An empty batch passes a threshold of 1 that is full. */
  lemma EmptyBatchPasses(rules: Rules, resource: string)
    requires rules(resource) == [1]
    ensures var events := [Enter(resource, false, 1, false), Enter(resource, false, 0, false)];
            InFlight(Run(rules, events).tickets, Some(resource)) == 2
  {
    var first, second := Enter(resource, false, 1, false), Enter(resource, false, 0, false);
    assert [first, second][..1] == [first] && [first][..0] == [];
    assert Run(rules, [first]).tickets == [Ticket(resource, false, 1, true)];
    assert NodeOf(Run(rules, [first]), Some(resource)).concurrency == 1;
    TicketAdded([], Ticket(resource, false, 1, true), Some(resource));
    assert [] + [Ticket(resource, false, 1, true)] == [Ticket(resource, false, 1, true)];
    TicketAdded([Ticket(resource, false, 1, true)], Ticket(resource, false, 0, true), Some(resource));
  }
}
