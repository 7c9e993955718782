/**
 Reloading flow rules: which old controllers are kept, which only pass on their statistic, and which
 global statistic a rule can read from.
 */
module FlowRules {
  import opened Wrappers
  import StatReuse

  const DEFAULT_COLD_FACTOR := 3

  datatype TokenCalculateStrategy = Direct | WarmUp | MemoryAdaptive | OtherStrategy(n: nat)
  datatype ControlBehavior = Reject | Throttling | OtherBehavior(n: nat)
  datatype RelationStrategy = CurrentResource | AssociatedResource

  datatype Rule = Rule(
    resource: string, strategy: TokenCalculateStrategy, behavior: ControlBehavior, threshold: real,
    relation: RelationStrategy, refResource: string, maxQueueingTimeMs: nat, warmUpPeriodSec: nat,
    warmUpColdFactor: nat, statIntervalInMs: StatReuse.uint32, lowMemUsageThreshold: int, highMemUsageThreshold: int,
    memLowWaterMarkBytes: int, memHighWaterMarkBytes: int)

  predicate FloatEquals(x: real, y: real) {
    -0.00000001 < x - y < 0.00000001
  }

  /** Equal but for a rounding error in the threshold. */
  predicate IsEqualsTo(was: Rule, r: Rule) {
    was.(threshold := r.threshold) == r && FloatEquals(was.threshold, r.threshold)
  }

  predicate NeedStatistic(r: Rule) {
    r.strategy == WarmUp || r.behavior == Reject
  }

  predicate IsStatReusable(was: Rule, r: Rule) {
    was.resource == r.resource && was.relation == r.relation && was.refResource == r.refResource &&
    was.statIntervalInMs == r.statIntervalInMs && NeedStatistic(was) && NeedStatistic(r)
  }

  /** There is a generator for each of these. */
  predicate Supported(r: Rule) {
    !r.strategy.OtherStrategy? && !r.behavior.OtherBehavior?
  }

  /** A controller can be made: there is a generator, and the statistic it needs can be had. */
  predicate Buildable(r: Rule, g: StatReuse.Global)
    requires StatReuse.ValidGlobal(g)
  {
    Supported(r) && (NeedStatistic(r) ==> !StatReuse.GenerateStatFor(r.statIntervalInMs, g).Failed?)
  }

  /** With valid global settings a generator never fails, so exactly the supported rules can be built. */
  lemma SupportedIsBuildable(r: Rule, g: StatReuse.Global)
    requires StatReuse.ValidGlobal(g)
    ensures Buildable(r, g) <==>
              (r.strategy == Direct || r.strategy == WarmUp || r.strategy == MemoryAdaptive) &&
              (r.behavior == Reject || r.behavior == Throttling)
  {
    if r.statIntervalInMs != 0 && r.statIntervalInMs != g.metricInterval {
      StatReuse.ReuseExactlyWhen(r.statIntervalInMs, g);
    }
  }

  function Generators(g: StatReuse.Global): Rule -> bool
    requires StatReuse.ValidGlobal(g)
  {
    (r: Rule) => Buildable(r, g)
  }

  /** A warm-up generator fills a missing cold factor into the very rule it was given. */
  function Bound(r: Rule): (b: Rule)
    ensures b.(warmUpColdFactor := r.warmUpColdFactor) == r
    ensures b.warmUpColdFactor == if r.strategy == WarmUp && r.warmUpColdFactor < 2 then 3 else r.warmUpColdFactor
  {
    if r.strategy == WarmUp && r.warmUpColdFactor <= 1 then r.(warmUpColdFactor := DEFAULT_COLD_FACTOR) else r
  }

  predicate IsValidRule(r: Rule, totalMemory: int) {
    r.resource != "" && r.threshold >= 0.0 &&
    (r.relation == AssociatedResource ==> r.refResource != "") &&
    (r.strategy == WarmUp ==> r.warmUpPeriodSec > 0 && r.warmUpColdFactor != 1) &&
    (r.strategy == MemoryAdaptive ==>
       0 < r.highMemUsageThreshold < r.lowMemUsageThreshold &&
       0 < r.memLowWaterMarkBytes < r.memHighWaterMarkBytes <= totalMemory)
  }

  /** A rule is refused exactly for one of these reasons. */
  lemma InvalidExactlyWhen(r: Rule, totalMemory: int)
    ensures !IsValidRule(r, totalMemory) <==>
              r.resource == "" || r.threshold < 0.0 || (r.relation == AssociatedResource && r.refResource == "") ||
              (r.strategy == WarmUp && (r.warmUpPeriodSec == 0 || r.warmUpColdFactor == 1)) ||
              (r.strategy == MemoryAdaptive &&
               (r.lowMemUsageThreshold <= 0 || r.highMemUsageThreshold <= 0 ||
                r.highMemUsageThreshold >= r.lowMemUsageThreshold ||
                r.memLowWaterMarkBytes <= 0 || r.memHighWaterMarkBytes <= 0 ||
                r.memHighWaterMarkBytes > totalMemory || r.memLowWaterMarkBytes >= r.memHighWaterMarkBytes))
  {
  }

  // ---------- the plan of a reload ----------

  /** Where the controller of a rule comes from; `was` is a position in the old list. */
  datatype Origin = Kept(was: nat) | Reusing(was: nat) | Created

  datatype Assignment = Assignment(rule: Rule, origin: Origin)

  /** The first of the old rules, from `k` on, that satisfies `p`. */
  function First(olds: seq<Rule>, p: Rule -> bool, k: nat): (i: Option<nat>)
    requires k <= |olds|
    ensures match i
            case Some(j) => k <= j < |olds| && p(olds[j]) && forall m :: k <= m < j ==> !p(olds[m])
            case None => forall m :: k <= m < |olds| ==> !p(olds[m])
    decreases |olds| - k
  {
    if k == |olds| then None
    else if p(olds[k]) then Some(k)
    else First(olds, p, k + 1)
  }

  function FirstEqual(r: Rule, olds: seq<Rule>): (i: Option<nat>)
    ensures match i
            case Some(j) => j < |olds| && IsEqualsTo(olds[j], r) && forall m :: 0 <= m < j ==> !IsEqualsTo(olds[m], r)
            case None => forall m :: 0 <= m < |olds| ==> !IsEqualsTo(olds[m], r)
  {
    First(olds, was => IsEqualsTo(was, r), 0)
  }

  function FirstReusable(r: Rule, olds: seq<Rule>): (i: Option<nat>)
    ensures match i
            case Some(j) => j < |olds| && IsStatReusable(olds[j], r) && forall m :: 0 <= m < j ==>
                !IsStatReusable(olds[m], r)
            case None => forall m :: 0 <= m < |olds| ==> !IsStatReusable(olds[m], r)
  {
    First(olds, was => IsStatReusable(was, r), 0)
  }

  function Without<T>(s: seq<T>, k: nat): (t: seq<T>)
    requires k < |s|
    ensures |t| == |s| - 1
    ensures forall i :: 0 <= i < |t| ==> t[i] == if i < k then s[i] else s[i + 1]
  {
    s[..k] + s[k + 1..]
  }

  /** The rules of the old controllers still available, whose positions are `left`. */
  function At(olds: seq<Rule>, left: seq<nat>): (rules: seq<Rule>)
    requires forall k :: 0 <= k < |left| ==> left[k] < |olds|
    ensures |rules| == |left| && forall k :: 0 <= k < |left| ==> rules[k] == olds[left[k]]
  {
    seq(|left|, k requires 0 <= k < |left| => olds[left[k]])
  }

  /** One step of the plan: the origin for a rule, and which of the available controllers it uses up. */
  function Choose(r: Rule, available: seq<Rule>): (c: (Option<nat>, bool))
    ensures c.0.Some? ==> c.0.value < |available|
    ensures c.1 ==> c.0.Some?
  {
    var equal := FirstEqual(r, available);
    if equal.Some? then (equal, true) else (FirstReusable(r, available), false)
  }

  ghost predicate Positions(olds: seq<Rule>, left: seq<nat>) {
    (forall k :: 0 <= k < |left| ==> left[k] < |olds|) && forall i, j :: 0 <= i < j < |left| ==> left[i] != left[j]
  }

  /** What becomes of one rule, if a controller is made for it, and the old controllers still available after it. */
  ghost function Decide(res: string, r: Rule, olds: seq<Rule>, left: seq<nat>, buildable: Rule -> bool):
      (d: (Option<Origin>, seq<nat>))
    requires Positions(olds, left)
    ensures Positions(olds, d.1)
  {
    var (k, equal) := Choose(r, At(olds, left));
    if r.resource != res then (None, left)
    else if equal then (Some(Kept(left[k.value])), Without(left, k.value))
    else if !buildable(r) then (None, left)
    else if k.Some? then (Some(Reusing(left[k.value])), Without(left, k.value))
    else (Some(Created), left)
  }

  /**
   What a reload does with the rules of a resource, in order; `buildable` are the rules a controller can be
   made for.
   */
  ghost function Plan(res: string, rules: seq<Rule>, olds: seq<Rule>, left: seq<nat>,
                      buildable: Rule -> bool): seq<Assignment>
    requires Positions(olds, left)
    decreases rules
  {
    if rules == [] then []
    else
      var (origin, left') := Decide(res, rules[0], olds, left, buildable);
      (if origin.Some? then [Assignment(rules[0], origin.value)] else []) +
          Plan(res, rules[1..], olds, left', buildable)
  }

  function All(n: nat): (left: seq<nat>)
    ensures |left| == n && forall k :: 0 <= k < n ==> left[k] == k
  {
    seq(n, k => k)
  }

  /** The old controller an assignment uses, to keep it or for its statistic. */
  function Used(a: Assignment): Option<nat> {
    match a.origin
    case Kept(i) => Some(i)
    case Reusing(i) => Some(i)
    case Created => None
  }

  ghost predicate Justified(a: Assignment, olds: seq<Rule>, left: seq<nat>) {
    match a.origin
    case Kept(i) => i in left && i < |olds| && IsEqualsTo(olds[i], a.rule)
    case Reusing(i) => i in left && i < |olds| && IsStatReusable(olds[i], a.rule) && !IsEqualsTo(olds[i], a.rule)
    case Created => true
  }

  lemma DecisionUses(res: string, r: Rule, olds: seq<Rule>, left: seq<nat>, buildable: Rule -> bool)
    requires Positions(olds, left)
    ensures var (origin, left') := Decide(res, r, olds, left, buildable);
            (forall x :: x in left' ==> x in left) &&
            (origin.Some? ==>
               var a := Assignment(r, origin.value);
               r.resource == res && Justified(a, olds, left) && (Used(a).Some? ==> Used(a).value !in left'))
  {
    var available := At(olds, left);
    var (k, equal) := Choose(r, available);
    if k.Some? {
      LeftOver(left, k.value);
      assert available[k.value] == olds[left[k.value]];
    }
  }

  /**
   What becomes of a rule, field by field: it keeps the first controller left whose rule is the same in every
   field, the threshold but for the float tolerance; or else, if a controller can be made, that takes the
   statistic of the first one left with the same resource, relation, related resource and interval, both
   being warm-up or rejecting rules; or else it has a statistic of its own.
   */
  lemma DecidesExactlyWhen(res: string, r: Rule, olds: seq<Rule>, left: seq<nat>, buildable: Rule -> bool)
    requires Positions(olds, left)
    ensures match Decide(res, r, olds, left, buildable).0
            case None => r.resource != res || (!buildable(r) && NoneLeft(olds, left, SameAs(r)))
            case Some(Kept(i)) => r.resource == res && FirstLeft(olds, left, SameAs(r), i)
            case Some(Reusing(i)) =>
              r.resource == res && buildable(r) && NoneLeft(olds, left, SameAs(r)) &&
              FirstLeft(olds, left, AlikeTo(r), i)
            case Some(Created) =>
              r.resource == res && buildable(r) && NoneLeft(olds, left, SameAs(r)) && NoneLeft(olds, left, AlikeTo(r))
  {
    var available := At(olds, left);
    SameIsEqual(r);
    AlikeIsReusable(r);
    Found(olds, left, SameAs(r), FirstEqual(r, available));
    if FirstEqual(r, available).None? {
      Found(olds, left, AlikeTo(r), FirstReusable(r, available));
    }
  }

  function SameAs(r: Rule): Rule -> bool {
    (was: Rule) => was.(threshold := r.threshold) == r && -0.00000001 < was.threshold - r.threshold < 0.00000001
  }

  function AlikeTo(r: Rule): Rule -> bool {
    (was: Rule) =>
      was.resource == r.resource && was.relation == r.relation && was.refResource == r.refResource &&
      was.statIntervalInMs == r.statIntervalInMs &&
      (was.strategy == WarmUp || was.behavior == Reject) && (r.strategy == WarmUp || r.behavior == Reject)
  }

  lemma SameIsEqual(r: Rule)
    ensures forall was :: SameAs(r)(was) <==> IsEqualsTo(was, r)
  {
  }

  lemma AlikeIsReusable(r: Rule)
    ensures forall was :: AlikeTo(r)(was) <==> IsStatReusable(was, r)
  {
  }

  lemma Found(olds: seq<Rule>, left: seq<nat>, p: Rule -> bool, k: Option<nat>)
    requires forall m :: 0 <= m < |left| ==> left[m] < |olds|
    requires match k
             case Some(j) => j < |left| && p(At(olds, left)[j]) && forall m :: 0 <= m < j ==> !p(At(olds, left)[m])
             case None => forall m :: 0 <= m < |left| ==> !p(At(olds, left)[m])
    ensures match k
            case Some(j) => FirstLeft(olds, left, p, left[j])
            case None => NoneLeft(olds, left, p)
  {
    var available := At(olds, left);
    assert forall m :: 0 <= m < |left| ==> available[m] == olds[left[m]];
  }

  predicate NoneLeft(olds: seq<Rule>, left: seq<nat>, p: Rule -> bool)
    requires forall k :: 0 <= k < |left| ==> left[k] < |olds|
  {
    forall k :: 0 <= k < |left| ==> !p(olds[left[k]])
  }

  predicate FirstLeft(olds: seq<Rule>, left: seq<nat>, p: Rule -> bool, i: nat)
    requires forall k :: 0 <= k < |left| ==> left[k] < |olds|
  {
    exists k :: 0 <= k < |left| && left[k] == i && p(olds[i]) && forall m :: 0 <= m < k ==> !p(olds[left[m]])
  }

  lemma LeftOver(left: seq<nat>, k: nat)
    requires k < |left| && forall i, j :: 0 <= i < j < |left| ==> left[i] != left[j]
    ensures left[k] !in Without(left, k) && forall x :: x in Without(left, k) ==> x in left
  {
  }

  lemma Prepended(res: string, rules: seq<Rule>, olds: seq<Rule>, left: seq<nat>, buildable: Rule -> bool)
    requires Positions(olds, left) && rules != []
    ensures var (origin, left') := Decide(res, rules[0], olds, left, buildable);
            var tail := Plan(res, rules[1..], olds, left', buildable);
            Plan(res, rules, olds, left, buildable)
            == if origin.Some? then [Assignment(rules[0], origin.value)] + tail else tail
  {
  }

  ghost predicate AllJustified(plan: seq<Assignment>, res: string, rules: seq<Rule>, olds: seq<Rule>, left: seq<nat>) {
    forall i :: 0 <= i < |plan| ==>
        Justified(plan[i], olds, left) && plan[i].rule in rules && plan[i].rule.resource == res
  }

  /** An old controller is kept only for an equal rule, and gives its statistic only to a rule that may read it. */
  lemma {:induction false} PlanIsJustified(res: string, rules: seq<Rule>, olds: seq<Rule>, left: seq<nat>,
                                           buildable: Rule -> bool)
    requires Positions(olds, left)
    ensures AllJustified(Plan(res, rules, olds, left, buildable), res, rules, olds, left)
    decreases rules
  {
    if rules != [] {
      var (origin, left') := Decide(res, rules[0], olds, left, buildable);
      DecisionUses(res, rules[0], olds, left, buildable);
      PlanIsJustified(res, rules[1..], olds, left', buildable);
      Prepended(res, rules, olds, left, buildable);
      var tail := Plan(res, rules[1..], olds, left', buildable);
      forall i | 0 <= i < |tail|
        ensures Justified(tail[i], olds, left) && tail[i].rule in rules && tail[i].rule.resource == res
      {
        assert Justified(tail[i], olds, left') && tail[i].rule in rules[1..];
      }
    }
  }

  /** Every old controller is kept or gives away its statistic at most once, never both. */
  lemma {:induction false} EachOldUsedOnce(res: string, rules: seq<Rule>, olds: seq<Rule>, left: seq<nat>,
                                           buildable: Rule -> bool)
    requires Positions(olds, left)
    ensures var plan := Plan(res, rules, olds, left, buildable);
            forall i, j :: 0 <= i < j < |plan| && Used(plan[i]).Some? ==> Used(plan[i]) != Used(plan[j])
    decreases rules
  {
    if rules != [] {
      var (origin, left') := Decide(res, rules[0], olds, left, buildable);
      var tail := Plan(res, rules[1..], olds, left', buildable);
      DecisionUses(res, rules[0], olds, left, buildable);
      EachOldUsedOnce(res, rules[1..], olds, left', buildable);
      Prepended(res, rules, olds, left, buildable);
      PlanIsJustified(res, rules[1..], olds, left', buildable);
      if origin.Some? && Used(Assignment(rules[0], origin.value)).Some? {
        UsedByNoneOf(Used(Assignment(rules[0], origin.value)).value, tail, res, rules[1..], olds, left');
      }
    }
  }

  lemma UsedByNoneOf(i: nat, plan: seq<Assignment>, res: string, rules: seq<Rule>, olds: seq<Rule>, left: seq<nat>)
    requires AllJustified(plan, res, rules, olds, left) && i !in left
    ensures forall j :: 0 <= j < |plan| ==> Used(plan[j]) != Some(i)
  {
    forall j | 0 <= j < |plan|
      ensures Used(plan[j]) != Some(i)
    {
      assert Justified(plan[j], olds, left);
    }
  }

  /** With every rule of the resource and buildable, there is one controller for each, in order. */
  lemma {:induction false} OnePerRule(res: string, rules: seq<Rule>, olds: seq<Rule>, left: seq<nat>,
                                      buildable: Rule -> bool)
    requires Positions(olds, left)
    requires forall r :: r in rules ==> r.resource == res && buildable(r)
    ensures var plan := Plan(res, rules, olds, left, buildable);
            |plan| == |rules| && forall i :: 0 <= i < |rules| ==> plan[i].rule == rules[i]
    decreases rules
  {
    if rules != [] {
      var r, rest := rules[0], rules[1..];
      assert r in rules && forall x :: x in rest ==> x in rules;
      AlwaysMade(res, r, olds, left, buildable);
      var (origin, left') := Decide(res, r, olds, left, buildable);
      OnePerRule(res, rest, olds, left', buildable);
      Prepended(res, rules, olds, left, buildable);
    }
  }

  lemma AlwaysMade(res: string, r: Rule, olds: seq<Rule>, left: seq<nat>, buildable: Rule -> bool)
    requires Positions(olds, left) && r.resource == res && buildable(r)
    ensures Decide(res, r, olds, left, buildable).0.Some?
  {
  }

  /** The positions from `n` on. */
  function From(n: nat, size: nat): (left: seq<nat>)
    requires n <= size
    ensures |left| == size - n && forall k :: 0 <= k < |left| ==> left[k] == n + k
  {
    seq(size - n, k => n + k)
  }

  lemma KeepsFirst(res: string, olds: seq<Rule>, n: nat, buildable: Rule -> bool)
    requires n < |olds| && olds[n].resource == res
    ensures Decide(res, olds[n], olds, From(n, |olds|), buildable) == (Some(Kept(n)), From(n + 1, |olds|))
  {
    var left := From(n, |olds|);
    assert IsEqualsTo(At(olds, left)[0], olds[n]);
    assert Without(left, 0) == From(n + 1, |olds|);
  }

  /** Every controller from position `n` on stays where it is. */
  function KeepAll(olds: seq<Rule>, n: nat): (plan: seq<Assignment>)
    requires n <= |olds|
    ensures |plan| == |olds| - n && forall i :: 0 <= i < |plan| ==> plan[i] == Assignment(olds[n + i], Kept(n + i))
  {
    seq(|olds| - n, i requires 0 <= i < |olds| - n => Assignment(olds[n + i], Kept(n + i)))
  }

  lemma KeepAllStep(olds: seq<Rule>, n: nat)
    requires n < |olds|
    ensures KeepAll(olds, n) == [Assignment(olds[n], Kept(n))] + KeepAll(olds, n + 1)
  {
  }

  /** Reloading the bound rules, in order, keeps every controller where it is. */
  lemma {:induction false} ReloadKeepsAll(res: string, olds: seq<Rule>, n: nat, buildable: Rule -> bool)
    requires n <= |olds| && forall r :: r in olds ==> r.resource == res
    ensures Plan(res, olds[n..], olds, From(n, |olds|), buildable) == KeepAll(olds, n)
    decreases |olds| - n
  {
    if n < |olds| {
      ReloadStep(res, olds, n, buildable);
      KeepAllStep(olds, n);
      ReloadKeepsAll(res, olds, n + 1, buildable);
    }
  }

  lemma ReloadStep(res: string, olds: seq<Rule>, n: nat, buildable: Rule -> bool)
    requires n < |olds| && forall r :: r in olds ==> r.resource == res
    ensures Plan(res, olds[n..], olds, From(n, |olds|), buildable)
         == [Assignment(olds[n], Kept(n))] + Plan(res, olds[n + 1..], olds, From(n + 1, |olds|), buildable)
  {
    assert olds[n] in olds;
    assert olds[n..][0] == olds[n] && olds[n..][1..] == olds[n + 1..];
    KeepsFirst(res, olds, n, buildable);
    Prepended(res, olds[n..], olds, From(n, |olds|), buildable);
  }

  function AllBound(rules: seq<Rule>): (olds: seq<Rule>)
    ensures |olds| == |rules| && forall i :: 0 <= i < |rules| ==> olds[i] == Bound(rules[i])
  {
    seq(|rules|, i requires 0 <= i < |rules| => Bound(rules[i]))
  }

  /**
   Reloading the configuration the controllers came from, read afresh, keeps all of them exactly
   when no warm-up rule leaves the cold factor to the default.
   */
  lemma FreshReloadKeepsAll(res: string, rules: seq<Rule>, buildable: Rule -> bool)
    requires forall r :: r in rules ==> r.resource == res && buildable(r)
    ensures var plan := Plan(res, rules, AllBound(rules), All(|rules|), buildable);
            |plan| == |rules| &&
            ((forall i :: 0 <= i < |plan| ==> plan[i].origin.Kept?)
             <==> forall r :: r in rules ==> !(r.strategy == WarmUp && r.warmUpColdFactor < 2))
  {
    OnePerRule(res, rules, AllBound(rules), All(|rules|), buildable);
    if forall r :: r in rules ==> !(r.strategy == WarmUp && r.warmUpColdFactor < 2) {
      assert forall i :: 0 <= i < |rules| ==> rules[i] in rules && Bound(rules[i]) == rules[i];
      assert AllBound(rules) == rules;
      BoundReloadKeepsAll(res, rules, buildable);
    } else {
      var i :| 0 <= i < |rules| && rules[i].strategy == WarmUp && rules[i].warmUpColdFactor < 2;
      UnboundIsNotKept(res, rules, i, buildable);
    }
  }

  lemma UnboundIsNotKept(res: string, rules: seq<Rule>, i: nat, buildable: Rule -> bool)
    requires i < |rules| && Bound(rules[i]) != rules[i]
    requires forall r :: r in rules ==> r.resource == res && buildable(r)
    ensures var plan := Plan(res, rules, AllBound(rules), All(|rules|), buildable);
            |plan| == |rules| && !plan[i].origin.Kept?
  {
    OnePerRule(res, rules, AllBound(rules), All(|rules|), buildable);
    PlanIsJustified(res, rules, AllBound(rules), All(|rules|), buildable);
    NotEqualToBound(AllBound(rules), Plan(res, rules, AllBound(rules), All(|rules|), buildable)[i], All(|rules|));
  }

  lemma BoundReloadKeepsAll(res: string, rules: seq<Rule>, buildable: Rule -> bool)
    requires forall r :: r in rules ==> r.resource == res
    ensures Plan(res, rules, rules, All(|rules|), buildable) == KeepAll(rules, 0)
  {
    assert From(0, |rules|) == All(|rules|) && rules[0..] == rules;
    ReloadKeepsAll(res, rules, 0, buildable);
  }

  /** A missing cold factor equals no bound rule's. */
  lemma NotEqualToBound(olds: seq<Rule>, a: Assignment, left: seq<nat>)
    requires Justified(a, olds, left) && Bound(a.rule) != a.rule
    requires forall i :: 0 <= i < |olds| ==> Bound(olds[i]) == olds[i]
    ensures !a.origin.Kept?
  {
  }
}
