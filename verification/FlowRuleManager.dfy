/** The flow rule manager: builds the controllers of a resource from its rules and publishes them. */
module FlowRuleManager {
  import opened Wrappers
  import opened FlowRules
  import StatReuse

  /** A standalone statistic; only its identity matters here. */
  class StandaloneStatistic {
    constructor () {}
  }

  class TrafficShapingController {
    const rule: Rule
    const boundStat: StandaloneStatistic

    constructor (rule: Rule, boundStat: StandaloneStatistic)
      ensures this.rule == Bound(rule) && this.boundStat == boundStat
    {
      this.rule, this.boundStat := Bound(rule), boundStat;
    }
  }

  function RulesOf(tcs: seq<TrafficShapingController>): (rules: seq<Rule>)
    ensures |rules| == |tcs| && forall i :: 0 <= i < |tcs| ==> rules[i] == tcs[i].rule
  {
    seq(|tcs|, i requires 0 <= i < |tcs| => tcs[i].rule)
  }

  /** The controller `tc` is what the assignment asks for. */
  ghost predicate Realizes(tc: TrafficShapingController, a: Assignment, was: seq<TrafficShapingController>) {
    match a.origin
    case Kept(i) => i < |was| && tc == was[i]
    case Reusing(i) => i < |was| && tc.rule == Bound(a.rule) && tc.boundStat == was[i].boundStat && tc !in was
    case Created => tc.rule == Bound(a.rule) && tc !in was
  }

  ghost predicate Built(tcs: seq<TrafficShapingController>, plan: seq<Assignment>, was: seq<TrafficShapingController>) {
    |tcs| == |plan| && forall k :: 0 <= k < |tcs| ==> Realizes(tcs[k], plan[k], was)
  }

  /** The plan of a reload of all of `was`. */
  ghost function FullPlan(res: string, rules: seq<Rule>, was: seq<TrafficShapingController>,
                          buildable: Rule -> bool): seq<Assignment> {
    Plan(res, rules, RulesOf(was), All(|was|), buildable)
  }

  /** `append(s[:i], s[i+1:]...)`: shifts the tail of the first `n` elements down in place. */
  method RemoveAt(a: array<TrafficShapingController>, n: nat, i: nat)
    requires i < n <= a.Length
    modifies a
    ensures a[..n - 1] == Without(old(a[..n]), i)
  {
    for j := i to n - 1
      invariant forall k :: 0 <= k < a.Length ==> a[k] == if i <= k < j then old(a[k + 1]) else old(a[k])
    {
      a[j] := a[j + 1];
    }
  }

  /** The old controller with an equal rule, or else the first whose statistic can be reused. */
  method CalculateReuseIndexFor(r: Rule, olds: array<TrafficShapingController>, n: nat)
    returns (equalIdx: Option<nat>, reuseStatIdx: Option<nat>)
    requires n <= olds.Length
    ensures equalIdx == FirstEqual(r, RulesOf(olds[..n]))
    ensures equalIdx == None ==> reuseStatIdx == FirstReusable(r, RulesOf(olds[..n]))
  {
    equalIdx, reuseStatIdx := None, None;
    for idx := 0 to n
      invariant forall k :: 0 <= k < idx ==> !IsEqualsTo(olds[k].rule, r)
      invariant match reuseStatIdx
                case Some(j) => j < idx && IsStatReusable(olds[j].rule, r) && forall k :: 0 <= k < j ==>
                    !IsStatReusable(olds[k].rule, r)
                case None => forall k :: 0 <= k < idx ==> !IsStatReusable(olds[k].rule, r)
    {
      if IsEqualsTo(olds[idx].rule, r) {
        equalIdx := Some(idx);
        break;
      }
      if IsStatReusable(olds[idx].rule, r) && reuseStatIdx == None {
        reuseStatIdx := Some(idx);
      }
    }
  }

  method Generate(r: Rule, boundStat: Option<StandaloneStatistic>) returns (tc: TrafficShapingController)
    ensures fresh(tc) && tc.rule == Bound(r) && (boundStat.Some? ==> tc.boundStat == boundStat.value)
  {
    var stat;
    if boundStat.Some? {
      stat := boundStat.value;
    } else {
      stat := new StandaloneStatistic();
    }
    tc := new TrafficShapingController(r, stat);
  }

  /** What a round of the loop does with the rule: the available controllers before and after, and the one it adds. */
  ghost predicate Round(res: string, r: Rule, before: seq<TrafficShapingController>,
                        after: seq<TrafficShapingController>,
                        tc: Option<TrafficShapingController>, buildable: Rule -> bool)
  {
    var (k, equal) := Choose(r, RulesOf(before));
    if r.resource != res || (!equal && !buildable(r)) then tc == None && after == before
    else if equal then tc == Some(before[k.value]) && after == Without(before, k.value)
    else
      tc.Some? && tc.value.rule == Bound(r) &&
      if k.Some? then tc.value.boundStat == before[k.value].boundStat && after == Without(before, k.value)
      else after == before
  }

  method BuildOne(res: string, r: Rule, olds: array<TrafficShapingController>, n: nat, buildable: Rule -> bool)
    returns (tc: Option<TrafficShapingController>, n': nat)
    requires n <= olds.Length
    modifies olds
    ensures n' <= n && Round(res, r, old(olds[..n]), olds[..n'], tc, buildable)
    ensures tc.Some? ==> tc.value in old(olds[..n]) || fresh(tc.value)
    ensures !Choose(r, RulesOf(old(olds[..n]))).1 && tc.Some? ==> fresh(tc.value)
  {
    if res != r.resource {
      return None, n;
    }
    var equalIdx, reuseStatIdx := CalculateReuseIndexFor(r, olds, n);
    if equalIdx.Some? {
      tc := Some(olds[equalIdx.value]);
      RemoveAt(olds, n, equalIdx.value);
      return tc, n - 1;
    }
    if !buildable(r) {
      return None, n;
    }
    if reuseStatIdx.Some? {
      var made := Generate(r, Some(olds[reuseStatIdx.value].boundStat));
      RemoveAt(olds, n, reuseStatIdx.value);
      return Some(made), n - 1;
    }
    var made := Generate(r, None);
    return Some(made), n;
  }

  /** The controllers at the positions `left`. */
  ghost function Remaining(was: seq<TrafficShapingController>, left: seq<nat>): (s: seq<TrafficShapingController>)
    requires Positions(RulesOf(was), left)
    ensures |s| == |left| && forall k :: 0 <= k < |s| ==> s[k] == was[left[k]]
  {
    seq(|left|, k requires 0 <= k < |left| => was[left[k]])
  }

  /** A round is the plan's decision. */
  lemma RoundDecides(res: string, r: Rule, was: seq<TrafficShapingController>, left: seq<nat>,
                     after: seq<TrafficShapingController>, tc: Option<TrafficShapingController>,
                         buildable: Rule -> bool)
    requires Positions(RulesOf(was), left) && Round(res, r, Remaining(was, left), after, tc, buildable)
    requires tc.Some? && !Choose(r, RulesOf(Remaining(was, left))).1 ==> tc.value !in was
    ensures var (origin, left') := Decide(res, r, RulesOf(was), left, buildable);
            after == Remaining(was, left') && (tc.Some? <==> origin.Some?) &&
            (tc.Some? ==> Realizes(tc.value, Assignment(r, origin.value), was))
  {
    var before := Remaining(was, left);
    assert RulesOf(before) == At(RulesOf(was), left);
    var (k, equal) := Choose(r, RulesOf(before));
    if k.Some? {
      assert Without(before, k.value) == Remaining(was, Without(left, k.value));
    }
  }

  /** After `i` rules: `done` is planned and built, and the controllers at `left` are still available. */
  ghost predicate Progress(res: string, rules: seq<Rule>, i: nat, was: seq<TrafficShapingController>, left: seq<nat>,
                           available: seq<TrafficShapingController>, done: seq<Assignment>,
                           tcs: seq<TrafficShapingController>, buildable: Rule -> bool)
  {
    i <= |rules| && Positions(RulesOf(was), left) && available == Remaining(was, left) && Built(tcs, done, was) &&
    FullPlan(res, rules, was, buildable) == done + Plan(res, rules[i..], RulesOf(was), left, buildable)
  }

  lemma Start(res: string, rules: seq<Rule>, was: seq<TrafficShapingController>, buildable: Rule -> bool)
    ensures Progress(res, rules, 0, was, All(|was|), was, [], [], buildable)
  {
    assert rules[0..] == rules;
    assert was == Remaining(was, All(|was|));
  }

  lemma Advance(res: string, rules: seq<Rule>, i: nat, was: seq<TrafficShapingController>, left: seq<nat>,
                available: seq<TrafficShapingController>, done: seq<Assignment>, tcs: seq<TrafficShapingController>,
                buildable: Rule -> bool, after: seq<TrafficShapingController>, tc: Option<TrafficShapingController>)
    returns (left': seq<nat>, done': seq<Assignment>)
    requires Progress(res, rules, i, was, left, available, done, tcs, buildable) && i < |rules|
    requires Round(res, rules[i], available, after, tc, buildable)
    requires tc.Some? && !Choose(rules[i], RulesOf(available)).1 ==> tc.value !in was
    ensures Progress(res, rules, i + 1, was, left', after, done', if tc.Some? then tcs + [tc.value] else tcs, buildable)
  {
    RoundDecides(res, rules[i], was, left, after, tc, buildable);
    var origin;
    origin, left' := Next(res, rules, i, RulesOf(was), left, buildable);
    done' := if origin.Some? then done + [Assignment(rules[i], origin.value)] else done;
    var rest := Plan(res, rules[i + 1..], RulesOf(was), left', buildable);
    assert done + ((if origin.Some? then [Assignment(rules[i], origin.value)] else []) + rest) == done' + rest;
  }

  lemma Finish(res: string, rules: seq<Rule>, was: seq<TrafficShapingController>, left: seq<nat>,
               available: seq<TrafficShapingController>, done: seq<Assignment>,
               tcs: seq<TrafficShapingController>, buildable: Rule -> bool)
    requires Progress(res, rules, |rules|, was, left, available, done, tcs, buildable)
    ensures Built(tcs, FullPlan(res, rules, was, buildable), was)
  {
    assert rules[|rules|..] == [];
    assert done + [] == done;
  }

  /**
   Builds the controllers for the rules of a resource, using up the old ones in place; `buildable`
   are the rules whose generator exists and succeeds.
   */
  method BuildResource(res: string, rules: seq<Rule>, olds: array<TrafficShapingController>, buildable: Rule -> bool)
    returns (tcs: seq<TrafficShapingController>)
    modifies olds
    ensures Built(tcs, FullPlan(res, rules, old(olds[..]), buildable), old(olds[..]))
  {
    tcs := [];
    var n := olds.Length;
    ghost var was := olds[..];
    ghost var left: seq<nat>, done: seq<Assignment> := All(n), [];
    assert olds[..n] == was;
    Start(res, rules, was, buildable);
    for i := 0 to |rules|
      invariant n <= olds.Length
      invariant Progress(res, rules, i, was, left, olds[..n], done, tcs, buildable)
    {
      ghost var available := olds[..n];
      var tc;
      tc, n := BuildOne(res, rules[i], olds, n, buildable);
      left, done := Advance(res, rules, i, was, left, available, done, tcs, buildable, olds[..n], tc);
      if tc.Some? {
        tcs := tcs + [tc.value];
      }
    }
    Finish(res, rules, was, left, olds[..n], done, tcs, buildable);
  }

  lemma Next(res: string, rules: seq<Rule>, i: nat, olds: seq<Rule>, left: seq<nat>, buildable: Rule -> bool)
    returns (origin: Option<Origin>, left': seq<nat>)
    requires i < |rules| && Positions(olds, left)
    ensures (origin, left') == Decide(res, rules[i], olds, left, buildable)
    ensures Plan(res, rules[i..], olds, left, buildable)
         == (if origin.Some? then [Assignment(rules[i], origin.value)] else []) +
             Plan(res, rules[i + 1..], olds, left', buildable)
  {
    var d := Decide(res, rules[i], olds, left, buildable);
    origin, left' := d.0, d.1;
    assert rules[i..][0] == rules[i] && rules[i..][1..] == rules[i + 1..];
    Prepended(res, rules[i..], olds, left, buildable);
  }

  /**
   With valid global settings there is one controller for each rule of the resource, in order, provided
   its strategy is supported; it is bound to an equal rule, or to the rule itself with its cold factor
   filled in.
   */
  lemma OneControllerPerRule(res: string, rules: seq<Rule>, was: seq<TrafficShapingController>, g: StatReuse.Global,
                             tcs: seq<TrafficShapingController>)
    requires StatReuse.ValidGlobal(g) && Built(tcs, FullPlan(res, rules, was, Generators(g)), was)
    requires forall r :: r in rules ==> r.resource == res && Supported(r)
    ensures |tcs| == |rules|
    ensures forall k :: 0 <= k < |rules| ==> IsEqualsTo(tcs[k].rule, rules[k]) || tcs[k].rule == Bound(rules[k])
  {
    var olds := RulesOf(was);
    var plan := FullPlan(res, rules, was, Generators(g));
    forall r | r in rules
      ensures Generators(g)(r)
    {
      SupportedIsBuildable(r, g);
    }
    OnePerRule(res, rules, olds, All(|was|), Generators(g));
    PlanIsJustified(res, rules, olds, All(|was|), Generators(g));
    forall k | 0 <= k < |rules|
      ensures IsEqualsTo(tcs[k].rule, rules[k]) || tcs[k].rule == Bound(rules[k])
    {
      assert Realizes(tcs[k], plan[k], was) && Justified(plan[k], olds, All(|was|));
    }
  }

  /** Where a controller's old self is used: a kept controller, or one that passes on its statistic. */
  ghost predicate Uses(tc: TrafficShapingController, a: Assignment, donor: TrafficShapingController,
                       was: seq<TrafficShapingController>) {
    Used(a).Some? && Used(a).value < |was| && was[Used(a).value] == donor &&
    (a.origin.Kept? ==> tc == donor) && (a.origin.Reusing? ==> tc.boundStat == donor.boundStat)
  }

  /** No old controller serves two new ones, be it by being kept or by passing on its statistic. */
  lemma NoneUsedTwice(res: string, rules: seq<Rule>, was: seq<TrafficShapingController>, buildable: Rule -> bool,
                      tcs: seq<TrafficShapingController>, j: nat, k: nat,
                      first: TrafficShapingController, second: TrafficShapingController)
    requires Built(tcs, FullPlan(res, rules, was, buildable), was) && j < k < |tcs|
    requires forall a, b :: 0 <= a < b < |was| ==> was[a] != was[b]
    requires Uses(tcs[j], FullPlan(res, rules, was, buildable)[j], first, was)
    requires Uses(tcs[k], FullPlan(res, rules, was, buildable)[k], second, was)
    ensures first != second
  {
    var plan := FullPlan(res, rules, was, buildable);
    EachOldUsedOnce(res, rules, RulesOf(was), All(|was|), buildable);
    var a, b := Used(plan[j]).value, Used(plan[k]).value;
    assert plan == Plan(res, rules, RulesOf(was), All(|was|), buildable);
    assert Used(plan[j]) != Used(plan[k]);
    assert a < b || b < a;
  }

  /** Reloading the rules the controllers are bound to, in order, gives the very same controllers. */
  lemma ReloadIsIdentity(res: string, was: seq<TrafficShapingController>, buildable: Rule -> bool,
                         tcs: seq<TrafficShapingController>)
    requires forall i :: 0 <= i < |was| ==> was[i].rule.resource == res
    requires Built(tcs, FullPlan(res, RulesOf(was), was, buildable), was)
    ensures tcs == was
  {
    var olds := RulesOf(was);
    ReloadKeepsAll(res, olds, 0, buildable);
    assert olds[0..] == olds && From(0, |olds|) == All(|was|);
    forall k | 0 <= k < |was|
      ensures k < |tcs| && tcs[k] == was[k]
    {
      assert Realizes(tcs[k], Assignment(olds[k], Kept(k)), was);
    }
  }

  // ---------- publishing ----------

  function ValidRules(rules: seq<Rule>, totalMemory: int): seq<Rule> {
    if rules == [] then []
    else (if IsValidRule(rules[0], totalMemory) then [rules[0]] else []) + ValidRules(rules[1..], totalMemory)
  }

  method FilterValid(rules: seq<Rule>, totalMemory: int) returns (valid: seq<Rule>)
    ensures valid == ValidRules(rules, totalMemory)
  {
    valid := [];
    for i := 0 to |rules|
      invariant valid + ValidRules(rules[i..], totalMemory) == ValidRules(rules, totalMemory)
    {
      assert rules[i..][0] == rules[i] && rules[i..][1..] == rules[i + 1..];
      if IsValidRule(rules[i], totalMemory) {
        valid := valid + [rules[i]];
      }
    }
  }

  type ControllerMap = map<string, array<TrafficShapingController>>

  /** The controllers of a resource, none if it has no entry. */
  ghost function ControllersOf(m: ControllerMap, res: string): seq<TrafficShapingController>
    reads if res in m then {m[res]} else {}
  {
    if res in m then m[res][..] else []
  }

  class Manager {
    const totalMemory: int
    var tcMap: ControllerMap
    var currentRules: map<string, seq<Rule>>

    constructor (totalMemory: int)
      ensures this.totalMemory == totalMemory && tcMap == map[] && currentRules == map[]
    {
      this.totalMemory := totalMemory;
      tcMap, currentRules := map[], map[];
    }

    /** A copy of the published controllers, so that building may use them up in place. */
    method Clone(res: string) returns (clone: array<TrafficShapingController>)
      ensures fresh(clone) && clone[..] == ControllersOf(tcMap, res)
    {
      if res in tcMap {
        var published := tcMap[res];
        clone := new TrafficShapingController[published.Length](i requires 0 <= i < published.Length reads published =>
                                                                published[i]);
      } else {
        clone := new TrafficShapingController[0];
      }
    }

    /** The new controllers of a resource, in an array of their own if there are any. */
    method Rebuild(res: string, raw: seq<Rule>, buildable: Rule -> bool)
        returns (published: Option<array<TrafficShapingController>>)
      ensures published.Some? ==> fresh(published.value)
      ensures Rebuilt(res, raw, buildable, old(ControllersOf(tcMap, res)), published)
    {
      var rules := FilterValid(raw, totalMemory);
      var clone := Clone(res);
      var tcs := BuildResource(res, rules, clone, buildable);
      if |tcs| == 0 {
        return None;
      }
      var a := new TrafficShapingController[|tcs|](i requires 0 <= i < |tcs| => tcs[i]);
      assert a[..] == tcs;
      return Some(a);
    }

    ghost predicate Rebuilt(res: string, raw: seq<Rule>, buildable: Rule -> bool, was: seq<TrafficShapingController>,
                            published: Option<array<TrafficShapingController>>)
      reads if published.Some? then {published.value} else {}
    {
      (published.Some? ==> published.value[..] != []) &&
      Built(if published.Some? then published.value[..] else [],
            FullPlan(res, ValidRules(raw, totalMemory), was, buildable), was)
    }

    /**
     Replaces the rules of one resource. What was published before is not touched; the new
     controllers, if any, take its place.
     */
    method OnResourceRuleUpdate(res: string, raw: seq<Rule>, buildable: Rule -> bool)
      modifies this
      ensures currentRules == old(currentRules)[res := raw]
      ensures forall other :: other in old(tcMap) ==> old(tcMap)[other][..] == old(tcMap[other][..])
      ensures tcMap - {res} == old(tcMap) - {res} && (res in tcMap ==> fresh(tcMap[res]) && tcMap[res][..] != [])
      ensures var was := old(ControllersOf(tcMap, res));
              Built(ControllersOf(tcMap, res), FullPlan(res, ValidRules(raw, totalMemory), was, buildable), was)
    {
      var published := Rebuild(res, raw, buildable);
      tcMap := if published.Some? then tcMap[res := published.value] else tcMap - {res};
      currentRules := currentRules[res := raw];
    }

    /** Replaces all rules: every resource is rebuilt from its own old controllers, the others disappear. */
    method OnRuleUpdate(raw: map<string, seq<Rule>>, buildable: Rule -> bool)
      modifies this
      ensures currentRules == raw
      ensures forall res :: res in old(tcMap) ==> old(tcMap)[res][..] == old(tcMap[res][..])
      ensures forall res :: res in tcMap ==> res in raw
      ensures forall res :: res in raw ==>
                var was := old(ControllersOf(tcMap, res));
                Built(ControllersOf(tcMap, res), FullPlan(res, ValidRules(raw[res], totalMemory), was, buildable), was)
    {
      var m: ControllerMap := map[];
      var left := raw.Keys;
      while left != {}
        invariant left <= raw.Keys && tcMap == old(tcMap)
        invariant forall res :: res in m ==> res in raw && res !in left && fresh(m[res])
        invariant forall res :: res in raw && res !in left ==>
                    Rebuilt(res, raw[res], buildable, old(ControllersOf(tcMap, res)), if res in m then Some(m[res])
                                                                                      else None)
        decreases left
      {
        var res :| res in left;
        var published := Rebuild(res, raw[res], buildable);
        if published.Some? {
          m := m[res := published.value];
        }
        left := left - {res};
      }
      forall res | res in raw
        ensures var was := old(ControllersOf(tcMap, res));
                Built(ControllersOf(m, res), FullPlan(res, ValidRules(raw[res], totalMemory), was, buildable), was)
      {
        assert Rebuilt(res, raw[res], buildable, old(ControllersOf(tcMap, res)), if res in m then Some(m[res])
                                                                                 else None);
      }
      tcMap := m;
      currentRules := raw;
    }
  }
}
