/**
 Rebuilding the breakers of a resource when its rules are reloaded (core/circuitbreaker/rule_manager.go,
 core/circuitbreaker/rule.go): which old breakers and statistics are reused, and that none is used twice.
 */
module BreakerReload {
  import opened CircuitBreakers
  import opened LeapArrays
  import opened Prelude

  predicate IsStatReusable(old': Rule, new': Rule) {
    && old'.resource == new'.resource && old'.strategy == new'.strategy
    && old'.statIntervalMs == new'.statIntervalMs
    && old'.statSlidingWindowBucketCount == new'.statSlidingWindowBucketCount
  }

  predicate IsEqualsToBase(old': Rule, new': Rule) {
    && old'.resource == new'.resource && old'.strategy == new'.strategy
    && old'.retryTimeoutMs == new'.retryTimeoutMs && old'.minRequestAmount == new'.minRequestAmount
    && old'.statIntervalMs == new'.statIntervalMs
    && old'.statSlidingWindowBucketCount == new'.statSlidingWindowBucketCount
    && old'.limitApp == new'.limitApp
  }

  /** Whether an old breaker serves a new rule unchanged. The number of probes is not compared. */
  predicate IsEqualTo(old': Rule, new': Rule) {
    && IsEqualsToBase(old', new')
    && match new'.strategy
       case SlowRequestRatio => old'.maxAllowedRtMs == new'.maxAllowedRtMs && Float64Equals(old'.threshold, new'.threshold)
       case ErrorRatio => Float64Equals(old'.threshold, new'.threshold)
       case ErrorCount => Float64Equals(old'.threshold, new'.threshold)
       case Custom(_) => false
  }

  // ---------------------------------------------------------------- the plan of a reload

  /** Where a rebuilt breaker comes from; old breakers are named by their position in the old list. */
  datatype Source = Same(id: nat, forRule: Rule) | SharedStat(id: nat, forRule: Rule) | New(forRule: Rule)

  /** An old breaker that has not been used yet. */
  datatype Spare = Spare(id: nat, rule: Rule)

  function FirstEqual(r: Rule, spares: seq<Spare>): (k: int)
    ensures -1 <= k < |spares|
    ensures forall j :: 0 <= j < (if k < 0 then |spares| else k) ==> !IsEqualTo(spares[j].rule, r)
    ensures k >= 0 ==> IsEqualTo(spares[k].rule, r)
  {
    if spares == [] then -1
    else if IsEqualTo(spares[0].rule, r) then 0
    else
      var k := FirstEqual(r, spares[1..]);
      if k < 0 then -1 else k + 1
  }

  function FirstReusable(r: Rule, spares: seq<Spare>): (k: int)
    ensures -1 <= k < |spares|
    ensures forall j :: 0 <= j < (if k < 0 then |spares| else k) ==> !IsStatReusable(spares[j].rule, r)
    ensures k >= 0 ==> IsStatReusable(spares[k].rule, r)
  {
    if spares == [] then -1
    else if IsStatReusable(spares[0].rule, r) then 0
    else
      var k := FirstReusable(r, spares[1..]);
      if k < 0 then -1 else k + 1
  }

  function RemoveAt<T>(s: seq<T>, k: nat): seq<T>
    requires k < |s|
  {
    s[..k] + s[k + 1..]
  }

  /** How one rule is served: its source, if it gets a breaker at all, and what stays unused. */
  function Serve(res: string, r: Rule, spares: seq<Spare>): (Option<Source>, seq<Spare>) {
    if r.resource != res then (None, spares)
    else
      var equalIdx, reuseIdx := FirstEqual(r, spares), FirstReusable(r, spares);
      if equalIdx >= 0 then (Some(Same(spares[equalIdx].id, r)), RemoveAt(spares, equalIdx))
      else if r.strategy.Custom? then (None, spares)
      else if reuseIdx >= 0 then (Some(SharedStat(spares[reuseIdx].id, r)), RemoveAt(spares, reuseIdx))
      else (Some(New(r)), spares)
  }

  function Plan(res: string, rules: seq<Rule>, spares: seq<Spare>): seq<Source> {
    if rules == [] then []
    else
      var (source, rest) := Serve(res, rules[0], spares);
      (if source.Some? then [source.value] else []) + Plan(res, rules[1..], rest)
  }

  function Spares(rules: seq<Rule>): seq<Spare> {
    seq(|rules|, i requires 0 <= i < |rules| => Spare(i, rules[i]))
  }

  ghost predicate DistinctIds(spares: seq<Spare>) {
    forall i, j :: 0 <= i < j < |spares| ==> spares[i].id != spares[j].id
  }

  ghost predicate HasId(spares: seq<Spare>, id: nat) {
    exists k :: 0 <= k < |spares| && spares[k].id == id
  }

  /** No old breaker is used twice. */
  ghost predicate Linear(plan: seq<Source>) {
    forall i, j :: 0 <= i < j < |plan| && !plan[i].New? && !plan[j].New? ==> plan[i].id != plan[j].id
  }

  ghost predicate OnlyFrom(plan: seq<Source>, spares: seq<Spare>) {
    forall i :: 0 <= i < |plan| && !plan[i].New? ==> HasId(spares, plan[i].id)
  }

  lemma RemovedId(spares: seq<Spare>, k: nat)
    requires DistinctIds(spares) && k < |spares|
    ensures DistinctIds(RemoveAt(spares, k))
    ensures !HasId(RemoveAt(spares, k), spares[k].id)
    ensures forall id :: HasId(RemoveAt(spares, k), id) ==> HasId(spares, id)
  {
    var rest := RemoveAt(spares, k);
    assert forall j :: 0 <= j < |rest| ==> rest[j] == spares[if j < k then j else j + 1];
  }

  lemma ServeUsesUp(res: string, r: Rule, spares: seq<Spare>)
    requires DistinctIds(spares)
    ensures var (source, rest) := Serve(res, r, spares);
            && DistinctIds(rest)
            && (forall id :: HasId(rest, id) ==> HasId(spares, id))
            && (source.Some? && !source.value.New? ==> HasId(spares, source.value.id) && !HasId(rest, source.value.id))
  {
    var equalIdx, reuseIdx := FirstEqual(r, spares), FirstReusable(r, spares);
    if equalIdx >= 0 {
      RemovedId(spares, equalIdx);
    }
    if reuseIdx >= 0 {
      RemovedId(spares, reuseIdx);
    }
  }

  /**
   LINEAR REUSE. No old breaker serves two rules, neither as itself nor through its statistic, and only unused
   ones serve at all.
   */
  lemma {:induction false} PlanIsLinear(res: string, rules: seq<Rule>, spares: seq<Spare>)
    requires DistinctIds(spares)
    ensures Linear(Plan(res, rules, spares)) && OnlyFrom(Plan(res, rules, spares), spares)
    decreases |rules|
  {
    if rules != [] {
      ServeUsesUp(res, rules[0], spares);
      var served := Serve(res, rules[0], spares);
      PlanIsLinear(res, rules[1..], served.1);
      LinearCons(served.0, Plan(res, rules[1..], served.1), spares, served.1);
    }
  }

  lemma LinearCons(x: Option<Source>, later: seq<Source>, spares: seq<Spare>, rest: seq<Spare>)
    requires Linear(later) && OnlyFrom(later, rest)
    requires forall id :: HasId(rest, id) ==> HasId(spares, id)
    requires x.Some? && !x.value.New? ==> HasId(spares, x.value.id) && !HasId(rest, x.value.id)
    ensures Linear((if x.Some? then [x.value] else []) + later) && OnlyFrom((if x.Some? then [x.value] else []) + later, spares)
  {
  }

  /** The rules that get a breaker: those of the resource whose strategy has a generator. */
  function Served(res: string, rules: seq<Rule>): seq<Rule> {
    if rules == [] then []
    else (if rules[0].resource == res && !rules[0].strategy.Custom? then [rules[0]] else []) + Served(res, rules[1..])
  }

  /** RULE ORDER. There is one breaker for every servable rule, in rule order, whatever is reused. */
  lemma {:induction false} PlanFollowsRules(res: string, rules: seq<Rule>, spares: seq<Spare>)
    ensures |Plan(res, rules, spares)| == |Served(res, rules)|
    ensures forall k :: 0 <= k < |Served(res, rules)| ==> Plan(res, rules, spares)[k].forRule == Served(res, rules)[k]
    decreases |rules|
  {
    if rules != [] {
      var (source, rest) := Serve(res, rules[0], spares);
      PlanFollowsRules(res, rules[1..], rest);
    }
  }

  /**
   RELOADING AN EQUAL LIST. When every new rule equals the rule of the old breaker at its position, the plan is
   the old list itself.
   */
  lemma {:induction false} EqualReloadKeepsAll(res: string, rules: seq<Rule>, spares: seq<Spare>)
    requires |rules| == |spares|
    requires forall i :: 0 <= i < |rules| ==> rules[i].resource == res && IsEqualTo(spares[i].rule, rules[i])
    ensures |Plan(res, rules, spares)| == |spares|
    ensures forall i :: 0 <= i < |spares| ==> Plan(res, rules, spares)[i] == Same(spares[i].id, rules[i])
    decreases |rules|
  {
    if rules != [] {
      assert FirstEqual(rules[0], spares) == 0;
      assert RemoveAt(spares, 0) == spares[1..];
      EqualReloadKeepsAll(res, rules[1..], spares[1..]);
    }
  }

  /** A rule with a built-in strategy equals itself, so reloading the very same rules is an equal reload. */
  lemma EqualToItself(r: Rule)
    ensures IsEqualTo(r, r) <==> !r.strategy.Custom?
  {
  }

  // ---------------------------------------------------------------- when a changed rule takes effect

  /** The rule that the breaker from a source goes by. */
  function InForce(source: Source, oldRules: seq<Rule>): Rule {
    if source.Same? && source.id < |oldRules| then oldRules[source.id] else source.forRule
  }

  /** The settings of a rule that equality overlooks, in part or altogether. */
  predicate SameSettings(r: Rule, r': Rule) {
    r.probeNum == r'.probeNum && r.threshold == r'.threshold
  }

  /** Going through the rules, every old breaker that is going to be kept has the very settings of the rule it is kept for. */
  predicate NothingOverlooked(res: string, rules: seq<Rule>, spares: seq<Spare>)
    decreases |rules|
  {
    rules == [] ||
    (var k := FirstEqual(rules[0], spares);
     && (rules[0].resource == res && k >= 0 ==> SameSettings(spares[k].rule, rules[0]))
     && NothingOverlooked(res, rules[1..], Serve(res, rules[0], spares).1))
  }

  ghost predicate SparesOf(spares: seq<Spare>, oldRules: seq<Rule>) {
    forall j :: 0 <= j < |spares| ==> spares[j].id < |oldRules| && spares[j].rule == oldRules[spares[j].id]
  }

  lemma ServeKeepsSpares(res: string, r: Rule, spares: seq<Spare>, oldRules: seq<Rule>)
    requires SparesOf(spares, oldRules)
    ensures SparesOf(Serve(res, r, spares).1, oldRules)
  {
    forall k | 0 <= k < |spares|
      ensures SparesOf(RemoveAt(spares, k), oldRules)
    {
      var rest := RemoveAt(spares, k);
      assert forall j {:trigger rest[j]} :: 0 <= j < |rest| ==> rest[j] == spares[if j < k then j else j + 1];
    }
  }

  /** Every breaker of the plan goes by the settings of the rule it is for. */
  ghost predicate InEffect(plan: seq<Source>, oldRules: seq<Rule>) {
    forall k :: 0 <= k < |plan| ==> SameSettings(InForce(plan[k], oldRules), plan[k].forRule)
  }

  lemma InEffectCons(source: Option<Source>, later: seq<Source>, oldRules: seq<Rule>)
    ensures InEffect((if source.Some? then [source.value] else []) + later, oldRules) <==>
              (source.Some? ==> SameSettings(InForce(source.value, oldRules), source.value.forRule)) && InEffect(later, oldRules)
  {
    var plan := (if source.Some? then [source.value] else []) + later;
    if source.Some? {
      assert plan[0] == source.value;
      assert forall k {:trigger later[k]} :: 0 <= k < |later| ==> plan[k + 1] == later[k];
      assert forall k {:trigger plan[k]} :: 1 <= k < |plan| ==> plan[k] == later[k - 1];
    } else {
      assert plan == later;
    }
  }

  /** TAKING EFFECT. A reload puts the settings of all new rules in force exactly when it overlooks no difference. */
  lemma {:induction false} ReloadTakesEffectIff(res: string, rules: seq<Rule>, spares: seq<Spare>, oldRules: seq<Rule>)
    requires SparesOf(spares, oldRules)
    ensures InEffect(Plan(res, rules, spares), oldRules) <==> NothingOverlooked(res, rules, spares)
    decreases |rules|
  {
    if rules != [] {
      var (source, rest) := Serve(res, rules[0], spares);
      ServeKeepsSpares(res, rules[0], spares, oldRules);
      ReloadTakesEffectIff(res, rules[1..], rest, oldRules);
      InEffectCons(source, Plan(res, rules[1..], rest), oldRules);
    }
  }

  /** What is in force differs from the rule asked for at most by what equality overlooks. */
  lemma {:induction false} InForceIsEqual(res: string, rules: seq<Rule>, spares: seq<Spare>, oldRules: seq<Rule>, k: nat)
    requires SparesOf(spares, oldRules) && k < |Plan(res, rules, spares)|
    ensures var source := Plan(res, rules, spares)[k];
            InForce(source, oldRules) == source.forRule || IsEqualTo(InForce(source, oldRules), source.forRule)
    decreases |rules|
  {
    var (source, rest) := Serve(res, rules[0], spares);
    ServeKeepsSpares(res, rules[0], spares, oldRules);
    if source.None? {
      InForceIsEqual(res, rules[1..], rest, oldRules, k);
    } else if k > 0 {
      InForceIsEqual(res, rules[1..], rest, oldRules, k - 1);
    }
  }

  /** A reload that changes the number of probes only keeps the old breaker, whatever the numbers. */
  lemma {:induction false} ChangedProbeNumberIsOverlooked(r: Rule, res: string, n: nat)
    requires r.resource == res && !r.strategy.Custom?
    ensures Plan(res, [r.(probeNum := n)], [Spare(0, r)]) == [Same(0, r.(probeNum := n))]
  {
    KeptForEqual(r, r.(probeNum := n), res);
  }

  lemma KeptForEqual(old': Rule, new': Rule, res: string)
    requires IsEqualTo(old', new') && new'.resource == res
    ensures Plan(res, [new'], [Spare(0, old')]) == [Same(0, new')]
  {
    assert FirstEqual(new', [Spare(0, old')]) == 0;
    assert Plan(res, [], RemoveAt([Spare(0, old')], 0)) == [];
    assert [new'][1..] == [];
  }

  /**
   A threshold less than 10^-8 away is taken for the same, which shows where it is cut to a whole number: asked for
   4.999999995 errors, which is 4, the breaker that trips at 5 is kept.
   */
  lemma {:induction false} ChangedThresholdIsOverlooked(r: Rule, res: string, total: nat)
    requires r.resource == res && r.strategy == ErrorCount && r.threshold == 5.0 && total >= r.minRequestAmount
    ensures var r' := r.(threshold := 4.999999995);
            && Plan(res, [r'], [Spare(0, r)]) == [Same(0, r')]
            && Trips(r', 4, total) && !Trips(r, 4, total)
  {
    KeptForEqual(r, r.(threshold := 4.999999995), res);
  }

  // ---------------------------------------------------------------- reuse by the fields of the rules

  /** All settings of a breaker's rule agree but the number of probes, and the threshold to within 10^-8. */
  predicate SameForKeeping(old': Rule, new': Rule) {
    && old'.resource == new'.resource && old'.strategy == new'.strategy
    && old'.retryTimeoutMs == new'.retryTimeoutMs && old'.minRequestAmount == new'.minRequestAmount
    && old'.statIntervalMs == new'.statIntervalMs && old'.statSlidingWindowBucketCount == new'.statSlidingWindowBucketCount
    && old'.limitApp == new'.limitApp
    && (new'.strategy == SlowRequestRatio ==> old'.maxAllowedRtMs == new'.maxAllowedRtMs)
    && -0.00000001 < old'.threshold - new'.threshold < 0.00000001
  }

  /** The statistic has the shape that the new rule asks for, and counts for the same resource and strategy. */
  predicate SameForSharing(old': Rule, new': Rule) {
    && old'.resource == new'.resource && old'.strategy == new'.strategy
    && old'.statIntervalMs == new'.statIntervalMs && old'.statSlidingWindowBucketCount == new'.statSlidingWindowBucketCount
  }

  lemma EqualByFields(old': Rule, new': Rule)
    ensures IsEqualTo(old', new') <==> !new'.strategy.Custom? && SameForKeeping(old', new')
    ensures IsStatReusable(old', new') <==> SameForSharing(old', new')
  {
  }

  /** An old breaker that no earlier entry of the plan uses. */
  ghost predicate Unused(plan: seq<Source>, k: nat, spares: seq<Spare>, id: nat)
    requires k <= |plan|
  {
    HasId(spares, id) && forall j :: 0 <= j < k && !plan[j].New? ==> plan[j].id != id
  }

  ghost predicate InIdOrder(spares: seq<Spare>) {
    forall i, j :: 0 <= i < j < |spares| ==> spares[i].id < spares[j].id
  }

  ghost predicate Keepable(plan: seq<Source>, k: nat, spares: seq<Spare>, oldRules: seq<Rule>, id: nat)
    requires k < |plan|
  {
    id < |oldRules| && Unused(plan, k, spares, id) && SameForKeeping(oldRules[id], plan[k].forRule)
  }

  ghost predicate Shareable(plan: seq<Source>, k: nat, spares: seq<Spare>, oldRules: seq<Rule>, id: nat)
    requires k < |plan|
  {
    id < |oldRules| && Unused(plan, k, spares, id) && SameForSharing(oldRules[id], plan[k].forRule)
  }

  /** The first unused old breaker whose rule is good for keeping, or failing that for sharing, is where a breaker comes from. */
  ghost predicate SourceByFields(plan: seq<Source>, k: nat, spares: seq<Spare>, oldRules: seq<Rule>)
    requires k < |plan|
  {
    match plan[k]
    case Same(id, _) =>
      Keepable(plan, k, spares, oldRules, id) && forall other: nat :: other < id ==> !Keepable(plan, k, spares, oldRules, other)
    case SharedStat(id, _) =>
      && (forall other: nat :: !Keepable(plan, k, spares, oldRules, other))
      && Shareable(plan, k, spares, oldRules, id) && forall other: nat :: other < id ==> !Shareable(plan, k, spares, oldRules, other)
    case New(_) =>
      forall other: nat :: !Keepable(plan, k, spares, oldRules, other) && !Shareable(plan, k, spares, oldRules, other)
  }

  /** Entries for the same rule with the same old breakers unused have the same claim on them. */
  lemma SameClaims(plan: seq<Source>, k: nat, spares: seq<Spare>, plan': seq<Source>, k': nat, spares': seq<Spare>, oldRules: seq<Rule>)
    requires k < |plan| && k' < |plan'| && plan[k] == plan'[k'] && SourceByFields(plan, k, spares, oldRules)
    requires forall id: nat :: Unused(plan', k', spares', id) <==> Unused(plan, k, spares, id)
    ensures SourceByFields(plan', k', spares', oldRules)
  {
    hide SameForKeeping, SameForSharing, Unused;
    forall id: nat
      ensures Keepable(plan', k', spares', oldRules, id) <==> Keepable(plan, k, spares, oldRules, id)
      ensures Shareable(plan', k', spares', oldRules, id) <==> Shareable(plan, k, spares, oldRules, id)
    {
    }
  }

  lemma RemovedInOrder(spares: seq<Spare>, k: nat)
    requires InIdOrder(spares) && k < |spares|
    ensures InIdOrder(RemoveAt(spares, k)) && DistinctIds(spares)
    ensures forall id :: HasId(RemoveAt(spares, k), id) <==> HasId(spares, id) && id != spares[k].id
  {
    var rest := RemoveAt(spares, k);
    assert forall j {:trigger rest[j]} :: 0 <= j < |rest| ==> rest[j] == spares[if j < k then j else j + 1];
    forall id | HasId(spares, id) && id != spares[k].id
      ensures HasId(rest, id)
    {
      var j :| 0 <= j < |spares| && spares[j].id == id;
      assert rest[if j < k then j else j - 1].id == id;
    }
    RemovedId(spares, k);
  }

  /** The source that a rule gets when it is served first. */
  lemma {:induction false} ServedByFields(res: string, r: Rule, spares: seq<Spare>, oldRules: seq<Rule>)
    requires SparesOf(spares, oldRules) && InIdOrder(spares)
    ensures var (source, rest) := Serve(res, r, spares);
            && (source.Some? <==> r.resource == res && !r.strategy.Custom?)
            && (source.Some? ==> source.value.forRule == r && SourceByFields([source.value], 0, spares, oldRules))
            && InIdOrder(rest)
            && forall id :: HasId(rest, id) <==> HasId(spares, id) && !(source.Some? && !source.value.New? && source.value.id == id)
  {
    hide IsEqualTo, IsStatReusable, RemoveAt, SameForKeeping, SameForSharing;
    forall j | 0 <= j < |spares|
      ensures IsEqualTo(spares[j].rule, r) <==> !r.strategy.Custom? && SameForKeeping(oldRules[spares[j].id], r)
      ensures IsStatReusable(spares[j].rule, r) <==> SameForSharing(oldRules[spares[j].id], r)
    {
      EqualByFields(spares[j].rule, r);
    }
    var e, u := FirstEqual(r, spares), FirstReusable(r, spares);
    if e >= 0 {
      RemovedInOrder(spares, e);
    }
    if u >= 0 {
      RemovedInOrder(spares, u);
    }
  }

  /** What holds of a later source after a rule was served holds of it from the start. */
  lemma SourceLater(source: Source, later: seq<Source>, k: nat, spares: seq<Spare>, rest: seq<Spare>, oldRules: seq<Rule>)
    requires k < |later| && SourceByFields(later, k, rest, oldRules)
    requires forall id :: HasId(rest, id) <==> HasId(spares, id) && !(!source.New? && source.id == id)
    ensures SourceByFields([source] + later, k + 1, spares, oldRules)
  {
    hide SameForKeeping, SameForSharing, HasId;
    var plan := [source] + later;
    forall id: nat
      ensures Unused(plan, k + 1, spares, id) <==> Unused(later, k, rest, id)
    {
      assert plan[0] == source;
      assert forall j {:trigger later[j]} :: 0 <= j < k ==> plan[j + 1] == later[j];
      assert forall j {:trigger plan[j]} :: 1 <= j < k + 1 ==> plan[j] == later[j - 1];
    }
    SameClaims(later, k, rest, plan, k + 1, spares, oldRules);
  }

  lemma SourceFirst(source: Source, later: seq<Source>, spares: seq<Spare>, oldRules: seq<Rule>)
    requires SourceByFields([source], 0, spares, oldRules)
    ensures SourceByFields([source] + later, 0, spares, oldRules)
  {
    hide SameForKeeping, SameForSharing, HasId;
    SameClaims([source], 0, spares, [source] + later, 0, spares, oldRules);
  }

  lemma {:induction false} PlanOfSparesByFields(res: string, rules: seq<Rule>, spares: seq<Spare>, oldRules: seq<Rule>, k: nat)
    requires SparesOf(spares, oldRules) && InIdOrder(spares) && k < |Plan(res, rules, spares)|
    ensures SourceByFields(Plan(res, rules, spares), k, spares, oldRules)
    decreases |rules|
  {
    hide SourceByFields, Serve;
    var (source, rest) := Serve(res, rules[0], spares);
    ServeKeepsSpares(res, rules[0], spares, oldRules);
    ServedByFields(res, rules[0], spares, oldRules);
    var later := Plan(res, rules[1..], rest);
    if source.None? {
      assert Plan(res, rules, spares) == later;
      PlanOfSparesByFields(res, rules[1..], rest, oldRules, k);
      SameIdsSameSource(later, k, spares, rest, oldRules);
    } else if k == 0 {
      SourceFirst(source.value, later, spares, oldRules);
    } else {
      PlanOfSparesByFields(res, rules[1..], rest, oldRules, k - 1);
      SourceLater(source.value, later, k - 1, spares, rest, oldRules);
    }
  }

  lemma SameIdsSameSource(plan: seq<Source>, k: nat, spares: seq<Spare>, rest: seq<Spare>, oldRules: seq<Rule>)
    requires k < |plan| && SourceByFields(plan, k, rest, oldRules) && forall id :: HasId(rest, id) <==> HasId(spares, id)
    ensures SourceByFields(plan, k, spares, oldRules)
  {
    hide SameForKeeping, SameForSharing, HasId;
    SameClaims(plan, k, rest, plan, k, spares, oldRules);
  }

  /** Old breakers that no earlier entry of the plan uses. */
  ghost predicate Free(plan: seq<Source>, k: nat, id: nat)
    requires k <= |plan|
  {
    forall j :: 0 <= j < k && !plan[j].New? ==> plan[j].id != id
  }

  /** The `id`-th old breaker is free, and all settings but the number of probes are those asked for. */
  ghost predicate KeptFor(plan: seq<Source>, k: nat, oldRules: seq<Rule>, id: nat)
    requires k < |plan|
  {
    id < |oldRules| && Free(plan, k, id) && SameForKeeping(oldRules[id], plan[k].forRule)
  }

  /** The `id`-th old breaker is free, and its statistic is as asked for. */
  ghost predicate SharedFor(plan: seq<Source>, k: nat, oldRules: seq<Rule>, id: nat)
    requires k < |plan|
  {
    id < |oldRules| && Free(plan, k, id) && SameForSharing(oldRules[id], plan[k].forRule)
  }

  lemma SparesHaveAllIds(oldRules: seq<Rule>)
    ensures SparesOf(Spares(oldRules), oldRules) && InIdOrder(Spares(oldRules))
    ensures forall id: nat :: HasId(Spares(oldRules), id) <==> id < |oldRules|
  {
    forall id: nat | id < |oldRules|
      ensures HasId(Spares(oldRules), id)
    {
      assert Spares(oldRules)[id].id == id;
    }
  }

  /**
   REUSE. In every plan of a reload, a rule that is served keeps an old breaker if and only if some old one that is still free
   has the same settings but the number of probes and a threshold to within 10^-8, and it keeps the first of these; otherwise
   it shares a statistic if and only if some free one has the same resource, strategy, interval and number of buckets, and it
   takes the first of these.
   */
  lemma {:induction false} PlanByFields(res: string, rules: seq<Rule>, oldRules: seq<Rule>, k: nat)
    requires k < |Plan(res, rules, Spares(oldRules))|
    ensures var plan := Plan(res, rules, Spares(oldRules));
            && (plan[k].Same? <==> exists id: nat :: KeptFor(plan, k, oldRules, id))
            && (plan[k].Same? ==> KeptFor(plan, k, oldRules, plan[k].id) && forall id: nat :: id < plan[k].id ==> !KeptFor(plan, k, oldRules, id))
            && (plan[k].SharedStat? <==> !plan[k].Same? && exists id: nat :: SharedFor(plan, k, oldRules, id))
            && (plan[k].SharedStat? ==>
                  SharedFor(plan, k, oldRules, plan[k].id) && forall id: nat :: id < plan[k].id ==> !SharedFor(plan, k, oldRules, id))
  {
    hide SameForKeeping, SameForSharing, HasId, Plan;
    var plan, spares := Plan(res, rules, Spares(oldRules)), Spares(oldRules);
    SparesHaveAllIds(oldRules);
    PlanOfSparesByFields(res, rules, spares, oldRules, k);
    forall id: nat
      ensures Keepable(plan, k, spares, oldRules, id) <==> KeptFor(plan, k, oldRules, id)
      ensures Shareable(plan, k, spares, oldRules, id) <==> SharedFor(plan, k, oldRules, id)
    {
    }
  }

  /** SETTINGS. After every reload the settings in force are those asked for, but for the number of probes and the last digits of the threshold. */
  lemma {:induction false} SettingsInForce(res: string, rules: seq<Rule>, oldRules: seq<Rule>, k: nat)
    requires k < |Plan(res, rules, Spares(oldRules))|
    ensures var asked := Plan(res, rules, Spares(oldRules))[k].forRule;
            var got := InForce(Plan(res, rules, Spares(oldRules))[k], oldRules);
            && got.resource == asked.resource && got.strategy == asked.strategy && got.limitApp == asked.limitApp
            && got.retryTimeoutMs == asked.retryTimeoutMs && got.minRequestAmount == asked.minRequestAmount
            && got.statIntervalMs == asked.statIntervalMs && got.statSlidingWindowBucketCount == asked.statSlidingWindowBucketCount
            && (asked.strategy == SlowRequestRatio ==> got.maxAllowedRtMs == asked.maxAllowedRtMs)
            && -0.00000001 < got.threshold - asked.threshold < 0.00000001
  {
    hide Plan;
    PlanByFields(res, rules, oldRules, k);
  }

  // ---------------------------------------------------------------- the rule manager

  /** A breaker whose statistic has the shape its rule asks for. */
  ghost predicate WellFormed(cb: CircuitBreaker) {
    cb.stat.g == Layout(cb.rule) && Buildable(cb.rule)
  }

  /** A statistic interval of 0 divides by zero when a breaker is made for the rule. */
  predicate Crashes(res: string, r: Rule) {
    r.resource == res && !r.strategy.Custom? && r.statIntervalMs == 0
  }

  /** The width of the field in the source. */
  predicate Fits32(r: Rule) {
    r.statIntervalMs < TWO_TO_THE_32
  }

  /** A rule that an old breaker or its statistic serves has its statistic interval. */
  lemma ServedByOldIsBuildable(old': Rule, new': Rule)
    requires Buildable(old') && (IsEqualTo(old', new') || IsStatReusable(old', new'))
    ensures Buildable(new')
  {
  }

  ghost predicate AllWellFormed(cbs: seq<CircuitBreaker>) {
    forall j :: 0 <= j < |cbs| ==> WellFormed(cbs[j])
  }

  /** No two breakers are the same object or count in the same statistic. */
  ghost predicate DistinctBreakers(cbs: seq<CircuitBreaker>) {
    forall i, j :: 0 <= i < |cbs| && 0 <= j < |cbs| && i != j ==> cbs[i] != cbs[j] && cbs[i].stat != cbs[j].stat
  }

  lemma AppendBreaker(cbs: seq<CircuitBreaker>, made: seq<CircuitBreaker>)
    requires |made| <= 1
    ensures AllWellFormed(cbs) && AllWellFormed(made) ==> AllWellFormed(cbs + made)
    ensures DistinctBreakers(cbs) && (made != [] ==> forall k :: 0 <= k < |cbs| ==> cbs[k] != made[0] && cbs[k].stat != made[0].stat) ==>
              DistinctBreakers(cbs + made)
  {
  }

  function RulesOf(cbs: seq<CircuitBreaker>): seq<Rule> {
    seq(|cbs|, i requires 0 <= i < |cbs| => cbs[i].rule)
  }

  method CalculateReuseIndexFor(r: Rule, oldResCbs: seq<CircuitBreaker>) returns (equalIdx: int, reuseStatIdx: int)
    ensures -1 <= equalIdx < |oldResCbs| && -1 <= reuseStatIdx < |oldResCbs|
    ensures equalIdx >= 0 ==> IsEqualTo(oldResCbs[equalIdx].rule, r)
    ensures forall j :: 0 <= j < (if equalIdx < 0 then |oldResCbs| else equalIdx) ==> !IsEqualTo(oldResCbs[j].rule, r)
    ensures reuseStatIdx >= 0 ==> IsStatReusable(oldResCbs[reuseStatIdx].rule, r)
    ensures equalIdx < 0 ==>
              forall j :: 0 <= j < (if reuseStatIdx < 0 then |oldResCbs| else reuseStatIdx) ==> !IsStatReusable(oldResCbs[j].rule, r)
  {
    equalIdx, reuseStatIdx := -1, -1;
    for idx := 0 to |oldResCbs|
      invariant equalIdx == -1 && -1 <= reuseStatIdx < idx
      invariant forall j :: 0 <= j < idx ==> !IsEqualTo(oldResCbs[j].rule, r)
      invariant reuseStatIdx >= 0 ==> IsStatReusable(oldResCbs[reuseStatIdx].rule, r)
      invariant forall j :: 0 <= j < (if reuseStatIdx < 0 then idx else reuseStatIdx) ==> !IsStatReusable(oldResCbs[j].rule, r)
    {
      var oldRule := oldResCbs[idx].rule;
      if IsEqualTo(oldRule, r) {
        equalIdx := idx;
        break;
      }
      if !IsStatReusable(oldRule, r) {
        continue;
      }
      if reuseStatIdx >= 0 {
        continue;
      }
      reuseStatIdx := idx;
    }
  }

  /** The loop of the method finds the positions that the plan speaks of. */
  lemma SameFirst(r: Rule, spares: seq<Spare>, cbs: seq<CircuitBreaker>, equalIdx: int, reuseIdx: int)
    requires |spares| == |cbs| && forall j {:trigger spares[j]} :: 0 <= j < |spares| ==> spares[j].rule == cbs[j].rule
    requires -1 <= equalIdx < |cbs| && -1 <= reuseIdx < |cbs|
    requires equalIdx >= 0 ==> IsEqualTo(cbs[equalIdx].rule, r)
    requires forall j :: 0 <= j < (if equalIdx < 0 then |cbs| else equalIdx) ==> !IsEqualTo(cbs[j].rule, r)
    requires reuseIdx >= 0 ==> IsStatReusable(cbs[reuseIdx].rule, r)
    requires equalIdx < 0 ==>
               forall j :: 0 <= j < (if reuseIdx < 0 then |cbs| else reuseIdx) ==> !IsStatReusable(cbs[j].rule, r)
    ensures equalIdx == FirstEqual(r, spares)
    ensures equalIdx < 0 ==> reuseIdx == FirstReusable(r, spares)
  {
    var e, u := FirstEqual(r, spares), FirstReusable(r, spares);
    assert e >= 0 ==> IsEqualTo(cbs[e].rule, r);
    assert equalIdx >= 0 ==> IsEqualTo(spares[equalIdx].rule, r);
    assert u >= 0 ==> IsStatReusable(cbs[u].rule, r);
    assert reuseIdx >= 0 ==> IsStatReusable(spares[reuseIdx].rule, r);
  }

  /** The rebuilt breaker is what the plan says: the old object, a new one on an old statistic, or all new. */
  twostate predicate Realizes(source: Source, new cb: CircuitBreaker, oldCbs: seq<CircuitBreaker>)
    reads cb.stat.cells
  {
    match source
    case Same(id, r) => id < |oldCbs| && cb == oldCbs[id]
    case SharedStat(id, r) => id < |oldCbs| && fresh(cb) && cb.rule == r && cb.stat == oldCbs[id].stat
    case New(r) => fresh(cb) && fresh(cb.stat) && cb.rule == r && cb.Valid()
  }

  /** The unused old breakers, as the plan sees them. */
  ghost predicate Matches(spares: seq<Spare>, oldResCbs: seq<CircuitBreaker>, oldCbs: seq<CircuitBreaker>) {
    && |spares| == |oldResCbs|
    && forall j {:trigger spares[j]} :: 0 <= j < |spares| ==>
         spares[j].id < |oldCbs| && oldResCbs[j] == oldCbs[spares[j].id] && spares[j].rule == oldResCbs[j].rule
  }

  lemma MatchesRemoved(spares: seq<Spare>, oldResCbs: seq<CircuitBreaker>, oldCbs: seq<CircuitBreaker>, k: nat)
    requires Matches(spares, oldResCbs, oldCbs) && k < |spares|
    ensures Matches(RemoveAt(spares, k), RemoveAt(oldResCbs, k), oldCbs)
  {
    var rest := RemoveAt(spares, k);
    assert forall j {:trigger rest[j]} :: 0 <= j < |rest| ==> rest[j] == spares[if j < k then j else j + 1];
  }

  /** What was made just now is none of what was made before. */
  ghost predicate Unlike(source: Source, cb: CircuitBreaker, soFar: seq<CircuitBreaker>) {
    && (!source.Same? ==> forall k :: 0 <= k < |soFar| ==> soFar[k] != cb)
    && (source.New? ==> forall k :: 0 <= k < |soFar| ==> soFar[k].stat != cb.stat)
  }

  /** How a rebuilt breaker relates to the old ones: it is one of them, shares the statistic of one, or neither. */
  ghost predicate Placed(source: Source, cb: CircuitBreaker, oldCbs: seq<CircuitBreaker>) {
    match source
    case Same(id, _) => id < |oldCbs| && cb == oldCbs[id]
    case SharedStat(id, _) => id < |oldCbs| && cb !in oldCbs && cb.stat == oldCbs[id].stat
    case New(_) => cb !in oldCbs && forall j :: 0 <= j < |oldCbs| ==> oldCbs[j].stat != cb.stat
  }

  /** A linear plan over distinct old breakers makes a breaker unlike all before it. */
  lemma MadeIsNew(plan: seq<Source>, n: nat, soFar: seq<CircuitBreaker>, cb: CircuitBreaker, oldCbs: seq<CircuitBreaker>)
    requires Linear(plan) && DistinctBreakers(oldCbs) && n < |plan| && |soFar| == n
    requires forall k {:trigger plan[k]} :: 0 <= k < n ==> Placed(plan[k], soFar[k], oldCbs)
    requires Placed(plan[n], cb, oldCbs) && Unlike(plan[n], cb, soFar)
    ensures forall k :: 0 <= k < n ==> soFar[k] != cb && soFar[k].stat != cb.stat
  {
    forall k | 0 <= k < n
      ensures soFar[k] != cb && soFar[k].stat != cb.stat
    {
      var a, b := plan[k], plan[n];
      if !a.New? && !b.New? {
        assert a.id != b.id;
      }
    }
  }

  /** One pass of the loop over the rules: `made` has at most one breaker. */
  method ServeRule(res: string, r: Rule, oldResCbs: seq<CircuitBreaker>, now: nat, ghost spares: seq<Spare>, ghost oldCbs: seq<CircuitBreaker>, ghost soFar: seq<CircuitBreaker>)
      returns (made: seq<CircuitBreaker>, rest: seq<CircuitBreaker>, crashed: bool)
    requires now < TIME_LIMIT && Fits32(r) && Matches(spares, oldResCbs, oldCbs)
    requires AllWellFormed(oldResCbs)
    ensures crashed <==> Crashes(res, r)
    ensures AllWellFormed(rest) && AllWellFormed(made)
    ensures !crashed ==> Matches(Serve(res, r, spares).1, rest, oldCbs)
    ensures !crashed ==>
            var source := Serve(res, r, spares).0;
            && |made| == (if source.Some? then 1 else 0)
            && (source.Some? ==> Realizes(source.value, made[0], oldCbs) && Placed(source.value, made[0], oldCbs) && Unlike(source.value, made[0], soFar))
  {
    hide IsEqualTo, IsStatReusable, Buildable, Matches, AllWellFormed, RemoveAt, FirstEqual, FirstReusable;
    made, rest, crashed := [], oldResCbs, false;
    NoneIsWellFormed();
    if res != r.resource {
      return;
    }
    var equalIdx, reuseStatIdx := CalculateReuseIndexFor(r, oldResCbs);
    PositionsFound(r, spares, oldResCbs, oldCbs, equalIdx, reuseStatIdx);
    if equalIdx >= 0 {
      SpareTaken(spares, oldResCbs, oldCbs, equalIdx);
      ServedByOldIsBuildable(oldResCbs[equalIdx].rule, r);
      IntervalOf(r);
      made, rest := [oldResCbs[equalIdx]], RemoveAt(oldResCbs, equalIdx);
      return;
    }
    if r.strategy.Custom? {
      return;
    }
    if reuseStatIdx >= 0 {
      SpareTaken(spares, oldResCbs, oldCbs, reuseStatIdx);
      ServedByOldIsBuildable(oldResCbs[reuseStatIdx].rule, r);
      rest := RemoveAt(oldResCbs, reuseStatIdx);
    }
    IntervalOf(r);
    if reuseStatIdx < 0 && r.statIntervalMs == 0 {
      return [], oldResCbs, true;
    }
    var cb := NewBreaker(r, oldResCbs, reuseStatIdx, now, oldCbs, soFar);
    OneIsWellFormed(cb);
    made := [cb];
  }

  lemma IntervalOf(r: Rule)
    requires Fits32(r)
    ensures Buildable(r) <==> r.statIntervalMs != 0
  {
  }

  lemma NoneIsWellFormed()
    ensures AllWellFormed([])
  {
  }

  lemma OneIsWellFormed(cb: CircuitBreaker)
    requires WellFormed(cb)
    ensures AllWellFormed([cb])
  {
  }

  lemma PositionsFound(r: Rule, spares: seq<Spare>, cbs: seq<CircuitBreaker>, oldCbs: seq<CircuitBreaker>, equalIdx: int, reuseIdx: int)
    requires Matches(spares, cbs, oldCbs)
    requires -1 <= equalIdx < |cbs| && -1 <= reuseIdx < |cbs|
    requires equalIdx >= 0 ==> IsEqualTo(cbs[equalIdx].rule, r)
    requires forall j :: 0 <= j < (if equalIdx < 0 then |cbs| else equalIdx) ==> !IsEqualTo(cbs[j].rule, r)
    requires reuseIdx >= 0 ==> IsStatReusable(cbs[reuseIdx].rule, r)
    requires equalIdx < 0 ==>
               forall j :: 0 <= j < (if reuseIdx < 0 then |cbs| else reuseIdx) ==> !IsStatReusable(cbs[j].rule, r)
    ensures |spares| == |cbs|
    ensures equalIdx == FirstEqual(r, spares)
    ensures equalIdx < 0 ==> reuseIdx == FirstReusable(r, spares)
  {
    SameFirst(r, spares, cbs, equalIdx, reuseIdx);
  }

  lemma SpareTaken(spares: seq<Spare>, cbs: seq<CircuitBreaker>, oldCbs: seq<CircuitBreaker>, k: nat)
    requires Matches(spares, cbs, oldCbs) && AllWellFormed(cbs) && k < |cbs| == |spares|
    ensures spares[k].id < |oldCbs| && cbs[k] == oldCbs[spares[k].id] && spares[k].rule == cbs[k].rule
    ensures Matches(RemoveAt(spares, k), RemoveAt(cbs, k), oldCbs)
    ensures WellFormed(cbs[k]) && AllWellFormed([cbs[k]]) && AllWellFormed(RemoveAt(cbs, k))
  {
    MatchesRemoved(spares, cbs, oldCbs, k);
    var rest := RemoveAt(cbs, k);
    assert forall j {:trigger rest[j]} :: 0 <= j < |rest| ==> rest[j] == cbs[if j < k then j else j + 1];
  }

  /** A breaker for a rule, on the statistic of an old one or on its own. */
  method NewBreaker(r: Rule, oldResCbs: seq<CircuitBreaker>, reuseStatIdx: int, now: nat, ghost oldCbs: seq<CircuitBreaker>, ghost soFar: seq<CircuitBreaker>)
      returns (cb: CircuitBreaker)
    requires now < TIME_LIMIT && Buildable(r) && !r.strategy.Custom? && -1 <= reuseStatIdx < |oldResCbs|
    requires reuseStatIdx >= 0 ==> IsStatReusable(oldResCbs[reuseStatIdx].rule, r) && WellFormed(oldResCbs[reuseStatIdx])
    ensures fresh(cb) && cb.rule == r && WellFormed(cb) && cb !in oldCbs && cb !in soFar
    ensures reuseStatIdx >= 0 ==> cb.stat == oldResCbs[reuseStatIdx].stat
    ensures reuseStatIdx < 0 ==> fresh(cb.stat) && cb.Valid()
    ensures reuseStatIdx < 0 ==> (forall k :: 0 <= k < |oldCbs| ==> oldCbs[k].stat != cb.stat) && forall k :: 0 <= k < |soFar| ==> soFar[k].stat != cb.stat
  {
    if reuseStatIdx >= 0 {
      cb := new CircuitBreaker.WithStat(r, oldResCbs[reuseStatIdx].stat);
    } else {
      cb := new CircuitBreaker(r, now);
    }
  }

  /** Builds the breakers of a resource from its rules, reusing old breakers and statistics where it can; none if it crashes. */
  method BuildResourceCircuitBreaker(res: string, rulesOfRes: seq<Rule>, oldCbs: seq<CircuitBreaker>, now: nat)
      returns (built: Option<seq<CircuitBreaker>>)
    requires now < TIME_LIMIT && forall r :: r in rulesOfRes ==> Fits32(r)
    requires AllWellFormed(oldCbs)
    ensures built == None <==> exists i :: 0 <= i < |rulesOfRes| && Crashes(res, rulesOfRes[i])
    ensures built.Some? ==> AllWellFormed(built.value)
    ensures built.Some? ==>
              var plan := Plan(res, rulesOfRes, Spares(RulesOf(oldCbs)));
              && |built.value| == |plan|
              && forall k {:trigger plan[k]} :: 0 <= k < |plan| ==> Realizes(plan[k], built.value[k], oldCbs)
    ensures built.Some? ==>
              var oldRules := RulesOf(oldCbs);
              var plan := Plan(res, rulesOfRes, Spares(oldRules));
              RulesOf(built.value) == seq(|plan|, k requires 0 <= k < |plan| => InForce(plan[k], oldRules))
    ensures built.Some? && DistinctBreakers(oldCbs) ==> DistinctBreakers(built.value)
  {
    hide Plan, Serve, Placed, Linear, Unlike, IsEqualTo, IsStatReusable, Buildable, Crashes;
    var oldResCbs, newCbsOfRes := oldCbs, [];
    ghost var spares := Spares(RulesOf(oldCbs));
    ghost var plan := Plan(res, rulesOfRes, spares);
    PlanIsLinear(res, rulesOfRes, spares);
    ghost var distinct := DistinctBreakers(oldCbs);
    for i := 0 to |rulesOfRes|
      invariant Matches(spares, oldResCbs, oldCbs)
      invariant AllWellFormed(oldResCbs) && AllWellFormed(newCbsOfRes)
      invariant |newCbsOfRes| <= |plan| && plan[|newCbsOfRes|..] == Plan(res, rulesOfRes[i..], spares)
      invariant forall k {:trigger plan[k]} :: 0 <= k < |newCbsOfRes| ==> Realizes(plan[k], newCbsOfRes[k], oldCbs)
      invariant forall k {:trigger plan[k]} :: 0 <= k < |newCbsOfRes| ==> Placed(plan[k], newCbsOfRes[k], oldCbs)
      invariant distinct ==> DistinctBreakers(newCbsOfRes)
      invariant forall j :: 0 <= j < i ==> !Crashes(res, rulesOfRes[j])
    {
      ghost var n := |newCbsOfRes|;
      ghost var source := PlanStep(res, rulesOfRes, i, spares, plan, n);
      var made, rest, crashed := ServeRule(res, rulesOfRes[i], oldResCbs, now, spares, oldCbs, newCbsOfRes);
      if crashed {
        return None;
      }
      if distinct && made != [] {
        MadeIsNew(plan, n, newCbsOfRes, made[0], oldCbs);
      }
      AppendBreaker(newCbsOfRes, made);
      oldResCbs, spares := rest, Serve(res, rulesOfRes[i], spares).1;
      newCbsOfRes := newCbsOfRes + made;
    }
    PlanIsDone(res, rulesOfRes, spares);
    return Some(newCbsOfRes);
  }

  lemma PlanIsDone(res: string, rules: seq<Rule>, spares: seq<Spare>)
    ensures Plan(res, rules[|rules|..], spares) == []
  {
  }

  /** The next entry of the plan is how the next rule is served. */
  lemma PlanStep(res: string, rules: seq<Rule>, i: nat, spares: seq<Spare>, plan: seq<Source>, n: nat) returns (source: Option<Source>)
    requires i < |rules| && n <= |plan| && plan[n..] == Plan(res, rules[i..], spares)
    ensures source == Serve(res, rules[i], spares).0
    ensures source.Some? ==> n < |plan| && plan[n] == source.value
    ensures var n' := if source.Some? then n + 1 else n;
            n' <= |plan| && plan[n'..] == Plan(res, rules[i + 1..], Serve(res, rules[i], spares).1)
  {
    source := Serve(res, rules[i], spares).0;
    assert rules[i..][0] == rules[i] && rules[i..][1..] == rules[i + 1..];
    if source.Some? {
      assert plan[n] == plan[n..][0] && plan[n + 1..] == plan[n..][1..];
    }
  }
}
