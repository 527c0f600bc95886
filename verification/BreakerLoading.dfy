/**
 Loading the rules of one resource (core/circuitbreaker/rule_manager.go): which rules are recorded as valid, which get a
 breaker, and when the two are the same.
 */
module BreakerLoading {
  import opened BreakerReload
  import opened CircuitBreakers
  import opened LeapArrays
  import opened Prelude

  /** The rules without a fault, in their order. */
  function ValidOnes(rules: seq<Rule>): seq<Rule> {
    if rules == [] then []
    else (if IsValidRule(rules[0]) then [rules[0]] else []) + ValidOnes(rules[1..])
  }

  /** A rule is recorded exactly if it has a resource, times that are not 0, and a threshold in the range of its strategy. */
  lemma {:induction false} RecordedIff(rules: seq<Rule>, r: Rule)
    ensures r in ValidOnes(rules) <==>
              && r in rules && r.resource != "" && r.statIntervalMs != 0 && r.retryTimeoutMs != 0 && 0.0 <= r.threshold
              && (r.strategy == SlowRequestRatio ==> r.threshold <= 1.0) && (r.strategy == ErrorRatio ==> r.threshold <= 1.0)
  {
    if rules != [] {
      RecordedIff(rules[1..], r);
      assert rules == [rules[0]] + rules[1..];
    }
  }

  predicate Servable(res: string, r: Rule) {
    r.resource == res && !r.strategy.Custom?
  }

  /** Every rule of the list that can be served is valid. */
  ghost predicate ServableAreValid(res: string, rules: seq<Rule>) {
    forall r :: r in rules && Servable(res, r) ==> IsValidRule(r)
  }

  lemma {:induction false} ValidOnesSubset(res: string, rules: seq<Rule>)
    ensures |Served(res, ValidOnes(rules))| <= |Served(res, rules)|
    ensures |Served(res, ValidOnes(rules))| == |Served(res, rules)| <==> ServableAreValid(res, rules)
    ensures ServableAreValid(res, rules) ==> Served(res, ValidOnes(rules)) == Served(res, rules)
  {
    hide IsValidRule;
    if rules != [] {
      var r, rest := rules[0], rules[1..];
      ValidOnesSubset(res, rest);
      assert rules == [r] + rest;
      assert ServableAreValid(res, rules) <==> (Servable(res, r) ==> IsValidRule(r)) && ServableAreValid(res, rest);
      if IsValidRule(r) {
        assert ValidOnes(rules)[1..] == ValidOnes(rest);
      } else {
        assert [] + ValidOnes(rest) == ValidOnes(rest);
      }
      assert !Servable(res, r) ==> [] + Served(res, rest) == Served(res, rest);
    }
  }

  /** The rules that the breakers of a plan are for. */
  function RulesFor(plan: seq<Source>): seq<Rule> {
    seq(|plan|, k requires 0 <= k < |plan| => plan[k].forRule)
  }

  /**
   VALID RULES. A load installs breakers for exactly the rules that it records as valid and can serve, if and only if
   every rule of the list that can be served is valid: the breakers are built from the list as it came.
   */
  lemma {:induction false} InstalledAreRecordedIff(res: string, rules: seq<Rule>, spares: seq<Spare>)
    ensures RulesFor(Plan(res, rules, spares)) == Served(res, ValidOnes(rules)) <==> ServableAreValid(res, rules)
  {
    PlanFollowsRules(res, rules, spares);
    assert RulesFor(Plan(res, rules, spares)) == Served(res, rules);
    ValidOnesSubset(res, rules);
  }

  /** An invalid rule gets a breaker though it is not recorded, for instance one with a retry timeout of 0. */
  lemma {:induction false} InvalidRuleIsServed(res: string, r: Rule)
    requires Servable(res, r) && !IsValidRule(r)
    ensures Plan(res, [r], []) == [New(r)] && ValidOnes([r]) == []
    ensures r.retryTimeoutMs == 0 && r.statIntervalMs > 0 ==> !Crashes(res, r)
  {
    assert [r][1..] == [];
    assert FirstEqual(r, []) == -1 && FirstReusable(r, []) == -1;
    assert Plan(res, [], []) == [];
  }

  datatype LoadError = EmptyResource | DividedByZero

  class RuleManager {
    var breakers: map<string, seq<CircuitBreaker>>
    var breakerRules: map<string, seq<Rule>>
    var currentRules: map<string, seq<Rule>>

    ghost predicate Valid()
      reads this
    {
      forall res :: res in breakers ==> AllWellFormed(breakers[res]) && DistinctBreakers(breakers[res])
    }

    constructor ()
      ensures Valid() && breakers == map[] && breakerRules == map[] && currentRules == map[]
    {
      breakers, breakerRules, currentRules := map[], map[], map[];
    }

    function BreakersOf(res: string): seq<CircuitBreaker>
      reads this
    {
      if res in breakers then breakers[res] else []
    }

    /** Replaces the rules of one resource; nothing to do when they are the ones it has. */
    method LoadRulesOfResource(res: string, rules: seq<Rule>, now: nat) returns (loaded: bool, err: Option<LoadError>)
      requires Valid() && now < TIME_LIMIT && forall r :: r in rules ==> Fits32(r)
      modifies this
      ensures Valid()
      ensures err == Some(EmptyResource) <==> res == ""
      ensures loaded <==> res != "" && (rules == [] || res !in old(currentRules) || old(currentRules[res]) != rules)
      ensures err == Some(DividedByZero) <==> loaded && exists i :: 0 <= i < |rules| && Crashes(res, rules[i])
      ensures !loaded || err.Some? ==> breakers == old(breakers) && breakerRules == old(breakerRules) && currentRules == old(currentRules)
      ensures loaded && rules == [] ==>
                breakers == old(breakers) - {res} && breakerRules == old(breakerRules) - {res} && currentRules == old(currentRules) - {res}
      ensures loaded && rules != [] && err == None ==>
                var oldRules := RulesOf(old(BreakersOf(res)));
                var plan := Plan(res, rules, Spares(oldRules));
                && currentRules == old(currentRules)[res := rules]
                && breakers - {res} == old(breakers) - {res}
                && (res in breakers <==> plan != [])
                && RulesOf(BreakersOf(res)) == seq(|plan|, k requires 0 <= k < |plan| => InForce(plan[k], oldRules))
                && breakerRules == if plan == [] then old(breakerRules) - {res} else old(breakerRules)[res := ValidOnes(rules)]
    {
      if res == "" {
        return false, Some(EmptyResource);
      }
      if rules == [] {
        currentRules := currentRules - {res};
        breakers := breakers - {res};
        breakerRules := breakerRules - {res};
        return true, None;
      }
      if res in currentRules && currentRules[res] == rules {
        return false, None;
      }
      err := OnResourceRuleUpdate(res, rules, now);
      return true, err;
    }

    /** Records the valid rules but builds from all of them. A crash is recovered from and leaves everything as it was. */
    method OnResourceRuleUpdate(res: string, rawRules: seq<Rule>, now: nat) returns (err: Option<LoadError>)
      requires Valid() && now < TIME_LIMIT && forall r :: r in rawRules ==> Fits32(r)
      modifies this
      ensures Valid()
      ensures err == if exists i :: 0 <= i < |rawRules| && Crashes(res, rawRules[i]) then Some(DividedByZero) else None
      ensures err.Some? ==> breakers == old(breakers) && breakerRules == old(breakerRules) && currentRules == old(currentRules)
      ensures err == None ==>
                var oldRules := RulesOf(old(BreakersOf(res)));
                var plan := Plan(res, rawRules, Spares(oldRules));
                && currentRules == old(currentRules)[res := rawRules]
                && breakers - {res} == old(breakers) - {res}
                && (res in breakers <==> plan != [])
                && RulesOf(BreakersOf(res)) == seq(|plan|, k requires 0 <= k < |plan| => InForce(plan[k], oldRules))
                && breakerRules == if plan == [] then old(breakerRules) - {res} else old(breakerRules)[res := ValidOnes(rawRules)]
    {
      hide Crashes, Plan, AllWellFormed, DistinctBreakers, IsValidRule;
      var validRules := FilterValid(rawRules);
      NoBreakersAreDistinct();
      var built := BuildResourceCircuitBreaker(res, rawRules, BreakersOf(res), now);
      if built == None {
        return Some(DividedByZero);
      }
      if built.value == [] {
        breakers := breakers - {res};
        breakerRules := breakerRules - {res};
      } else {
        breakers := breakers[res := built.value];
        breakerRules := breakerRules[res := validRules];
      }
      currentRules := currentRules[res := rawRules];
      return None;
    }

    static method FilterValid(rules: seq<Rule>) returns (valid: seq<Rule>)
      ensures valid == ValidOnes(rules)
    {
      valid := [];
      for i := 0 to |rules|
        invariant valid + ValidOnes(rules[i..]) == ValidOnes(rules)
      {
        assert rules[i..][1..] == rules[i + 1..];
        if IsValidRule(rules[i]) {
          valid := valid + [rules[i]];
        }
      }
    }
  }

  lemma NoBreakersAreDistinct()
    ensures AllWellFormed([]) && DistinctBreakers([])
  {
  }
}
