/**
 Weighted routing (core/weight_router/rule_manager.go): which rules apply, and the choice of a node in exact proportion
 to the weights.
 */
module WeightRouters {
  import opened Arithmetic
  import opened Prelude

  type int64 = x: int | -0x8000_0000_0000_0000 <= x < 0x8000_0000_0000_0000

  const CLIENT_WEIGHT_RULE: int := 1
  const SERVER_WEIGHT_RULE: int := 2

  const DEFAULT_WEIGHT: int64 := 10000

  datatype Rule = Rule(serverServiceName: string, targetAddress: string, weight: int64, ruleType: int)

  datatype RuleError = EmptyAddress | InvalidWeight | InvalidRuleType

  datatype RouteError = TotalWeightOverflow | TotalWeightZero

  function RuleFault(r: Rule): Option<RuleError> {
    if r.targetAddress == "" then Some(EmptyAddress)
    else if r.weight < 0 then Some(InvalidWeight)
    else if r.ruleType != CLIENT_WEIGHT_RULE && r.ruleType != SERVER_WEIGHT_RULE then Some(InvalidRuleType)
    else None
  }

  // ---------------------------------------------------------------- choosing by weight

  function Sum(ws: seq<int>): int {
    if ws == [] then 0 else Sum(ws[..|ws| - 1]) + ws[|ws| - 1]
  }

  ghost predicate NonNegative(ws: seq<int>) {
    forall i :: 0 <= i < |ws| ==> ws[i] >= 0
  }

  /** The first node whose prefix sum reaches the bucket. */
  function Reached(ws: seq<int>, bucket: int): Option<nat> {
    if ws == [] then None
    else
      match Reached(ws[..|ws| - 1], bucket)
      case Some(i) => Some(i)
      case None => if bucket <= Sum(ws) then Some((|ws| - 1) as nat) else None
  }

  /** `int64` arithmetic wraps around. */
  function Wrapped(x: int): int64
    requires -TWO_TO_THE_64 <= x < TWO_TO_THE_64
  {
    if x > MAX_INT64 then x - TWO_TO_THE_64 else if x < -MAX_INT64 - 1 then x + TWO_TO_THE_64 else x
  }

  function LastOf(totals: seq<int64>): int64 {
    if totals == [] then 0 else totals[|totals| - 1]
  }

  /** The running totals as the code adds them up, or none if its test for overflow strikes. */
  function Totals(ws: seq<int64>): (r: Option<seq<int64>>)
    ensures r.Some? ==> |r.value| == |ws|
  {
    if ws == [] then Some([])
    else
      var w := ws[|ws| - 1];
      match Totals(ws[..|ws| - 1])
      case None => None
      case Some(totals) =>
        var t := LastOf(totals);
        if w > Wrapped(MAX_INT64 - t) then None else Some(totals + [Wrapped(t + w)])
  }

  /** The first total that reaches the bucket. */
  function FirstAtLeast(totals: seq<int64>, bucket: int): (i: Option<nat>)
    ensures i.Some? ==> i.value < |totals| && bucket <= totals[i.value] && forall j :: 0 <= j < i.value ==> totals[j] < bucket
    ensures i.None? ==> forall j :: 0 <= j < |totals| ==> totals[j] < bucket
  {
    if totals == [] then None
    else
      match FirstAtLeast(totals[..|totals| - 1], bucket)
      case Some(i) => Some(i)
      case None => if bucket <= totals[|totals| - 1] then Some((|totals| - 1) as nat) else None
  }

  /** The whole choice; `hash` is the random number. */
  function Chosen(ws: seq<int64>, hash: nat): Result<nat, RouteError> {
    match Totals(ws)
    case None => Err(TotalWeightOverflow)
    case Some(totals) =>
      match FirstAtLeast(totals, if LastOf(totals) > 0 then hash % LastOf(totals) + 1 else 1)
      case Some(i) => Ok(i)
      case None => Err(TotalWeightZero)
  }

  /** With weights that are not negative the totals are the sums, as long as they fit, and the test is right. */
  lemma {:induction false} TotalsAreSums(ws: seq<int64>)
    requires NonNegative(ws)
    ensures Totals(ws).Some? <==> Sum(ws) <= MAX_INT64
    ensures Totals(ws).Some? ==> forall i :: 0 <= i < |ws| ==> Totals(ws).value[i] == Sum(ws[..i + 1])
    ensures Totals(ws).Some? ==> LastOf(Totals(ws).value) == Sum(ws)
    ensures Sum(ws) >= 0
  {
    if ws != [] {
      var n := |ws| - 1;
      TotalsAreSums(ws[..n]);
      assert ws[..n + 1] == ws;
      if Totals(ws).Some? {
        forall i | 0 <= i < n
          ensures Totals(ws).value[i] == Sum(ws[..i + 1])
        {
          assert ws[..n][..i + 1] == ws[..i + 1];
        }
      }
    }
  }

  /** So the choice is by the sums. */
  lemma {:induction false} ChosenBySums(ws: seq<int64>, hash: nat)
    requires NonNegative(ws)
    ensures Chosen(ws, hash) ==
              if Sum(ws) > MAX_INT64 then Err(TotalWeightOverflow)
              else
                match Reached(ws, if Sum(ws) > 0 then hash % Sum(ws) + 1 else 1)
                case Some(i) => Ok(i)
                case None => Err(TotalWeightZero)
  {
    hide Totals, Sum, FirstAtLeast, Reached;
    TotalsAreSums(ws);
    if Sum(ws) <= MAX_INT64 {
      var totals, bucket := Totals(ws).value, if Sum(ws) > 0 then hash % Sum(ws) + 1 else 1;
      ReachedIsFirst(ws, totals, bucket);
    }
  }

  lemma {:induction false} ReachedIsFirst(ws: seq<int64>, totals: seq<int64>, bucket: int)
    requires |ws| == |totals| && forall i :: 0 <= i < |ws| ==> totals[i] == Sum(ws[..i + 1])
    ensures FirstAtLeast(totals, bucket) == Reached(ws, bucket)
  {
    if ws != [] {
      var n := |ws| - 1;
      assert ws[..n + 1] == ws;
      forall i | 0 <= i < n
        ensures totals[..n][i] == Sum(ws[..n][..i + 1])
      {
        assert ws[..n][..i + 1] == ws[..i + 1];
        assert totals[..n][i] == totals[i];
      }
      ReachedIsFirst(ws[..n], totals[..n], bucket);
    }
  }

  /** A total below zero makes the test for overflow strike at once, whatever follows. */
  lemma {:induction false} NegativeTotalLooksLikeOverflow(ws: seq<int64>, w: int64, hash: nat)
    requires Totals(ws).Some? && LastOf(Totals(ws).value) < 0 && w >= 0
    ensures Chosen(ws + [w], hash) == Err(TotalWeightOverflow)
  {
    assert (ws + [w])[..|ws|] == ws;
  }

  lemma {:induction false} SumsRise(ws: seq<int>, i: nat, j: nat)
    requires NonNegative(ws) && i <= j <= |ws|
    ensures 0 <= Sum(ws[..i]) <= Sum(ws[..j])
  {
    if i < j {
      SumsRise(ws, i, j - 1);
      assert ws[..j][..j - 1] == ws[..j - 1];
    } else if i > 0 {
      SumsRise(ws, i - 1, i - 1);
      assert ws[..i][..i - 1] == ws[..i - 1];
    }
  }

  /** A bucket reaches node `i` exactly when it lies behind the weights before `i` and within those up to `i`. */
  lemma {:induction false} ReachedIffBetween(ws: seq<int>, bucket: int, i: nat)
    requires NonNegative(ws) && i < |ws| && bucket > 0
    ensures Reached(ws, bucket) == Some(i) <==> Sum(ws[..i]) < bucket <= Sum(ws[..i + 1])
  {
    var n := |ws| - 1;
    assert ws[..n + 1] == ws;
    if i < n {
      ReachedIffBetween(ws[..n], bucket, i);
      assert ws[..n][..i] == ws[..i] && ws[..n][..i + 1] == ws[..i + 1];
    } else {
      NotReachedIffBeyond(ws[..n], bucket);
    }
    ReachedIsBelow(ws[..n], bucket);
  }

  lemma {:induction false} ReachedIsBelow(ws: seq<int>, bucket: int)
    ensures Reached(ws, bucket).Some? ==> Reached(ws, bucket).value < |ws|
  {
    if ws != [] {
      ReachedIsBelow(ws[..|ws| - 1], bucket);
    }
  }

  lemma {:induction false} NotReachedIffBeyond(ws: seq<int>, bucket: int)
    requires NonNegative(ws) && bucket > 0
    ensures Reached(ws, bucket) == None <==> Sum(ws) < bucket
  {
    if ws != [] {
      var n := |ws| - 1;
      NotReachedIffBeyond(ws[..n], bucket);
    }
  }

  /** The buckets that select a node. */
  ghost function BucketsFor(ws: seq<int>, i: nat): set<int> {
    set b: int | 1 <= b <= Sum(ws) && Reached(ws, b) == Some(i)
  }

  /** The numbers above `lo` and up to `hi`. */
  ghost function Span(lo: int, hi: int): set<int>
    decreases hi - lo
  {
    if lo >= hi then {} else Span(lo, hi - 1) + {hi}
  }

  lemma {:induction false} SpanSize(lo: int, hi: int)
    requires lo <= hi
    ensures |Span(lo, hi)| == hi - lo && forall b :: b in Span(lo, hi) <==> lo < b <= hi
    decreases hi - lo
  {
    if lo < hi {
      SpanSize(lo, hi - 1);
    }
  }

  /** EXACT PROPORTION. Of all buckets exactly as many select a node as its weight says; so none a node of weight 0. */
  lemma {:induction false} SelectsByWeight(ws: seq<int>, i: nat)
    requires NonNegative(ws) && i < |ws|
    ensures |BucketsFor(ws, i)| == ws[i]
  {
    SumsRise(ws, i, i + 1);
    SumsRise(ws, i + 1, |ws|);
    assert ws[..|ws|] == ws && ws[..i + 1][..i] == ws[..i];
    var lo, hi := Sum(ws[..i]), Sum(ws[..i + 1]);
    SpanSize(lo, hi);
    forall b: int
      ensures b in BucketsFor(ws, i) <==> b in Span(lo, hi)
    {
      if 1 <= b {
        ReachedIffBetween(ws, b, i);
      }
    }
    assert BucketsFor(ws, i) == Span(lo, hi);
  }

  /** There is a choice exactly when the total is positive and fits, and a chosen node has a positive weight. */
  lemma {:induction false} ChosenIffTotalFits(ws: seq<int64>, hash: nat)
    requires NonNegative(ws)
    ensures Chosen(ws, hash).Ok? <==> 0 < Sum(ws) <= MAX_INT64
    ensures Chosen(ws, hash) == Err(TotalWeightOverflow) <==> exists i :: 0 <= i <= |ws| && Sum(ws[..i]) > MAX_INT64
    ensures Chosen(ws, hash).Ok? ==> Chosen(ws, hash).value < |ws| && ws[Chosen(ws, hash).value] > 0
  {
    var bucket := if Sum(ws) > 0 then hash % Sum(ws) + 1 else 1;
    ChosenBySums(ws, hash);
    NotReachedIffBeyond(ws, bucket);
    ReachedIsBelow(ws, bucket);
    assert ws[..|ws|] == ws;
    SumsRise(ws, 0, |ws|);
    if Chosen(ws, hash).Ok? {
      var i := Chosen(ws, hash).value;
      ReachedIffBetween(ws, bucket, i);
      assert ws[..i + 1][..i] == ws[..i];
    }
    forall i | 0 <= i <= |ws|
      ensures Sum(ws[..i]) <= Sum(ws)
    {
      SumsRise(ws, i, |ws|);
    }
  }

  /** The random numbers, in one round of buckets, that choose a node. */
  ghost function HashesFor(ws: seq<int64>, i: nat): set<int> {
    set h: int | 0 <= h < Sum(ws) && Chosen(ws, h) == Ok(i)
  }

  /** CHOSEN BY WEIGHT. Of as many consecutive random numbers as the total weight, each node is chosen by just as many as its weight. */
  lemma {:induction false} ChosenByWeight(ws: seq<int64>, i: nat)
    requires NonNegative(ws) && i < |ws| && Sum(ws) <= MAX_INT64
    ensures |HashesFor(ws, i)| == ws[i]
  {
    hide Chosen, Reached, Sum, Span;
    SumsRise(ws, i, i + 1);
    SumsRise(ws, i + 1, |ws|);
    assert ws[..|ws|] == ws && ws[..i + 1][..i] == ws[..i];
    var lo, hi := Sum(ws[..i]), Sum(ws[..i + 1]);
    SumNext(ws, i);
    SpanSize(lo - 1, hi - 1);
    forall h: int
      ensures h in HashesFor(ws, i) <==> h in Span(lo - 1, hi - 1)
    {
      if 0 <= h < Sum(ws) {
        ChosenBySums(ws, h);
        DivModUnique(h, Sum(ws), 0, h);
        ReachedIffBetween(ws, h + 1, i);
      }
    }
    assert HashesFor(ws, i) == Span(lo - 1, hi - 1);
  }

  lemma SumNext(ws: seq<int64>, i: nat)
    requires i < |ws|
    ensures Sum(ws[..i + 1]) == Sum(ws[..i]) + ws[i]
  {
    assert ws[..i + 1][..i] == ws[..i];
  }

  /** Every bucket comes up for some random number. */
  lemma EveryBucketComesUp(ws: seq<int>, bucket: int)
    requires 1 <= bucket <= Sum(ws) <= MAX_INT64
    ensures var hash := bucket - 1;
            0 <= hash <= MAX_INT64 && hash % Sum(ws) + 1 == bucket
  {
    DivModUnique(bucket - 1, Sum(ws), 0, bucket - 1);
  }

  // ---------------------------------------------------------------- which rule applies

  predicate Applies(r: Rule, service: string, address: string) {
    r.serverServiceName == service && r.targetAddress == address
  }

  /** The weight of the first rule that applies. */
  function WeightInEffect(rules: seq<Rule>, service: string, address: string): Option<int64> {
    if rules == [] then None
    else if Applies(rules[0], service, address) then Some(rules[0].weight)
    else WeightInEffect(rules[1..], service, address)
  }

  function WeightOf(rules: seq<Rule>, service: string, address: string): int64 {
    match WeightInEffect(rules, service, address)
    case Some(w) => w
    case None => DEFAULT_WEIGHT
  }

  function Weights(rules: seq<Rule>, service: string, addresses: seq<string>): (ws: seq<int64>)
    ensures |ws| == |addresses|
  {
    if addresses == [] then []
    else Weights(rules, service, addresses[..|addresses| - 1]) + [WeightOf(rules, service, addresses[|addresses| - 1])]
  }

  ghost predicate WeightsValid(rules: seq<Rule>) {
    forall i :: 0 <= i < |rules| ==> rules[i].weight >= 0
  }

  method IsWeightRuleInEffect(address: string, service: string, rules: seq<Rule>) returns (weight: Option<int64>)
    ensures weight == WeightInEffect(rules, service, address)
  {
    for i := 0 to |rules|
      invariant WeightInEffect(rules, service, address) == WeightInEffect(rules[i..], service, address)
    {
      assert rules[i..][1..] == rules[i + 1..];
      if service == rules[i].serverServiceName && address == rules[i].targetAddress {
        return Some(rules[i].weight);
      }
    }
    return None;
  }

  method GetTargetIndexByWeightRule(service: string, addresses: seq<string>, rules: seq<Rule>, hashVal: nat)
    returns (index: Result<nat, RouteError>)
    ensures index == Chosen(Weights(rules, service, addresses), hashVal)
  {
    var weightList: seq<int64> := [];
    for i := 0 to |addresses|
      invariant weightList == Weights(rules, service, addresses[..i])
    {
      assert addresses[..i + 1][..i] == addresses[..i];
      var weight := IsWeightRuleInEffect(addresses[i], service, rules);
      if weight.Some? {
        weightList := weightList + [weight.value];
      } else {
        weightList := weightList + [DEFAULT_WEIGHT];
      }
    }
    assert addresses[..|addresses|] == addresses;
    index := ChooseByWeight(weightList, hashVal);
  }

  method ChooseByWeight(weightList: seq<int64>, hashVal: nat) returns (index: Result<nat, RouteError>)
    ensures index == Chosen(weightList, hashVal)
  {
    var weightBuckets: seq<int64> := [];
    var totalWeight: int64 := 0;
    for i := 0 to |weightList|
      invariant Totals(weightList[..i]) == Some(weightBuckets) && totalWeight == LastOf(weightBuckets)
    {
      assert weightList[..i + 1][..i] == weightList[..i];
      if weightList[i] > Wrapped(MAX_INT64 - totalWeight) {
        NoTotalsInPrefix(weightList, i + 1);
        return Err(TotalWeightOverflow);
      }
      totalWeight := Wrapped(totalWeight + weightList[i]);
      weightBuckets := weightBuckets + [totalWeight];
    }
    assert weightList[..|weightList|] == weightList;
    var bucket := if totalWeight > 0 then hashVal % totalWeight + 1 else 1;
    for i := 0 to |weightBuckets|
      invariant forall j :: 0 <= j < i ==> weightBuckets[j] < bucket
    {
      if bucket <= weightBuckets[i] {
        return Ok(i);
      }
    }
    return Err(TotalWeightZero);
  }

  lemma {:induction false} NoTotalsInPrefix(ws: seq<int64>, n: nat)
    requires n <= |ws| && Totals(ws[..n]) == None
    ensures Totals(ws) == None
  {
    if n < |ws| {
      var m := |ws| - 1;
      assert ws[..m][..n] == ws[..n];
      NoTotalsInPrefix(ws[..m], n);
    } else {
      assert ws[..n] == ws;
    }
  }

  // ---------------------------------------------------------------- client rules before server rules

  function Key(service: string, address: string): string {
    service + "-" + address
  }

  function KeyOf(r: Rule): string {
    Key(r.serverServiceName, r.targetAddress)
  }

  /** A later rule takes the place of an earlier one with the same key, unless that is a client rule. */
  function Actual(rules: seq<Rule>): map<string, Rule> {
    if rules == [] then map[]
    else
      var before, r := Actual(rules[..|rules| - 1]), rules[|rules| - 1];
      if KeyOf(r) in before && before[KeyOf(r)].ruleType == CLIENT_WEIGHT_RULE then before else before[KeyOf(r) := r]
  }

  /** The first client rule with a key. */
  function FirstClient(rules: seq<Rule>, key: string): Option<Rule> {
    if rules == [] then None
    else if KeyOf(rules[0]) == key && rules[0].ruleType == CLIENT_WEIGHT_RULE then Some(rules[0])
    else FirstClient(rules[1..], key)
  }

  function LastWithKey(rules: seq<Rule>, key: string): Option<Rule> {
    if rules == [] then None
    else if KeyOf(rules[|rules| - 1]) == key then Some(rules[|rules| - 1])
    else LastWithKey(rules[..|rules| - 1], key)
  }

  lemma {:induction false} FirstClientNext(rules: seq<Rule>, r: Rule, key: string)
    ensures FirstClient(rules + [r], key) ==
              if FirstClient(rules, key).Some? then FirstClient(rules, key)
              else if KeyOf(r) == key && r.ruleType == CLIENT_WEIGHT_RULE then Some(r) else None
  {
    if rules == [] {
      assert ([r])[1..] == [];
      assert [] + [r] == [r];
    } else {
      assert (rules + [r])[1..] == rules[1..] + [r];
      FirstClientNext(rules[1..], r, key);
    }
  }

  /** PRIORITY. For each key the first client rule applies; without one, the last rule with the key. */
  lemma {:induction false} ClientRulesComeFirst(rules: seq<Rule>, key: string)
    ensures var winner := if FirstClient(rules, key).Some? then FirstClient(rules, key) else LastWithKey(rules, key);
            && (key in Actual(rules) <==> winner.Some?)
            && (key in Actual(rules) ==> Actual(rules)[key] == winner.value && KeyOf(winner.value) == key && winner.value in rules)
            && (FirstClient(rules, key).Some? ==> winner.value.ruleType == CLIENT_WEIGHT_RULE)
  {
    if rules != [] {
      var before, r := rules[..|rules| - 1], rules[|rules| - 1];
      assert rules == before + [r];
      ClientRulesComeFirst(before, key);
      FirstClientNext(before, r, key);
      if FirstClient(before, key).None? {
        LastIsNoClient(before, key);
      }
    }
  }

  lemma {:induction false} LastIsNoClient(rules: seq<Rule>, key: string)
    requires FirstClient(rules, key).None?
    ensures LastWithKey(rules, key).Some? ==> LastWithKey(rules, key).value.ruleType != CLIENT_WEIGHT_RULE
  {
    if rules != [] {
      var before, r := rules[..|rules| - 1], rules[|rules| - 1];
      assert rules == before + [r];
      FirstClientNext(before, r, key);
      LastIsNoClient(before, key);
    }
  }

  /** A list of the rules of a map, in any order. */
  ghost predicate Lists(list: seq<Rule>, rules: map<string, Rule>) {
    && (forall i :: 0 <= i < |list| ==> KeyOf(list[i]) in rules && rules[KeyOf(list[i])] == list[i])
    && (forall k :: k in rules ==> rules[k] in list)
  }

  class RuleManager {
    var ruleList: seq<Rule>

    ghost predicate Valid()
      reads this
    {
      WeightsValid(ruleList)
    }

    constructor ()
      ensures Valid() && ruleList == []
    {
      ruleList := [];
    }

    /** Takes the valid rules, in their order; equal rules are not loaded again. */
    method LoadRules(rules: seq<Rule>) returns (loaded: bool)
      requires Valid()
      modifies this
      ensures Valid()
      ensures loaded <==> rules != old(ruleList)
      ensures ruleList == if loaded then ValidOnes(rules) else old(ruleList)
    {
      if ruleList == rules {
        return false;
      }
      var valid := [];
      for i := 0 to |rules|
        invariant valid == ValidOnes(rules[..i])
      {
        assert rules[..i + 1][..i] == rules[..i];
        if RuleFault(rules[i]) == None {
          valid := valid + [rules[i]];
        }
      }
      assert rules[..|rules|] == rules;
      ValidOnesAreValid(rules);
      ruleList := valid;
      return true;
    }

    /** One rule per key; the order of the list is left open. */
    method GetActualRules() returns (list: seq<Rule>)
      ensures Lists(list, Actual(ruleList)) && |list| == |Actual(ruleList)|
    {
      var actual: map<string, Rule> := map[];
      for i := 0 to |ruleList|
        invariant actual == Actual(ruleList[..i])
      {
        assert ruleList[..i + 1][..i] == ruleList[..i];
        var key := KeyOf(ruleList[i]);
        if key in actual && actual[key].ruleType == CLIENT_WEIGHT_RULE {
          continue;
        }
        actual := actual[key := ruleList[i]];
      }
      assert ruleList[..|ruleList|] == ruleList;
      forall k | k in actual
        ensures KeyOf(actual[k]) == k
      {
        ClientRulesComeFirst(ruleList, k);
      }
      list := ListOf(actual);
    }

    method ListOf(rules: map<string, Rule>) returns (list: seq<Rule>)
      requires forall k :: k in rules ==> KeyOf(rules[k]) == k
      ensures Lists(list, rules) && |list| == |rules|
    {
      list := [];
      var todo := rules.Keys;
      while todo != {}
        invariant todo <= rules.Keys && |list| + |todo| == |rules.Keys|
        invariant forall i :: 0 <= i < |list| ==> KeyOf(list[i]) in rules && rules[KeyOf(list[i])] == list[i]
        invariant forall k :: k in rules && k !in todo ==> rules[k] in list
      {
        var k :| k in todo;
        list := list + [rules[k]];
        todo := todo - {k};
      }
    }

    method GetTargetNodeByWeightRule(service: string, addresses: seq<string>, hashVal: nat) returns (index: Result<nat, RouteError>)
      ensures index == Chosen(PairWeights(Actual(ruleList), service, addresses), hashVal)
    {
      var rules := GetActualRules();
      ListGivesPairWeights(rules, Actual(ruleList), service, addresses);
      index := GetTargetIndexByWeightRule(service, addresses, rules, hashVal);
    }
  }

  function ValidOnes(rules: seq<Rule>): seq<Rule> {
    if rules == [] then []
    else ValidOnes(rules[..|rules| - 1]) + if RuleFault(rules[|rules| - 1]) == None then [rules[|rules| - 1]] else []
  }

  lemma {:induction false} ValidOnesAreValid(rules: seq<Rule>)
    ensures WeightsValid(ValidOnes(rules))
    ensures forall r :: r in ValidOnes(rules) <==>
                          r in rules && r.targetAddress != "" && r.weight >= 0 && (r.ruleType == 1 || r.ruleType == 2)
  {
    if rules != [] {
      var before, r := rules[..|rules| - 1], rules[|rules| - 1];
      assert rules == before + [r];
      ValidOnesAreValid(before);
    }
  }

  /** The weight of a pair: that of the rule under its key, if it is a rule of the pair. */
  function PairWeight(rules: map<string, Rule>, service: string, address: string): int64 {
    var key := Key(service, address);
    if key in rules && Applies(rules[key], service, address) then rules[key].weight else DEFAULT_WEIGHT
  }

  function PairWeights(rules: map<string, Rule>, service: string, addresses: seq<string>): seq<int64> {
    if addresses == [] then []
    else PairWeights(rules, service, addresses[..|addresses| - 1]) + [PairWeight(rules, service, addresses[|addresses| - 1])]
  }

  /** Rules as they are loaded give no negative weights, so the choice is by the sums. */
  lemma {:induction false} LoadedWeightsAreNonNegative(rules: seq<Rule>, service: string, addresses: seq<string>)
    requires WeightsValid(rules)
    ensures NonNegative(PairWeights(Actual(rules), service, addresses))
  {
    if addresses != [] {
      var n := |addresses| - 1;
      LoadedWeightsAreNonNegative(rules, service, addresses[..n]);
      ClientRulesComeFirst(rules, Key(service, addresses[n]));
    }
  }

  lemma {:induction false} ListGivesPairWeights(list: seq<Rule>, rules: map<string, Rule>, service: string, addresses: seq<string>)
    requires Lists(list, rules)
    ensures Weights(list, service, addresses) == PairWeights(rules, service, addresses)
  {
    if addresses != [] {
      ListGivesPairWeights(list, rules, service, addresses[..|addresses| - 1]);
      OrderDoesNotMatter(list, rules, service, addresses[|addresses| - 1]);
    }
  }

  /** Whatever the order of the list, a pair gets the weight of the rule under its key, if that is a rule of the pair. */
  lemma {:induction false} OrderDoesNotMatter(list: seq<Rule>, rules: map<string, Rule>, service: string, address: string)
    requires Lists(list, rules)
    ensures WeightOf(list, service, address) == PairWeight(rules, service, address)
  {
    var key := Key(service, address);
    FirstApplying(list, service, address);
    if key in rules && Applies(rules[key], service, address) {
      var i :| 0 <= i < |list| && list[i] == rules[key];
    }
  }

  lemma {:induction false} FirstApplying(list: seq<Rule>, service: string, address: string)
    ensures WeightInEffect(list, service, address).None? ==> forall i :: 0 <= i < |list| ==> !Applies(list[i], service, address)
    ensures WeightInEffect(list, service, address).Some? ==>
              exists i :: 0 <= i < |list| && Applies(list[i], service, address) && WeightInEffect(list, service, address).value == list[i].weight
  {
    if list != [] && !Applies(list[0], service, address) {
      FirstApplying(list[1..], service, address);
      if WeightInEffect(list, service, address).Some? {
        var i :| 0 <= i < |list[1..]| && Applies(list[1..][i], service, address) && WeightInEffect(list, service, address).value == list[1..][i].weight;
        assert list[i + 1] == list[1..][i];
      } else {
        forall i | 0 <= i < |list|
          ensures !Applies(list[i], service, address)
        {
          if i > 0 {
            assert list[i] == list[1..][i - 1];
          }
        }
      }
    }
  }

  // ---------------------------------------------------------------- pairs that share a key

  /** The longer service name starts with the shorter one, a dash and what the address of that one starts with. */
  ghost predicate Overlap(service: string, address: string, service': string, address': string) {
    exists x: string {:trigger service + "-" + x} :: service' == service + "-" + x && address == x + "-" + address'
  }

  /**
   SHARED KEYS. Two pairs share a key exactly when they are the same or, the first having the shorter service name, the
   second service name continues it with a dash and a part that the first address starts with.
   */
  lemma {:induction false} KeysAreEqualIff(service: string, address: string, service': string, address': string)
    requires |service| <= |service'|
    ensures Key(service, address) == Key(service', address') <==>
              (service == service' && address == address') || Overlap(service, address, service', address')
  {
    var key, key' := Key(service, address), Key(service', address');
    var n, m := |service|, |service'|;
    if key == key' {
      KeyParts(service, address);
      KeyParts(service', address');
      if n < m {
        var x := service'[n + 1..];
        assert service' == key[..m] && service == key[..n];
        assert service' == service + [key[n]] + x;
        assert address == key[n + 1..] == x + "-" + address' by {
          assert key[n + 1..] == key[n + 1..m] + [key[m]] + key[m + 1..];
        }
        assert service' == service + "-" + x;
      }
    }
    if Overlap(service, address, service', address') {
      OverlapSharesKey(service, address, service', address');
    }
  }

  lemma OverlapSharesKey(service: string, address: string, service': string, address': string)
    requires Overlap(service, address, service', address')
    ensures Key(service, address) == Key(service', address') && '-' in service' && '-' in address
  {
    var x: string :| service' == service + "-" + x && address == x + "-" + address';
    assert service + "-" + (x + "-" + address') == (service + "-" + x) + "-" + address';
    assert service'[|service|] == '-' && address[|x|] == '-';
  }

  lemma KeyParts(service: string, address: string)
    ensures var key, n := Key(service, address), |service|;
            |key| == n + 1 + |address| && key[..n] == service && key[n] == '-' && key[n + 1..] == address
  {
  }

  /** So no two pairs share a key if service names have no dash, nor if addresses have none. */
  lemma {:induction false} WithoutDashesKeysAreDistinct(service: string, address: string, service': string, address': string)
    requires Key(service, address) == Key(service', address')
    requires ('-' !in service && '-' !in service') || ('-' !in address && '-' !in address')
    ensures service == service' && address == address'
  {
    if |service| <= |service'| {
      NoOverlapWithoutDashes(service, address, service', address');
    } else {
      NoOverlapWithoutDashes(service', address', service, address);
    }
  }

  lemma NoOverlapWithoutDashes(service: string, address: string, service': string, address': string)
    requires |service| <= |service'| && Key(service, address) == Key(service', address')
    requires '-' !in service' || '-' !in address
    ensures service == service' && address == address'
  {
    KeysAreEqualIff(service, address, service', address');
    if Overlap(service, address, service', address') {
      OverlapSharesKey(service, address, service', address');
    }
  }

  // ---------------------------------------------------------------- whose rule a pair gets

  /** The rules of one pair. */
  function Own(rules: seq<Rule>, service: string, address: string): seq<Rule> {
    if rules == [] then []
    else
      var r := rules[|rules| - 1];
      Own(rules[..|rules| - 1], service, address) + if Applies(r, service, address) then [r] else []
  }

  /** The rule with priority among those with a key. */
  function Winner(rules: seq<Rule>, key: string): Option<Rule> {
    if FirstClient(rules, key).Some? then FirstClient(rules, key) else LastWithKey(rules, key)
  }

  /** The rule that sets the weight of a pair. */
  function RuleInEffect(rules: seq<Rule>, service: string, address: string): Option<Rule> {
    var actual, key := Actual(rules), Key(service, address);
    if key in actual && Applies(actual[key], service, address) then Some(actual[key]) else None
  }

  /** The rule with priority among the pair's own. */
  function OwnRule(rules: seq<Rule>, service: string, address: string): Option<Rule> {
    Winner(Own(rules, service, address), Key(service, address))
  }

  lemma {:induction false} OwnFirstClient(rules: seq<Rule>, service: string, address: string)
    ensures var first, own := FirstClient(rules, Key(service, address)), FirstClient(Own(rules, service, address), Key(service, address));
            (first.None? ==> own.None?) && (first.Some? && Applies(first.value, service, address) ==> own == first)
  {
    hide Key, FirstClient;
    if rules == [] {
      assert Own(rules, service, address) == rules;
    } else {
      var before, r := rules[..|rules| - 1], rules[|rules| - 1];
      var own := Own(before, service, address);
      assert rules == before + [r];
      OwnFirstClient(before, service, address);
      FirstClientNext(before, r, Key(service, address));
      FirstClientNext(own, r, Key(service, address));
      assert own + [] == own;
    }
  }

  lemma {:induction false} OwnLast(rules: seq<Rule>, service: string, address: string)
    ensures var last, own := LastWithKey(rules, Key(service, address)), LastWithKey(Own(rules, service, address), Key(service, address));
            (last.None? ==> own.None?) && (last.Some? && Applies(last.value, service, address) ==> own == last)
  {
    hide Key, LastWithKey;
    if rules == [] {
      assert Own(rules, service, address) == rules;
    } else {
      var before, r := rules[..|rules| - 1], rules[|rules| - 1];
      var own := Own(before, service, address);
      assert rules == before + [r];
      OwnLast(before, service, address);
      LastNext(before, r, Key(service, address));
      LastNext(own, r, Key(service, address));
      assert own + [] == own;
    }
  }

  lemma LastNext(rules: seq<Rule>, r: Rule, key: string)
    ensures LastWithKey(rules + [r], key) == if KeyOf(r) == key then Some(r) else LastWithKey(rules, key)
  {
    assert (rules + [r])[..|rules|] == rules;
  }

  lemma {:induction false} OwnApply(rules: seq<Rule>, service: string, address: string)
    ensures forall r :: r in Own(rules, service, address) <==> r in rules && Applies(r, service, address)
    ensures OwnRule(rules, service, address).Some? ==> OwnRule(rules, service, address).value in Own(rules, service, address)
    ensures OwnRule(rules, service, address).None? <==> Own(rules, service, address) == []
  {
    var own, key := Own(rules, service, address), Key(service, address);
    ClientRulesComeFirst(own, key);
    if rules != [] {
      var before, r := rules[..|rules| - 1], rules[|rules| - 1];
      assert rules == before + [r];
      OwnApply(before, service, address);
      LastNext(Own(before, service, address), r, key);
      assert Own(before, service, address) + [] == Own(before, service, address);
    }
  }

  /** A pair gets the rule with priority among its own exactly when it has none or the winner of its key is one of them. */
  lemma {:induction false} PairGetsItsOwnRuleIff(rules: seq<Rule>, service: string, address: string)
    ensures RuleInEffect(rules, service, address) == OwnRule(rules, service, address) <==>
              || Own(rules, service, address) == []
              || (Winner(rules, Key(service, address)).Some? && Applies(Winner(rules, Key(service, address)).value, service, address))
  {
    ClientRulesComeFirst(rules, Key(service, address));
    OwnFirstClient(rules, service, address);
    OwnLast(rules, service, address);
    OwnApply(rules, service, address);
  }

  /** No two rules of different pairs share a key. */
  ghost predicate NoSharedKeys(rules: seq<Rule>) {
    forall r, r' :: r in rules && r' in rules && KeyOf(r) == KeyOf(r') ==> Applies(r', r.serverServiceName, r.targetAddress)
  }

  /** OWN RULES. Every pair gets the rule with priority among its own exactly when no two rules of different pairs share a key. */
  lemma {:induction false} EveryPairGetsItsOwnRuleIff(rules: seq<Rule>)
    ensures (forall service: string, address: string :: RuleInEffect(rules, service, address) == OwnRule(rules, service, address))
              <==> NoSharedKeys(rules)
  {
    forall service: string, address: string | NoSharedKeys(rules)
      ensures RuleInEffect(rules, service, address) == OwnRule(rules, service, address)
    {
      PairGetsItsOwnRuleIff(rules, service, address);
      OwnApply(rules, service, address);
      ClientRulesComeFirst(rules, Key(service, address));
      if Own(rules, service, address) != [] {
        var own := Own(rules, service, address)[0];
        assert own in rules && KeyOf(own) == Key(service, address);
        WinnerIfAny(rules, own);
      }
    }
    if !NoSharedKeys(rules) {
      var r, r' :| r in rules && r' in rules && KeyOf(r) == KeyOf(r') && !Applies(r', r.serverServiceName, r.targetAddress);
      OneOfTwoLosesItsRule(rules, r, r');
    }
  }

  /** The weight that a pair is to be routed by. */
  function OwnWeight(rules: seq<Rule>, service: string, address: string): int64 {
    if OwnRule(rules, service, address).Some? then OwnRule(rules, service, address).value.weight else DEFAULT_WEIGHT
  }

  function OwnWeights(rules: seq<Rule>, service: string, addresses: seq<string>): seq<int64> {
    if addresses == [] then []
    else OwnWeights(rules, service, addresses[..|addresses| - 1]) + [OwnWeight(rules, service, addresses[|addresses| - 1])]
  }

  /** A pair without a rule of its own has the weight of a normal node. */
  lemma {:induction false} WithoutRuleTenThousand(rules: seq<Rule>, service: string, address: string)
    requires forall r :: r in rules ==> r.serverServiceName != service || r.targetAddress != address
    ensures PairWeight(Actual(rules), service, address) == 10000
  {
    ClientRulesComeFirst(rules, Key(service, address));
  }

  /** ROUTED BY OWN RULES. When no two rules of different pairs share a key, nodes are chosen by the weights of their own rules. */
  lemma {:induction false} RoutedByOwnWeights(rules: seq<Rule>, service: string, addresses: seq<string>)
    requires NoSharedKeys(rules)
    ensures PairWeights(Actual(rules), service, addresses) == OwnWeights(rules, service, addresses)
  {
    if addresses != [] {
      var n := |addresses| - 1;
      RoutedByOwnWeights(rules, service, addresses[..n]);
      EveryPairGetsItsOwnRuleIff(rules);
      assert RuleInEffect(rules, service, addresses[n]) == OwnRule(rules, service, addresses[n]);
    }
  }

  lemma {:induction false} WinnerIfAny(rules: seq<Rule>, r: Rule)
    requires r in rules
    ensures Winner(rules, KeyOf(r)).Some? && Winner(rules, KeyOf(r)).value in rules && KeyOf(Winner(rules, KeyOf(r)).value) == KeyOf(r)
  {
    ClientRulesComeFirst(rules, KeyOf(r));
    LastIfAny(rules, r);
  }

  lemma {:induction false} LastIfAny(rules: seq<Rule>, r: Rule)
    requires r in rules
    ensures LastWithKey(rules, KeyOf(r)).Some?
  {
    var before, last := rules[..|rules| - 1], rules[|rules| - 1];
    if r != last {
      assert rules == before + [last];
      LastIfAny(before, r);
    }
  }

  /** Of two pairs that share a key one does not get its rule. */
  lemma {:induction false} OneOfTwoLosesItsRule(rules: seq<Rule>, r: Rule, r': Rule)
    requires r in rules && r' in rules && KeyOf(r) == KeyOf(r') && !Applies(r', r.serverServiceName, r.targetAddress)
    ensures || RuleInEffect(rules, r.serverServiceName, r.targetAddress) != OwnRule(rules, r.serverServiceName, r.targetAddress)
            || RuleInEffect(rules, r'.serverServiceName, r'.targetAddress) != OwnRule(rules, r'.serverServiceName, r'.targetAddress)
  {
    PairGetsItsOwnRuleIff(rules, r.serverServiceName, r.targetAddress);
    PairGetsItsOwnRuleIff(rules, r'.serverServiceName, r'.targetAddress);
    OwnApply(rules, r.serverServiceName, r.targetAddress);
    OwnApply(rules, r'.serverServiceName, r'.targetAddress);
    assert r in Own(rules, r.serverServiceName, r.targetAddress);
    assert r' in Own(rules, r'.serverServiceName, r'.targetAddress);
  }

  /** Two different pairs with one key: the rule of the first pair is lost, and its node gets the default weight. */
  lemma KeysCollide()
    ensures var one, two := Rule("a-b", "c", 1, SERVER_WEIGHT_RULE), Rule("a", "b-c", 2, SERVER_WEIGHT_RULE);
            && KeyOf(one) == KeyOf(two)
            && forall list :: Lists(list, Actual([one, two])) ==> WeightOf(list, "a-b", "c") == DEFAULT_WEIGHT
  {
    var one, two := Rule("a-b", "c", 1, SERVER_WEIGHT_RULE), Rule("a", "b-c", 2, SERVER_WEIGHT_RULE);
    assert KeyOf(one) == "a-b-c" == KeyOf(two);
    var rules := [one, two];
    assert rules[..1] == [one] && [one][..0] == [];
    assert Actual([one]) == map["a-b-c" := one];
    assert Actual(rules)["a-b-c"] == two;
    forall list | Lists(list, Actual(rules))
      ensures WeightOf(list, "a-b", "c") == DEFAULT_WEIGHT
    {
      OrderDoesNotMatter(list, Actual(rules), "a-b", "c");
    }
  }
}
