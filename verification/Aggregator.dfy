/**
 The export of finished seconds (core/log/metric/aggregator.go, and the per-second view in
 core/stat/base/sliding_window_metric.go): every recorded event leaves in exactly one item.
 */
module MetricAggregators {
  import opened Arithmetic
  import opened EventLog
  import opened LeapArrays
  import opened MetricBuckets
  import opened Prelude
  import opened SlidingWindows
  import opened WindowRefinement

  // ---------------------------------------------------------------- items of one second

  datatype Item = Item(
    timestamp: nat, passQps: int, blockQps: int, completeQps: int, errorQps: int, avgRt: int, concurrency: int,
    byFlow: int, byIsolation: int, byCircuitBreaking: int, bySystem: int, byHotspotParam: int, byMock: int)

  function SecondOf(t: nat): nat {
    t - t % 1000
  }

  /** The buckets of one second, in order. */
  function BucketsOf(ws: Slots, sec: int): Slots {
    if ws == [] then []
    else
      var n := |ws| - 1;
      BucketsOf(ws[..n], sec) + if SecondOf(ws[n].start) == sec then [ws[n]] else []
  }

  function SecondsOf(ws: Slots): set<nat> {
    set i {:trigger ws[i]} | 0 <= i < |ws| :: SecondOf(ws[i].start)
  }

  /** Go divides unsigned numbers here; counts are taken to be non-negative. */
  function AverageRt(rt: int, complete: int): int {
    if complete > 0 then rt / complete else rt
  }

  function ItemFrom(ts: nat, ws: Slots): Item {
    Item(ts, SumOf(ws, PASS), SumOf(ws, BLOCK), SumOf(ws, COMPLETE), SumOf(ws, ERROR),
      AverageRt(SumOf(ws, RT), SumOf(ws, COMPLETE)), MaxConcurrencyOf(ws),
      SumOf(ws, BLOCK_FLOW), SumOf(ws, BLOCK_ISOLATION), SumOf(ws, BLOCK_CIRCUIT_BREAKING),
      SumOf(ws, BLOCK_SYSTEM), SumOf(ws, BLOCK_HOT_SPOT_PARAM_FLOW), SumOf(ws, BLOCK_MOCK))
  }

  predicate IsActive(item: Item) {
    item.passQps != 0 || item.blockQps != 0 || item.completeQps != 0 || item.errorQps != 0 || item.avgRt != 0 || item.concurrency != 0
  }

  /** The starts that a fetch at second `cur` after one at second `last` reads. */
  function FetchRange(last: int, cur: nat): StartRange {
    StartRange(last, cur - 1)
  }

  function Fetched(g: Geometry, slots: Slots, last: int, now: nat): Slots {
    if now == 0 then [] else Select(g.Interval(), slots, now, FetchRange(last, SecondOf(now)))
  }

  /** The active items of a fetch by their second. */
  function ItemsOf(ws: Slots): map<nat, Item> {
    map sec | sec in SecondsOf(ws) && IsActive(ItemFrom(sec, BucketsOf(ws, sec))) :: ItemFrom(sec, BucketsOf(ws, sec))
  }

  // ---------------------------------------------------------------- the methods

  method MetricItemFromBuckets(ts: nat, ws: Slots) returns (item: Item)
    ensures item == ItemFrom(ts, ws)
  {
    item := Item(ts, 0, 0, 0, 0, 0, 0, 0, 0, 0, 0, 0, 0);
    var allRt := 0;
    for i := 0 to |ws|
      invariant item == ItemFrom(ts, ws[..i]).(avgRt := 0) && allRt == SumOf(ws[..i], RT)
    {
      hide SumOf, MaxConcurrencyOf, Get, AverageRt;
      ItemNext(ts, ws, i);
      var mb := ws[i].value;
      item := item.(
        passQps := item.passQps + Get(mb, PASS), blockQps := item.blockQps + Get(mb, BLOCK),
        errorQps := item.errorQps + Get(mb, ERROR), completeQps := item.completeQps + Get(mb, COMPLETE));
      if mb.maxConcurrency > item.concurrency {
        item := item.(concurrency := mb.maxConcurrency);
      }
      allRt := allRt + Get(mb, RT);
      item := item.(
        byFlow := item.byFlow + Get(mb, BLOCK_FLOW), byIsolation := item.byIsolation + Get(mb, BLOCK_ISOLATION),
        byCircuitBreaking := item.byCircuitBreaking + Get(mb, BLOCK_CIRCUIT_BREAKING), bySystem := item.bySystem + Get(mb, BLOCK_SYSTEM),
        byHotspotParam := item.byHotspotParam + Get(mb, BLOCK_HOT_SPOT_PARAM_FLOW), byMock := item.byMock + Get(mb, BLOCK_MOCK));
    }
    assert ws[..|ws|] == ws;
    if item.completeQps > 0 {
      item := item.(avgRt := allRt / item.completeQps);
    } else {
      item := item.(avgRt := allRt);
    }
  }

  /** What one more bucket adds. */
  lemma ItemNext(ts: nat, ws: Slots, i: nat)
    requires i < |ws|
    ensures forall e :: SumOf(ws[..i + 1], e) == SumOf(ws[..i], e) + Get(ws[i].value, e)
    ensures MaxConcurrencyOf(ws[..i + 1]) == Max(MaxConcurrencyOf(ws[..i]), ws[i].value.maxConcurrency)
  {
    assert ws[..i + 1][..i] == ws[..i];
  }

  /** Groups buckets by their second. */
  method GroupBySecond(ws: Slots) returns (wm: map<nat, Slots>)
    ensures wm == map sec | sec in SecondsOf(ws) :: BucketsOf(ws, sec)
  {
    wm := map[];
    for i := 0 to |ws|
      invariant Grouped(wm, ws[..i])
    {
      assert ws[..i + 1][..i] == ws[..i];
      GroupedNext(wm, ws[..i], ws[i]);
      assert ws[..i] + [ws[i]] == ws[..i + 1];
      var secStart := SecondOf(ws[i].start);
      if secStart in wm {
        wm := wm[secStart := wm[secStart] + [ws[i]]];
      } else {
        wm := wm[secStart := [ws[i]]];
      }
    }
    assert ws[..|ws|] == ws;
  }

  ghost predicate Grouped(wm: map<nat, Slots>, ws: Slots) {
    wm.Keys == SecondsOf(ws) && forall sec :: sec in wm ==> wm[sec] == BucketsOf(ws, sec)
  }

  lemma GroupedNext(wm: map<nat, Slots>, ws: Slots, w: Slot<MetricBucket>)
    requires Grouped(wm, ws)
    ensures var sec := SecondOf(w.start); Grouped(wm[sec := (if sec in wm then wm[sec] else []) + [w]], ws + [w])
    ensures [] + [w] == [w]
  {
    var sec, all := SecondOf(w.start), ws + [w];
    SecondsNext(ws, w);
    forall s
      ensures BucketsOf(all, s) == BucketsOf(ws, s) + if s == sec then [w] else []
    {
      assert all[..|ws|] == ws;
    }
    if sec !in wm {
      NoBuckets(ws, sec);
    }
  }

  lemma SecondsNext(ws: Slots, w: Slot<MetricBucket>)
    ensures SecondsOf(ws + [w]) == SecondsOf(ws) + {SecondOf(w.start)}
  {
    var all := ws + [w];
    assert all[|ws|] == w;
    forall s | s in SecondsOf(ws)
      ensures s in SecondsOf(all)
    {
      var i :| 0 <= i < |ws| && SecondOf(ws[i].start) == s;
      assert all[i] == ws[i];
    }
  }

  lemma {:induction false} NoBuckets(ws: Slots, sec: nat)
    requires sec !in SecondsOf(ws)
    ensures BucketsOf(ws, sec) == []
  {
    if ws != [] {
      var n := |ws| - 1;
      assert SecondOf(ws[n].start) in SecondsOf(ws);
      assert ws == ws[..n] + [ws[n]];
      SecondsNext(ws[..n], ws[n]);
      NoBuckets(ws[..n], sec);
    }
  }

  /** The items of the seconds whose buckets pass the test, without the inactive ones. */
  method CurrentMetricItems(metric: SlidingWindowMetric, last: int, now: nat) returns (items: map<nat, Item>)
    requires metric.Valid()
    ensures items == ItemsOf(Fetched(metric.real'.data.g, metric.real'.data.cells[..], last, now))
  {
    hide Select, ItemsOf, FetchRange, SecondOf, WellPlaced;
    var ws := metric.real'.data.ValuesConditional(now, FetchRange(last, SecondOf(now)));
    items := ActiveItems(ws);
  }

  method ActiveItems(ws: Slots) returns (items: map<nat, Item>)
    ensures items == ItemsOf(ws)
  {
    hide ItemFrom, BucketsOf, IsActive;
    var wm := GroupBySecond(ws);
    items := map[];
    var todo := wm.Keys;
    while todo != {}
      invariant todo <= wm.Keys
      invariant items == map sec | sec in wm.Keys - todo && IsActive(ItemFrom(sec, BucketsOf(ws, sec))) :: ItemFrom(sec, BucketsOf(ws, sec))
    {
      var ts :| ts in todo;
      var item := MetricItemFromBuckets(ts, wm[ts]);
      ItemHasItsTime(ts, wm[ts]);
      if IsActive(item) {
        items := items[item.timestamp := item];
      }
      todo := todo - {ts};
    }
  }

  lemma ItemHasItsTime(ts: nat, ws: Slots)
    ensures ItemFrom(ts, ws).timestamp == ts
  {
  }

  class ResourceNode {
    const resourceName: string
    const resourceType: int
    const metric: SlidingWindowMetric

    constructor (resourceName: string, resourceType: int, metric: SlidingWindowMetric)
      ensures this.resourceName == resourceName && this.resourceType == resourceType && this.metric == metric
    {
      this.resourceName := resourceName;
      this.resourceType := resourceType;
      this.metric := metric;
    }

    ghost function Items(last: int, now: nat): map<nat, Item>
      reads metric.real'.data.cells
    {
      ItemsOf(Fetched(metric.real'.data.g, metric.real'.data.cells[..], last, now))
    }
  }

  /** An item with the node it comes from. */
  datatype NodeItem = NodeItem(resource: string, classification: int, item: Item)

  type TimeMap = map<nat, seq<NodeItem>>

  /** What one node has for the seconds of a fetch. */
  datatype NodeMetrics = NodeMetrics(resource: string, classification: int, items: map<nat, Item>)

  function AggregatedAt(mm: TimeMap, metrics: map<nat, Item>, name: string, kind: int, t: nat): seq<NodeItem> {
    (if t in mm then mm[t] else []) + (if t in metrics then [NodeItem(name, kind, metrics[t])] else [])
  }

  function Aggregated(mm: TimeMap, metrics: map<nat, Item>, name: string, kind: int): TimeMap {
    map t | t in mm.Keys + metrics.Keys :: AggregatedAt(mm, metrics, name, kind, t)
  }

  method AggregateIntoMap(mm: TimeMap, metrics: map<nat, Item>, node: ResourceNode) returns (r: TimeMap)
    ensures r == Aggregated(mm, metrics, node.resourceName, node.resourceType)
  {
    r := mm;
    var todo := metrics.Keys;
    while todo != {}
      invariant todo <= metrics.Keys
      invariant r.Keys == mm.Keys + (metrics.Keys - todo)
      invariant forall t :: t in r ==>
                  r[t] == if t in todo then mm[t] else AggregatedAt(mm, metrics, node.resourceName, node.resourceType, t)
    {
      var t :| t in todo;
      var item := NodeItem(node.resourceName, node.resourceType, metrics[t]);
      if t in r {
        r := r[t := r[t] + [item]];
      } else {
        r := r[t := [item]];
      }
      todo := todo - {t};
    }
  }

  /** One node after the other. */
  function Collected(all: seq<NodeMetrics>): TimeMap {
    if all == [] then map[]
    else
      var n := all[|all| - 1];
      Aggregated(Collected(all[..|all| - 1]), n.items, n.resource, n.classification)
  }

  ghost function MetricsOf(nodes: seq<ResourceNode>, last: int, now: nat): (all: seq<NodeMetrics>)
    reads set i | 0 <= i < |nodes| :: nodes[i].metric.real'.data.cells
    ensures |all| == |nodes|
    ensures forall i :: 0 <= i < |nodes| ==> all[i] == NodeMetrics(nodes[i].resourceName, nodes[i].resourceType, nodes[i].Items(last, now))
  {
    if nodes == [] then []
    else
      var n := nodes[|nodes| - 1];
      MetricsOf(nodes[..|nodes| - 1], last, now) + [NodeMetrics(n.resourceName, n.resourceType, n.Items(last, now))]
  }

  lemma NoMetrics(nodes: seq<ResourceNode>, last: int, now: nat)
    ensures Collected(MetricsOf(nodes[..0], last, now)) == map[]
  {
  }

  lemma CollectedStep(nodes: seq<ResourceNode>, last: int, now: nat)
    requires nodes != []
    ensures var n := nodes[|nodes| - 1];
            Collected(MetricsOf(nodes, last, now)) ==
              Aggregated(Collected(MetricsOf(nodes[..|nodes| - 1], last, now)), n.Items(last, now), n.resourceName, n.resourceType)
  {
    var all := MetricsOf(nodes, last, now);
    assert all[..|all| - 1] == MetricsOf(nodes[..|nodes| - 1], last, now);
  }

  // ---------------------------------------------------------------- what is collected

  function ListAt(maps: TimeMap, t: nat): seq<NodeItem> {
    if t in maps then maps[t] else []
  }

  ghost predicate Rising(idx: seq<nat>) {
    forall j, k :: 0 <= j < k < |idx| ==> idx[j] < idx[k]
  }

  /** The nodes that have an item for a second. */
  function Holders(all: seq<NodeMetrics>, t: nat): seq<nat> {
    if all == [] then []
    else
      var n := |all| - 1;
      Holders(all[..n], t) + if t in all[n].items then [n as nat] else []
  }

  lemma RisingNext(idx: seq<nat>, n: nat)
    requires Rising(idx) && forall i :: i in idx ==> i < n
    ensures Rising(idx + [n]) && forall i :: i in idx + [n] <==> i in idx || i == n
  {
    var longer := idx + [n];
    assert longer[|idx|] == n;
    assert forall k {:trigger longer[k]} :: 0 <= k < |idx| ==> longer[k] == idx[k] && idx[k] in idx;
  }

  lemma {:induction false} HoldersHold(all: seq<NodeMetrics>, t: nat)
    ensures Rising(Holders(all, t))
    ensures forall i :: i in Holders(all, t) <==> 0 <= i < |all| && t in all[i].items
  {
    hide Rising;
    if all == [] {
      RisingFromNone();
    } else {
      var n := |all| - 1;
      HoldersHold(all[..n], t);
      assert forall i :: 0 <= i < n ==> all[..n][i] == all[i];
      var before := Holders(all[..n], t);
      RisingNext(before, n);
      assert before + [] == before;
    }
  }

  lemma RisingFromNone()
    ensures Rising([])
  {
  }

  lemma {:induction false} ListIsOfHolders(all: seq<NodeMetrics>, t: nat)
    ensures |ListAt(Collected(all), t)| == |Holders(all, t)| && (t in Collected(all) <==> Holders(all, t) != [])
    ensures forall k :: 0 <= k < |Holders(all, t)| ==>
              var i := Holders(all, t)[k];
              i < |all| && t in all[i].items && ListAt(Collected(all), t)[k] == NodeItem(all[i].resource, all[i].classification, all[i].items[t])
  {
    hide Collected, ListAt;
    if all == [] {
      NothingCollected(t);
    } else {
      var n := |all| - 1;
      ListIsOfHolders(all[..n], t);
      CollectedNext(all, t);
      assert forall i :: 0 <= i < n ==> all[..n][i] == all[i];
    }
  }

  lemma NothingCollected(t: nat)
    ensures ListAt(Collected([]), t) == [] && t !in Collected([])
  {
  }

  /**
   EACH NODE ONCE. What is collected for a second has, in node order, exactly one entry for each node that has an item for
   it, with the node's name and kind, and there is a list for a second exactly if some node has an item for it.
   */
  lemma {:induction false} CollectedPicks(all: seq<NodeMetrics>, t: nat) returns (idx: seq<nat>)
    ensures t in Collected(all) <==> exists i :: 0 <= i < |all| && t in all[i].items
    ensures |idx| == |ListAt(Collected(all), t)| && Rising(idx)
    ensures forall i :: i in idx <==> 0 <= i < |all| && t in all[i].items
    ensures forall k :: 0 <= k < |idx| ==>
              idx[k] < |all| && t in all[idx[k]].items
              && ListAt(Collected(all), t)[k] == NodeItem(all[idx[k]].resource, all[idx[k]].classification, all[idx[k]].items[t])
  {
    hide Collected, Holders, ListAt;
    HoldersHold(all, t);
    ListIsOfHolders(all, t);
    idx := Holders(all, t);
    if idx != [] {
      assert idx[0] in idx;
    }
  }

  lemma CollectedNext(all: seq<NodeMetrics>, t: nat)
    requires all != []
    ensures var before, n := all[..|all| - 1], all[|all| - 1];
            && (t in Collected(all) <==> t in Collected(before) || t in n.items)
            && ListAt(Collected(all), t) ==
                 ListAt(Collected(before), t) + if t in n.items then [NodeItem(n.resource, n.classification, n.items[t])] else []
  {
  }

  class MetricAggregator {
    var lastFetchTime: int

    constructor ()
      ensures lastFetchTime == -1
    {
      lastFetchTime := -1;
    }

    /** Collects what every node has for the seconds finished since the last time. */
    method DoAggregate(nodes: seq<ResourceNode>, now: nat) returns (maps: TimeMap)
      requires forall i :: 0 <= i < |nodes| ==> nodes[i].metric.Valid()
      modifies this
      ensures lastFetchTime == Max(old(lastFetchTime), SecondOf(now))
      ensures maps == if SecondOf(now) <= old(lastFetchTime) then map[] else Collected(MetricsOf(nodes, old(lastFetchTime), now))
    {
      hide ItemsOf, Fetched, Aggregated, SecondOf, WellPlaced, Collected, MetricsOf;
      NoMetrics(nodes, lastFetchTime, now);
      maps := map[];
      var curTime := SecondOf(now);
      if curTime <= lastFetchTime {
        return;
      }
      for i := 0 to |nodes|
        invariant lastFetchTime == old(lastFetchTime)
        invariant maps == Collected(MetricsOf(nodes[..i], lastFetchTime, now))
      {
        assert nodes[..i + 1][..i] == nodes[..i];
        CollectedStep(nodes[..i + 1], lastFetchTime, now);
        var metrics := CurrentMetricItems(nodes[i].metric, lastFetchTime, now);
        maps := AggregateIntoMap(maps, metrics, nodes[i]);
      }
      assert nodes[..|nodes|] == nodes;
      lastFetchTime := curTime;
    }
  }
}
