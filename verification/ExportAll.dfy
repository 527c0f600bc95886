/**
 Exactly-once export for all nodes together: over any run of events on any number of nodes, of nodes coming up, and of
 fetches, each finished second leaves with exactly one entry for each node in which something happened.
 */
module ExportAll {
  import opened Arithmetic
  import opened EventLog
  import opened LeapArrays
  import opened MetricAggregators
  import opened MetricBuckets
  import opened Prelude
  import opened SlidingWindows
  import opened WindowRefinement
  import ER = ExportRuns

  /** A node with its slots, everything recorded on it, and the times it came up and was last used. */
  datatype Node = Node(name: string, kind: int, t0: nat, slots: Slots, log: seq<Sample>, seen: nat)

  /** A node comes up, something happens on the `i`-th node, or the aggregator fetches. */
  datatype Act = ComeUp(time: nat, name: string, kind: int) | On(i: nat, op: Op) | Fetch(time: nat)

  datatype World = World(nodes: seq<Node>, last: int, exported: seq<TimeMap>)

  function TimeOf(a: Act): nat {
    if a.On? then a.op.now else a.time
  }

  ghost predicate Shaped(g: Geometry, w: World) {
    forall i :: 0 <= i < |w.nodes| ==> |w.nodes[i].slots| == g.sampleCount
  }

  /** What the nodes have for a fetch. */
  function MetricsAt(g: Geometry, nodes: seq<Node>, last: int, now: nat): (all: seq<NodeMetrics>)
    requires g.Valid()
    ensures |all| == |nodes|
    ensures forall i :: 0 <= i < |nodes| ==>
              all[i] == NodeMetrics(nodes[i].name, nodes[i].kind, MetricAggregators.ItemsOf(Fetched(g, nodes[i].slots, last, now)))
  {
    if nodes == [] then []
    else
      var n := nodes[|nodes| - 1];
      MetricsAt(g, nodes[..|nodes| - 1], last, now) + [NodeMetrics(n.name, n.kind, MetricAggregators.ItemsOf(Fetched(g, n.slots, last, now)))]
  }

  function StepNode(g: Geometry, n: Node, op: Op): (n': Node)
    requires g.Valid() && |n.slots| == g.sampleCount
    ensures |n'.slots| == g.sampleCount
  {
    n.(slots := Step(g, n.slots, op), log := n.log + Recorded(op), seen := op.now)
  }

  function StepAll(g: Geometry, w: World, a: Act): (w': World)
    requires g.Valid() && Shaped(g, w)
    ensures Shaped(g, w')
  {
    match a
    case ComeUp(now, name, kind) => w.(nodes := w.nodes + [Node(name, kind, now, InitialSlots(g, now, EMPTY_BUCKET), [], now)])
    case On(i, op) => if i < |w.nodes| then w.(nodes := w.nodes[i := StepNode(g, w.nodes[i], op)]) else w
    case Fetch(now) =>
      if SecondOf(now) <= w.last then w
      else World(w.nodes, SecondOf(now), w.exported + [Collected(MetricsAt(g, w.nodes, w.last, now))])
  }

  function RunAll(g: Geometry, acts: seq<Act>): (w: World)
    requires g.Valid()
    ensures Shaped(g, w)
  {
    if acts == [] then World([], -1, []) else StepAll(g, RunAll(g, acts[..|acts| - 1]), acts[|acts| - 1])
  }

  function ClockOf(acts: seq<Act>): nat {
    if acts == [] then 0 else TimeOf(acts[|acts| - 1])
  }

  /** The clock does not go back, and a fetch comes within the arrays' interval after the one before. */
  ghost predicate Timely(g: Geometry, acts: seq<Act>)
    requires g.Valid()
  {
    acts != [] ==>
      var a, w := acts[|acts| - 1], RunAll(g, acts[..|acts| - 1]);
      && Timely(g, acts[..|acts| - 1])
      && ClockOf(acts[..|acts| - 1]) <= TimeOf(a) < TIME_LIMIT
      && (a.Fetch? ==> InTime(g, w, a.time))
  }

  ghost predicate InTime(g: Geometry, w: World, now: nat) {
    forall i :: 0 <= i < |w.nodes| ==> now < ER.Since(w.nodes[i].t0, w.last) + g.Interval()
  }

  // ---------------------------------------------------------------- what should leave

  /** The entries exported for a second, by all fetches. */
  function ListFor(exported: seq<TimeMap>, sec: nat): seq<NodeItem> {
    if exported == [] then [] else ListFor(exported[..|exported| - 1], sec) + ListAt(exported[|exported| - 1], sec)
  }

  /** One entry for each node that the log has something for in the second, in node order. */
  function EntriesOf(nodes: seq<Node>, sec: nat): seq<NodeItem> {
    if nodes == [] then []
    else
      var n := nodes[|nodes| - 1];
      EntriesOf(nodes[..|nodes| - 1], sec) + if ER.SomethingIn(n.log, sec) then [NodeItem(n.name, n.kind, ER.LogItem(n.log, sec))] else []
  }

  ghost predicate NodeSound(g: Geometry, n: Node, clock: nat)
    requires g.Valid()
  {
    && n.t0 <= clock && n.seen <= clock < TIME_LIMIT
    && Reflects(g, n.slots, n.log, n.seen)
    && ER.StartsFrom(n.slots, SecondOf(n.t0)) && ER.NothingBefore(n.log, n.t0)
  }

  ghost predicate Sound(g: Geometry, w: World, clock: nat)
    requires g.Valid()
  {
    && clock < TIME_LIMIT
    && (forall i :: 0 <= i < |w.nodes| ==> NodeSound(g, w.nodes[i], clock))
    && (w.last == -1 || (0 <= w.last <= clock && w.last % 1000 == 0))
    && forall sec: nat :: sec % 1000 == 0 ==> SecondOut(w, sec)
  }

  ghost predicate SecondOut(w: World, sec: nat) {
    ListFor(w.exported, sec) == if sec < w.last then EntriesOf(w.nodes, sec) else []
  }

  lemma EntriesNext(nodes: seq<Node>, n: Node, sec: nat)
    ensures EntriesOf(nodes + [n], sec) ==
              EntriesOf(nodes, sec) + if ER.SomethingIn(n.log, sec) then [NodeItem(n.name, n.kind, ER.LogItem(n.log, sec))] else []
  {
    assert (nodes + [n])[..|nodes|] == nodes;
  }

  /** Entries depend on the logs only as far as the second goes. */
  lemma {:induction false} EntriesStay(nodes: seq<Node>, i: nat, n: Node, sec: nat)
    requires i < |nodes| && n.name == nodes[i].name && n.kind == nodes[i].kind
    requires ER.LogItem(n.log, sec) == ER.LogItem(nodes[i].log, sec)
    requires ER.SomethingIn(n.log, sec) == ER.SomethingIn(nodes[i].log, sec)
    ensures EntriesOf(nodes[i := n], sec) == EntriesOf(nodes, sec)
  {
    hide ER.LogItem, ER.SomethingIn;
    var k := |nodes| - 1;
    if i == k {
      assert nodes[i := n][..k] == nodes[..k];
    } else {
      EntriesStay(nodes[..k], i, n, sec);
      assert nodes[i := n][..k] == nodes[..k][i := n];
    }
  }

  // ---------------------------------------------------------------- the three steps

  lemma LaterLeavesSecond(log: seq<Sample>, op: Op, sec: nat)
    requires sec + 1000 <= op.now
    ensures ER.LogItem(log + Recorded(op), sec) == ER.LogItem(log, sec)
    ensures ER.SomethingIn(log + Recorded(op), sec) == ER.SomethingIn(log, sec)
  {
    hide ER.LogItem, ER.SomethingIn, IsActive;
    if Recorded(op) == [] {
      assert log + [] == log;
    } else {
      assert Recorded(op) == [Recorded(op)[0]];
      ER.LogItemStays(log, Recorded(op)[0], sec);
      ER.ActiveIffSomething(log, sec);
      ER.ActiveIffSomething(log + Recorded(op), sec);
    }
  }

  lemma {:induction false} NodeStepIsSound(g: Geometry, n: Node, clock: nat, op: Op)
    requires g.Valid() && 1000 % g.bucketLength == 0 && |n.slots| == g.sampleCount && NodeSound(g, n, clock) && clock <= op.now < TIME_LIMIT
    ensures NodeSound(g, StepNode(g, n, op), op.now)
  {
    hide Reflects, Step;
    ER.StepStartsFrom(g, n.t0, n.slots, op);
    StepReflects(g, n.slots, n.log, n.seen, op);
  }

  lemma {:induction false} OnIsSound(g: Geometry, w: World, clock: nat, i: nat, op: Op)
    requires g.Valid() && 1000 % g.bucketLength == 0 && Shaped(g, w) && Sound(g, w, clock) && clock <= op.now < TIME_LIMIT && i < |w.nodes|
    ensures Sound(g, StepAll(g, w, On(i, op)), op.now)
  {
    hide Reflects, Step, ER.StartsFrom, ER.NothingBefore, EntriesOf, ListFor, ER.LogItem, ER.SomethingIn, Recorded;
    var n := StepNode(g, w.nodes[i], op);
    NodeStepIsSound(g, w.nodes[i], clock, op);
    var after := StepAll(g, w, On(i, op));
    forall sec: nat | sec % 1000 == 0
      ensures SecondOut(after, sec)
    {
      assert SecondOut(w, sec);
      if sec < w.last {
        ER.SecondsApart(sec, w.last);
        LaterLeavesSecond(w.nodes[i].log, op, sec);
        EntriesStay(w.nodes, i, n, sec);
      }
    }
  }

  lemma NothingInNoLog(sec: nat)
    ensures !ER.SomethingIn([], sec)
  {
  }

  lemma {:induction false} NewNodeIsSound(g: Geometry, name: string, kind: int, now: nat)
    requires g.Valid() && 1000 % g.bucketLength == 0 && now < TIME_LIMIT
    ensures NodeSound(g, Node(name, kind, now, InitialSlots(g, now, EMPTY_BUCKET), [], now), now)
  {
    InitialReflects(g, now);
    InitialWellPlaced(g, now, EMPTY_BUCKET);
    ER.StartFromSecond(g, now, now);
  }

  lemma {:induction false} ComeUpIsSound(g: Geometry, w: World, clock: nat, now: nat, name: string, kind: int)
    requires g.Valid() && 1000 % g.bucketLength == 0 && Shaped(g, w) && Sound(g, w, clock) && clock <= now < TIME_LIMIT
    ensures Sound(g, StepAll(g, w, ComeUp(now, name, kind)), now)
  {
    hide Reflects, ER.StartsFrom, ER.NothingBefore, EntriesOf, ListFor, ER.LogItem, ER.SomethingIn;
    var n := Node(name, kind, now, InitialSlots(g, now, EMPTY_BUCKET), [], now);
    NewNodeIsSound(g, name, kind, now);
    var after := StepAll(g, w, ComeUp(now, name, kind));
    forall sec: nat | sec % 1000 == 0
      ensures SecondOut(after, sec)
    {
      assert SecondOut(w, sec);
      EntriesNext(w.nodes, n, sec);
      NothingInNoLog(sec);
      assert EntriesOf(w.nodes, sec) + [] == EntriesOf(w.nodes, sec);
    }
  }

  /** What a fetch gives for one node and second. */
  ghost predicate GivesEntry(n: Node, items: map<nat, Item>, last: int, cur: nat, sec: nat) {
    && (sec in items <==> last <= sec < cur && ER.SomethingIn(n.log, sec))
    && (sec in items ==> items[sec] == ER.LogItem(n.log, sec))
  }

  lemma {:induction false} FetchGivesEntry(g: Geometry, n: Node, clock: nat, last: int, now: nat, sec: nat)
    requires g.Valid() && 1000 % g.bucketLength == 0 && NodeSound(g, n, clock) && clock <= now < TIME_LIMIT
    requires sec % 1000 == 0 && (last == -1 || (last >= 0 && last % 1000 == 0))
    requires last < SecondOf(now) && now < ER.Since(n.t0, last) + g.Interval()
    ensures GivesEntry(n, MetricAggregators.ItemsOf(Fetched(g, n.slots, last, now)), last, SecondOf(now), sec)
  {
    hide Reflects, ER.LogItem, ER.SomethingIn, IsActive, MetricAggregators.ItemsOf, Fetched, SecondOf;
    ER.FetchGives(g, n.t0, n.slots, last, n.log, n.seen, now, sec);
    ER.ActiveIffSomething(n.log, sec);
  }

  lemma {:induction false} ListIsEntries(nodes: seq<Node>, all: seq<NodeMetrics>, last: int, cur: nat, sec: nat)
    requires |all| == |nodes|
    requires forall i :: 0 <= i < |nodes| ==>
               all[i].resource == nodes[i].name && all[i].classification == nodes[i].kind && GivesEntry(nodes[i], all[i].items, last, cur, sec)
    ensures ListAt(Collected(all), sec) == if last <= sec < cur then EntriesOf(nodes, sec) else []
  {
    hide Collected, ListAt, ER.LogItem, ER.SomethingIn;
    if all == [] {
      NothingCollected(sec);
    } else {
      var n := |all| - 1;
      ListIsEntries(nodes[..n], all[..n], last, cur, sec);
      CollectedNext(all, sec);
      assert GivesEntry(nodes[n], all[n].items, last, cur, sec);
    }
  }

  lemma ListNext(exported: seq<TimeMap>, maps: TimeMap, sec: nat)
    ensures ListFor(exported + [maps], sec) == ListFor(exported, sec) + ListAt(maps, sec)
  {
    assert (exported + [maps])[..|exported|] == exported;
  }

  lemma {:induction false} FetchIsSound(g: Geometry, w: World, clock: nat, now: nat)
    requires g.Valid() && 1000 % g.bucketLength == 0 && Shaped(g, w) && Sound(g, w, clock) && clock <= now < TIME_LIMIT && InTime(g, w, now)
    ensures Sound(g, StepAll(g, w, Fetch(now)), now)
  {
    hide Reflects, ER.StartsFrom, ER.NothingBefore, EntriesOf, ListFor, ListAt, Collected, SecondOf, Fetched, MetricAggregators.ItemsOf, ER.Since, GivesEntry;
    ER.SecondFacts(now);
    if w.last < SecondOf(now) {
      var all := MetricsAt(g, w.nodes, w.last, now);
      var after := StepAll(g, w, Fetch(now));
      forall sec: nat | sec % 1000 == 0
        ensures SecondOut(after, sec)
      {
        assert SecondOut(w, sec);
        forall i | 0 <= i < |w.nodes|
          ensures GivesEntry(w.nodes[i], all[i].items, w.last, SecondOf(now), sec)
        {
          FetchGivesEntry(g, w.nodes[i], clock, w.last, now, sec);
        }
        ListIsEntries(w.nodes, all, w.last, SecondOf(now), sec);
        ListNext(w.exported, Collected(all), sec);
      }
    }
  }

  lemma {:induction false} RunIsSound(g: Geometry, acts: seq<Act>)
    requires g.Valid() && 1000 % g.bucketLength == 0 && Timely(g, acts)
    ensures Sound(g, RunAll(g, acts), ClockOf(acts))
  {
    hide Sound, StepAll, Shaped, InTime;
    if acts == [] {
      NothingRun(g);
    } else {
      var before, a := acts[..|acts| - 1], acts[|acts| - 1];
      RunIsSound(g, before);
      var w := RunAll(g, before);
      match a
      case ComeUp(now, name, kind) => ComeUpIsSound(g, w, ClockOf(before), now, name, kind);
      case On(i, op) =>
        if i < |w.nodes| {
          OnIsSound(g, w, ClockOf(before), i, op);
        } else {
          NoSuchNode(g, w, ClockOf(before), a);
        }
      case Fetch(now) => FetchIsSound(g, w, ClockOf(before), now);
    }
  }

  lemma NothingRun(g: Geometry)
    requires g.Valid()
    ensures Sound(g, RunAll(g, []), 0)
  {
  }

  lemma NoSuchNode(g: Geometry, w: World, clock: nat, a: Act)
    requires g.Valid() && Shaped(g, w) && Sound(g, w, clock) && a.On? && a.i >= |w.nodes| && clock <= a.op.now < TIME_LIMIT
    ensures Sound(g, StepAll(g, w, a), a.op.now)
  {
    hide Reflects, SecondOut;
  }

  // ---------------------------------------------------------------- main result

  /** The nodes in which something happened in a second. */
  function BusyIn(nodes: seq<Node>, sec: nat): seq<nat> {
    if nodes == [] then []
    else
      var n := |nodes| - 1;
      BusyIn(nodes[..n], sec) + if ER.SomethingIn(nodes[n].log, sec) then [n as nat] else []
  }

  lemma {:induction false} BusyNodesAreBusy(nodes: seq<Node>, sec: nat)
    ensures Rising(BusyIn(nodes, sec))
    ensures forall i :: i in BusyIn(nodes, sec) <==> 0 <= i < |nodes| && ER.SomethingIn(nodes[i].log, sec)
  {
    hide ER.SomethingIn, Rising;
    if nodes == [] {
      RisingFromNone();
    } else {
      var n := |nodes| - 1;
      BusyNodesAreBusy(nodes[..n], sec);
      assert forall i :: 0 <= i < n ==> nodes[..n][i] == nodes[i];
      RisingNext(BusyIn(nodes[..n], sec), n);
      assert BusyIn(nodes[..n], sec) + [] == BusyIn(nodes[..n], sec);
    }
  }

  lemma {:induction false} EntriesAreOfBusyNodes(nodes: seq<Node>, sec: nat)
    ensures var idx, list := BusyIn(nodes, sec), EntriesOf(nodes, sec);
            && |idx| == |list|
            && forall k :: 0 <= k < |idx| ==>
                 idx[k] < |nodes| && list[k] == NodeItem(nodes[idx[k]].name, nodes[idx[k]].kind, ER.LogItem(nodes[idx[k]].log, sec))
  {
    hide ER.LogItem, ER.SomethingIn;
    if nodes != [] {
      var n := |nodes| - 1;
      EntriesAreOfBusyNodes(nodes[..n], sec);
      assert forall i :: 0 <= i < n ==> nodes[..n][i] == nodes[i];
    }
  }

  /**
   EVERY NODE EXACTLY ONCE. Over every timely run, for a finished second exactly one entry has been exported for each node in
   which something happened, in node order, with the node's name and kind and the totals of its log, and none for any other
   node; nothing of a later second is out yet.
   */
  lemma {:induction false} EveryNodeExactlyOnce(g: Geometry, acts: seq<Act>, sec: nat) returns (idx: seq<nat>)
    requires g.Valid() && 1000 % g.bucketLength == 0 && Timely(g, acts) && sec % 1000 == 0
    ensures var w := RunAll(g, acts);
            var list := ListFor(w.exported, sec);
            && |idx| == |list| && Rising(idx)
            && (forall i :: i in idx <==> sec < w.last && 0 <= i < |w.nodes| && ER.SomethingIn(w.nodes[i].log, sec))
            && forall k :: 0 <= k < |idx| ==>
                 idx[k] < |w.nodes| && list[k] == NodeItem(w.nodes[idx[k]].name, w.nodes[idx[k]].kind, ER.LogItem(w.nodes[idx[k]].log, sec))
  {
    hide RunAll, Timely, NodeSound, EntriesOf, BusyIn, ListFor, ER.LogItem, ER.SomethingIn, Rising;
    RunIsSound(g, acts);
    var w := RunAll(g, acts);
    assert SecondOut(w, sec);
    BusyNodesAreBusy(w.nodes, sec);
    EntriesAreOfBusyNodes(w.nodes, sec);
    RisingFromNone();
    idx := if sec < w.last then BusyIn(w.nodes, sec) else [];
  }
}
