/**
 Exactly-once export: over any run of events and fetches, every event of a finished second is counted in exactly
 one exported item.
 */
module ExportRuns {
  import opened Arithmetic
  import opened EventLog
  import opened LeapArrays
  import opened MetricAggregators
  import opened MetricBuckets
  import opened Prelude
  import opened SlidingWindows
  import opened WindowRefinement

  // ---------------------------------------------------------------- runs

  /** Something happens on the node's statistic, or the aggregator fetches. */
  datatype Act = NodeOp(op: Op) | Fetch(time: nat)

  function TimeOf(a: Act): nat {
    if a.NodeOp? then a.op.now else a.time
  }

  /** Slots of the node, the last fetch, and the items exported by each fetch so far. */
  datatype State = State(slots: Slots, last: int, exported: seq<map<nat, Item>>)

  function StepAct(g: Geometry, s: State, a: Act): State
    requires g.Valid() && |s.slots| == g.sampleCount
  {
    match a
    case NodeOp(op) => s.(slots := Step(g, s.slots, op))
    case Fetch(now) =>
      if SecondOf(now) <= s.last then s
      else State(s.slots, SecondOf(now), s.exported + [ItemsOf(Fetched(g, s.slots, s.last, now))])
  }

  function RunActs(g: Geometry, t0: nat, acts: seq<Act>): (s: State)
    requires g.Valid()
    ensures |s.slots| == g.sampleCount
  {
    if acts == [] then State(InitialSlots(g, t0, EMPTY_BUCKET), -1, [])
    else StepAct(g, RunActs(g, t0, acts[..|acts| - 1]), acts[|acts| - 1])
  }

  function LogOfActs(acts: seq<Act>): seq<Sample> {
    if acts == [] then []
    else
      var a := acts[|acts| - 1];
      LogOfActs(acts[..|acts| - 1]) + if a.NodeOp? then Recorded(a.op) else []
  }

  function ClockOf(t0: nat, acts: seq<Act>): nat {
    if acts == [] then t0 else TimeOf(acts[|acts| - 1])
  }

  /** From which second on a fetch has to find everything: the last fetch, or the making of the node. */
  function Since(t0: nat, last: int): nat {
    if last < SecondOf(t0) then SecondOf(t0) else last
  }

  /** The clock does not go back, and each fetch comes within the array's interval after the one before. */
  ghost predicate Timely(g: Geometry, t0: nat, acts: seq<Act>)
    requires g.Valid()
  {
    acts != [] ==>
      && Timely(g, t0, acts[..|acts| - 1])
      && ClockOf(t0, acts[..|acts| - 1]) <= TimeOf(acts[|acts| - 1]) < TIME_LIMIT
      && (acts[|acts| - 1].Fetch? ==>
            acts[|acts| - 1].time < Since(t0, RunActs(g, t0, acts[..|acts| - 1]).last) + g.Interval())
  }

  // ---------------------------------------------------------------- what has been exported

  /** The item of a second as the log has it: every total, the average response time and the largest concurrency. */
  function LogItem(log: seq<Sample>, sec: nat): Item {
    Item(sec,
      CountOf(log, PASS, sec), CountOf(log, BLOCK, sec), CountOf(log, COMPLETE, sec), CountOf(log, ERROR, sec),
      (if CountOf(log, COMPLETE, sec) > 0 then CountOf(log, RT, sec) / CountOf(log, COMPLETE, sec) else CountOf(log, RT, sec)),
      -TimeMin(log, READING, sec, sec + 1000, 0),
      CountOf(log, BLOCK_FLOW, sec), CountOf(log, BLOCK_ISOLATION, sec), CountOf(log, BLOCK_CIRCUIT_BREAKING, sec),
      CountOf(log, BLOCK_SYSTEM, sec), CountOf(log, BLOCK_HOT_SPOT_PARAM_FLOW, sec), CountOf(log, BLOCK_MOCK, sec))
  }

  /** The total of an event in a second. */
  function CountOf(log: seq<Sample>, event: int, sec: nat): int {
    TimeSum(log, event, sec, sec + 1000)
  }

  /** A second in which something passed, was blocked, completed or failed, took time or was in flight. */
  predicate SomethingIn(log: seq<Sample>, sec: nat) {
    || (if CountOf(log, COMPLETE, sec) > 0 then CountOf(log, RT, sec) / CountOf(log, COMPLETE, sec) else CountOf(log, RT, sec)) != 0
    || CountOf(log, PASS, sec) != 0 || CountOf(log, BLOCK, sec) != 0 || CountOf(log, COMPLETE, sec) != 0 || CountOf(log, ERROR, sec) != 0
    || TimeMin(log, READING, sec, sec + 1000, 0) != 0
  }

  /** These are the seconds whose items are active. */
  lemma ActiveIffSomething(log: seq<Sample>, sec: nat)
    ensures IsActive(LogItem(log, sec)) <==> SomethingIn(log, sec)
  {
    hide CountOf, TimeMin;
  }

  /** The items exported for a second, by all fetches. */
  function ExportedFor(exported: seq<map<nat, Item>>, sec: nat): seq<Item> {
    if exported == [] then []
    else
      var last := exported[|exported| - 1];
      ExportedFor(exported[..|exported| - 1], sec) + if sec in last then [last[sec]] else []
  }

  lemma ExportedNext(exported: seq<map<nat, Item>>, items: map<nat, Item>, sec: nat)
    ensures ExportedFor(exported + [items], sec) == ExportedFor(exported, sec) + if sec in items then [items[sec]] else []
  {
    assert (exported + [items])[..|exported|] == exported;
  }

  // ---------------------------------------------------------------- one fetch

  /** The buckets of one second among those selected are those selected from that second. */
  lemma {:induction false} BucketsOfSelected(interval: nat, slots: Slots, now: nat, range: StartRange, sec: nat)
    requires sec % 1000 == 0
    ensures BucketsOf(Select(interval, slots, now, range), sec) ==
              Select(interval, slots, now, StartRange(Max(range.lo, sec), Min(range.hi, sec + 999)))
  {
    if slots != [] {
      var n := |slots| - 1;
      BucketsOfSelected(interval, slots[..n], now, range, sec);
      var ws := Select(interval, slots[..n], now, range);
      assert (ws + [slots[n]])[..|ws|] == ws;
      assert SecondOf(slots[n].start) == sec <==> sec <= slots[n].start <= sec + 999;
    }
  }

  lemma NothingInNoBuckets(sec: nat)
    ensures !IsActive(ItemFrom(sec, []))
  {
  }

  /** There is an item for a second exactly if what its buckets add up to is active. */
  lemma ItemAt(ws: Slots, sec: nat)
    ensures sec in MetricAggregators.ItemsOf(ws) <==> IsActive(ItemFrom(sec, BucketsOf(ws, sec)))
    ensures sec in MetricAggregators.ItemsOf(ws) ==> MetricAggregators.ItemsOf(ws)[sec] == ItemFrom(sec, BucketsOf(ws, sec))
  {
    hide ItemFrom, IsActive, BucketsOf;
    if sec !in SecondsOf(ws) {
      NoBuckets(ws, sec);
      NothingInNoBuckets(sec);
    }
  }

  /** Seconds outside of the fetched range get no item. */
  lemma {:induction false} NothingOutside(interval: nat, slots: Slots, now: nat, range: StartRange, sec: nat)
    requires sec % 1000 == 0 && (sec + 999 < range.lo || range.hi < sec)
    ensures sec !in SecondsOf(Select(interval, slots, now, range))
  {
    if slots != [] {
      var n := |slots| - 1;
      NothingOutside(interval, slots[..n], now, range, sec);
      SecondsNext(Select(interval, slots[..n], now, range), slots[n]);
    }
  }

  lemma SecondFacts(t: nat)
    ensures SecondOf(t) % 1000 == 0 && SecondOf(t) <= t < SecondOf(t) + 1000
  {
  }

  /** Aligned starts in a second are those from its first bucket to its last one. */
  lemma StartsInSecond(g: Geometry, sec: nat, start: nat)
    requires g.Valid() && 1000 % g.bucketLength == 0 && sec % 1000 == 0 && start % g.bucketLength == 0
    ensures sec % g.bucketLength == 0 && (sec + 1000 - g.bucketLength) % g.bucketLength == 0
    ensures start <= sec + 999 <==> start <= sec + 1000 - g.bucketLength
  {
    SecondIsAligned(g, sec);
    SecondIsAligned(g, sec + 1000);
    var l := g.bucketLength;
    DivMod(sec + 1000, l);
    MulDist(l, (sec + 1000) / l, 1);
    MultipleFacts(l, (sec + 1000) / l - 1);
    if start < sec + 1000 {
      AlignedGap(g, start, sec + 1000);
    }
    MulMono(l, l, 1000);
  }

  lemma SecondIsAligned(g: Geometry, sec: nat)
    requires g.Valid() && 1000 % g.bucketLength == 0 && sec % 1000 == 0
    ensures sec % g.bucketLength == 0
  {
    var l := g.bucketLength;
    var k, m := 1000 / l, sec / 1000;
    DivMod(1000, l);
    DivMod(sec, 1000);
    Nested(l, k, m);
    MultipleFacts(l, k * m);
  }

  lemma Nested(l: int, k: int, m: int)
    ensures (l * k) * m == l * (k * m)
  {
  }

  /** The buckets of a second that a timely fetch reads add up to the item that the log has for it. */
  lemma {:induction false} FetchedSecondIsLogged(g: Geometry, slots: Slots, log: seq<Sample>, clock: nat, since: nat, last: int, now: nat, sec: nat)
    requires g.Valid() && 1000 % g.bucketLength == 0 && Reflects(g, slots, log, clock) && clock <= now < TIME_LIMIT
    requires since % 1000 == 0 && now < since + g.Interval() && last <= since
    requires sec % 1000 == 0 && since <= sec < SecondOf(now)
    ensures ItemFrom(sec, BucketsOf(Fetched(g, slots, last, now), sec)) == LogItem(log, sec)
  {
    hide TimeSum, TimeMin, SumOf, MaxConcurrencyOf, Select, BucketsOf, SecondOf, Reflects;
    var range := FetchRange(last, SecondOf(now));
    SecondFacts(now);
    SecondsApart(sec, SecondOf(now));
    BucketsOfSelected(g.Interval(), slots, now, range, sec);
    assert StartRange(Max(range.lo, sec), Min(range.hi, sec + 999)) == StartRange(sec, sec + 999);
    SecondSum(g, slots, log, clock, since, now, sec);
  }

  lemma SecondsApart(a: nat, b: nat)
    requires a % 1000 == 0 && b % 1000 == 0 && a < b
    ensures a + 1000 <= b
  {
  }

  lemma {:induction false} SecondSum(g: Geometry, slots: Slots, log: seq<Sample>, clock: nat, since: nat, now: nat, sec: nat)
    requires g.Valid() && 1000 % g.bucketLength == 0 && Reflects(g, slots, log, clock) && clock <= now < TIME_LIMIT
    requires now < since + g.Interval() && sec % 1000 == 0 && since <= sec && sec + 1000 <= SecondOf(now)
    ensures var ws := Select(g.Interval(), slots, now, StartRange(sec, sec + 999));
            && (forall event :: KnownEvent(event) ==> SumOf(ws, event) == TimeSum(log, event, sec, sec + 1000))
            && MaxConcurrencyOf(ws) == -TimeMin(log, READING, sec, sec + 1000, 0)
  {
    hide TimeSum, TimeMin, SumOf, MaxConcurrencyOf, Select, SecondOf, Tracks, Agrees, Keeps, Live, WellPlaced;
    SecondIsWindow(g, slots, now, since, sec, StartRange(sec, sec + 999));
    var hi := sec + 1000 - g.bucketLength;
    assert sec % g.bucketLength == 0 && hi % g.bucketLength == 0 by {
      SecondIsAligned(g, sec);
      StartsInSecond(g, sec, sec);
    }
    WindowOfLog(g, slots, log, clock, now, StartRange(sec, sec + 999), sec, hi);
  }

  lemma {:induction false} SecondIsWindow(g: Geometry, slots: Slots, now: nat, since: nat, sec: nat, range: StartRange)
    requires g.Valid() && 1000 % g.bucketLength == 0 && WellPlaced(g, slots) && now < TIME_LIMIT
    requires sec % 1000 == 0 && since <= sec && sec + 1000 <= SecondOf(now) && now < since + g.Interval()
    requires range == StartRange(sec, sec + 999)
    ensures Keeps(g.Interval(), Starts(slots), now, range, sec, sec + 1000 - g.bucketLength) && Live(g, now, sec)
  {
    SecondFacts(now);
    StartFacts(g, now);
    WellPlacedStarts(g, slots);
    var starts := Starts(slots);
    forall i | 0 <= i < |starts|
      ensures !Deprecated(g.Interval(), now, starts[i]) && range.Holds(starts[i]) <==> sec <= starts[i] <= sec + 1000 - g.bucketLength
    {
      StartsInSecond(g, sec, starts[i]);
    }
  }

  // ---------------------------------------------------------------- runs

  /** Everything in the log is from `t0` on. */
  ghost predicate NothingBefore(log: seq<Sample>, t0: nat) {
    forall k {:trigger log[k]} :: 0 <= k < |log| ==> t0 <= log[k].time
  }

  /** Each active finished second has one item, the one of the log; no other second has any. */
  ghost predicate ExportedOnce(s: State, log: seq<Sample>) {
    forall sec: nat :: sec % 1000 == 0 ==> SecondExported(s, log, sec)
  }

  ghost predicate SecondExported(s: State, log: seq<Sample>, sec: nat) {
    ExportedFor(s.exported, sec) == if sec < s.last && IsActive(LogItem(log, sec)) then [LogItem(log, sec)] else []
  }

  predicate Clocked(s: State, clock: nat) {
    s.last == -1 || (0 <= s.last <= clock && s.last % 1000 == 0)
  }

  /** No slot is for a time before `since`. */
  ghost predicate StartsFrom(slots: Slots, since: nat) {
    forall i {:trigger slots[i]} :: 0 <= i < |slots| ==> since <= slots[i].start
  }

  lemma {:induction false} NoBucketBefore(interval: nat, slots: Slots, now: nat, range: StartRange, since: nat, sec: nat)
    requires sec % 1000 == 0 && sec + 1000 <= since && StartsFrom(slots, since)
    ensures sec !in SecondsOf(Select(interval, slots, now, range))
  {
    if slots != [] {
      var n := |slots| - 1;
      assert slots == slots[..n] + [slots[n]];
      NoBucketBefore(interval, slots[..n], now, range, since, sec);
      SecondsNext(Select(interval, slots[..n], now, range), slots[n]);
    }
  }

  /** The bucket of a time from `t0` on starts in the second of `t0` or later. */
  lemma StartFromSecond(g: Geometry, t0: nat, t: nat)
    requires g.Valid() && 1000 % g.bucketLength == 0 && t0 <= t
    ensures SecondOf(t0) <= g.Start(t)
  {
    SecondFacts(t0);
    StartFacts(g, t);
    SecondIsAligned(g, SecondOf(t0));
    if g.Start(t) < SecondOf(t0) {
      AlignedGap(g, g.Start(t), SecondOf(t0));
    }
  }

  lemma StepStartsFrom(g: Geometry, t0: nat, slots: Slots, op: Op)
    requires g.Valid() && 1000 % g.bucketLength == 0 && |slots| == g.sampleCount && StartsFrom(slots, SecondOf(t0)) && t0 <= op.now
    ensures StartsFrom(Step(g, slots, op), SecondOf(t0))
  {
    StartFromSecond(g, t0, op.now);
  }

  /** A sample after a second leaves the second's item as it is. */
  lemma LogItemStays(log: seq<Sample>, x: Sample, sec: nat)
    requires sec + 1000 <= x.time
    ensures LogItem(log + [x], sec) == LogItem(log, sec)
  {
    hide TimeSum, TimeMin;
    forall event: int
      ensures CountOf(log + [x], event, sec) == CountOf(log, event, sec)
    {
      TimeSumAppend(log, x, event, sec, sec + 1000);
    }
    TimeMinAppend(log, x, READING, sec, sec + 1000, 0);
  }

  /** A sample from now on is in no finished second. */
  lemma RecordedSecondExported(s: State, log: seq<Sample>, x: Sample, slots: Slots, sec: nat)
    requires sec % 1000 == 0 && SecondExported(s, log, sec) && Clocked(s, x.time)
    ensures SecondExported(s.(slots := slots), log + [x], sec)
  {
    hide LogItem, ExportedFor, IsActive;
    if sec < s.last {
      SecondsApart(sec, s.last);
      LogItemStays(log, x, sec);
    }
  }

  /** A second before everything in the log has nothing to export. */
  lemma NothingLogged(log: seq<Sample>, t0: nat, sec: nat)
    requires NothingBefore(log, t0) && sec + 1000 <= t0
    ensures !IsActive(LogItem(log, sec))
  {
    hide TimeSum, TimeMin;
    forall event: int
      ensures CountOf(log, event, sec) == 0
    {
      TimeSumNone(log, event, sec, sec + 1000);
    }
    TimeMinNone(log, READING, sec, sec + 1000, 0);
  }

  /** A timely fetch gives for each active second in its range the item of the log, and for no other second any. */
  lemma FetchGives(g: Geometry, t0: nat, slots: Slots, last: int, log: seq<Sample>, clock: nat, now: nat, sec: nat)
    requires g.Valid() && 1000 % g.bucketLength == 0 && Reflects(g, slots, log, clock) && clock <= now < TIME_LIMIT
    requires sec % 1000 == 0 && (last == -1 || (last >= 0 && last % 1000 == 0))
    requires NothingBefore(log, t0) && StartsFrom(slots, SecondOf(t0))
    requires last < SecondOf(now) && now < Since(t0, last) + g.Interval()
    ensures var items := MetricAggregators.ItemsOf(Fetched(g, slots, last, now));
            && (sec in items <==> last <= sec < SecondOf(now) && IsActive(LogItem(log, sec)))
            && (sec in items ==> items[sec] == LogItem(log, sec))
  {
    hide LogItem, IsActive, ItemFrom, Select, SecondOf, Reflects, WellPlaced, BucketsOf;
    var ws := Fetched(g, slots, last, now);
    SecondFacts(now);
    SecondFacts(t0);
    ItemAt(ws, sec);
    if sec < last {
      SecondsApart(sec, last);
    }
    if sec < last || sec >= SecondOf(now) {
      NothingOutside(g.Interval(), slots, now, FetchRange(last, SecondOf(now)), sec);
    } else if sec >= Since(t0, last) {
      FetchedSecondIsLogged(g, slots, log, clock, Since(t0, last), last, now, sec);
    } else {
      SecondsApart(sec, SecondOf(t0));
      NoBucketBefore(g.Interval(), slots, now, FetchRange(last, SecondOf(now)), SecondOf(t0), sec);
      NothingLogged(log, t0, sec);
    }
  }

  lemma FetchedSecondExported(g: Geometry, t0: nat, s: State, log: seq<Sample>, clock: nat, now: nat, sec: nat)
    requires g.Valid() && 1000 % g.bucketLength == 0 && |s.slots| == g.sampleCount
    requires Reflects(g, s.slots, log, clock) && clock <= now < TIME_LIMIT
    requires sec % 1000 == 0 && SecondExported(s, log, sec) && (s.last == -1 || (s.last >= 0 && s.last % 1000 == 0))
    requires NothingBefore(log, t0) && StartsFrom(s.slots, SecondOf(t0))
    requires s.last < SecondOf(now) && now < Since(t0, s.last) + g.Interval()
    ensures SecondExported(StepAct(g, s, Fetch(now)), log, sec)
  {
    hide LogItem, IsActive, ExportedFor, SecondOf, Reflects, Fetched, MetricAggregators.ItemsOf;
    FetchGives(g, t0, s.slots, s.last, log, clock, now, sec);
    ExportedNext(s.exported, MetricAggregators.ItemsOf(Fetched(g, s.slots, s.last, now)), sec);
  }

  lemma SlotCount(g: Geometry, slots: Slots, log: seq<Sample>, clock: nat)
    requires g.Valid() && Reflects(g, slots, log, clock)
    ensures |slots| == g.sampleCount
  {
  }

  /** What holds after every run: the slots reflect the log, and finished seconds are out. */
  ghost predicate Sound(g: Geometry, t0: nat, s: State, log: seq<Sample>, clock: nat, nodeClock: nat)
    requires g.Valid()
  {
    && nodeClock <= clock < TIME_LIMIT && t0 <= clock
    && Reflects(g, s.slots, log, nodeClock)
    && StartsFrom(s.slots, SecondOf(t0)) && NothingBefore(log, t0)
    && Clocked(s, clock) && ExportedOnce(s, log)
  }

  lemma {:induction false} NodeOpIsSound(g: Geometry, t0: nat, s: State, log: seq<Sample>, clock: nat, nodeClock: nat, op: Op)
    requires g.Valid() && 1000 % g.bucketLength == 0 && Sound(g, t0, s, log, clock, nodeClock) && clock <= op.now < TIME_LIMIT
    ensures Sound(g, t0, StepAct(g, s, NodeOp(op)), log + Recorded(op), op.now, op.now)
  {
    hide ExportedFor, SecondExported, Reflects, Step;
    SlotCount(g, s.slots, log, nodeClock);
    StepStartsFrom(g, t0, s.slots, op);
    StepReflects(g, s.slots, log, nodeClock, op);
    var slots := Step(g, s.slots, op);
    forall sec: nat | sec % 1000 == 0
      ensures SecondExported(s.(slots := slots), log + Recorded(op), sec)
    {
      if Recorded(op) != [] {
        RecordedSecondExported(s, log, Recorded(op)[0], slots, sec);
        assert Recorded(op) == [Recorded(op)[0]];
      } else {
        SlotsDoNotMatter(s, slots, log, sec);
        assert log + [] == log;
      }
    }
  }

  lemma SlotsDoNotMatter(s: State, slots: Slots, log: seq<Sample>, sec: nat)
    requires SecondExported(s, log, sec)
    ensures SecondExported(s.(slots := slots), log, sec)
  {
  }

  lemma {:induction false} FetchIsSound(g: Geometry, t0: nat, s: State, log: seq<Sample>, clock: nat, nodeClock: nat, now: nat)
    requires g.Valid() && 1000 % g.bucketLength == 0 && Sound(g, t0, s, log, clock, nodeClock) && clock <= now < TIME_LIMIT
    requires now < Since(t0, s.last) + g.Interval()
    ensures Sound(g, t0, StepAct(g, s, Fetch(now)), log, now, nodeClock)
  {
    hide SecondExported, Reflects, Fetched, SecondOf, MetricAggregators.ItemsOf;
    SlotCount(g, s.slots, log, nodeClock);
    SecondFacts(now);
    if s.last < SecondOf(now) {
      forall sec: nat | sec % 1000 == 0
        ensures SecondExported(StepAct(g, s, Fetch(now)), log, sec)
      {
        FetchedSecondExported(g, t0, s, log, nodeClock, now, sec);
      }
    }
  }

  lemma StartIsSound(g: Geometry, t0: nat)
    requires g.Valid() && 1000 % g.bucketLength == 0 && t0 < TIME_LIMIT
    ensures Sound(g, t0, RunActs(g, t0, []), [], t0, t0)
  {
    InitialReflects(g, t0);
    InitialWellPlaced(g, t0, EMPTY_BUCKET);
    StartFromSecond(g, t0, t0);
  }

  lemma {:induction false} RunIsSound(g: Geometry, t0: nat, acts: seq<Act>) returns (nodeClock: nat)
    requires g.Valid() && 1000 % g.bucketLength == 0 && t0 < TIME_LIMIT && Timely(g, t0, acts)
    ensures Sound(g, t0, RunActs(g, t0, acts), LogOfActs(acts), ClockOf(t0, acts), nodeClock)
  {
    hide Sound, StepAct;
    if acts == [] {
      StartIsSound(g, t0);
      nodeClock := t0;
    } else {
      var before, a := acts[..|acts| - 1], acts[|acts| - 1];
      nodeClock := RunIsSound(g, t0, before);
      var s, log, clock := RunActs(g, t0, before), LogOfActs(before), ClockOf(t0, before);
      if a.NodeOp? {
        NodeOpIsSound(g, t0, s, log, clock, nodeClock, a.op);
        nodeClock := a.op.now;
      } else {
        assert log + [] == log;
        FetchIsSound(g, t0, s, log, clock, nodeClock, a.time);
      }
    }
  }

  /**
   EXACTLY ONCE. Over every timely run, of any finished second exactly one item has been exported, the one that the log has
   for it, or none if that is not active; nothing of a later second is out yet.
   */
  lemma {:induction false} ExactlyOnce(g: Geometry, t0: nat, acts: seq<Act>, sec: nat)
    requires g.Valid() && 1000 % g.bucketLength == 0 && t0 < TIME_LIMIT && Timely(g, t0, acts) && sec % 1000 == 0
    ensures var s, item := RunActs(g, t0, acts), LogItem(LogOfActs(acts), sec);
            ExportedFor(s.exported, sec) == if sec < s.last && IsActive(item) then [item] else []
  {
    hide Reflects, LogItem, ExportedFor;
    var _ := RunIsSound(g, t0, acts);
    assert SecondExported(RunActs(g, t0, acts), LogOfActs(acts), sec);
  }

  // ---------------------------------------------------------------- conservation

  /** The events whose totals an item carries. */
  predicate Carried(event: int) {
    PASS <= event <= ERROR || BLOCK_FLOW <= event <= BLOCK_MOCK
  }

  function CountIn(item: Item, event: int): int
    requires Carried(event)
  {
    if event == PASS then item.passQps
    else if event == BLOCK then item.blockQps
    else if event == COMPLETE then item.completeQps
    else if event == ERROR then item.errorQps
    else if event == BLOCK_FLOW then item.byFlow
    else if event == BLOCK_ISOLATION then item.byIsolation
    else if event == BLOCK_CIRCUIT_BREAKING then item.byCircuitBreaking
    else if event == BLOCK_SYSTEM then item.bySystem
    else if event == BLOCK_HOT_SPOT_PARAM_FLOW then item.byHotspotParam
    else item.byMock
  }

  function SumIn(items: seq<Item>, event: int): int
    requires Carried(event)
  {
    if items == [] then 0 else SumIn(items[..|items| - 1], event) + CountIn(items[|items| - 1], event)
  }

  /** What has been exported of an event for the first `n` seconds. */
  function TotalExported(exported: seq<map<nat, Item>>, event: int, n: nat): int
    requires Carried(event)
  {
    if n == 0 then 0 else TotalExported(exported, event, n - 1) + SumIn(ExportedFor(exported, 1000 * (n - 1)), event)
  }

  /** A second whose counts of the event have left, or that has none. */
  ghost predicate NotLost(log: seq<Sample>, event: int, sec: nat) {
    IsActive(LogItem(log, sec)) || CountOf(log, event, sec) == 0
  }

  /** None of the first `n` seconds lost counts of the event. */
  ghost predicate NoneLost(log: seq<Sample>, event: int, n: nat) {
    n == 0 || (NoneLost(log, event, n - 1) && NotLost(log, event, 1000 * (n - 1)))
  }

  lemma SumInOne(item: Item, event: int)
    requires Carried(event)
    ensures SumIn([item], event) == CountIn(item, event) && SumIn([], event) == 0
  {
    assert [item][..0] == [];
  }

  lemma CountInLogItem(log: seq<Sample>, sec: nat, event: int)
    requires Carried(event)
    ensures CountIn(LogItem(log, sec), event) == CountOf(log, event, sec)
    ensures event <= ERROR ==> NotLost(log, event, sec)
  {
    hide CountOf;
  }

  /** What has been exported of an event for a finished second: its count, if the second is active. */
  lemma {:induction false} ExportedCount(g: Geometry, t0: nat, acts: seq<Act>, sec: nat, event: int)
    requires g.Valid() && 1000 % g.bucketLength == 0 && t0 < TIME_LIMIT && Timely(g, t0, acts) && sec % 1000 == 0
    requires Carried(event) && sec < RunActs(g, t0, acts).last
    ensures var log := LogOfActs(acts);
            SumIn(ExportedFor(RunActs(g, t0, acts).exported, sec), event) == if IsActive(LogItem(log, sec)) then CountOf(log, event, sec) else 0
    ensures event <= ERROR ==> NotLost(LogOfActs(acts), event, sec)
  {
    hide RunActs, LogOfActs, ExportedFor, LogItem, IsActive, CountIn, SumIn;
    var item := LogItem(LogOfActs(acts), sec);
    ExactlyOnce(g, t0, acts, sec);
    SumInOne(item, event);
    CountInLogItem(LogOfActs(acts), sec, event);
  }

  /** CONSERVATION. Over every timely run the exported passes, blocks, completions and errors are the logged ones. */
  lemma {:induction false} TotalsAreConserved(g: Geometry, t0: nat, acts: seq<Act>, event: int, n: nat)
    requires g.Valid() && 1000 % g.bucketLength == 0 && t0 < TIME_LIMIT && Timely(g, t0, acts)
    requires PASS <= event <= ERROR && 1000 * n <= Max(0, RunActs(g, t0, acts).last)
    ensures TotalExported(RunActs(g, t0, acts).exported, event, n) == TimeSum(LogOfActs(acts), event, 0, 1000 * n)
  {
    hide RunActs, LogOfActs, TimeSum;
    if n == 0 {
      NoTime(LogOfActs(acts), event);
    } else {
      TotalsAreConserved(g, t0, acts, event, n - 1);
      ExportedCount(g, t0, acts, 1000 * (n - 1), event);
      TimeSumSplit(LogOfActs(acts), event, 0, 1000 * (n - 1), 1000 * n);
    }
  }

  /**
   EVERY COUNT. Any count that items carry, kinds of blocks among them, is conserved exactly if no finished second lost
   some: each that has counts of it is active by its passes, blocks, completions, errors, response time or concurrency.
   */
  lemma {:induction false} CountIsConservedIff(g: Geometry, t0: nat, acts: seq<Act>, event: int, n: nat)
    requires g.Valid() && 1000 % g.bucketLength == 0 && t0 < TIME_LIMIT && Timely(g, t0, acts) && NoNegativeCounts(LogOfActs(acts))
    requires Carried(event) && 1000 * n <= Max(0, RunActs(g, t0, acts).last)
    ensures var log := LogOfActs(acts);
            var exported, logged := TotalExported(RunActs(g, t0, acts).exported, event, n), TimeSum(log, event, 0, 1000 * n);
            exported <= logged && (exported == logged <==> NoneLost(log, event, n))
  {
    hide RunActs, LogOfActs, TimeSum, NotLost, IsActive, LogItem;
    var log := LogOfActs(acts);
    if n == 0 {
      NoTime(log, event);
    } else {
      var sec := 1000 * (n - 1);
      CountIsConservedIff(g, t0, acts, event, n - 1);
      ExportedCount(g, t0, acts, sec, event);
      TimeSumNonNegative(log, event, sec, sec + 1000);
      TimeSumSplit(log, event, 0, sec, 1000 * n);
      NotLostMeans(log, event, sec);
    }
  }

  lemma NotLostMeans(log: seq<Sample>, event: int, sec: nat)
    ensures NotLost(log, event, sec) <==> IsActive(LogItem(log, sec)) || CountOf(log, event, sec) == 0
  {
  }

  lemma {:induction false} NoTime(log: seq<Sample>, event: int)
    ensures TimeSum(log, event, 0, 0) == 0
  {
    TimeSumNone(log, event, 0, 0);
  }

  /** Every kind of block is logged with a block in the same second. */
  ghost predicate KindsComeWithBlocks(log: seq<Sample>) {
    forall k :: 0 <= k < |log| && BLOCK_FLOW <= log[k].event <= BLOCK_MOCK && log[k].count != 0 ==>
      exists j :: 0 <= j < |log| && log[j].event == BLOCK && log[j].count > 0 && SecondOf(log[j].time) == SecondOf(log[k].time)
  }

  /** Then all kinds of blocks are conserved. */
  lemma {:induction false} KindsAreConserved(g: Geometry, t0: nat, acts: seq<Act>, event: int, n: nat)
    requires g.Valid() && 1000 % g.bucketLength == 0 && t0 < TIME_LIMIT && Timely(g, t0, acts) && NoNegativeCounts(LogOfActs(acts))
    requires BLOCK_FLOW <= event <= BLOCK_MOCK && 1000 * n <= Max(0, RunActs(g, t0, acts).last) && KindsComeWithBlocks(LogOfActs(acts))
    ensures TotalExported(RunActs(g, t0, acts).exported, event, n) == TimeSum(LogOfActs(acts), event, 0, 1000 * n)
  {
    hide RunActs, LogOfActs, TimeSum, NotLost, KindsComeWithBlocks;
    CountIsConservedIff(g, t0, acts, event, n);
    KindsAreNotLost(LogOfActs(acts), event, n);
  }

  lemma {:induction false} KindsAreNotLost(log: seq<Sample>, event: int, n: nat)
    requires BLOCK_FLOW <= event <= BLOCK_MOCK && KindsComeWithBlocks(log) && NoNegativeCounts(log)
    ensures NoneLost(log, event, n)
  {
    hide NotLost, KindsComeWithBlocks;
    if n > 0 {
      KindsAreNotLost(log, event, n - 1);
      KindIsNotLost(log, event, 1000 * (n - 1));
    }
  }

  lemma {:induction false} KindIsNotLost(log: seq<Sample>, event: int, sec: nat)
    requires BLOCK_FLOW <= event <= BLOCK_MOCK && KindsComeWithBlocks(log) && NoNegativeCounts(log) && sec % 1000 == 0
    ensures NotLost(log, event, sec)
  {
    hide TimeSum;
    if k :| 0 <= k < |log| && log[k].event == event && log[k].count != 0 && SecondOf(log[k].time) == sec {
      var j :| 0 <= j < |log| && log[j].event == BLOCK && log[j].count > 0 && SecondOf(log[j].time) == SecondOf(log[k].time);
      SecondFacts(log[j].time);
      OneIsCounted(log, BLOCK, sec, sec + 1000, j);
    } else {
      forall k | 0 <= k < |log| && log[k].event == event && sec <= log[k].time < sec + 1000
        ensures log[k].count == 0
      {
        SecondIs(log[k].time, sec);
      }
      ZerosAddUp(log, event, sec, sec + 1000);
    }
  }

  lemma SecondIs(t: nat, sec: nat)
    requires sec % 1000 == 0 && sec <= t < sec + 1000
    ensures SecondOf(t) == sec
  {
  }

  lemma {:induction false} OneIsCounted(log: seq<Sample>, event: int, from: int, to: int, j: nat)
    requires j < |log| && log[j].event == event && from <= log[j].time < to && log[j].count > 0 && KnownEvent(event) && NoNegativeCounts(log)
    ensures TimeSum(log, event, from, to) > 0
  {
    var n := |log| - 1;
    if j == n {
      TimeSumNonNegative(log[..n], event, from, to);
    } else {
      OneIsCounted(log[..n], event, from, to, j);
    }
  }

  lemma {:induction false} ZerosAddUp(log: seq<Sample>, event: int, from: int, to: int)
    requires forall k :: 0 <= k < |log| && log[k].event == event && from <= log[k].time < to ==> log[k].count == 0
    ensures TimeSum(log, event, from, to) == 0
  {
    if log != [] {
      ZerosAddUp(log[..|log| - 1], event, from, to);
    }
  }

  /**
   A block and its kind are counted by two readings of the clock. With a second ending in between, the kind is alone in its
   second, which is not active then, and leaves in no item.
   */
  lemma {:induction false} KindAloneIsLost()
    ensures var g, t0 := Geometry(500, 20), 1000;
            var acts := [NodeOp(Add(1999, BLOCK, 1)), NodeOp(Add(2000, BLOCK_FLOW, 1)), Fetch(3000)];
            && Timely(g, t0, acts) && RunActs(g, t0, acts).last == 3000
            && CountOf(LogOfActs(acts), BLOCK_FLOW, 2000) == 1
            && ExportedFor(RunActs(g, t0, acts).exported, 2000) == []
  {
    var g, t0 := Geometry(500, 20), 1000;
    var acts := [NodeOp(Add(1999, BLOCK, 1)), NodeOp(Add(2000, BLOCK_FLOW, 1)), Fetch(3000)];
    LosingRun(g, t0);
    var log := [Sample(1999, BLOCK, 1), Sample(2000, BLOCK_FLOW, 1)];
    KindAlone(log);
    ExactlyOnce(g, t0, acts, 2000);
  }

  lemma LosingRun(g: Geometry, t0: nat)
    requires g == Geometry(500, 20) && t0 == 1000
    ensures var acts := [NodeOp(Add(1999, BLOCK, 1)), NodeOp(Add(2000, BLOCK_FLOW, 1)), Fetch(3000)];
            && Timely(g, t0, acts) && RunActs(g, t0, acts).last == 3000
            && LogOfActs(acts) == [Sample(1999, BLOCK, 1), Sample(2000, BLOCK_FLOW, 1)]
  {
    hide Step, Fetched, MetricAggregators.ItemsOf, InitialSlots;
    var one := [NodeOp(Add(1999, BLOCK, 1))];
    var two := one + [NodeOp(Add(2000, BLOCK_FLOW, 1))];
    var three := two + [Fetch(3000)];
    assert one[..0] == [] && two[..1] == one && three[..2] == two;
    assert RunActs(g, t0, []).last == -1 && RunActs(g, t0, one).last == -1 && RunActs(g, t0, two).last == -1;
    assert RunActs(g, t0, three) == StepAct(g, RunActs(g, t0, two), Fetch(3000));
    assert Timely(g, t0, []) && Timely(g, t0, one) && Timely(g, t0, two);
    assert LogOfActs(one) == [] + [Sample(1999, BLOCK, 1)];
    assert LogOfActs(two) == LogOfActs(one) + [Sample(2000, BLOCK_FLOW, 1)];
    assert LogOfActs(three) == LogOfActs(two) + [] == [Sample(1999, BLOCK, 1), Sample(2000, BLOCK_FLOW, 1)];
    assert three == [NodeOp(Add(1999, BLOCK, 1)), NodeOp(Add(2000, BLOCK_FLOW, 1)), Fetch(3000)];
  }

  lemma KindAlone(log: seq<Sample>)
    requires log == [Sample(1999, BLOCK, 1), Sample(2000, BLOCK_FLOW, 1)]
    ensures CountOf(log, BLOCK_FLOW, 2000) == 1 && !IsActive(LogItem(log, 2000))
  {
    hide TimeSum, TimeMin;
    var first, second := Sample(1999, BLOCK, 1), Sample(2000, BLOCK_FLOW, 1);
    assert log == [] + [first] + [second];
    forall event: int
      ensures CountOf(log, event, 2000) == if event == BLOCK_FLOW then 1 else 0
    {
      TimeSumNone([], event, 2000, 3000);
      TimeSumAppend([], first, event, 2000, 3000);
      TimeSumAppend([] + [first], second, event, 2000, 3000);
    }
    TimeMinNone(log, READING, 2000, 3000, 0);
  }
}
