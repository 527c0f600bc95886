/**
 What the sliding window promises: over any run with a clock that does not go back it reports exactly what
 a plain log of every event adds up to, and with any clock at all it never reports more.
 */
module WindowRefinement {
  import opened Arithmetic
  import opened EventLog
  import opened LeapArrays
  import opened MetricBuckets
  import opened Prelude
  import opened SlidingWindows

  // ---------------------------------------------------------------- runs

  /** Recording an event, noting the concurrency, or a read that first makes the current bucket current. */
  datatype Op = Add(now: nat, event: int, count: int) | Reading(now: nat, concurrency: int) | Refreshing(now: nat)

  function Step(g: Geometry, slots: Slots, op: Op): Slots
    requires g.Valid() && |slots| == g.sampleCount
  {
    match op
    case Add(now, event, count) => Record(g, slots, now, event, count)
    case Reading(now, concurrency) => Note(g, slots, now, concurrency)
    case Refreshing(now) => Touch(g, slots, now)
  }

  /** The slots after a run on an array made at time `t0`. */
  function Run(g: Geometry, t0: nat, ops: seq<Op>): (slots: Slots)
    requires g.Valid()
    ensures |slots| == g.sampleCount
  {
    if ops == [] then InitialSlots(g, t0, EMPTY_BUCKET)
    else Step(g, Run(g, t0, ops[..|ops| - 1]), ops[|ops| - 1])
  }

  /** Everything recorded in a run. Time 0 and unknown events are refused by the code. */
  function LogOf(ops: seq<Op>): seq<Sample> {
    if ops == [] then []
    else LogOf(ops[..|ops| - 1]) + Recorded(ops[|ops| - 1])
  }

  /** A reading is logged with its sign changed, so that the smallest entry is the largest reading. */
  function Recorded(op: Op): seq<Sample> {
    match op
    case Add(now, event, count) => if now > 0 && KnownEvent(event) then [Sample(now, event, count)] else []
    case Reading(now, concurrency) => if now > 0 then [Sample(now, READING, -concurrency)] else []
    case Refreshing(_) => []
  }

  /** The clock at the end of a run that started at `t0`. */
  function Clock(t0: nat, ops: seq<Op>): nat {
    if ops == [] then t0 else ops[|ops| - 1].now
  }

  ghost predicate ClockNeverGoesBack(t0: nat, ops: seq<Op>) {
    ops != [] ==>
      && ClockNeverGoesBack(t0, ops[..|ops| - 1])
      && Clock(t0, ops[..|ops| - 1]) <= ops[|ops| - 1].now < TIME_LIMIT
  }

  // ---------------------------------------------------------------- the refinement invariant

  /** Slots that a later window can still reach hold what the log holds for their bucket. */
  ghost predicate Agrees(g: Geometry, slots: Slots, log: seq<Sample>, now: nat)
    requires g.Valid()
  {
    forall i {:trigger slots[i]} :: 0 <= i < |slots| && Live(g, now, slots[i].start) ==> SlotAgrees(g, slots[i], log)
  }

  ghost predicate SlotAgrees(g: Geometry, slot: Slot<MetricBucket>, log: seq<Sample>) {
    && (forall e :: KnownEvent(e) ==> Get(slot.value, e) == BucketSum(g, log, e, slot.start))
    && slot.value.minRt == BucketMin(g, log, RT, slot.start, DEFAULT_STATISTIC_MAX_RT)
    && slot.value.maxConcurrency == -BucketMin(g, log, READING, slot.start, 0)
  }

  ghost predicate Reflects(g: Geometry, slots: Slots, log: seq<Sample>, now: nat)
    requires g.Valid()
  {
    && WellPlaced(g, slots)
    && Tracks(g, Starts(slots), log, now)
    && Agrees(g, slots, log, now)
  }

  lemma InitialReflects(g: Geometry, t0: nat)
    requires g.Valid() && t0 < TIME_LIMIT
    ensures Reflects(g, InitialSlots(g, t0, EMPTY_BUCKET), [], t0)
  {
    InitialWellPlaced(g, t0, EMPTY_BUCKET);
  }

  lemma {:induction false} TouchReflects(g: Geometry, slots: Slots, log: seq<Sample>, now: nat, now': nat)
    requires g.Valid() && Reflects(g, slots, log, now) && now <= now' < TIME_LIMIT
    ensures Reflects(g, Touch(g, slots, now'), log, now')
  {
    StartMonotone(g, now, now');
    if now' > 0 {
      var slots' := Refresh(g, slots, now', EMPTY_BUCKET);
      RefreshWellPlaced(g, slots, now', EMPTY_BUCKET);
      RefreshTracks(g, Starts(slots), log, now, now');
      RefreshStartsOf(g, slots, now', EMPTY_BUCKET);
      if Starts(slots)[g.Index(now')] != g.Start(now') {
        forall e ensures BucketSum(g, log, e, g.Start(now')) == 0 {
          NewBucketIsEmpty(g, Starts(slots), log, now, now', e, DEFAULT_STATISTIC_MAX_RT);
        }
        NewBucketIsEmpty(g, Starts(slots), log, now, now', RT, DEFAULT_STATISTIC_MAX_RT);
        NewBucketIsEmpty(g, Starts(slots), log, now, now', READING, 0);
      }
      forall i | 0 <= i < |slots'| && Live(g, now', slots'[i].start)
        ensures SlotAgrees(g, slots'[i], log)
      {
        if i != g.Index(now') {
          assert slots'[i] == slots[i];
        }
      }
    }
  }

  /** What a sample makes of the bucket that it falls in. */
  function Taking(b: MetricBucket, x: Sample): MetricBucket {
    if x.event == READING then UpdateConcurrency(b, -x.count) else AddTo(b, x.event, x.count)
  }

  /** A new sample is counted in its own bucket and nowhere else. */
  lemma {:induction false} SlotAgreesAfter(g: Geometry, slot: Slot<MetricBucket>, log: seq<Sample>, x: Sample)
    requires g.Valid() && SlotAgrees(g, slot, log) && slot.start % g.bucketLength == 0 && (KnownEvent(x.event) || x.event == READING)
    ensures var value := if g.Start(x.time) == slot.start then Taking(slot.value, x) else slot.value;
            SlotAgrees(g, Slot(slot.start, value), log + [x])
  {
    var s := slot.start;
    forall e | KnownEvent(e)
      ensures BucketSum(g, log + [x], e, s) == BucketSum(g, log, e, s) + (if x.event == e && g.Start(x.time) == s then x.count else 0)
    {
      BucketSumAppend(g, log, x, e, s);
    }
    BucketMinAppend(g, log, x, RT, s, DEFAULT_STATISTIC_MAX_RT);
    BucketMinAppend(g, log, x, READING, s, 0);
  }

  lemma {:induction false} RecordReflects(g: Geometry, slots: Slots, log: seq<Sample>, now: nat, x: Sample)
    requires g.Valid() && Reflects(g, slots, log, now) && now <= x.time < TIME_LIMIT && x.time > 0 && KnownEvent(x.event)
    ensures Reflects(g, Record(g, slots, x.time, x.event, x.count), log + [x], x.time)
  {
    TakenReflects(g, slots, log, now, x, Record(g, slots, x.time, x.event, x.count));
  }

  lemma {:induction false} NoteReflects(g: Geometry, slots: Slots, log: seq<Sample>, now: nat, x: Sample)
    requires g.Valid() && Reflects(g, slots, log, now) && now <= x.time < TIME_LIMIT && x.time > 0 && x.event == READING
    ensures Reflects(g, Note(g, slots, x.time, -x.count), log + [x], x.time)
  {
    TakenReflects(g, slots, log, now, x, Note(g, slots, x.time, -x.count));
  }

  lemma {:induction false} TakenReflects(g: Geometry, slots: Slots, log: seq<Sample>, now: nat, x: Sample, slots': Slots)
    requires g.Valid() && Reflects(g, slots, log, now) && now <= x.time < TIME_LIMIT && x.time > 0 && (KnownEvent(x.event) || x.event == READING)
    requires var current, i := Refresh(g, slots, x.time, EMPTY_BUCKET), g.Index(x.time);
             slots' == current[i := Slot(current[i].start, Taking(current[i].value, x))]
    ensures Reflects(g, slots', log + [x], x.time)
  {
    var t := x.time;
    TouchReflects(g, slots, log, now, t);
    var current := Refresh(g, slots, t, EMPTY_BUCKET);
    RefreshWellPlaced(g, slots, t, EMPTY_BUCKET);
    assert Starts(slots') == Starts(current);
    AppendTracks(g, Starts(current), log, x, t);
    forall i | 0 <= i < |slots'| && Live(g, t, slots'[i].start)
      ensures SlotAgrees(g, slots'[i], log + [x])
    {
      assert slots'[i].start == current[i].start;
      SlotAgreesAfter(g, current[i], log, x);
    }
  }

  lemma RecordUnknown(g: Geometry, slots: Slots, now: nat, event: int, count: int)
    requires g.Valid() && |slots| == g.sampleCount && !KnownEvent(event)
    ensures Record(g, slots, now, event, count) == Touch(g, slots, now)
  {
  }

  /** The invariant holds after every run whose clock does not go back. */
  lemma {:induction false} RunReflects(g: Geometry, t0: nat, ops: seq<Op>)
    requires g.Valid() && t0 < TIME_LIMIT && ClockNeverGoesBack(t0, ops)
    ensures Reflects(g, Run(g, t0, ops), LogOf(ops), Clock(t0, ops)) && Clock(t0, ops) < TIME_LIMIT
  {
    if ops == [] {
      InitialReflects(g, t0);
    } else {
      var before, op := ops[..|ops| - 1], ops[|ops| - 1];
      RunReflects(g, t0, before);
      var slots, log, now := Run(g, t0, before), LogOf(before), Clock(t0, before);
      StepReflects(g, slots, log, now, op);
    }
  }

  lemma {:induction false} StepReflects(g: Geometry, slots: Slots, log: seq<Sample>, now: nat, op: Op)
    requires g.Valid() && Reflects(g, slots, log, now) && now <= op.now < TIME_LIMIT
    ensures Reflects(g, Step(g, slots, op), log + Recorded(op), op.now)
  {
    hide Record, Note, Touch;
    if Recorded(op) != [] {
      if op.Add? {
        RecordReflects(g, slots, log, now, Recorded(op)[0]);
      } else {
        NoteReflects(g, slots, log, now, Recorded(op)[0]);
      }
    } else {
      NothingRecorded(g, slots, op);
      TouchReflects(g, slots, log, now, op.now);
      assert log + [] == log;
    }
  }

  /** A step that records nothing does no more than make the bucket current. */
  lemma NothingRecorded(g: Geometry, slots: Slots, op: Op)
    requires g.Valid() && |slots| == g.sampleCount && Recorded(op) == []
    ensures Step(g, slots, op) == Touch(g, slots, op.now)
  {
    if op.Add? && op.now > 0 {
      RecordUnknown(g, slots, op.now, op.event, op.count);
    }
  }

  // ---------------------------------------------------------------- from slots to the log

  /** The up-to-date test and the caller's range together keep exactly the starts in [lo, hi]. */
  ghost predicate Keeps(interval: nat, starts: seq<nat>, now: nat, range: StartRange, lo: int, hi: int) {
    forall i {:trigger starts[i]} :: 0 <= i < |starts| ==>
      (!Deprecated(interval, now, starts[i]) && range.Holds(starts[i]) <==> lo <= starts[i] <= hi)
  }

  /** What holds of the kept slots holds of those in a prefix, and the last slot is kept or not. */
  lemma KeepsPrefix<V>(interval: nat, slots: seq<Slot<V>>, now: nat, range: StartRange, lo: int, hi: int)
    requires slots != [] && Keeps(interval, Starts(slots), now, range, lo, hi)
    ensures var n := |slots| - 1;
            && Keeps(interval, Starts(slots[..n]), now, range, lo, hi)
            && Starts(slots)[..n] == Starts(slots[..n]) && Starts(slots)[n] == slots[n].start
            && Select(interval, slots, now, range) ==
                 Select(interval, slots[..n], now, range) + (if lo <= slots[n].start <= hi then [slots[n]] else [])
  {
    var n := |slots| - 1;
    var all, some := Starts(slots), Starts(slots[..n]);
    assert forall i {:trigger some[i]} :: 0 <= i < n ==> some[i] == all[i];
    assert all[n] == slots[n].start;
    var rest := Select(interval, slots[..n], now, range);
    assert rest + [] == rest;
  }

  ghost predicate KeptAgree(g: Geometry, slots: Slots, log: seq<Sample>, lo: int, hi: int) {
    forall i {:trigger slots[i]} :: 0 <= i < |slots| && lo <= slots[i].start <= hi ==> SlotAgrees(g, slots[i], log)
  }

  lemma SumOfAppend(buckets: Slots, slot: Slot<MetricBucket>, event: int)
    ensures SumOf(buckets + [slot], event) == SumOf(buckets, event) + Get(slot.value, event)
    ensures MinRtOf(buckets + [slot]) == Min(MinRtOf(buckets), slot.value.minRt)
    ensures MaxConcurrencyOf(buckets + [slot]) == Max(MaxConcurrencyOf(buckets), slot.value.maxConcurrency)
    ensures buckets + [] == buckets
  {
    assert (buckets + [slot])[..|buckets|] == buckets;
    assert buckets + [] == buckets;
  }

  lemma {:induction false} SelectSum(g: Geometry, interval: nat, slots: Slots, log: seq<Sample>, now: nat, range: StartRange, lo: int, hi: int, event: int)
    requires KnownEvent(event) && Keeps(interval, Starts(slots), now, range, lo, hi) && KeptAgree(g, slots, log, lo, hi)
    ensures SumOf(Select(interval, slots, now, range), event) == PickSum(g, Starts(slots), log, event, lo, hi)
  {
    hide Keeps, Deprecated;
    if slots != [] {
      var n := |slots| - 1;
      KeepsPrefix(interval, slots, now, range, lo, hi);
      assert forall i {:trigger slots[..n][i]} :: 0 <= i < n ==> slots[..n][i] == slots[i];
      SelectSum(g, interval, slots[..n], log, now, range, lo, hi, event);
      SumOfAppend(Select(interval, slots[..n], now, range), slots[n], event);
    }
  }

  lemma {:induction false} SelectMin(g: Geometry, interval: nat, slots: Slots, log: seq<Sample>, now: nat, range: StartRange, lo: int, hi: int)
    requires Keeps(interval, Starts(slots), now, range, lo, hi) && KeptAgree(g, slots, log, lo, hi)
    ensures MinRtOf(Select(interval, slots, now, range)) == PickMin(g, Starts(slots), log, RT, lo, hi, DEFAULT_STATISTIC_MAX_RT)
    ensures MaxConcurrencyOf(Select(interval, slots, now, range)) == -PickMin(g, Starts(slots), log, READING, lo, hi, 0)
  {
    hide Keeps, Deprecated;
    if slots != [] {
      var n := |slots| - 1;
      KeepsPrefix(interval, slots, now, range, lo, hi);
      assert forall i {:trigger slots[..n][i]} :: 0 <= i < n ==> slots[..n][i] == slots[i];
      SelectMin(g, interval, slots[..n], log, now, range, lo, hi);
      SumOfAppend(Select(interval, slots[..n], now, range), slots[n], RT);
    }
  }

  /** Any selection that amounts to a live window of whole buckets adds up to that window of the log. */
  lemma {:induction false} WindowOfLog(g: Geometry, slots: Slots, log: seq<Sample>, now: nat, now': nat, range: StartRange, lo: int, hi: int)
    requires g.Valid() && Reflects(g, slots, log, now) && now <= now'
    requires lo % g.bucketLength == 0 && hi % g.bucketLength == 0 && Live(g, now', lo)
    requires Keeps(g.Interval(), Starts(slots), now', range, lo, hi)
    ensures forall event :: KnownEvent(event) ==>
              SumOf(Select(g.Interval(), slots, now', range), event) == TimeSum(log, event, lo, hi + g.bucketLength)
    ensures MinRtOf(Select(g.Interval(), slots, now', range)) == TimeMin(log, RT, lo, hi + g.bucketLength, DEFAULT_STATISTIC_MAX_RT)
    ensures MaxConcurrencyOf(Select(g.Interval(), slots, now', range)) == -TimeMin(log, READING, lo, hi + g.bucketLength, 0)
  {
    StartMonotone(g, now, now');
    WellPlacedStarts(g, slots);
    TracksLater(g, Starts(slots), log, now, now');
    forall event | KnownEvent(event)
      ensures SumOf(Select(g.Interval(), slots, now', range), event) == TimeSum(log, event, lo, hi + g.bucketLength)
    {
      TracksCovers(g, Starts(slots), log, now', event, lo, hi);
      SelectSum(g, g.Interval(), slots, log, now', range, lo, hi, event);
      BucketwiseSum(g, Starts(slots), log, event, lo, hi);
    }
    TracksCovers(g, Starts(slots), log, now', RT, lo, hi);
    SelectMin(g, g.Interval(), slots, log, now', range, lo, hi);
    BucketwiseMin(g, Starts(slots), log, RT, lo, hi, DEFAULT_STATISTIC_MAX_RT);
    TracksCovers(g, Starts(slots), log, now', READING, lo, hi);
    BucketwiseMin(g, Starts(slots), log, READING, lo, hi, 0);
  }

  // ---------------------------------------------------------------- the view

  /** The time from which a view over `interval` milliseconds counts at `now`. */
  function WindowBegin(g: Geometry, interval: nat, now: nat): int
    requires g.bucketLength > 0
  {
    WindowEnd(g, now) - interval
  }

  function WindowEnd(g: Geometry, now: nat): int
    requires g.bucketLength > 0
  {
    g.Start(now) + g.bucketLength
  }

  /** The clock has run for at least one window since time 0; otherwise the view's lower bound wraps around. */
  predicate WindowStartsAfterZero(g: Geometry, interval: nat, now: nat)
    requires g.bucketLength > 0
  {
    WindowBegin(g, interval, now) >= 0
  }

  lemma {:induction false} ViewKeeps(g: Geometry, starts: seq<nat>, interval: nat, now: nat)
    requires g.Valid() && now < TIME_LIMIT && 0 < interval <= g.Interval()
    requires WindowStartsAfterZero(g, interval, now)
    ensures Keeps(g.Interval(), starts, now, ViewRange(g, interval, now), WindowBegin(g, interval, now), g.Start(now))
  {
    StartFacts(g, now);
    ViewRangeFacts(g.Start(now), interval, g.bucketLength);
    forall i | 0 <= i < |starts| && WindowBegin(g, interval, now) <= starts[i] <= g.Start(now)
      ensures !Deprecated(g.Interval(), now, starts[i])
    {
      assert Sub64(now, starts[i]) == now - starts[i];
    }
  }

  lemma ViewRangeFacts(start: nat, interval: nat, length: nat)
    requires start < TIME_LIMIT && interval < TWO_TO_THE_32 && length < TWO_TO_THE_32
    ensures Add64(Sub64(start, interval), length) ==
              start - interval + length + (if start + length < interval then TWO_TO_THE_64 else 0)
  {
  }

  lemma {:induction false} ViewEmptyBeforeFirstWindow(g: Geometry, slots: Slots, interval: nat, now: nat)
    requires g.Valid() && now < TIME_LIMIT && interval < TWO_TO_THE_32 && !WindowStartsAfterZero(g, interval, now)
    ensures Select(g.Interval(), slots, now, ViewRange(g, interval, now)) == []
  {
    StartFacts(g, now);
    if slots != [] {
      ViewEmptyBeforeFirstWindow(g, slots[..|slots| - 1], interval, now);
    }
  }

  lemma WindowAligned(g: Geometry, interval: nat, now: nat)
    requires g.Valid() && interval % g.bucketLength == 0
    ensures WindowBegin(g, interval, now) % g.bucketLength == 0
  {
    var l, q, k := g.bucketLength, now / g.bucketLength, interval / g.bucketLength;
    StartFacts(g, now);
    DivMod(interval, l);
    MulDist(l, q, 1);
    MulDist(l, q + 1, k);
    MultipleFacts(l, q + 1 - k);
  }

  /**
   WINDOW REFINEMENT. After any run with a clock that does not go back, an accepted view reports at any later
   time exactly the logged events of its window: those in the last `interval` milliseconds, counted to the end
   of the current bucket. The one exception is a clock that has not yet run for a whole window since time 0;
   then the view reports nothing.
   */
  lemma {:induction false} WindowSumIsLogSum(g: Geometry, t0: nat, ops: seq<Op>, sampleCount: nat, interval: nat, now: nat, event: int)
    requires g.Valid() && t0 < TIME_LIMIT && ClockNeverGoesBack(t0, ops) && Clock(t0, ops) <= now < TIME_LIMIT
    requires CheckValidityForReuseStatistic(sampleCount, interval, g.sampleCount, g.Interval()).Ok? && KnownEvent(event)
    ensures ReportedSum(g, Run(g, t0, ops), interval, now, event) ==
              if WindowStartsAfterZero(g, interval, now)
              then TimeSum(LogOf(ops), event, WindowBegin(g, interval, now), WindowEnd(g, now)) else 0
  {
    ViewIsWindow(g, t0, ops, sampleCount, interval, now);
  }

  /** The same for the minimum response time, clamped to [1, 60000]. */
  lemma {:induction false} WindowMinIsLogMin(g: Geometry, t0: nat, ops: seq<Op>, sampleCount: nat, interval: nat, now: nat)
    requires g.Valid() && t0 < TIME_LIMIT && ClockNeverGoesBack(t0, ops) && Clock(t0, ops) <= now < TIME_LIMIT
    requires CheckValidityForReuseStatistic(sampleCount, interval, g.sampleCount, g.Interval()).Ok?
    ensures ReportedMinRt(g, Run(g, t0, ops), interval, now) ==
              if WindowStartsAfterZero(g, interval, now)
              then Max(1, TimeMin(LogOf(ops), RT, WindowBegin(g, interval, now), WindowEnd(g, now), 60000)) else 60000
  {
    ViewIsWindow(g, t0, ops, sampleCount, interval, now);
  }

  lemma {:induction false} ViewIsWindow(g: Geometry, t0: nat, ops: seq<Op>, sampleCount: nat, interval: nat, now: nat)
    requires g.Valid() && t0 < TIME_LIMIT && ClockNeverGoesBack(t0, ops) && Clock(t0, ops) <= now < TIME_LIMIT
    requires CheckValidityForReuseStatistic(sampleCount, interval, g.sampleCount, g.Interval()).Ok?
    ensures forall event :: KnownEvent(event) ==>
              ReportedSum(g, Run(g, t0, ops), interval, now, event) ==
                if WindowStartsAfterZero(g, interval, now)
                then TimeSum(LogOf(ops), event, WindowBegin(g, interval, now), WindowEnd(g, now)) else 0
    ensures ReportedMinRt(g, Run(g, t0, ops), interval, now) ==
              if WindowStartsAfterZero(g, interval, now)
              then Max(1, TimeMin(LogOf(ops), RT, WindowBegin(g, interval, now), WindowEnd(g, now), 60000)) else 60000
  {
    var slots, log := Run(g, t0, ops), LogOf(ops);
    RunReflects(g, t0, ops);
    AcceptedViewFits(sampleCount, interval, g);
    if !WindowStartsAfterZero(g, interval, now) {
      ViewEmptyBeforeFirstWindow(g, slots, interval, now);
    } else if now > 0 {
      SlotsShowWindow(g, slots, log, Clock(t0, ops), interval, now);
    } else {
      NothingBeforeTimeOne(g, t0, ops);
    }
  }

  lemma {:induction false} SlotsShowWindow(g: Geometry, slots: Slots, log: seq<Sample>, clock: nat, interval: nat, now: nat)
    requires g.Valid() && Reflects(g, slots, log, clock) && clock <= now < TIME_LIMIT
    requires 0 < interval <= g.Interval() && interval % g.bucketLength == 0 && WindowStartsAfterZero(g, interval, now)
    ensures var shown := Select(g.Interval(), slots, now, ViewRange(g, interval, now));
            && (forall event :: KnownEvent(event) ==>
                  SumOf(shown, event) == TimeSum(log, event, WindowBegin(g, interval, now), WindowEnd(g, now)))
            && MinRtOf(shown) == TimeMin(log, RT, WindowBegin(g, interval, now), WindowEnd(g, now), 60000)
  {
    StartFacts(g, now);
    WindowAligned(g, interval, now);
    ViewKeeps(g, Starts(slots), interval, now);
    WindowOfLog(g, slots, log, clock, now, ViewRange(g, interval, now), WindowBegin(g, interval, now), g.Start(now));
  }

  lemma {:induction false} NothingBeforeTimeOne(g: Geometry, t0: nat, ops: seq<Op>)
    requires g.Valid() && ClockNeverGoesBack(t0, ops) && Clock(t0, ops) == 0
    ensures LogOf(ops) == []
  {
    if ops != [] {
      NothingBeforeTimeOne(g, t0, ops[..|ops| - 1]);
    }
  }

  /** The lower bound of the exception: 100 passes at time 300, and a one-second view that reports none of them. */
  lemma EarlyClockReportsNothing()
    ensures var g := Geometry(500, 20);
            var ops := [Add(300, PASS, 100)];
            && TimeSum(LogOf(ops), PASS, WindowBegin(g, 1000, 300), WindowEnd(g, 300)) == 100
            && ReportedSum(g, Run(g, 200, ops), 1000, 300, PASS) == 0
  {
    var g := Geometry(500, 20);
    var ops := [Add(300, PASS, 100)];
    assert ops[..0] == [];
    assert LogOf(ops[..0]) == [];
    assert LogOf(ops) == [] + [Sample(300, PASS, 100)];
    assert TimeSum([], PASS, -500, 500) == 0;
    TimeSumAppend([], Sample(300, PASS, 100), PASS, -500, 500);
    assert CheckValidityForReuseStatistic(2, 1000, 20, 10000).Ok?;
    assert ClockNeverGoesBack(200, ops[..0]);
    WindowSumIsLogSum(g, 200, ops, 2, 1000, 300, PASS);
  }

  // ---------------------------------------------------------------- counting with a refresh

  /** A counting read makes the current bucket current and then adds up exactly the array's own window. */
  lemma {:induction false} RefreshedCountIsLogSum(g: Geometry, t0: nat, ops: seq<Op>, now: nat, event: int)
    requires g.Valid() && t0 < TIME_LIMIT && ClockNeverGoesBack(t0, ops) && Clock(t0, ops) <= now < TIME_LIMIT
    requires now > 0 && KnownEvent(event)
    ensures SumOf(Select(g.Interval(), Touch(g, Run(g, t0, ops), now), now, EVERY_START), event) ==
              TimeSum(LogOf(ops), event, WindowBegin(g, g.Interval(), now), WindowEnd(g, now))
  {
    RunReflects(g, t0, ops);
    TouchReflects(g, Run(g, t0, ops), LogOf(ops), Clock(t0, ops), now);
    RefreshWellPlaced(g, Run(g, t0, ops), now, EMPTY_BUCKET);
    FullWindowShown(g, Touch(g, Run(g, t0, ops), now), LogOf(ops), now);
  }

  lemma {:induction false} FullWindowShown(g: Geometry, slots: Slots, log: seq<Sample>, now: nat)
    requires g.Valid() && Reflects(g, slots, log, now) && 0 < now < TIME_LIMIT && slots[g.Index(now)].start == g.Start(now)
    ensures forall event :: KnownEvent(event) ==>
              SumOf(Select(g.Interval(), slots, now, EVERY_START), event) ==
                TimeSum(log, event, WindowBegin(g, g.Interval(), now), WindowEnd(g, now))
  {
    FullWindowKeeps(g, slots, now);
    StartFacts(g, now);
    MultipleFacts(g.bucketLength, g.sampleCount);
    WindowAligned(g, g.Interval(), now);
    WindowOfLog(g, slots, log, now, now, EVERY_START, WindowBegin(g, g.Interval(), now), g.Start(now));
  }

  lemma {:induction false} FullWindowKeeps<V>(g: Geometry, slots: seq<Slot<V>>, now: nat)
    requires g.Valid() && WellPlaced(g, slots) && now < TIME_LIMIT && slots[g.Index(now)].start == g.Start(now)
    ensures Keeps(g.Interval(), Starts(slots), now, EVERY_START, WindowBegin(g, g.Interval(), now), g.Start(now))
  {
    forall i | 0 <= i < |slots|
      ensures !Deprecated(g.Interval(), now, Starts(slots)[i]) <==> WindowBegin(g, g.Interval(), now) <= Starts(slots)[i] <= g.Start(now)
    {
      FreshAfterRefresh(g, slots, now, i);
    }
  }

  // ---------------------------------------------------------------- any clock

  ghost predicate NoNegativeCounts(log: seq<Sample>) {
    forall k :: 0 <= k < |log| && KnownEvent(log[k].event) ==> log[k].count >= 0
  }

  /** No slot counts more than the log has for its bucket. */
  ghost predicate NeverOver(g: Geometry, slots: Slots, log: seq<Sample>) {
    forall i {:trigger slots[i]} :: 0 <= i < |slots| ==> SlotNeverOver(g, slots[i], log)
  }

  ghost predicate SlotNeverOver(g: Geometry, slot: Slot<MetricBucket>, log: seq<Sample>) {
    forall e :: KnownEvent(e) ==> 0 <= Get(slot.value, e) <= BucketSum(g, log, e, slot.start)
  }

  ghost predicate TimesInRange(ops: seq<Op>) {
    forall k :: 0 <= k < |ops| ==> ops[k].now < TIME_LIMIT
  }

  lemma {:induction false} RefreshNeverOver(g: Geometry, slots: Slots, log: seq<Sample>, now: nat)
    requires g.Valid() && |slots| == g.sampleCount && NeverOver(g, slots, log) && NoNegativeCounts(log)
    ensures NeverOver(g, Refresh(g, slots, now, EMPTY_BUCKET), log)
  {
    var s := g.Start(now);
    forall e | KnownEvent(e)
      ensures BucketSum(g, log, e, s) >= 0
    {
      TimeSumNonNegative(log, e, s, s + g.bucketLength);
    }
  }

  lemma {:induction false} AddNeverOver(g: Geometry, slot: Slot<MetricBucket>, log: seq<Sample>, x: Sample)
    requires g.Valid() && SlotNeverOver(g, slot, log) && KnownEvent(x.event) && x.count >= 0
    ensures SlotNeverOver(g, slot, log + [x])
    ensures slot.start == g.Start(x.time) ==> SlotNeverOver(g, Slot(slot.start, AddTo(slot.value, x.event, x.count)), log + [x])
  {
    var s := slot.start;
    StartFacts(g, x.time);
    forall e | KnownEvent(e)
      ensures BucketSum(g, log, e, s) <= BucketSum(g, log + [x], e, s)
      ensures slot.start == g.Start(x.time) && e == x.event ==> BucketSum(g, log + [x], e, s) == BucketSum(g, log, e, s) + x.count
    {
      TimeSumAppend(log, x, e, s, s + g.bucketLength);
    }
  }

  /**
   ANY CLOCK. Whatever the clock does, slot `i` holds an aligned start that belongs in slot `i`, and it counts
   only events of that bucket.
   */
  lemma {:induction false} AnyClockInvariant(g: Geometry, t0: nat, ops: seq<Op>)
    requires g.Valid() && t0 < TIME_LIMIT && TimesInRange(ops) && NoNegativeCounts(LogOf(ops))
    ensures WellPlaced(g, Run(g, t0, ops)) && NeverOver(g, Run(g, t0, ops), LogOf(ops))
  {
    hide Step, Recorded, WellPlaced, NeverOver;
    if ops == [] {
      NothingCountedYet(g, t0);
    } else {
      var before, op := ops[..|ops| - 1], ops[|ops| - 1];
      var log := LogOf(before);
      assert forall k :: 0 <= k < |log| ==> LogOf(ops)[k] == log[k];
      AnyClockInvariant(g, t0, before);
      StepNeverOver(g, Run(g, t0, before), log, op);
    }
  }

  lemma NothingCountedYet(g: Geometry, t0: nat)
    requires g.Valid() && t0 < TIME_LIMIT
    ensures WellPlaced(g, Run(g, t0, [])) && NeverOver(g, Run(g, t0, []), LogOf([]))
  {
    InitialWellPlaced(g, t0, EMPTY_BUCKET);
  }

  lemma {:induction false} StepNeverOver(g: Geometry, slots: Slots, log: seq<Sample>, op: Op)
    requires g.Valid() && WellPlaced(g, slots) && NeverOver(g, slots, log) && op.now < TIME_LIMIT
    requires NoNegativeCounts(log) && NoNegativeCounts(log + Recorded(op))
    ensures WellPlaced(g, Step(g, slots, op)) && NeverOver(g, Step(g, slots, op), log + Recorded(op))
  {
    hide Record, Note, Refresh;
    if op.now > 0 {
      RefreshWellPlaced(g, slots, op.now, EMPTY_BUCKET);
      RefreshNeverOver(g, slots, log, op.now);
    }
    if Recorded(op) == [] {
      NothingRecorded(g, slots, op);
      assert log + [] == log;
    } else {
      var x := Recorded(op)[0];
      assert (log + [x])[|log|] == x;
      if op.Add? {
        RecordNeverOver(g, slots, log, x);
      } else {
        NoteNeverOver(g, slots, log, x);
      }
    }
  }

  lemma {:induction false} NoteNeverOver(g: Geometry, slots: Slots, log: seq<Sample>, x: Sample)
    requires g.Valid() && WellPlaced(g, slots) && 0 < x.time < TIME_LIMIT && x.event == READING
    requires NeverOver(g, Refresh(g, slots, x.time, EMPTY_BUCKET), log)
    ensures WellPlaced(g, Note(g, slots, x.time, -x.count))
    ensures NeverOver(g, Note(g, slots, x.time, -x.count), log + [x])
  {
    var current, noted := Refresh(g, slots, x.time, EMPTY_BUCKET), Note(g, slots, x.time, -x.count);
    RefreshWellPlaced(g, slots, x.time, EMPTY_BUCKET);
    forall i | 0 <= i < |current|
      ensures SlotNeverOver(g, noted[i], log + [x])
    {
      assert noted[i].start == current[i].start && SlotNeverOver(g, current[i], log);
      forall e | KnownEvent(e)
        ensures BucketSum(g, log + [x], e, noted[i].start) == BucketSum(g, log, e, noted[i].start)
      {
        TimeSumAppend(log, x, e, noted[i].start, noted[i].start + g.bucketLength);
      }
    }
  }

  lemma {:induction false} RecordNeverOver(g: Geometry, slots: Slots, log: seq<Sample>, x: Sample)
    requires g.Valid() && WellPlaced(g, slots) && 0 < x.time < TIME_LIMIT && KnownEvent(x.event) && x.count >= 0
    requires NeverOver(g, Refresh(g, slots, x.time, EMPTY_BUCKET), log)
    ensures WellPlaced(g, Record(g, slots, x.time, x.event, x.count))
    ensures NeverOver(g, Record(g, slots, x.time, x.event, x.count), log + [x])
  {
    var current := Refresh(g, slots, x.time, EMPTY_BUCKET);
    RefreshWellPlaced(g, slots, x.time, EMPTY_BUCKET);
    forall i | 0 <= i < |current|
      ensures SlotNeverOver(g, Record(g, slots, x.time, x.event, x.count)[i], log + [x])
    {
      AddNeverOver(g, current[i], log, x);
    }
  }

  /** With any clock, what the view reports is at most what the log has for the window. */
  lemma {:induction false} AnyClockNeverOverReports(g: Geometry, t0: nat, ops: seq<Op>, sampleCount: nat, interval: nat, now: nat, event: int)
    requires g.Valid() && t0 < TIME_LIMIT && TimesInRange(ops) && NoNegativeCounts(LogOf(ops))
    requires CheckValidityForReuseStatistic(sampleCount, interval, g.sampleCount, g.Interval()).Ok?
    requires now < TIME_LIMIT && KnownEvent(event)
    ensures 0 <= ReportedSum(g, Run(g, t0, ops), interval, now, event)
              <= TimeSum(LogOf(ops), event, WindowBegin(g, interval, now), WindowEnd(g, now))
  {
    var slots, log := Run(g, t0, ops), LogOf(ops);
    AnyClockInvariant(g, t0, ops);
    AcceptedViewFits(sampleCount, interval, g);
    TimeSumNonNegative(log, event, WindowBegin(g, interval, now), WindowEnd(g, now));
    if !WindowStartsAfterZero(g, interval, now) {
      ViewEmptyBeforeFirstWindow(g, slots, interval, now);
    } else {
      SlotsNeverShowMore(g, slots, log, interval, now, event);
    }
  }

  lemma {:induction false} SlotsNeverShowMore(g: Geometry, slots: Slots, log: seq<Sample>, interval: nat, now: nat, event: int)
    requires g.Valid() && WellPlaced(g, slots) && NeverOver(g, slots, log) && NoNegativeCounts(log)
    requires 0 < interval <= g.Interval() && interval % g.bucketLength == 0 && WindowStartsAfterZero(g, interval, now)
    requires now < TIME_LIMIT && KnownEvent(event)
    ensures 0 <= SumOf(Select(g.Interval(), slots, now, ViewRange(g, interval, now)), event)
              <= TimeSum(log, event, WindowBegin(g, interval, now), WindowEnd(g, now))
  {
    var lo, hi := WindowBegin(g, interval, now), g.Start(now);
    StartFacts(g, now);
    WindowAligned(g, interval, now);
    ViewKeeps(g, Starts(slots), interval, now);
    WellPlacedStarts(g, slots);
    SelectSumAtMost(g, g.Interval(), slots, log, now, ViewRange(g, interval, now), lo, hi, event);
    BucketwiseAtMost(g, Starts(slots), log, event, lo, hi);
  }

  lemma {:induction false} SelectSumAtMost(g: Geometry, interval: nat, slots: Slots, log: seq<Sample>, now: nat, range: StartRange, lo: int, hi: int, event: int)
    requires KnownEvent(event) && Keeps(interval, Starts(slots), now, range, lo, hi) && NeverOver(g, slots, log)
    ensures 0 <= SumOf(Select(interval, slots, now, range), event) <= PickSum(g, Starts(slots), log, event, lo, hi)
  {
    hide Keeps, Deprecated, SlotAgrees;
    if slots != [] {
      var n := |slots| - 1;
      KeepsPrefix(interval, slots, now, range, lo, hi);
      assert forall i {:trigger slots[..n][i]} :: 0 <= i < n ==> slots[..n][i] == slots[i];
      SelectSumAtMost(g, interval, slots[..n], log, now, range, lo, hi, event);
      SumOfAppend(Select(interval, slots[..n], now, range), slots[n], event);
      assert SlotNeverOver(g, slots[n], log);
    }
  }

  lemma {:induction false} BucketwiseAtMost(g: Geometry, starts: seq<nat>, log: seq<Sample>, event: int, lo: int, hi: int)
    requires g.Valid() && Distinct(starts) && AllAligned(g, starts) && NoNegativeCounts(log) && KnownEvent(event)
    requires lo % g.bucketLength == 0 && hi % g.bucketLength == 0
    ensures PickSum(g, starts, log, event, lo, hi) <= TimeSum(log, event, lo, hi + g.bucketLength)
  {
    if log == [] {
      PickSumEmpty(g, starts, event, lo, hi);
    } else {
      var rest, x := log[..|log| - 1], log[|log| - 1];
      assert log == rest + [x];
      BucketwiseAtMost(g, starts, rest, event, lo, hi);
      PickSumAppend(g, starts, rest, x, event, lo, hi);
      InSpan(g, x.time, lo, hi);
    }
  }
}
