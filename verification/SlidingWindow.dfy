/**
 The bucketed statistic and its read-only sliding-window view (core/stat/base/bucket_leap_array.go,
 core/stat/base/sliding_window_metric.go), and the proof that what they report is what a plain log of
 every recorded event would.
 */
module SlidingWindows {
  import opened Arithmetic
  import opened EventLog
  import opened LeapArrays
  import opened MetricBuckets
  import opened Prelude

  // ---------------------------------------------------------------- what one operation does to the slots

  type Slots = seq<Slot<MetricBucket>>

  function Record(g: Geometry, slots: Slots, now: nat, event: int, count: int): Slots
    requires g.bucketLength > 0 && g.sampleCount > 0 && |slots| == g.sampleCount
  {
    if now == 0 then slots
    else
      var current := Refresh(g, slots, now, EMPTY_BUCKET);
      var i := g.Index(now);
      current[i := Slot(current[i].start, AddTo(current[i].value, event, count))]
  }

  /** The current bucket takes a concurrency reading. */
  function Note(g: Geometry, slots: Slots, now: nat, concurrency: int): Slots
    requires g.bucketLength > 0 && g.sampleCount > 0 && |slots| == g.sampleCount
  {
    if now == 0 then slots
    else
      var current := Refresh(g, slots, now, EMPTY_BUCKET);
      var i := g.Index(now);
      current[i := Slot(current[i].start, UpdateConcurrency(current[i].value, concurrency))]
  }

  function Touch(g: Geometry, slots: Slots, now: nat): Slots
    requires g.bucketLength > 0 && g.sampleCount > 0 && |slots| == g.sampleCount
  {
    if now == 0 then slots else Refresh(g, slots, now, EMPTY_BUCKET)
  }

  /** The bucket starts that a view over `interval` milliseconds reads at `now`, in unsigned arithmetic. */
  function ViewRange(g: Geometry, interval: nat, now: nat): StartRange
    requires g.bucketLength > 0
  {
    StartRange(Add64(Sub64(g.Start(now), interval), g.bucketLength), g.Start(now))
  }

  // ---------------------------------------------------------------- the statistic and its view

  class BucketLeapArray {
    const data: LeapArray<MetricBucket>

    ghost predicate Valid()
      reads data.cells
    {
      data.Valid()
    }

    constructor (sampleCount: nat, intervalInMs: nat, now: nat)
      requires sampleCount > 0 && intervalInMs % sampleCount == 0
      requires Geometry(intervalInMs / sampleCount, sampleCount).Valid() && now < TIME_LIMIT
      ensures Valid() && fresh(data) && fresh(data.cells)
      ensures data.g == Geometry(intervalInMs / sampleCount, sampleCount) && data.g.Interval() == intervalInMs
      ensures data.cells[..] == InitialSlots(data.g, now, EMPTY_BUCKET)
    {
      DivMod(intervalInMs, sampleCount);
      data := new LeapArray<MetricBucket>(sampleCount, intervalInMs / sampleCount, now, EMPTY_BUCKET);
    }

    method AddCountWithTime(now: nat, event: int, count: int)
      requires Valid() && now < TIME_LIMIT
      modifies data.cells
      ensures Valid()
      ensures data.cells[..] == Record(data.g, old(data.cells[..]), now, event, count)
    {
      var b := data.CurrentBucketOfTime(now, EMPTY_BUCKET);
      if b == None {
        return;
      }
      var i := b.value;
      data.cells[i] := Slot(data.cells[i].start, AddTo(data.cells[i].value, event, count));
    }

    method UpdateConcurrencyWithTime(now: nat, concurrency: int)
      requires Valid() && now < TIME_LIMIT
      modifies data.cells
      ensures Valid()
      ensures data.cells[..] == Note(data.g, old(data.cells[..]), now, concurrency)
    {
      var b := data.CurrentBucketOfTime(now, EMPTY_BUCKET);
      if b == None {
        return;
      }
      var i := b.value;
      data.cells[i] := Slot(data.cells[i].start, UpdateConcurrency(data.cells[i].value, concurrency));
    }

    /** Total over every bucket that is up to date, after making the current one current. */
    method CountWithTime(now: nat, event: int) returns (count: int)
      requires Valid() && now < TIME_LIMIT
      modifies data.cells
      ensures Valid()
      ensures data.cells[..] == Touch(data.g, old(data.cells[..]), now)
      ensures count == if now == 0 then 0 else SumOf(Select(data.g.Interval(), data.cells[..], now, EVERY_START), event)
    {
      var _ := data.CurrentBucketOfTime(now, EMPTY_BUCKET);
      count := 0;
      var values := data.ValuesWithTime(now);
      for k := 0 to |values|
        invariant count == SumOf(values[..k], event)
      {
        assert values[..k + 1][..k] == values[..k];
        count := count + Get(values[k].value, event);
      }
      assert values[..|values|] == values;
    }

    method MinRt(now: nat) returns (ret: int)
      requires Valid() && now < TIME_LIMIT
      modifies data.cells
      ensures Valid()
      ensures data.cells[..] == Touch(data.g, old(data.cells[..]), now)
      ensures ret == if now == 0 then DEFAULT_STATISTIC_MAX_RT else MinRtOf(Select(data.g.Interval(), data.cells[..], now, EVERY_START))
    {
      var _ := data.CurrentBucketOfTime(now, EMPTY_BUCKET);
      ret := DEFAULT_STATISTIC_MAX_RT;
      var values := data.ValuesWithTime(now);
      for k := 0 to |values|
        invariant ret == MinRtOf(values[..k])
      {
        assert values[..k + 1][..k] == values[..k];
        if ret > values[k].value.minRt {
          ret := values[k].value.minRt;
        }
      }
      assert values[..|values|] == values;
    }
  }

  class SlidingWindowMetric {
    const interval: nat
    const real': BucketLeapArray

    ghost predicate Valid()
      reads real'.data.cells
    {
      real'.Valid() && interval < TWO_TO_THE_32
    }

    constructor (sampleCount: nat, intervalInMs: nat, real': BucketLeapArray)
      requires real'.Valid() && intervalInMs < TWO_TO_THE_32
      requires CheckValidityForReuseStatistic(sampleCount, intervalInMs, real'.data.g.sampleCount, real'.data.g.Interval()).Ok?
      ensures Valid() && interval == intervalInMs && this.real' == real'
    {
      interval := intervalInMs;
      this.real' := real';
    }

    method GetSatisfiedBuckets(now: nat) returns (ret: Slots)
      requires Valid()
      ensures ret == if now == 0 then [] else Select(real'.data.g.Interval(), real'.data.cells[..], now, ViewRange(real'.data.g, interval, now))
    {
      var end := real'.data.g.Start(now);
      var start := Add64(Sub64(end, interval), real'.data.g.bucketLength);
      ret := real'.data.ValuesConditional(now, StartRange(start, end));
    }

    method GetSumWithTime(now: nat, event: int) returns (ret: int)
      requires Valid()
      ensures ret == ReportedSum(real'.data.g, real'.data.cells[..], interval, now, event)
    {
      var satisfied := GetSatisfiedBuckets(now);
      ret := 0;
      for k := 0 to |satisfied|
        invariant ret == SumOf(satisfied[..k], event)
      {
        assert satisfied[..k + 1][..k] == satisfied[..k];
        ret := ret + Get(satisfied[k].value, event);
      }
      assert satisfied[..|satisfied|] == satisfied;
    }

    /** The smallest response time in the window, never below 1. */
    method MinRT(now: nat) returns (minRt: int)
      requires Valid()
      ensures minRt == ReportedMinRt(real'.data.g, real'.data.cells[..], interval, now)
    {
      var satisfied := GetSatisfiedBuckets(now);
      minRt := DEFAULT_STATISTIC_MAX_RT;
      for k := 0 to |satisfied|
        invariant minRt == MinRtOf(satisfied[..k])
      {
        assert satisfied[..k + 1][..k] == satisfied[..k];
        if satisfied[k].value.minRt < minRt {
          minRt := satisfied[k].value.minRt;
        }
      }
      assert satisfied[..|satisfied|] == satisfied;
      if minRt < 1 {
        minRt := 1;
      }
    }
  }

  function ReportedSum(g: Geometry, slots: Slots, interval: nat, now: nat, event: int): int
    requires g.bucketLength > 0
  {
    if now == 0 then 0 else SumOf(Select(g.Interval(), slots, now, ViewRange(g, interval, now)), event)
  }

  function ReportedMinRt(g: Geometry, slots: Slots, interval: nat, now: nat): int
    requires g.bucketLength > 0
  {
    Max(1, if now == 0 then DEFAULT_STATISTIC_MAX_RT else MinRtOf(Select(g.Interval(), slots, now, ViewRange(g, interval, now))))
  }

  // ---------------------------------------------------------------- which views may share a statistic

  datatype ParamError = IllegalStatisticParams | IllegalGlobalStatisticParams | GlobalStatisticNonReusable

  function CheckValidityForReuseStatistic(sampleCount: nat, interval: nat, parentSampleCount: nat, parentInterval: nat): Result<(), ParamError> {
    if interval == 0 || sampleCount == 0 || interval % sampleCount != 0 then Err(IllegalStatisticParams)
    else
      var bucketLength := interval / sampleCount;
      if parentInterval == 0 || parentSampleCount == 0 || parentInterval % parentSampleCount != 0 then Err(IllegalGlobalStatisticParams)
      else
        var parentBucketLength := parentInterval / parentSampleCount;
        DivMod(parentInterval, parentSampleCount);
        if parentInterval % interval != 0 then Err(GlobalStatisticNonReusable)
        else if bucketLength % parentBucketLength != 0 then Err(GlobalStatisticNonReusable)
        else Ok(())
  }

  /** An accepted view reads a whole number of the parent's buckets and never more than the parent has. */
  lemma {:induction false} AcceptedViewFits(sampleCount: nat, interval: nat, g: Geometry)
    requires g.Valid()
    requires CheckValidityForReuseStatistic(sampleCount, interval, g.sampleCount, g.Interval()).Ok?
    ensures 0 < interval <= g.Interval() && interval % g.bucketLength == 0
  {
    MultipleFacts(g.sampleCount, g.bucketLength);
    var l := interval / sampleCount;
    DivMod(interval, sampleCount);
    DivMod(l, g.bucketLength);
    var k := l / g.bucketLength;
    assert interval == g.bucketLength * (sampleCount * k) by {
      Associate(sampleCount, g.bucketLength, k);
    }
    MultipleFacts(g.bucketLength, sampleCount * k);
    DivMod(g.Interval(), interval);
    if g.Interval() < interval {
      MulMono(interval, 1, g.Interval() / interval);
    }
  }

  lemma Associate(a: int, b: int, c: int)
    ensures a * (b * c) == b * (a * c)
  {
  }
}
