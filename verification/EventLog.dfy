/**
 The specification side of the sliding window: a plain log of everything ever recorded, what a window over
 that log adds up to, and when the slots of a circular array still know the live part of it.
 */
module EventLog {
  import opened Arithmetic
  import opened LeapArrays
  import opened Prelude

  datatype Sample = Sample(time: nat, event: int, count: int)

  // ---------------------------------------------------------------- sums and minima over a log

  /** Total of `event` over samples whose time is in [from, to). This is what a reader of the window expects. */
  function TimeSum(log: seq<Sample>, event: int, from: int, to: int): int {
    if log == [] then 0
    else
      var x := log[|log| - 1];
      TimeSum(log[..|log| - 1], event, from, to) + (if x.event == event && from <= x.time < to then x.count else 0)
  }

  /** Smallest `event` value over samples whose time is in [from, to), or `top` when there is none below it. */
  function TimeMin(log: seq<Sample>, event: int, from: int, to: int, top: int): int {
    if log == [] then top
    else
      var x := log[|log| - 1];
      var m := TimeMin(log[..|log| - 1], event, from, to, top);
      if x.event == event && from <= x.time < to then Min(m, x.count) else m
  }

  /** Total of `event` over samples in the bucket that starts at `s`. */
  function BucketSum(g: Geometry, log: seq<Sample>, event: int, s: int): int {
    TimeSum(log, event, s, s + g.bucketLength)
  }

  function BucketMin(g: Geometry, log: seq<Sample>, event: int, s: int, top: int): int {
    TimeMin(log, event, s, s + g.bucketLength, top)
  }

  lemma TimeSumAppend(log: seq<Sample>, x: Sample, event: int, from: int, to: int)
    ensures TimeSum(log + [x], event, from, to) ==
              TimeSum(log, event, from, to) + (if x.event == event && from <= x.time < to then x.count else 0)
  {
    assert (log + [x])[..|log|] == log;
  }

  lemma TimeMinAppend(log: seq<Sample>, x: Sample, event: int, from: int, to: int, top: int)
    ensures TimeMin(log + [x], event, from, to, top) ==
              var m := TimeMin(log, event, from, to, top);
              if x.event == event && from <= x.time < to then Min(m, x.count) else m
  {
    assert (log + [x])[..|log|] == log;
  }

  /** Adjacent spans add up. */
  lemma {:induction false} TimeSumSplit(log: seq<Sample>, event: int, a: int, b: int, c: int)
    requires a <= b <= c
    ensures TimeSum(log, event, a, c) == TimeSum(log, event, a, b) + TimeSum(log, event, b, c)
  {
    if log != [] {
      TimeSumSplit(log[..|log| - 1], event, a, b, c);
    }
  }

  lemma {:induction false} TimeSumNone(log: seq<Sample>, event: int, from: int, to: int)
    requires forall k :: 0 <= k < |log| ==> !(log[k].event == event && from <= log[k].time < to)
    ensures TimeSum(log, event, from, to) == 0
  {
    if log != [] {
      TimeSumNone(log[..|log| - 1], event, from, to);
      assert log[|log| - 1] in log;
    }
  }

  lemma {:induction false} TimeMinNone(log: seq<Sample>, event: int, from: int, to: int, top: int)
    requires forall k :: 0 <= k < |log| ==> !(log[k].event == event && from <= log[k].time < to)
    ensures TimeMin(log, event, from, to, top) == top
  {
    if log != [] {
      TimeMinNone(log[..|log| - 1], event, from, to, top);
      assert log[|log| - 1] in log;
    }
  }

  lemma {:induction false} TimeSumNonNegative(log: seq<Sample>, event: int, from: int, to: int)
    requires forall k :: 0 <= k < |log| && log[k].event == event ==> log[k].count >= 0
    ensures TimeSum(log, event, from, to) >= 0
  {
    if log != [] {
      TimeSumNonNegative(log[..|log| - 1], event, from, to);
    }
  }

  // ---------------------------------------------------------------- adding up bucket by bucket

  /** Total over the distinct bucket starts in [lo, hi] of what the log holds for each of them. */
  function PickSum(g: Geometry, starts: seq<nat>, log: seq<Sample>, event: int, lo: int, hi: int): int {
    if starts == [] then 0
    else
      var s := starts[|starts| - 1];
      PickSum(g, starts[..|starts| - 1], log, event, lo, hi) + (if lo <= s <= hi then BucketSum(g, log, event, s) else 0)
  }

  function PickMin(g: Geometry, starts: seq<nat>, log: seq<Sample>, event: int, lo: int, hi: int, top: int): int {
    if starts == [] then top
    else
      var s := starts[|starts| - 1];
      var m := PickMin(g, starts[..|starts| - 1], log, event, lo, hi, top);
      if lo <= s <= hi then Min(m, BucketMin(g, log, event, s, top)) else m
  }

  ghost predicate Distinct(starts: seq<nat>) {
    forall i, j :: 0 <= i < j < |starts| ==> starts[i] != starts[j]
  }

  ghost predicate AllAligned(g: Geometry, starts: seq<nat>)
    requires g.Valid()
  {
    forall i :: 0 <= i < |starts| ==> starts[i] % g.bucketLength == 0
  }

  /** A time lies in the bucket of an aligned start exactly when it is aligned to that start. */
  lemma InBucket(g: Geometry, t: nat, s: int)
    requires g.Valid() && s % g.bucketLength == 0
    ensures s <= t < s + g.bucketLength <==> g.Start(t) == s
  {
    StartFacts(g, t);
    if s < g.Start(t) {
      AlignedGap(g, s, g.Start(t));
    } else if g.Start(t) < s {
      AlignedGap(g, g.Start(t), s);
    }
  }

  /** A time lies in a span of whole buckets exactly when its aligned start does. */
  lemma InSpan(g: Geometry, t: nat, lo: int, hi: int)
    requires g.Valid() && lo % g.bucketLength == 0 && hi % g.bucketLength == 0
    ensures lo <= t < hi + g.bucketLength <==> lo <= g.Start(t) <= hi
  {
    StartFacts(g, t);
    if hi < g.Start(t) {
      AlignedGap(g, hi, g.Start(t));
    }
    if g.Start(t) < lo {
      AlignedGap(g, g.Start(t), lo);
    }
  }

  lemma BucketSumAppend(g: Geometry, log: seq<Sample>, x: Sample, event: int, s: int)
    requires g.Valid() && s % g.bucketLength == 0
    ensures BucketSum(g, log + [x], event, s) ==
              BucketSum(g, log, event, s) + (if x.event == event && g.Start(x.time) == s then x.count else 0)
  {
    InBucket(g, x.time, s);
    TimeSumAppend(log, x, event, s, s + g.bucketLength);
  }

  lemma BucketMinAppend(g: Geometry, log: seq<Sample>, x: Sample, event: int, s: int, top: int)
    requires g.Valid() && s % g.bucketLength == 0
    ensures BucketMin(g, log + [x], event, s, top) ==
              var m := BucketMin(g, log, event, s, top);
              if x.event == event && g.Start(x.time) == s then Min(m, x.count) else m
  {
    InBucket(g, x.time, s);
    TimeMinAppend(log, x, event, s, s + g.bucketLength, top);
  }

  lemma {:induction false} PickSumAppend(g: Geometry, starts: seq<nat>, log: seq<Sample>, x: Sample, event: int, lo: int, hi: int)
    requires g.Valid() && Distinct(starts) && AllAligned(g, starts)
    ensures PickSum(g, starts, log + [x], event, lo, hi) ==
              PickSum(g, starts, log, event, lo, hi) +
              (if x.event == event && lo <= g.Start(x.time) <= hi && g.Start(x.time) in starts then x.count else 0)
  {
    if starts != [] {
      var n := |starts| - 1;
      var rest, s := starts[..n], starts[n];
      PickSumAppend(g, rest, log, x, event, lo, hi);
      BucketSumAppend(g, log, x, event, s);
      assert starts == rest + [s];
      assert s !in rest;
    }
  }

  lemma {:induction false} PickMinAppend(g: Geometry, starts: seq<nat>, log: seq<Sample>, x: Sample, event: int, lo: int, hi: int, top: int)
    requires g.Valid() && AllAligned(g, starts)
    ensures PickMin(g, starts, log + [x], event, lo, hi, top) ==
              var m := PickMin(g, starts, log, event, lo, hi, top);
              if x.event == event && lo <= g.Start(x.time) <= hi && g.Start(x.time) in starts then Min(m, x.count) else m
  {
    if starts != [] {
      var n := |starts| - 1;
      var rest, s := starts[..n], starts[n];
      PickMinAppend(g, rest, log, x, event, lo, hi, top);
      BucketMinAppend(g, log, x, event, s, top);
      assert starts == rest + [s];
    }
  }

  /** The log's samples of `event` in [lo, hi] are all in buckets that `starts` lists. */
  ghost predicate Covers(g: Geometry, starts: seq<nat>, log: seq<Sample>, event: int, lo: int, hi: int)
    requires g.Valid()
  {
    forall k {:trigger log[k]} :: 0 <= k < |log| && log[k].event == event && lo <= g.Start(log[k].time) <= hi ==>
      g.Start(log[k].time) in starts
  }

  /** Adding bucket by bucket gives the same total as adding sample by sample. */
  lemma {:induction false} BucketwiseSum(g: Geometry, starts: seq<nat>, log: seq<Sample>, event: int, lo: int, hi: int)
    requires g.Valid() && Distinct(starts) && AllAligned(g, starts)
    requires lo % g.bucketLength == 0 && hi % g.bucketLength == 0
    requires Covers(g, starts, log, event, lo, hi)
    ensures PickSum(g, starts, log, event, lo, hi) == TimeSum(log, event, lo, hi + g.bucketLength)
  {
    if log == [] {
      PickSumEmpty(g, starts, event, lo, hi);
    } else {
      var rest, x := log[..|log| - 1], log[|log| - 1];
      assert log == rest + [x];
      BucketwiseSum(g, starts, rest, event, lo, hi);
      PickSumAppend(g, starts, rest, x, event, lo, hi);
      InSpan(g, x.time, lo, hi);
    }
  }

  lemma PickSumEmpty(g: Geometry, starts: seq<nat>, event: int, lo: int, hi: int)
    ensures PickSum(g, starts, [], event, lo, hi) == 0
  {
  }

  /** Likewise for minima. */
  lemma {:induction false} BucketwiseMin(g: Geometry, starts: seq<nat>, log: seq<Sample>, event: int, lo: int, hi: int, top: int)
    requires g.Valid() && AllAligned(g, starts)
    requires lo % g.bucketLength == 0 && hi % g.bucketLength == 0
    requires Covers(g, starts, log, event, lo, hi)
    ensures PickMin(g, starts, log, event, lo, hi, top) == TimeMin(log, event, lo, hi + g.bucketLength, top)
  {
    if log == [] {
      PickMinEmpty(g, starts, event, lo, hi, top);
    } else {
      var rest, x := log[..|log| - 1], log[|log| - 1];
      assert log == rest + [x];
      BucketwiseMin(g, starts, rest, event, lo, hi, top);
      PickMinAppend(g, starts, rest, x, event, lo, hi, top);
      InSpan(g, x.time, lo, hi);
    }
  }

  lemma PickMinEmpty(g: Geometry, starts: seq<nat>, event: int, lo: int, hi: int, top: int)
    ensures PickMin(g, starts, [], event, lo, hi, top) == top
  {
  }

  // ---------------------------------------------------------------- slots that still know the live log

  /** A bucket start that a window ending at time `now` can still reach. */
  predicate Live(g: Geometry, now: nat, s: int)
    requires g.Valid()
  {
    s + g.Interval() > g.Start(now)
  }

  function Starts<V>(slots: seq<Slot<V>>): seq<nat> {
    seq(|slots|, i requires 0 <= i < |slots| => slots[i].start)
  }

  /** No sample is from after `now`, and every live sample still has its bucket in the array. */
  ghost predicate Tracks(g: Geometry, starts: seq<nat>, log: seq<Sample>, now: nat)
    requires g.Valid()
  {
    && |starts| == g.sampleCount
    && forall k {:trigger log[k]} :: 0 <= k < |log| ==>
         && log[k].time <= now
         && (Live(g, now, g.Start(log[k].time)) ==> starts[g.Index(log[k].time)] == g.Start(log[k].time))
  }

  /** The starts after the bucket of `now` was made current. */
  function RefreshStarts(g: Geometry, starts: seq<nat>, now: nat): seq<nat>
    requires g.Valid() && |starts| == g.sampleCount
  {
    starts[g.Index(now) := g.Start(now)]
  }

  lemma RefreshStartsOf<V>(g: Geometry, slots: seq<Slot<V>>, now: nat, empty: V)
    requires g.Valid() && |slots| == g.sampleCount
    ensures Starts(Refresh(g, slots, now, empty)) == RefreshStarts(g, Starts(slots), now)
  {
  }

  lemma StartMonotone(g: Geometry, t: nat, t': nat)
    requires g.Valid() && t <= t'
    ensures g.Start(t) <= g.Start(t')
  {
    StartFacts(g, t);
    StartFacts(g, t');
    if g.Start(t') < g.Start(t) {
      AlignedGap(g, g.Start(t'), g.Start(t));
    }
  }

  /** Recycling loses nothing that a later window can still reach. */
  lemma {:induction false} RefreshTracks(g: Geometry, starts: seq<nat>, log: seq<Sample>, now: nat, now': nat)
    requires g.Valid() && Tracks(g, starts, log, now) && now <= now'
    ensures Tracks(g, RefreshStarts(g, starts, now'), log, now')
  {
    StartMonotone(g, now, now');
    forall k | 0 <= k < |log| && Live(g, now', g.Start(log[k].time))
      ensures RefreshStarts(g, starts, now')[g.Index(log[k].time)] == g.Start(log[k].time)
    {
      var t := log[k].time;
      if g.Index(t) == g.Index(now') {
        StartMonotone(g, t, now');
        StartFacts(g, t);
        StartFacts(g, now');
        if g.Start(t) < g.Start(now') {
          SameIndexGap(g, g.Start(t), g.Start(now'));
        }
      }
    }
  }

  lemma TracksLater(g: Geometry, starts: seq<nat>, log: seq<Sample>, now: nat, now': nat)
    requires g.Valid() && Tracks(g, starts, log, now) && now <= now'
    ensures Tracks(g, starts, log, now')
  {
    StartMonotone(g, now, now');
  }

  /** A bucket that is only now being opened has no samples yet. */
  lemma {:induction false} NewBucketIsEmpty(g: Geometry, starts: seq<nat>, log: seq<Sample>, now: nat, now': nat, event: int, top: int)
    requires g.Valid() && Tracks(g, starts, log, now) && now <= now'
    requires starts[g.Index(now')] != g.Start(now')
    ensures BucketSum(g, log, event, g.Start(now')) == 0
    ensures BucketMin(g, log, event, g.Start(now'), top) == top
  {
    var s := g.Start(now');
    StartFacts(g, now');
    forall k | 0 <= k < |log|
      ensures !(s <= log[k].time < s + g.bucketLength)
    {
      var t := log[k].time;
      if s <= t < s + g.bucketLength {
        InBucket(g, t, s);
        StartFacts(g, t);
        StartMonotone(g, now, now');
        assert g.Interval() > 0 by {
          MulMono(g.bucketLength, 1, g.sampleCount);
        }
        assert Live(g, now, g.Start(t));
        assert false;
      }
    }
    TimeSumNone(log, event, s, s + g.bucketLength);
    TimeMinNone(log, event, s, s + g.bucketLength, top);
  }

  lemma AppendTracks(g: Geometry, starts: seq<nat>, log: seq<Sample>, x: Sample, now: nat)
    requires g.Valid() && Tracks(g, starts, log, now) && x.time == now
    requires starts[g.Index(now)] == g.Start(now)
    ensures Tracks(g, starts, log + [x], now)
  {
  }

  /** Slots whose starts track the log cover any live window. */
  lemma {:induction false} TracksCovers(g: Geometry, starts: seq<nat>, log: seq<Sample>, now: nat, event: int, lo: int, hi: int)
    requires g.Valid() && Tracks(g, starts, log, now) && Live(g, now, lo)
    ensures Covers(g, starts, log, event, lo, hi)
  {
    forall k | 0 <= k < |log| && log[k].event == event && lo <= g.Start(log[k].time) <= hi
      ensures g.Start(log[k].time) in starts
    {
      assert starts[g.Index(log[k].time)] == g.Start(log[k].time);
    }
  }

  lemma WellPlacedStarts<V>(g: Geometry, slots: seq<Slot<V>>)
    requires g.Valid() && WellPlaced(g, slots)
    ensures Distinct(Starts(slots)) && AllAligned(g, Starts(slots))
  {
    var starts := Starts(slots);
    forall i, j | 0 <= i < j < |starts|
      ensures starts[i] != starts[j]
    {
      assert g.Index(slots[i].start) == i && g.Index(slots[j].start) == j;
    }
    forall i | 0 <= i < |starts|
      ensures starts[i] % g.bucketLength == 0
    {
      assert slots[i].start % g.bucketLength == 0;
    }
  }
}
