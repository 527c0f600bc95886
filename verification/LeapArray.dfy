/**
 The circular array of time buckets (core/stat/base/leap_array.go): its geometry, the recycling of
 slots on plain sequences, and the class that performs it in place.
 */
module LeapArrays {
  import opened Arithmetic
  import opened Prelude

  /** A bucket with the start of the time span it counts. */
  datatype Slot<V> = Slot(start: nat, value: V)

  /** Length of one bucket in milliseconds and number of buckets. */
  datatype Geometry = Geometry(bucketLength: nat, sampleCount: nat) {
    ghost predicate Valid() {
      bucketLength > 0 && sampleCount > 0 && Interval() < TWO_TO_THE_32
    }

    function Interval(): nat {
      bucketLength * sampleCount
    }

    /** The start of the bucket that `now` falls in. */
    function Start(now: nat): nat
      requires bucketLength > 0
    {
      now - now % bucketLength
    }

    /** The slot that the bucket of `now` lives in. */
    function Index(now: nat): nat
      requires bucketLength > 0 && sampleCount > 0
    {
      (now / bucketLength) % sampleCount
    }
  }

  // ---------------------------------------------------------------- arithmetic of aligned times

  lemma {:induction false} StartFacts(g: Geometry, now: nat)
    requires g.Valid()
    ensures g.Start(now) <= now < g.Start(now) + g.bucketLength
    ensures g.Start(now) == g.bucketLength * (now / g.bucketLength)
    ensures g.Start(now) % g.bucketLength == 0
    ensures g.Start(now) / g.bucketLength == now / g.bucketLength
    ensures g.Index(g.Start(now)) == g.Index(now)
    ensures g.Start(g.Start(now)) == g.Start(now)
  {
    var q := now / g.bucketLength;
    DivMod(now, g.bucketLength);
    MultipleFacts(g.bucketLength, q);
  }

  /** Two different aligned starts are at least a bucket apart. */
  lemma AlignedGap(g: Geometry, a: int, b: int)
    requires g.Valid()
    requires a % g.bucketLength == 0 && b % g.bucketLength == 0 && a < b
    ensures a + g.bucketLength <= b
  {
    MultipleGap(g.bucketLength, a, b);
  }

  /** Two different aligned starts that share a slot are at least a whole interval apart. */
  lemma SameIndexGap(g: Geometry, a: nat, b: nat)
    requires g.Valid()
    requires a % g.bucketLength == 0 && b % g.bucketLength == 0 && a < b
    requires g.Index(a) == g.Index(b)
    ensures a + g.Interval() <= b
  {
    var l, n := g.bucketLength, g.sampleCount;
    MultipleGap(l, a, b);
    SameRemainderGap(n, a / l, b / l);
    DivMod(a, l);
    DivMod(b, l);
    MulMono(l, n, b / l - a / l);
    MulDist(l, b / l, a / l);
  }

  /** A whole interval further is the same slot again. */
  lemma ShiftSameIndex(g: Geometry, s: nat)
    requires g.Valid() && s % g.bucketLength == 0
    ensures g.Index(s + g.Interval()) == g.Index(s) && (s + g.Interval()) % g.bucketLength == 0
  {
    var l, n, q := g.bucketLength, g.sampleCount, s / g.bucketLength;
    DivMod(s, l);
    MulDist(l, q, n);
    MultipleFacts(l, q + n);
    DivMod(q, n);
    MulDist(n, q / n, 1);
    DivModUnique(q + n, n, q / n + 1, q % n);
  }

  // ---------------------------------------------------------------- recycling, on sequences

  /** Every slot holds an aligned start whose bucket number is the slot's index modulo the array length. */
  ghost predicate WellPlaced<V>(g: Geometry, slots: seq<Slot<V>>)
    requires g.Valid()
  {
    && |slots| == g.sampleCount
    && forall i {:trigger slots[i]} :: 0 <= i < |slots| ==>
         slots[i].start % g.bucketLength == 0 && g.Index(slots[i].start) == i && slots[i].start < TIME_LIMIT + TWO_TO_THE_32
  }

  /** A freshly made array: the bucket of `now` sits in its slot and later slots (cyclically) are in the future. */
  function InitialSlots<V>(g: Geometry, now: nat, empty: V): seq<Slot<V>>
    requires g.bucketLength > 0 && g.sampleCount > 0
  {
    seq(g.sampleCount, i requires 0 <= i < g.sampleCount => Slot(InitialStart(g, now, i), empty))
  }

  function InitialStart(g: Geometry, now: nat, i: nat): nat
    requires g.bucketLength > 0 && g.sampleCount > 0
  {
    StartAfter(g, now, if i >= g.Index(now) then i - g.Index(now) else i + g.sampleCount - g.Index(now))
  }

  /** The start of the `k`-th bucket after the one of `now`. */
  function StartAfter(g: Geometry, now: nat, k: nat): nat
    requires g.bucketLength > 0
  {
    g.Start(now) + g.bucketLength * k
  }

  lemma StartAfterNext(g: Geometry, now: nat, k: nat)
    requires g.bucketLength > 0
    ensures StartAfter(g, now, k + 1) == StartAfter(g, now, k) + g.bucketLength
    ensures StartAfter(g, now, 0) == g.Start(now)
  {
    MulDist(g.bucketLength, k, 1);
  }

  /** The slots after the bucket of `now` has been made current: it is kept or recycled in place. */
  function Refresh<V>(g: Geometry, slots: seq<Slot<V>>, now: nat, empty: V): seq<Slot<V>>
    requires g.bucketLength > 0 && g.sampleCount > 0 && |slots| == g.sampleCount
  {
    var i := g.Index(now);
    if slots[i].start == g.Start(now) then slots else slots[i := Slot(g.Start(now), empty)]
  }

  /** `now - ws > interval` in unsigned arithmetic: both old and future buckets are out of date. */
  predicate Deprecated(interval: nat, now: nat, ws: nat) {
    Sub64(now, ws) > interval
  }

  /** The test on bucket starts that callers hand to `ValuesConditional`: all of them are ranges. */
  datatype StartRange = StartRange(lo: int, hi: int) {
    predicate Holds(ws: nat) {
      lo <= ws <= hi
    }
  }

  /** Buckets up to date at `now` whose start is in the range, in slot order. */
  function Select<V>(interval: nat, slots: seq<Slot<V>>, now: nat, range: StartRange): seq<Slot<V>> {
    if slots == [] then []
    else
      var n := |slots| - 1;
      var rest := Select(interval, slots[..n], now, range);
      if Deprecated(interval, now, slots[n].start) || !range.Holds(slots[n].start) then rest else rest + [slots[n]]
  }

  /** The range that leaves out no start. */
  const EVERY_START: StartRange := StartRange(0, TWO_TO_THE_64)

  lemma {:induction false} InitialWellPlaced<V>(g: Geometry, now: nat, empty: V)
    requires g.Valid() && now < TIME_LIMIT
    ensures WellPlaced(g, InitialSlots(g, now, empty))
    ensures forall i {:trigger InitialSlots(g, now, empty)[i]} :: 0 <= i < g.sampleCount ==>
              g.Start(now) <= InitialSlots(g, now, empty)[i].start < g.Start(now) + g.Interval()
  {
    StartFacts(g, now);
    var slots := InitialSlots(g, now, empty);
    forall i | 0 <= i < g.sampleCount
      ensures slots[i].start % g.bucketLength == 0 && g.Index(slots[i].start) == i
      ensures g.Start(now) <= slots[i].start < g.Start(now) + g.Interval()
    {
      InitialStartPlaced(g, now, i);
    }
  }

  lemma {:induction false} InitialStartPlaced(g: Geometry, now: nat, i: nat)
    requires g.Valid() && i < g.sampleCount
    ensures InitialStart(g, now, i) % g.bucketLength == 0 && g.Index(InitialStart(g, now, i)) == i
    ensures g.Start(now) <= InitialStart(g, now, i) < g.Start(now) + g.Interval()
  {
    var l, n, q := g.bucketLength, g.sampleCount, now / g.bucketLength;
    var k := if i >= g.Index(now) then i - g.Index(now) else i + n - g.Index(now);
    StartFacts(g, now);
    StartAfterIsMultiple(g, now, k);
    WrapsTo(q, n, i);
    MulMono(l, k, n - 1);
    MulDist(l, n, 1);
  }

  lemma StartAfterIsMultiple(g: Geometry, now: nat, k: nat)
    requires g.Valid()
    ensures StartAfter(g, now, k) % g.bucketLength == 0 && StartAfter(g, now, k) / g.bucketLength == now / g.bucketLength + k
  {
    StartFacts(g, now);
    MulDist(g.bucketLength, now / g.bucketLength, k);
    MultipleFacts(g.bucketLength, now / g.bucketLength + k);
  }

  /** Walking from slot `q % n` cyclically up to slot `i` ends in slot `i`. */
  lemma WrapsTo(q: nat, n: nat, i: nat)
    requires i < n
    ensures 0 <= (if i >= q % n then i - q % n else i + n - q % n) < n
    ensures (q + (if i >= q % n then i - q % n else i + n - q % n)) % n == i
  {
    var k := if i >= q % n then i - q % n else i + n - q % n;
    var wrap := if i >= q % n then 0 else 1;
    DivMod(q, n);
    MulDist(n, q / n, wrap);
    DivModUnique(q + k, n, q / n + wrap, i);
  }

  lemma {:induction false} RefreshWellPlaced<V>(g: Geometry, slots: seq<Slot<V>>, now: nat, empty: V)
    requires g.Valid() && WellPlaced(g, slots) && now < TIME_LIMIT
    ensures WellPlaced(g, Refresh(g, slots, now, empty))
    ensures Refresh(g, slots, now, empty)[g.Index(now)].start == g.Start(now)
  {
    StartFacts(g, now);
  }

  /** In an array with distinct residues two slots never hold the same start. */
  lemma DistinctStarts<V>(g: Geometry, slots: seq<Slot<V>>, i: nat, j: nat)
    requires g.Valid() && WellPlaced(g, slots) && i < |slots| && j < |slots|
    requires slots[i].start == slots[j].start
    ensures i == j
  {
  }

  /**
   Why the strict `>` in the expiry test is right: once the bucket of `now` is current, what is not deprecated
   is exactly what starts in the `sampleCount` buckets that end with the current one. A bucket one full
   interval old would pass the test, but its slot has just been recycled.
   */
  lemma {:induction false} FreshAfterRefresh<V>(g: Geometry, slots: seq<Slot<V>>, now: nat, i: nat)
    requires g.Valid() && WellPlaced(g, slots) && now < TIME_LIMIT && i < |slots|
    requires slots[g.Index(now)].start == g.Start(now)
    ensures !Deprecated(g.Interval(), now, slots[i].start) <==>
              g.Start(now) - g.Interval() + g.bucketLength <= slots[i].start <= g.Start(now)
  {
    var s := slots[i].start;
    StartFacts(g, now);
    if s > now {
    } else {
      if s > g.Start(now) {
        AlignedGap(g, g.Start(now), s);
      }
      if s + g.Interval() < g.Start(now) + g.bucketLength {
        var e := s + g.Interval();
        ShiftSameIndex(g, s);
        if e > g.Start(now) {
          AlignedGap(g, g.Start(now), e);
        }
      }
    }
  }

  // ---------------------------------------------------------------- the array itself

  class LeapArray<V> {
    const g: Geometry
    const cells: array<Slot<V>>

    ghost predicate Valid()
      reads cells
    {
      g.Valid() && cells.Length == g.sampleCount && WellPlaced(g, cells[..])
    }

    /** Builds the circular array for the clock reading `now`, first the slots from the current one on, then the rest. */
    constructor (sampleCount: nat, bucketLength: nat, now: nat, empty: V)
      requires Geometry(bucketLength, sampleCount).Valid() && now < TIME_LIMIT
      ensures Valid() && fresh(cells)
      ensures g == Geometry(bucketLength, sampleCount)
      ensures cells[..] == InitialSlots(g, now, empty)
    {
      g := Geometry(bucketLength, sampleCount);
      cells := new Slot<V>[sampleCount](_ => Slot(0, empty));
      new;
      var idx := (now / bucketLength) % sampleCount;
      var startTime := g.Start(now);
      DivMod(now / bucketLength, sampleCount);
      StartAfterNext(g, now, 0);
      for i := idx to sampleCount
        invariant startTime == StartAfter(g, now, i - idx)
        invariant forall j :: idx <= j < i ==> cells[j] == Slot(InitialStart(g, now, j), empty)
      {
        cells[i] := Slot(startTime, empty);
        StartAfterNext(g, now, i - idx);
        startTime := startTime + bucketLength;
      }
      for i := 0 to idx
        invariant startTime == StartAfter(g, now, i + sampleCount - idx)
        invariant forall j :: 0 <= j < i || idx <= j < sampleCount ==> cells[j] == Slot(InitialStart(g, now, j), empty)
      {
        cells[i] := Slot(startTime, empty);
        StartAfterNext(g, now, i + sampleCount - idx);
        startTime := startTime + bucketLength;
      }
      assert cells[..] == InitialSlots(g, now, empty);
      InitialWellPlaced(g, now, empty);
    }

    /**
     Makes the bucket of `now` current and gives its slot. A bucket left over from another round, older or
     newer, is reset in place. Time 0 is refused.
     */
    method CurrentBucketOfTime(now: nat, empty: V) returns (r: Option<nat>)
      requires Valid() && now < TIME_LIMIT
      modifies cells
      ensures Valid()
      ensures now == 0 ==> r == None && cells[..] == old(cells[..])
      ensures now > 0 ==> r == Some(g.Index(now)) && cells[..] == Refresh(g, old(cells[..]), now, empty)
      ensures now > 0 ==> cells[g.Index(now)].start == g.Start(now)
    {
      if now <= 0 {
        return None;
      }
      RefreshWellPlaced(g, cells[..], now, empty);
      var idx := g.Index(now);
      var bucketStart := g.Start(now);
      var old' := cells[idx];
      if bucketStart == old'.start {
        return Some(idx);
      } else if bucketStart > old'.start {
        cells[idx] := Slot(bucketStart, empty);
        return Some(idx);
      } else {
        cells[idx] := Slot(bucketStart, empty);
        return Some(idx);
      }
    }

    /** All buckets that are up to date at `now` and whose start passes the test. */
    method ValuesConditional(now: nat, range: StartRange) returns (ret: seq<Slot<V>>)
      requires Valid()
      ensures ret == if now == 0 then [] else Select(g.Interval(), cells[..], now, range)
    {
      ret := [];
      if now <= 0 {
        return;
      }
      for i := 0 to cells.Length
        invariant ret == Select(g.Interval(), cells[..i], now, range)
      {
        assert cells[..i + 1][..i] == cells[..i];
        var ww := cells[i];
        if Deprecated(g.Interval(), now, ww.start) || !range.Holds(ww.start) {
          continue;
        }
        ret := ret + [ww];
      }
      assert cells[..cells.Length] == cells[..];
    }

    /** All buckets that are up to date at `now`. */
    method ValuesWithTime(now: nat) returns (ret: seq<Slot<V>>)
      requires Valid()
      ensures ret == if now == 0 then [] else Select(g.Interval(), cells[..], now, EVERY_START)
    {
      ret := [];
      if now <= 0 {
        return;
      }
      for i := 0 to cells.Length
        invariant ret == Select(g.Interval(), cells[..i], now, EVERY_START)
      {
        assert cells[..i + 1][..i] == cells[..i];
        var ww := cells[i];
        if Deprecated(g.Interval(), now, ww.start) {
          continue;
        }
        ret := ret + [ww];
      }
      assert cells[..cells.Length] == cells[..];
    }
  }
}
