/** The reject strategy of flow control (core/flow/tc_default.go), called by one goroutine at a time. */
module RejectCheckers {
  import opened EventLog
  import opened LeapArrays
  import opened MetricBuckets
  import opened Prelude
  import opened SlidingWindows
  import opened WindowRefinement

  /** Outcome and slots after one check: read, add, read again, and take back what was too much. */
  function Check(g: Geometry, slots: Slots, interval: nat, now: nat, batch: nat, threshold: real): (bool, Slots)
    requires g.bucketLength > 0 && g.sampleCount > 0 && |slots| == g.sampleCount
  {
    if ReportedSum(g, slots, interval, now, REJECT_PASS) as real > threshold then (false, slots)
    else
      var added := Record(g, slots, now, REJECT_PASS, batch);
      if ReportedSum(g, added, interval, now, REJECT_PASS) as real > threshold
      then (false, Record(g, added, now, REJECT_PASS, -(batch as int)))
      else (true, added)
  }

  class RejectTrafficShapingChecker {
    const readOnlyMetric: SlidingWindowMetric
    const writeOnlyMetric: BucketLeapArray

    ghost predicate Valid()
      reads readOnlyMetric.real'.data.cells
    {
      readOnlyMetric.Valid() && readOnlyMetric.real' == writeOnlyMetric
    }

    constructor (readOnlyMetric: SlidingWindowMetric)
      requires readOnlyMetric.Valid()
      ensures Valid() && this.readOnlyMetric == readOnlyMetric
    {
      this.readOnlyMetric := readOnlyMetric;
      this.writeOnlyMetric := readOnlyMetric.real';
    }

    method DoCheck(batchCount: nat, threshold: real, now: nat) returns (passed: bool)
      requires Valid() && now < TIME_LIMIT
      modifies writeOnlyMetric.data.cells
      ensures Valid()
      ensures (passed, writeOnlyMetric.data.cells[..]) ==
                Check(writeOnlyMetric.data.g, old(writeOnlyMetric.data.cells[..]), readOnlyMetric.interval, now, batchCount, threshold)
    {
      var curCount := readOnlyMetric.GetSumWithTime(now, REJECT_PASS);
      if curCount as real > threshold {
        return false;
      }
      writeOnlyMetric.AddCountWithTime(now, REJECT_PASS, batchCount);
      curCount := readOnlyMetric.GetSumWithTime(now, REJECT_PASS);
      if curCount as real > threshold {
        writeOnlyMetric.AddCountWithTime(now, REJECT_PASS, -(batchCount as int));
        return false;
      }
      return true;
    }
  }

  // ---------------------------------------------------------------- one check, against the log

  /** The log after a check: a rejected request leaves its addition and the matching subtraction. */
  function LogAfter(log: seq<Sample>, passed: bool, addedFirst: bool, now: nat, batch: nat): seq<Sample> {
    if passed then log + [Sample(now, REJECT_PASS, batch)]
    else if addedFirst then log + [Sample(now, REJECT_PASS, batch)] + [Sample(now, REJECT_PASS, -(batch as int))]
    else log
  }

  /** Parameters of a run: the statistic, the view on it (as `AcceptedViewFits` gives it), and the limit. */
  datatype Config = Config(g: Geometry, interval: nat, threshold: real) {
    ghost predicate Valid() {
      g.Valid() && 0 < interval <= g.Interval() && interval % g.bucketLength == 0
    }
  }

  /** What the log holds for the window of `now`. */
  function InWindow(c: Config, log: seq<Sample>, now: nat): int
    requires c.g.bucketLength > 0
  {
    TimeSum(log, REJECT_PASS, WindowBegin(c.g, c.interval, now), WindowEnd(c.g, now))
  }

  lemma {:induction false} ReportsWindow(c: Config, slots: Slots, log: seq<Sample>, clock: nat, now: nat)
    requires c.Valid() && Reflects(c.g, slots, log, clock) && clock <= now < TIME_LIMIT && now > 0
    requires WindowStartsAfterZero(c.g, c.interval, now)
    ensures ReportedSum(c.g, slots, c.interval, now, REJECT_PASS) == InWindow(c, log, now)
  {
    SlotsShowWindow(c.g, slots, log, clock, c.interval, now);
  }

  lemma InWindowAppend(c: Config, log: seq<Sample>, now: nat, count: int)
    requires c.Valid()
    ensures InWindow(c, log + [Sample(now, REJECT_PASS, count)], now) == InWindow(c, log, now) + count
  {
    StartFacts(c.g, now);
    WindowAligned(c.g, c.interval, now);
    WindowContainsNow(c.g, c.interval, now);
    TimeSumAppend(log, Sample(now, REJECT_PASS, count), REJECT_PASS, WindowBegin(c.g, c.interval, now), WindowEnd(c.g, now));
  }

  lemma WindowContainsNow(g: Geometry, interval: nat, now: nat)
    requires g.Valid() && 0 < interval && interval % g.bucketLength == 0
    ensures WindowBegin(g, interval, now) <= now < WindowEnd(g, now)
  {
    StartFacts(g, now);
    AlignedGap(g, 0, interval);
  }

  /** Recording a batch at `now` moves the report by exactly the batch. */
  lemma {:induction false} RecordedBatch(c: Config, slots: Slots, log: seq<Sample>, clock: nat, now: nat, count: int)
    requires c.Valid() && Reflects(c.g, slots, log, clock) && clock <= now < TIME_LIMIT && now > 0
    requires WindowStartsAfterZero(c.g, c.interval, now)
    ensures var slots', log' := Record(c.g, slots, now, REJECT_PASS, count), log + [Sample(now, REJECT_PASS, count)];
            && Reflects(c.g, slots', log', now)
            && ReportedSum(c.g, slots', c.interval, now, REJECT_PASS) == InWindow(c, log, now) + count
  {
    var x := Sample(now, REJECT_PASS, count);
    RecordReflects(c.g, slots, log, clock, x);
    ReportsWindow(c, Record(c.g, slots, now, REJECT_PASS, count), log + [x], now, now);
    InWindowAppend(c, log, now, count);
  }

  predicate Exceeds(count: int, threshold: real) {
    count as real > threshold
  }

  lemma CheckByReports(c: Config, slots: Slots, now: nat, batch: nat, before: int)
    requires c.Valid() && |slots| == c.g.sampleCount
    requires ReportedSum(c.g, slots, c.interval, now, REJECT_PASS) == before
    requires ReportedSum(c.g, Record(c.g, slots, now, REJECT_PASS, batch), c.interval, now, REJECT_PASS) == before + batch
    ensures Check(c.g, slots, c.interval, now, batch, c.threshold) ==
              var added := Record(c.g, slots, now, REJECT_PASS, batch);
              if Exceeds(before, c.threshold) then (false, slots)
              else if Exceeds(before + batch, c.threshold) then (false, Record(c.g, added, now, REJECT_PASS, -(batch as int)))
              else (true, added)
  {
  }

  /** A check passes exactly when the batch still fits in the window of the log. */
  lemma {:induction false} PassesIffItFits(c: Config, slots: Slots, log: seq<Sample>, clock: nat, now: nat, batch: nat)
    requires c.Valid() && Reflects(c.g, slots, log, clock) && clock <= now < TIME_LIMIT && now > 0
    requires WindowStartsAfterZero(c.g, c.interval, now)
    ensures Check(c.g, slots, c.interval, now, batch, c.threshold).0 <==> !Exceeds(InWindow(c, log, now) + batch, c.threshold)
  {
    ReportsWindow(c, slots, log, clock, now);
    RecordedBatch(c, slots, log, clock, now, batch);
    CheckByReports(c, slots, now, batch, InWindow(c, log, now));
  }

  lemma {:induction false} AddedAndTakenBack(c: Config, slots: Slots, log: seq<Sample>, clock: nat, now: nat, batch: nat)
    requires c.Valid() && Reflects(c.g, slots, log, clock) && clock <= now < TIME_LIMIT && now > 0
    ensures var added, log1 := Record(c.g, slots, now, REJECT_PASS, batch), log + [Sample(now, REJECT_PASS, batch)];
            && Sound(c.g, added, log1, now)
            && Sound(c.g, Record(c.g, added, now, REJECT_PASS, -(batch as int)), log1 + [Sample(now, REJECT_PASS, -(batch as int))], now)
  {
    var added, log1 := Record(c.g, slots, now, REJECT_PASS, batch), log + [Sample(now, REJECT_PASS, batch)];
    RecordReflects(c.g, slots, log, clock, Sample(now, REJECT_PASS, batch));
    RecordReflects(c.g, added, log1, now, Sample(now, REJECT_PASS, -(batch as int)));
  }

  /** Whatever the outcome, the slots go on reflecting the log. */
  lemma {:induction false} CheckReflects(c: Config, slots: Slots, log: seq<Sample>, clock: nat, now: nat, batch: nat)
    requires c.Valid() && Reflects(c.g, slots, log, clock) && clock <= now < TIME_LIMIT && now > 0
    requires WindowStartsAfterZero(c.g, c.interval, now)
    ensures var (passed, slots') := Check(c.g, slots, c.interval, now, batch, c.threshold);
            Sound(c.g, slots', LogAfter(log, passed, !Exceeds(InWindow(c, log, now), c.threshold), now, batch), now)
  {
    ReportsWindow(c, slots, log, clock, now);
    RecordedBatch(c, slots, log, clock, now, batch);
    CheckByReports(c, slots, now, batch, InWindow(c, log, now));
    AddedAndTakenBack(c, slots, log, clock, now, batch);
    assert Sound(c.g, slots, log, now) by {
      ReflectsLater(c.g, slots, log, clock, now);
    }
  }

  ghost predicate Sound(g: Geometry, slots: Slots, log: seq<Sample>, now: nat)
    requires g.Valid()
  {
    Reflects(g, slots, log, now)
  }

  lemma ReflectsLater(g: Geometry, slots: Slots, log: seq<Sample>, clock: nat, now: nat)
    requires g.Valid() && Reflects(g, slots, log, clock) && clock <= now
    ensures Reflects(g, slots, log, now)
  {
    StartMonotone(g, clock, now);
    TracksLater(g, Starts(slots), log, clock, now);
  }

  // ---------------------------------------------------------------- runs

  datatype Request = Request(now: nat, batch: nat)

  function Clock(t0: nat, requests: seq<Request>): nat {
    if requests == [] then t0 else requests[|requests| - 1].now
  }

  /** The clock does not go back and has run for a whole window since time 0. */
  ghost predicate Timely(c: Config, t0: nat, requests: seq<Request>)
    requires c.g.bucketLength > 0
  {
    requests != [] ==>
      var now := requests[|requests| - 1].now;
      && Timely(c, t0, requests[..|requests| - 1])
      && 0 < now < TIME_LIMIT && Clock(t0, requests[..|requests| - 1]) <= now
      && WindowStartsAfterZero(c.g, c.interval, now)
  }

  /** Slots, and the requests that were let through, after a run. */
  function Run(c: Config, t0: nat, requests: seq<Request>): (r: (Slots, seq<Sample>))
    requires c.Valid()
    ensures |r.0| == c.g.sampleCount
  {
    if requests == [] then (InitialSlots(c.g, t0, EMPTY_BUCKET), [])
    else
      var (slots, admitted) := Run(c, t0, requests[..|requests| - 1]);
      var q := requests[|requests| - 1];
      var (passed, slots') := Check(c.g, slots, c.interval, q.now, q.batch, c.threshold);
      (slots', if passed then admitted + [Sample(q.now, REJECT_PASS, q.batch)] else admitted)
  }

  /** The log adds up to the admitted requests, over any span. */
  ghost predicate SameSums(log: seq<Sample>, admitted: seq<Sample>) {
    forall from: int, to: int :: TimeSum(log, REJECT_PASS, from, to) == TimeSum(admitted, REJECT_PASS, from, to)
  }

  lemma {:induction false} RejectionCancels(log: seq<Sample>, admitted: seq<Sample>, passed: bool, addedFirst: bool, now: nat, batch: nat)
    requires SameSums(log, admitted)
    ensures SameSums(LogAfter(log, passed, addedFirst, now, batch), if passed then admitted + [Sample(now, REJECT_PASS, batch)] else admitted)
  {
    var x, y := Sample(now, REJECT_PASS, batch), Sample(now, REJECT_PASS, -(batch as int));
    forall from: int, to: int
      ensures TimeSum(LogAfter(log, passed, addedFirst, now, batch), REJECT_PASS, from, to) ==
                TimeSum(if passed then admitted + [x] else admitted, REJECT_PASS, from, to)
    {
      TimeSumAppend(log, x, REJECT_PASS, from, to);
      TimeSumAppend(log + [x], y, REJECT_PASS, from, to);
      TimeSumAppend(admitted, x, REJECT_PASS, from, to);
    }
  }

  /** The window only loses what it has already seen. */
  lemma {:induction false} WindowOnlyLoses(admitted: seq<Sample>, from: int, to: int, from': int, to': int)
    requires from <= from'
    requires forall k :: 0 <= k < |admitted| ==> admitted[k].count >= 0 && admitted[k].time < to
    ensures TimeSum(admitted, REJECT_PASS, from', to') <= TimeSum(admitted, REJECT_PASS, from, to)
  {
    if admitted != [] {
      WindowOnlyLoses(admitted[..|admitted| - 1], from, to, from', to');
    }
  }

  ghost predicate Within(c: Config, admitted: seq<Sample>, now: nat)
    requires c.Valid()
  {
    && (forall k :: 0 <= k < |admitted| ==> admitted[k].count >= 0 && admitted[k].time <= now)
    && InWindow(c, admitted, now) as real <= c.threshold
  }

  lemma {:induction false} WithinLater(c: Config, admitted: seq<Sample>, now: nat, now': nat)
    requires c.Valid() && Within(c, admitted, now) && now <= now'
    ensures Within(c, admitted, now')
  {
    StartMonotone(c.g, now, now');
    StartFacts(c.g, now);
    WindowOnlyLoses(admitted, WindowBegin(c.g, c.interval, now), WindowEnd(c.g, now), WindowBegin(c.g, c.interval, now'), WindowEnd(c.g, now'));
  }

  /**
   NEVER OVER THE LIMIT. In any run the requests let through never add up to more than the threshold, in the
   window of any time.
   */
  lemma {:induction false} AdmittedStayWithinThreshold(c: Config, t0: nat, requests: seq<Request>) returns (log: seq<Sample>)
    requires c.Valid() && t0 < TIME_LIMIT && Timely(c, t0, requests) && c.threshold >= 0.0
    ensures forall now :: now >= Clock(t0, requests) ==> Within(c, Run(c, t0, requests).1, now)
    ensures Reflects(c.g, Run(c, t0, requests).0, log, Clock(t0, requests)) && SameSums(log, Run(c, t0, requests).1)
    ensures Clock(t0, requests) < TIME_LIMIT
  {
    if requests == [] {
      InitialReflects(c.g, t0);
      log := [];
    } else {
      var before, q := requests[..|requests| - 1], requests[|requests| - 1];
      var log0 := AdmittedStayWithinThreshold(c, t0, before);
      log := NextRequest(c, Run(c, t0, before).0, Run(c, t0, before).1, log0, Clock(t0, before), q);
    }
  }

  lemma {:induction false} NextRequest(c: Config, slots: Slots, admitted: seq<Sample>, log0: seq<Sample>, clock: nat, q: Request)
      returns (log: seq<Sample>)
    requires c.Valid() && clock <= q.now < TIME_LIMIT && q.now > 0 && WindowStartsAfterZero(c.g, c.interval, q.now)
    requires Reflects(c.g, slots, log0, clock) && SameSums(log0, admitted) && Within(c, admitted, clock)
    ensures var (passed, slots') := Check(c.g, slots, c.interval, q.now, q.batch, c.threshold);
            var admitted' := if passed then admitted + [Sample(q.now, REJECT_PASS, q.batch)] else admitted;
            && Sound(c.g, slots', log, q.now)
            && SameSums(log, admitted')
            && forall now :: now >= q.now ==> Within(c, admitted', now)
  {
    var passed := Check(c.g, slots, c.interval, q.now, q.batch, c.threshold).0;
    var addedFirst := !Exceeds(InWindow(c, log0, q.now), c.threshold);
    PassesIffItFits(c, slots, log0, clock, q.now, q.batch);
    CheckReflects(c, slots, log0, clock, q.now, q.batch);
    RejectionCancels(log0, admitted, passed, addedFirst, q.now, q.batch);
    log := LogAfter(log0, passed, addedFirst, q.now, q.batch);
    WithinLater(c, admitted, clock, q.now);
    InWindowAppend(c, admitted, q.now, q.batch);
    var admitted' := if passed then admitted + [Sample(q.now, REJECT_PASS, q.batch)] else admitted;
    assert Within(c, admitted', q.now);
    forall now | now >= q.now
      ensures Within(c, admitted', now)
    {
      WithinLater(c, admitted', q.now, now);
    }
  }
}
