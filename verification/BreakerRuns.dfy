/**
 Runs of a circuit breaker with atomic calls: its decisions are those of a naive breaker that remembers every
 completion, nothing passes while it is quiet, and it closes after exactly the good probes its rule asks for.
 */
module BreakerRuns {
  import Arithmetic
  import opened CircuitBreakers
  import opened EventLog
  import opened LeapArrays
  import opened Prelude
  import opened WindowRefinement

  datatype Call =
    | TryPass(now: nat)
    | Complete(now: nat, c: Completion)
    | ExitHook(now: nat, blocked: bool)

  ghost predicate InOrder(t0: nat, calls: seq<Call>) {
    && (forall i :: 0 <= i < |calls| ==> t0 <= calls[i].now < TIME_LIMIT)
    && (forall i, j :: 0 <= i < j < |calls| ==> calls[i].now <= calls[j].now)
  }

  lemma InOrderPrefix(t0: nat, calls: seq<Call>)
    requires calls != [] && InOrder(t0, calls)
    ensures InOrder(t0, calls[..|calls| - 1])
    ensures LastTime(t0, calls[..|calls| - 1]) <= calls[|calls| - 1].now
  {
  }

  function LastTime(t0: nat, calls: seq<Call>): nat {
    if calls == [] then t0 else calls[|calls| - 1].now
  }

  function Step(r: Rule, b: Breaker, call: Call): (b': Breaker)
    requires Buildable(r) && |b.slots| == RuleGeometry(r).sampleCount
    ensures |b'.slots| == RuleGeometry(r).sampleCount
  {
    match call
    case TryPass(now) => b.(ctl := AfterTryPass(r, b.ctl, now))
    case Complete(now, c) => AfterRequest(r, RuleGeometry(r), b, c, now)
    case ExitHook(_, blocked) => b.(ctl := AfterExitHook(b.ctl, blocked))
  }

  function RunFrom(r: Rule, b: Breaker, calls: seq<Call>): (b': Breaker)
    requires Buildable(r) && |b.slots| == RuleGeometry(r).sampleCount
    ensures |b'.slots| == RuleGeometry(r).sampleCount
  {
    if calls == [] then b else Step(r, RunFrom(r, b, calls[..|calls| - 1]), calls[|calls| - 1])
  }

  /** A run of a new breaker. */
  function Run(r: Rule, t0: nat, calls: seq<Call>): (b: Breaker)
    requires Buildable(r)
    ensures |b.slots| == RuleGeometry(r).sampleCount
  {
    RunFrom(r, Breaker(INITIAL_CONTROL, InitialSlots(RuleGeometry(r), t0, NO_REQUESTS)), calls)
  }

  // ---------------------------------------------------------------- the naive breaker

  /** A completion with the time it was counted. */
  datatype Finished = Finished(time: nat, bad: bool)

  /** Completions in [from, to); with `onlyBad`, the bad ones. */
  function CountFinished(log: seq<Finished>, from: int, to: int, onlyBad: bool): nat {
    if log == [] then 0
    else
      var x := log[|log| - 1];
      CountFinished(log[..|log| - 1], from, to, onlyBad) + (if from <= x.time < to && (onlyBad ==> x.bad) then 1 else 0)
  }

  /** Keeps every completion since the statistic was last reset and recounts the window each time. */
  datatype Naive = Naive(ctl: Control, log: seq<Finished>)

  function NaiveStep(r: Rule, n: Naive, call: Call): Naive
    requires Buildable(r)
  {
    match call
    case TryPass(now) => n.(ctl := AfterTryPass(r, n.ctl, now))
    case ExitHook(_, blocked) => n.(ctl := AfterExitHook(n.ctl, blocked))
    case Complete(now, c) =>
      if now == 0 then n
      else
        var g, bad := RuleGeometry(r), IsBad(r, c);
        var log := n.log + [Finished(now, bad)];
        var from, to := WindowBegin(g, r.statIntervalMs, now), WindowEnd(g, now);
        var trips := Trips(r, CountFinished(log, from, to, true), CountFinished(log, from, to, false));
        Naive(AfterCompletion(r, n.ctl, bad, trips, now), if ClosesBy(r, n.ctl, bad) then [] else log)
  }

  function NaiveRunFrom(r: Rule, n: Naive, calls: seq<Call>): Naive
    requires Buildable(r)
  {
    if calls == [] then n else NaiveStep(r, NaiveRunFrom(r, n, calls[..|calls| - 1]), calls[|calls| - 1])
  }

  function NaiveRun(r: Rule, calls: seq<Call>): Naive
    requires Buildable(r)
  {
    NaiveRunFrom(r, Naive(INITIAL_CONTROL, []), calls)
  }

  // ---------------------------------------------------------------- the simulation

  const TOTAL := 0
  const BAD := 1

  /** The naive log as samples: one of each kind per completion. */
  function Samples(log: seq<Finished>): seq<Sample> {
    if log == [] then []
    else
      var x := log[|log| - 1];
      Samples(log[..|log| - 1]) + [Sample(x.time, TOTAL, 1)] + [Sample(x.time, BAD, if x.bad then 1 else 0)]
  }

  lemma {:induction false} SamplesCount(log: seq<Finished>, from: int, to: int)
    ensures TimeSum(Samples(log), TOTAL, from, to) == CountFinished(log, from, to, false)
    ensures TimeSum(Samples(log), BAD, from, to) == CountFinished(log, from, to, true)
  {
    if log != [] {
      var rest, x := log[..|log| - 1], log[|log| - 1];
      SamplesCount(rest, from, to);
      var first := Sample(x.time, TOTAL, 1);
      var second := Sample(x.time, BAD, if x.bad then 1 else 0);
      forall e ensures TimeSum(Samples(log), e, from, to) ==
                         TimeSum(Samples(rest), e, from, to)
                         + (if e == TOTAL && from <= x.time < to then 1 else 0)
                         + (if e == BAD && x.bad && from <= x.time < to then 1 else 0)
      {
        TimeSumAppend(Samples(rest), first, e, from, to);
        TimeSumAppend(Samples(rest) + [first], second, e, from, to);
      }
    }
  }

  ghost predicate CounterAgrees(g: Geometry, slot: Slot<Counter>, log: seq<Sample>) {
    slot.value.total == BucketSum(g, log, TOTAL, slot.start) && slot.value.bad == BucketSum(g, log, BAD, slot.start)
  }

  ghost predicate Mirrors(g: Geometry, slots: Counters, log: seq<Sample>, now: nat)
    requires g.Valid()
  {
    && WellPlaced(g, slots)
    && Tracks(g, Starts(slots), log, now)
    && forall i {:trigger slots[i]} :: 0 <= i < |slots| && Live(g, now, slots[i].start) ==> CounterAgrees(g, slots[i], log)
  }

  lemma {:induction false} RefreshMirrors(g: Geometry, slots: Counters, log: seq<Sample>, now: nat, now': nat)
    requires g.Valid() && Mirrors(g, slots, log, now) && now <= now' < TIME_LIMIT
    ensures Mirrors(g, Refresh(g, slots, now', NO_REQUESTS), log, now')
  {
    StartMonotone(g, now, now');
    RefreshWellPlaced(g, slots, now', NO_REQUESTS);
    RefreshTracks(g, Starts(slots), log, now, now');
    RefreshStartsOf(g, slots, now', NO_REQUESTS);
    if Starts(slots)[g.Index(now')] != g.Start(now') {
      NewBucketIsEmpty(g, Starts(slots), log, now, now', TOTAL, 0);
      NewBucketIsEmpty(g, Starts(slots), log, now, now', BAD, 0);
    }
  }

  lemma {:induction false} CountMirrors(g: Geometry, slots: Counters, log: seq<Sample>, now: nat, now': nat, bad: bool)
    requires g.Valid() && Mirrors(g, slots, log, now) && now <= now' < TIME_LIMIT
    ensures var first, second := Sample(now', TOTAL, 1), Sample(now', BAD, if bad then 1 else 0);
            Mirrors(g, Count(g, slots, now', bad), log + [first] + [second], now')
    ensures Count(g, slots, now', bad)[g.Index(now')].start == g.Start(now')
  {
    RefreshMirrors(g, slots, log, now, now');
    RefreshWellPlaced(g, slots, now', NO_REQUESTS);
    var current, counted := Refresh(g, slots, now', NO_REQUESTS), Count(g, slots, now', bad);
    var first, second := Sample(now', TOTAL, 1), Sample(now', BAD, if bad then 1 else 0);
    assert Starts(counted) == Starts(current);
    AppendTracks(g, Starts(current), log, first, now');
    AppendTracks(g, Starts(current), log + [first], second, now');
    forall i | 0 <= i < |counted| && Live(g, now', counted[i].start)
      ensures CounterAgrees(g, counted[i], log + [first] + [second])
    {
      var s := counted[i].start;
      assert s == current[i].start && CounterAgrees(g, current[i], log);
      forall e ensures BucketSum(g, log + [first] + [second], e, s) ==
                         BucketSum(g, log, e, s) + (if g.Start(now') == s then (if e == TOTAL then 1 else 0) + (if e == BAD && bad then 1 else 0) else 0)
      {
        BucketSumAppend(g, log, first, e, s);
        BucketSumAppend(g, log + [first], second, e, s);
      }
    }
  }

  lemma {:induction false} ResetMirrors(g: Geometry, slots: Counters, log: seq<Sample>, now: nat)
    requires g.Valid() && Mirrors(g, slots, log, now) && now < TIME_LIMIT && slots[g.Index(now)].start == g.Start(now)
    ensures Mirrors(g, ResetLive(g, slots, now), [], now)
  {
    var reset := ResetLive(g, slots, now);
    assert Starts(reset) == Starts(slots);
    StartFacts(g, now);
    forall i | 0 <= i < |reset| && Live(g, now, reset[i].start)
      ensures CounterAgrees(g, reset[i], [])
    {
      var s := slots[i].start;
      assert reset[i].start == s;
      FreshAfterRefresh(g, slots, now, i);
      if s > g.Start(now) {
        NothingInTheFuture(g, Starts(slots), log, now, s);
        assert slots[i].value == NO_REQUESTS;
      } else {
        LiveMeansInWindow(g, now, s);
      }
    }
  }

  lemma NothingInTheFuture(g: Geometry, starts: seq<nat>, log: seq<Sample>, now: nat, s: nat)
    requires g.Valid() && Tracks(g, starts, log, now) && s % g.bucketLength == 0 && g.Start(now) < s
    ensures BucketSum(g, log, TOTAL, s) == 0 && BucketSum(g, log, BAD, s) == 0
  {
    StartFacts(g, now);
    AlignedGap(g, g.Start(now), s);
    TimeSumNone(log, TOTAL, s, s + g.bucketLength);
    TimeSumNone(log, BAD, s, s + g.bucketLength);
  }

  lemma LiveMeansInWindow(g: Geometry, now: nat, s: nat)
    requires g.Valid() && s % g.bucketLength == 0 && Live(g, now, s)
    ensures g.Start(now) - g.Interval() + g.bucketLength <= s
  {
    ShiftSameIndex(g, s);
    StartFacts(g, now);
    AlignedGap(g, g.Start(now), s + g.Interval());
  }

  lemma CountersAppend(counters: Counters, slot: Slot<Counter>)
    ensures BadOf(counters + [slot]) == BadOf(counters) + slot.value.bad
    ensures TotalOf(counters + [slot]) == TotalOf(counters) + slot.value.total
    ensures BadOf(counters + []) == BadOf(counters) && TotalOf(counters + []) == TotalOf(counters)
  {
    assert (counters + [slot])[..|counters|] == counters;
    assert counters + [] == counters;
  }

  lemma {:induction false} SelectCounters(g: Geometry, interval: nat, slots: Counters, log: seq<Sample>, now: nat, range: StartRange, lo: int, hi: int)
    requires Keeps(interval, Starts(slots), now, range, lo, hi)
    requires forall i {:trigger slots[i]} :: 0 <= i < |slots| && lo <= slots[i].start <= hi ==> CounterAgrees(g, slots[i], log)
    ensures BadOf(Select(interval, slots, now, range)) == PickSum(g, Starts(slots), log, BAD, lo, hi)
    ensures TotalOf(Select(interval, slots, now, range)) == PickSum(g, Starts(slots), log, TOTAL, lo, hi)
  {
    if slots != [] {
      var n := |slots| - 1;
      KeepsPrefix(interval, slots, now, range, lo, hi);
      assert forall i {:trigger slots[..n][i]} :: 0 <= i < n ==> slots[..n][i] == slots[i];
      SelectCounters(g, interval, slots[..n], log, now, range, lo, hi);
      CountersAppend(Select(interval, slots[..n], now, range), slots[n]);
    }
  }

  /** Adding up the live buckets recounts the window of the log. */
  lemma {:induction false} CountersShowWindow(g: Geometry, slots: Counters, log: seq<Sample>, now: nat)
    requires g.Valid() && Mirrors(g, slots, log, now) && now < TIME_LIMIT && slots[g.Index(now)].start == g.Start(now)
    ensures var live := Select(g.Interval(), slots, now, EVERY_START);
            var from, to := WindowBegin(g, g.Interval(), now), WindowEnd(g, now);
            BadOf(live) == TimeSum(log, BAD, from, to) && TotalOf(live) == TimeSum(log, TOTAL, from, to)
  {
    var lo, hi := WindowBegin(g, g.Interval(), now), g.Start(now);
    FullWindowKeeps(g, slots, now);
    StartFacts(g, now);
    Arithmetic.MultipleFacts(g.bucketLength, g.sampleCount);
    WindowAligned(g, g.Interval(), now);
    WellPlacedStarts(g, slots);
    SelectCounters(g, g.Interval(), slots, log, now, EVERY_START, lo, hi);
    TracksCovers(g, Starts(slots), log, now, BAD, lo, hi);
    TracksCovers(g, Starts(slots), log, now, TOTAL, lo, hi);
    BucketwiseSum(g, Starts(slots), log, BAD, lo, hi);
    BucketwiseSum(g, Starts(slots), log, TOTAL, lo, hi);
  }

  /** Counting one completion: the buckets show the naive recount, and a reset leaves them mirroring the empty log. */
  lemma {:induction false} CountedWindow(g: Geometry, slots: Counters, log: seq<Finished>, now: nat, now': nat, bad: bool)
    requires g.Valid() && Mirrors(g, slots, Samples(log), now) && now <= now' < TIME_LIMIT
    ensures var counted, log' := Count(g, slots, now', bad), log + [Finished(now', bad)];
            var live := Select(g.Interval(), counted, now', EVERY_START);
            var from, to := WindowBegin(g, g.Interval(), now'), WindowEnd(g, now');
            && Mirrors(g, counted, Samples(log'), now')
            && BadOf(live) == CountFinished(log', from, to, true)
            && TotalOf(live) == CountFinished(log', from, to, false)
            && Mirrors(g, ResetLive(g, counted, now'), [], now')
  {
    var counted, log' := Count(g, slots, now', bad), log + [Finished(now', bad)];
    assert log'[..|log|] == log;
    CountMirrors(g, slots, Samples(log), now, now', bad);
    CountersShowWindow(g, counted, Samples(log'), now');
    SamplesCount(log', WindowBegin(g, g.Interval(), now'), WindowEnd(g, now'));
    ResetMirrors(g, counted, Samples(log'), now');
  }

  lemma {:induction false} RequestMirrors(r: Rule, b: Breaker, n: Naive, now: nat, now': nat, c: Completion)
    requires Buildable(r) && b.ctl == n.ctl && Mirrors(RuleGeometry(r), b.slots, Samples(n.log), now) && now <= now' < TIME_LIMIT
    ensures var b', n' := AfterRequest(r, RuleGeometry(r), b, c, now'), NaiveStep(r, n, Complete(now', c));
            b'.ctl == n'.ctl && Mirrors(RuleGeometry(r), b'.slots, Samples(n'.log), now')
  {
    CountedWindow(RuleGeometry(r), b.slots, n.log, now, now', IsBad(r, c));
  }

  /** The breaker is in the naive one's control state and its array shows the naive log. */
  ghost predicate SameAs(r: Rule, b: Breaker, n: Naive, now: nat)
    requires Buildable(r)
  {
    b.ctl == n.ctl && Mirrors(RuleGeometry(r), b.slots, Samples(n.log), now)
  }

  /**
   BREAKER REFINEMENT. From any breaker that agrees with a naive one, over any run with a clock that does not go back, the
   two stay in the same control state, so they open, close and admit alike.
   */
  lemma {:induction false} RunStaysNaive(r: Rule, b: Breaker, n: Naive, t0: nat, calls: seq<Call>)
    requires Buildable(r) && t0 < TIME_LIMIT && InOrder(t0, calls) && SameAs(r, b, n, t0)
    ensures |b.slots| == RuleGeometry(r).sampleCount
    ensures SameAs(r, RunFrom(r, b, calls), NaiveRunFrom(r, n, calls), LastTime(t0, calls))
  {
    hide Samples;
    var g := RuleGeometry(r);
    if calls != [] {
      var before, call := calls[..|calls| - 1], calls[|calls| - 1];
      InOrderPrefix(t0, calls);
      RunStaysNaive(r, b, n, t0, before);
      var b', n', now := RunFrom(r, b, before), NaiveRunFrom(r, n, before), LastTime(t0, before);
      if call.Complete? {
        RequestMirrors(r, b', n', now, call.now, call.c);
      } else {
        StartMonotone(g, now, call.now);
        TracksLater(g, Starts(b'.slots), Samples(n'.log), now, call.now);
      }
    }
  }

  /** A new breaker is a naive breaker that has seen nothing. */
  lemma {:induction false} BreakerIsNaiveBreaker(r: Rule, t0: nat, calls: seq<Call>)
    requires Buildable(r) && t0 < TIME_LIMIT && InOrder(t0, calls)
    ensures Run(r, t0, calls).ctl == NaiveRun(r, calls).ctl
    ensures Mirrors(RuleGeometry(r), Run(r, t0, calls).slots, Samples(NaiveRun(r, calls).log), LastTime(t0, calls))
  {
    var g := RuleGeometry(r);
    InitialWellPlaced(g, t0, NO_REQUESTS);
    RunStaysNaive(r, Breaker(INITIAL_CONTROL, InitialSlots(g, t0, NO_REQUESTS)), Naive(INITIAL_CONTROL, []), t0, calls);
  }

  /**
   A breaker made for a changed rule on the statistic of an old breaker goes on as a closed naive breaker that remembers
   the completions of the old one, each good or bad as the old rule had it.
   */
  lemma {:induction false} InheritedStatisticGoesOn(r: Rule, r': Rule, t0: nat, calls: seq<Call>, t1: nat, later: seq<Call>)
    requires Buildable(r) && Buildable(r') && Layout(r) == Layout(r') && t0 < TIME_LIMIT && InOrder(t0, calls)
    requires LastTime(t0, calls) <= t1 < TIME_LIMIT && InOrder(t1, later)
    ensures var b := Breaker(INITIAL_CONTROL, Run(r, t0, calls).slots);
            && |b.slots| == RuleGeometry(r').sampleCount
            && RunFrom(r', b, later).ctl == NaiveRunFrom(r', Naive(INITIAL_CONTROL, NaiveRun(r, calls).log), later).ctl
  {
    hide RunFrom, NaiveRunFrom, Samples;
    BreakerIsNaiveBreaker(r, t0, calls);
    var slots, log := Run(r, t0, calls).slots, NaiveRun(r, calls).log;
    StartMonotone(RuleGeometry(r), LastTime(t0, calls), t1);
    TracksLater(RuleGeometry(r), Starts(slots), Samples(log), LastTime(t0, calls), t1);
    RunStaysNaive(r', Breaker(INITIAL_CONTROL, slots), Naive(INITIAL_CONTROL, log), t1, later);
  }

  // ---------------------------------------------------------------- quiet while open

  /** The `k`-th call of the run is the completion that opened the breaker, by a trip or a failed probe. */
  predicate Opens(r: Rule, t0: nat, calls: seq<Call>, k: nat)
    requires Buildable(r) && k < |calls|
  {
    calls[k].Complete? && Run(r, t0, calls[..k]).ctl.state != Open && Run(r, t0, calls[..k + 1]).ctl.state == Open
  }

  lemma RunNext(r: Rule, t0: nat, calls: seq<Call>, k: nat)
    requires Buildable(r) && k < |calls|
    ensures Run(r, t0, calls[..k + 1]) == Step(r, Run(r, t0, calls[..k]), calls[k])
  {
    assert calls[..k + 1][..k] == calls[..k];
  }

  lemma OpeningSetsRetry(r: Rule, b: Breaker, call: Call)
    requires Buildable(r) && |b.slots| == RuleGeometry(r).sampleCount
    requires call.Complete? && b.ctl.state != Open && Step(r, b, call).ctl.state == Open
    ensures Step(r, b, call).ctl.nextRetry == call.now + r.retryTimeoutMs
  {
  }

  lemma OpenUntilRetry(r: Rule, b: Breaker, call: Call)
    requires Buildable(r) && |b.slots| == RuleGeometry(r).sampleCount
    requires b.ctl.state == Open && call.now < b.ctl.nextRetry
    ensures Step(r, b, call).ctl == b.ctl
  {
  }

  lemma {:induction false} StaysOpen(r: Rule, t0: nat, calls: seq<Call>, i: nat, j: nat)
    requires Buildable(r) && i < j <= |calls| && Opens(r, t0, calls, i)
    requires forall k :: i < k < j ==> calls[k].now < calls[i].now + r.retryTimeoutMs
    ensures Run(r, t0, calls[..j]).ctl.state == Open
    ensures Run(r, t0, calls[..j]).ctl.nextRetry == calls[i].now + r.retryTimeoutMs
  {
    RunNext(r, t0, calls, j - 1);
    if j == i + 1 {
      OpeningSetsRetry(r, Run(r, t0, calls[..i]), calls[i]);
    } else {
      StaysOpen(r, t0, calls, i, j - 1);
      OpenUntilRetry(r, Run(r, t0, calls[..j - 1]), calls[j - 1]);
    }
  }

  /** QUIET PERIOD. After a trip or failed probe at `t`, nothing passes before `t + retryTimeoutMs`. */
  lemma {:induction false} NothingPassesBeforeRetry(r: Rule, t0: nat, calls: seq<Call>, i: nat, j: nat)
    requires Buildable(r) && i < j < |calls| && InOrder(t0, calls) && Opens(r, t0, calls, i)
    requires calls[j].TryPass? && calls[j].now < calls[i].now + r.retryTimeoutMs
    ensures !Passes(r, Run(r, t0, calls[..j]).ctl, calls[j].now)
  {
    StaysOpen(r, t0, calls, i, j);
  }

  // ---------------------------------------------------------------- probes

  datatype Probe = NotAProbe | GoodProbe | FailedProbe

  /** What a call says about the probing of a half-open breaker. */
  function ProbeOf(r: Rule, ctl: Control, call: Call): Probe {
    if call.Complete? && call.now > 0 && ctl.state == HalfOpen then
      if IsBad(r, call.c) then FailedProbe else GoodProbe
    else NotAProbe
  }

  predicate Closes(r: Rule, t0: nat, calls: seq<Call>, k: nat)
    requires Buildable(r) && k < |calls|
  {
    Run(r, t0, calls[..k]).ctl.state != Closed && Run(r, t0, calls[..k + 1]).ctl.state == Closed
  }

  /** Good probes since the breaker last closed or failed a probe. */
  function Streak(r: Rule, t0: nat, calls: seq<Call>): nat
    requires Buildable(r)
  {
    if calls == [] then 0
    else
      var k := |calls| - 1;
      match ProbeOf(r, Run(r, t0, calls[..k]).ctl, calls[k])
      case NotAProbe => Streak(r, t0, calls[..k])
      case FailedProbe => 0
      case GoodProbe => if Closes(r, t0, calls, k) then 0 else Streak(r, t0, calls[..k]) + 1
  }

  /** The probe counter counts the streak; it is 0 when closed and otherwise 0 or below the number asked for. */
  lemma {:induction false} ProbeCounterIsStreak(r: Rule, t0: nat, calls: seq<Call>)
    requires Buildable(r)
    ensures var ctl := Run(r, t0, calls).ctl;
            && ctl.curProbe == Streak(r, t0, calls)
            && (ctl.state == Closed ==> ctl.curProbe == 0)
            && (ctl.curProbe == 0 || ctl.curProbe < r.probeNum)
  {
    if calls != [] {
      var k := |calls| - 1;
      ProbeCounterIsStreak(r, t0, calls[..k]);
      RunNext(r, t0, calls, k);
      assert calls[..k + 1] == calls;
    }
  }

  /**
   PROBING. A breaker closes on a good probe, and on none other, that makes the streak of good probes, with no
   failed one between, exactly as long as the rule asks: `probeNum`, or one when `probeNum` is 0.
   */
  lemma {:induction false} ClosesAfterEnoughGoodProbes(r: Rule, t0: nat, calls: seq<Call>, k: nat)
    requires Buildable(r) && k < |calls|
    ensures Closes(r, t0, calls, k) <==>
              && ProbeOf(r, Run(r, t0, calls[..k]).ctl, calls[k]) == GoodProbe
              && Streak(r, t0, calls[..k]) + 1 == Max(1, r.probeNum)
  {
    ProbeCounterIsStreak(r, t0, calls[..k]);
    RunNext(r, t0, calls, k);
  }
}
