/**
 What a circuit breaker decides, said by the calls made on it and the fields of its rule alone
 (core/circuitbreaker/circuit_breaker.go).
 */
module BreakerDecisions {
  import opened BreakerRuns
  import opened CircuitBreakers
  import opened LeapArrays
  import opened Prelude
  import WindowRefinement

  // ---------------------------------------------------------------- completions as they came

  /** A completion as the caller reported it. */
  datatype Raw = Raw(time: nat, rt: nat, failed: bool)

  /** The completions since the breaker last closed, which is when its counts are reset. Time 0 is refused. */
  function Since(r: Rule, t0: nat, calls: seq<Call>): seq<Raw>
    requires Buildable(r)
  {
    if calls == [] then []
    else
      var n := |calls| - 1;
      match calls[n]
      case Complete(now, c) =>
        if now == 0 then Since(r, t0, calls[..n])
        else if Closes(r, t0, calls, n) then []
        else Since(r, t0, calls[..n]) + [Raw(now, c.rt, c.failed)]
      case _ => Since(r, t0, calls[..n])
  }

  /** How many completions there are in [from, to). */
  function TotalIn(raws: seq<Raw>, from: int, to: int): nat {
    if raws == [] then 0
    else TotalIn(raws[..|raws| - 1], from, to) + if from <= raws[|raws| - 1].time < to then 1 else 0
  }

  /** How many of them took longer than `limit`. */
  function SlowIn(raws: seq<Raw>, limit: nat, from: int, to: int): nat {
    if raws == [] then 0
    else
      var x := raws[|raws| - 1];
      SlowIn(raws[..|raws| - 1], limit, from, to) + if from <= x.time < to && x.rt > limit then 1 else 0
  }

  /** How many of them failed. */
  function FailedIn(raws: seq<Raw>, from: int, to: int): nat {
    if raws == [] then 0
    else
      var x := raws[|raws| - 1];
      FailedIn(raws[..|raws| - 1], from, to) + if from <= x.time < to && x.failed then 1 else 0
  }

  /** The end of the bucket of `now`, in buckets as the rule asks for them. */
  function BucketEnd(r: Rule, now: nat): int
    requires r.statIntervalMs > 0
  {
    var buckets := r.statSlidingWindowBucketCount;
    var length := if buckets == 0 || r.statIntervalMs % buckets != 0 then r.statIntervalMs else r.statIntervalMs / buckets;
    if length == 0 then now else now - now % length + length
  }

  /** Enough completions in the window, and too many bad ones for the strategy: a slow one is bad, or a failed one. */
  ghost predicate TooBad(r: Rule, raws: seq<Raw>, now: nat)
    requires r.statIntervalMs > 0
  {
    var to := BucketEnd(r, now);
    var from := to - r.statIntervalMs;
    var total := TotalIn(raws, from, to);
    && total >= r.minRequestAmount
    && match r.strategy
       case SlowRequestRatio => total > 0 && SlowIn(raws, r.maxAllowedRtMs, from, to) as real > (r.threshold - 0.00000001) * total as real
       case ErrorCount => FailedIn(raws, from, to) >= r.threshold.Floor
       case _ => total > 0 && FailedIn(raws, from, to) as real > (r.threshold - 0.00000001) * total as real
  }

  // ---------------------------------------------------------------- against the naive breaker

  /** The naive log holds the same completions, marked as bad where the rule has them so. */
  predicate SameCompletions(r: Rule, raws: seq<Raw>, log: seq<Finished>) {
    |raws| == |log| &&
    forall k :: 0 <= k < |raws| ==>
      raws[k].time == log[k].time && (log[k].bad <==> if r.strategy == SlowRequestRatio then raws[k].rt > r.maxAllowedRtMs else raws[k].failed)
  }

  lemma {:induction false} SameCounts(r: Rule, raws: seq<Raw>, log: seq<Finished>, from: int, to: int)
    requires SameCompletions(r, raws, log)
    ensures CountFinished(log, from, to, false) == TotalIn(raws, from, to)
    ensures CountFinished(log, from, to, true) ==
              if r.strategy == SlowRequestRatio then SlowIn(raws, r.maxAllowedRtMs, from, to) else FailedIn(raws, from, to)
  {
    if raws != [] {
      SameCounts(r, raws[..|raws| - 1], log[..|log| - 1], from, to);
    }
  }

  lemma {:induction false} NaiveRunNext(r: Rule, calls: seq<Call>)
    requires Buildable(r) && calls != []
    ensures NaiveRun(r, calls) == NaiveStep(r, NaiveRun(r, calls[..|calls| - 1]), calls[|calls| - 1])
  {
  }

  lemma {:induction false} SinceIsNaiveLog(r: Rule, t0: nat, calls: seq<Call>)
    requires Buildable(r) && t0 < TIME_LIMIT && InOrder(t0, calls)
    ensures SameCompletions(r, Since(r, t0, calls), NaiveRun(r, calls).log)
  {
    hide NaiveRun, RunFrom, Mirrors;
    if calls == [] {
      NothingYet(r);
    } else {
      var n := |calls| - 1;
      InOrderPrefix(t0, calls);
      SinceIsNaiveLog(r, t0, calls[..n]);
      NaiveRunNext(r, calls);
      BreakerIsNaiveBreaker(r, t0, calls[..n]);
      BreakerIsNaiveBreaker(r, t0, calls);
      assert calls[..n + 1] == calls;
    }
  }

  lemma NothingYet(r: Rule)
    requires Buildable(r)
    ensures NaiveRun(r, []).log == []
  {
  }

  lemma RatioTest(bad: nat, total: nat, threshold: real)
    requires total > 0
    ensures (var ratio := bad as real / total as real; ratio > threshold || -0.00000001 < ratio - threshold < 0.00000001) <==>
              bad as real > (threshold - 0.00000001) * total as real
  {
    var ratio := bad as real / total as real;
    assert ratio * total as real == bad as real;
    Scaled(ratio, threshold - 0.00000001, total as real);
  }

  lemma Scaled(a: real, b: real, t: real)
    requires t > 0.0
    ensures a > b <==> a * t > b * t
  {
  }

  lemma TripsIff(r: Rule, bad: nat, total: nat)
    ensures Trips(r, bad, total) <==>
              total >= r.minRequestAmount &&
              if r.strategy == ErrorCount then bad >= r.threshold.Floor else total > 0 && bad as real > (r.threshold - 0.00000001) * total as real
  {
    if total > 0 {
      RatioTest(bad, total, r.threshold);
    }
  }

  lemma BucketEndIsWindowEnd(r: Rule, now: nat)
    requires Buildable(r)
    ensures WindowRefinement.WindowEnd(RuleGeometry(r), now) == BucketEnd(r, now)
    ensures WindowRefinement.WindowBegin(RuleGeometry(r), r.statIntervalMs, now) == BucketEnd(r, now) - r.statIntervalMs
  {
    assert RuleGeometry(r).bucketLength > 0;
  }

  // ---------------------------------------------------------------- main results

  /**
   TRIPPING. Over every run, a completion opens a closed breaker if and only if with it the window has enough completions
   since the breaker last closed, and too many bad ones.
   */
  lemma {:induction false} OpensIffTooBad(r: Rule, t0: nat, calls: seq<Call>, now: nat, c: Completion)
    requires Buildable(r) && t0 < TIME_LIMIT && InOrder(t0, calls + [Complete(now, c)]) && now > 0
    requires Run(r, t0, calls).ctl.state == Closed
    ensures var after := Run(r, t0, calls + [Complete(now, c)]).ctl;
            && (after.state == Open <==> TooBad(r, Since(r, t0, calls) + [Raw(now, c.rt, c.failed)], now))
            && (after.state == Open ==> after.nextRetry == now + r.retryTimeoutMs)
            && (after.state != Open ==> after == Run(r, t0, calls).ctl)
  {
    hide NaiveRun, RunFrom, Mirrors, Trips, TooBad, Since, InOrder;
    var all, n := calls + [Complete(now, c)], NaiveRun(r, calls);
    assert all[..|all| - 1] == calls;
    InOrderPrefix(t0, all);
    BreakerIsNaiveBreaker(r, t0, calls);
    BreakerIsNaiveBreaker(r, t0, all);
    NaiveRunNext(r, all);
    SinceIsNaiveLog(r, t0, calls);
    NaiveTripIsTooBad(r, Since(r, t0, calls), n.log, now, c);
  }

  lemma SameWithOneMore(r: Rule, raws: seq<Raw>, log: seq<Finished>, now: nat, c: Completion)
    requires SameCompletions(r, raws, log)
    ensures SameCompletions(r, raws + [Raw(now, c.rt, c.failed)], log + [Finished(now, IsBad(r, c))])
  {
  }

  lemma NaiveTripIsTooBad(r: Rule, raws: seq<Raw>, log: seq<Finished>, now: nat, c: Completion)
    requires Buildable(r) && SameCompletions(r, raws, log)
    ensures var all := log + [Finished(now, IsBad(r, c))];
            var g := RuleGeometry(r);
            var from, to := WindowRefinement.WindowBegin(g, r.statIntervalMs, now), WindowRefinement.WindowEnd(g, now);
            Trips(r, CountFinished(all, from, to, true), CountFinished(all, from, to, false)) <==>
              TooBad(r, raws + [Raw(now, c.rt, c.failed)], now)
  {
    hide Trips, CountFinished, TotalIn, SlowIn, FailedIn, BucketEnd, WindowRefinement.WindowBegin, WindowRefinement.WindowEnd, SameCompletions, IsBad;
    var all, raws' := log + [Finished(now, IsBad(r, c))], raws + [Raw(now, c.rt, c.failed)];
    SameWithOneMore(r, raws, log, now, c);
    BucketEndIsWindowEnd(r, now);
    var to := BucketEnd(r, now);
    var from := to - r.statIntervalMs;
    SameCounts(r, raws', all, from, to);
    TripsIff(r, CountFinished(all, from, to, true), CountFinished(all, from, to, false));
  }

  /** PROBING. Over every run, a completion opens a half-open breaker again if and only if it is bad, and counts or closes otherwise. */
  lemma {:induction false} HalfOpenDecides(r: Rule, t0: nat, calls: seq<Call>, now: nat, c: Completion)
    requires Buildable(r) && now > 0 && Run(r, t0, calls).ctl.state == HalfOpen
    ensures var before, after := Run(r, t0, calls).ctl, Run(r, t0, calls + [Complete(now, c)]).ctl;
            var bad := if r.strategy == SlowRequestRatio then c.rt > r.maxAllowedRtMs else c.failed;
            after ==
              if bad then Control(Open, now + r.retryTimeoutMs, 0)
              else if before.curProbe + 1 >= Max(1, r.probeNum) then Control(Closed, before.nextRetry, 0)
              else Control(HalfOpen, before.nextRetry, before.curProbe + 1)
  {
    hide Trips;
    RunNextCall(r, t0, calls, Complete(now, c));
    ProbeCounterIsStreak(r, t0, calls);
  }

  lemma RunNextCall(r: Rule, t0: nat, calls: seq<Call>, call: Call)
    requires Buildable(r)
    ensures Run(r, t0, calls + [call]) == Step(r, Run(r, t0, calls), call)
  {
    assert (calls + [call])[..|calls|] == calls;
  }

  /** An open breaker stays as it is whatever completes, and a breaker in any state at time 0. */
  lemma {:induction false} OpenIgnoresCompletions(r: Rule, t0: nat, calls: seq<Call>, now: nat, c: Completion)
    requires Buildable(r) && (now == 0 || Run(r, t0, calls).ctl.state == Open)
    ensures Run(r, t0, calls + [Complete(now, c)]).ctl == Run(r, t0, calls).ctl
  {
    hide Trips;
    RunNextCall(r, t0, calls, Complete(now, c));
  }

  /** When a request was last sent away or put off: the time of the last trip or failed probe and the retry timeout after it. */
  function RetryTime(r: Rule, t0: nat, calls: seq<Call>): nat
    requires Buildable(r)
  {
    if calls == [] then 0
    else
      var n := |calls| - 1;
      if Opens(r, t0, calls, n) then calls[n].now + r.retryTimeoutMs else RetryTime(r, t0, calls[..n])
  }

  /** The breaker remembers just that time. */
  lemma {:induction false} RetryTimeIsKept(r: Rule, t0: nat, calls: seq<Call>)
    requires Buildable(r)
    ensures Run(r, t0, calls).ctl.nextRetry == RetryTime(r, t0, calls)
  {
    hide Trips, RunFrom;
    if calls == [] {
      NewBreaker(r, t0);
    } else {
      var n := |calls| - 1;
      RetryTimeIsKept(r, t0, calls[..n]);
      RunNext(r, t0, calls, n);
      assert calls[..n + 1] == calls;
    }
  }

  lemma NewBreaker(r: Rule, t0: nat)
    requires Buildable(r)
    ensures Run(r, t0, []).ctl == Control(Closed, 0, 0)
  {
  }

  /**
   PASSING. Over every run a request passes a closed breaker; an open one if and only if its retry time has come, which makes
   it half-open; and a half-open one if and only if the rule asks for a number of probes.
   */
  lemma {:induction false} PassesIff(r: Rule, t0: nat, calls: seq<Call>, now: nat)
    requires Buildable(r)
    ensures var before, after := Run(r, t0, calls).ctl, Run(r, t0, calls + [TryPass(now)]).ctl;
            && (Passes(r, before, now) <==>
                  match before.state
                  case Closed => true
                  case Open => now >= RetryTime(r, t0, calls)
                  case HalfOpen => r.probeNum > 0)
            && after.state == (if before.state == Open && now >= RetryTime(r, t0, calls) then HalfOpen else before.state)
            && after.nextRetry == before.nextRetry && after.curProbe == before.curProbe
  {
    RunNextCall(r, t0, calls, TryPass(now));
    RetryTimeIsKept(r, t0, calls);
  }

  /** ROLLING BACK. The hook opens a half-open breaker again if its entry was blocked, and does nothing else. */
  lemma {:induction false} HookRollsBackIff(r: Rule, t0: nat, calls: seq<Call>, now: nat, blocked: bool)
    requires Buildable(r)
    ensures var before, after := Run(r, t0, calls).ctl, Run(r, t0, calls + [ExitHook(now, blocked)]).ctl;
            && after.state == (if blocked && before.state == HalfOpen then Open else before.state)
            && after.nextRetry == before.nextRetry && after.curProbe == before.curProbe
  {
    RunNextCall(r, t0, calls, ExitHook(now, blocked));
  }
}
