/**
 Pacing: the throttling checker of flow control (core/flow/tc_throttling.go) and the token server's copy of it
 (core/flow/cluster_flow_checker.go). Requests are released one after the other, far enough apart, and wait
 for their turn.
 */
module Pacing {
  import opened Prelude

  const SECOND_IN_NANOS := 1_000_000_000
  const MILLIS_TO_NANOS := 1_000_000

  /** The smallest integer that is at least `x`. */
  function Ceil(x: real): (r: int)
    ensures x <= r as real < x + 1.0
  {
    -((-x).Floor)
  }

  /** How long a batch keeps the next one away, in nanoseconds: its share of the statistic interval, rounded up. */
  function IntervalNs(batch: nat, threshold: real, statIntervalNs: nat): (r: nat)
    requires threshold > 0.0
    ensures batch as real / threshold * statIntervalNs as real <= r as real < batch as real / threshold * statIntervalNs as real + 1.0
  {
    NonNegativeRatio(batch as real, threshold, statIntervalNs as real);
    Ceil(batch as real / threshold * statIntervalNs as real)
  }

  lemma NonNegativeRatio(a: real, b: real, c: real)
    requires a >= 0.0 && b > 0.0 && c >= 0.0
    ensures a / b >= 0.0 && a / b * c >= 0.0
  {
  }

  datatype Pacer = Pacer(lastPassedTime: int, lastSystemTime: int)

  datatype Outcome = Pass | Wait(ns: int) | Blocked

  /** What a pacer makes of a request that takes `interval` at time `now`. */
  function Pace(maxQueueingTimeNs: int, p: Pacer, interval: nat, now: int): (Pacer, Outcome) {
    if p.lastSystemTime > now + SECOND_IN_NANOS then (p.(lastPassedTime := now), Pass)
    else if p.lastPassedTime + interval <= now then (p.(lastPassedTime := now), Pass)
    else if p.lastPassedTime + interval - now > maxQueueingTimeNs then (p, Blocked)
    else (p.(lastPassedTime := p.lastPassedTime + interval), Wait(p.lastPassedTime + interval - now))
  }

  /** The whole check: an empty batch passes, a threshold of zero blocks, and the system time is noted either way. */
  function Check(maxQueueingTimeNs: int, statIntervalNs: nat, p: Pacer, batch: nat, threshold: real, now: int): (Pacer, Outcome) {
    var (p', outcome) :=
      if batch == 0 then (p, Pass)
      else if threshold <= 0.0 then (p, Blocked)
      else Pace(maxQueueingTimeNs, p, IntervalNs(batch, threshold, statIntervalNs), now);
    (p'.(lastSystemTime := now), outcome)
  }

  class ThrottlingChecker {
    const maxQueueingTimeNs: int
    const statIntervalNs: nat
    var lastPassedTime: int
    var lastSystemTime: int

    ghost function State(): Pacer
      reads this
    {
      Pacer(lastPassedTime, lastSystemTime)
    }

    constructor (timeoutMs: nat, statIntervalMs: nat)
      ensures maxQueueingTimeNs == timeoutMs * MILLIS_TO_NANOS
      ensures statIntervalNs == (if statIntervalMs == 0 then 1000 else statIntervalMs) * MILLIS_TO_NANOS
      ensures State() == Pacer(0, 0)
    {
      maxQueueingTimeNs := timeoutMs * MILLIS_TO_NANOS;
      statIntervalNs := (if statIntervalMs == 0 then 1000 else statIntervalMs) * MILLIS_TO_NANOS;
      lastPassedTime, lastSystemTime := 0, 0;
    }

    method DoCheck(batchCount: nat, threshold: real, now: int) returns (outcome: Outcome)
      modifies this
      ensures (State(), outcome) == Check(maxQueueingTimeNs, statIntervalNs, old(State()), batchCount, threshold, now)
    {
      outcome := Decide(batchCount, threshold, now);
      lastSystemTime := now;
    }

    method Decide(batchCount: nat, threshold: real, now: int) returns (outcome: Outcome)
      modifies `lastPassedTime
      ensures (State().(lastSystemTime := now), outcome) ==
                Check(maxQueueingTimeNs, statIntervalNs, old(State()), batchCount, threshold, now)
    {
      if batchCount <= 0 {
        return Pass;
      }
      if threshold <= 0.0 {
        return Blocked;
      }
      var intervalNs := IntervalNs(batchCount, threshold, statIntervalNs);
      if lastSystemTime > now + SECOND_IN_NANOS {
        lastPassedTime := now;
        return Pass;
      }
      var expectedTime := lastPassedTime + intervalNs;
      if expectedTime <= now {
        lastPassedTime := now;
        return Pass;
      }
      var estimated := lastPassedTime + intervalNs - now;
      if estimated > maxQueueingTimeNs {
        return Blocked;
      }
      // the second look at the queue, after the turn is taken, finds the same estimate when calls are atomic
      lastPassedTime := lastPassedTime + intervalNs;
      assert lastPassedTime - now == estimated;
      return Wait(estimated);
    }
  }

  // ---------------------------------------------------------------- runs

  datatype Request = Request(batch: nat, threshold: real, now: int)

  /** A request that was let through, with the time it may go on and the spacing it asked for. */
  datatype Release = Release(time: int, batch: nat, interval: nat)

  function Clock(requests: seq<Request>): int {
    if requests == [] then 0 else requests[|requests| - 1].now
  }

  ghost predicate ClockNeverGoesBack(requests: seq<Request>) {
    requests != [] ==>
      ClockNeverGoesBack(requests[..|requests| - 1]) && Clock(requests[..|requests| - 1]) <= requests[|requests| - 1].now
  }

  /** The release that an outcome stands for; empty batches are let through without taking a turn. */
  function ReleaseOf(statIntervalNs: nat, q: Request, outcome: Outcome): seq<Release> {
    if q.batch == 0 || q.threshold <= 0.0 || outcome == Blocked then []
    else [Release(if outcome.Wait? then q.now + outcome.ns else q.now, q.batch, IntervalNs(q.batch, q.threshold, statIntervalNs))]
  }

  /** Pacer and releases after a run. */
  function Run(maxQueueingTimeNs: int, statIntervalNs: nat, requests: seq<Request>): (Pacer, seq<Release>) {
    if requests == [] then (Pacer(0, 0), [])
    else
      var (p, releases) := Run(maxQueueingTimeNs, statIntervalNs, requests[..|requests| - 1]);
      var q := requests[|requests| - 1];
      var (p', outcome) := Check(maxQueueingTimeNs, statIntervalNs, p, q.batch, q.threshold, q.now);
      (p', releases + ReleaseOf(statIntervalNs, q, outcome))
  }

  /** Each release comes at least its own spacing after the one before. */
  ghost predicate Spaced(releases: seq<Release>) {
    forall k :: 0 < k < |releases| ==> releases[k].time >= releases[k - 1].time + releases[k].interval
  }

  /** SPACING. With a clock that does not go back, releases are spaced out, and the pacer remembers the last one. */
  lemma {:induction false} ReleasesAreSpaced(maxQueueingTimeNs: int, statIntervalNs: nat, requests: seq<Request>)
    requires ClockNeverGoesBack(requests)
    ensures var (p, releases) := Run(maxQueueingTimeNs, statIntervalNs, requests);
            && Spaced(releases)
            && p.lastSystemTime == Clock(requests)
            && p.lastPassedTime == if releases == [] then 0 else releases[|releases| - 1].time
  {
    if requests != [] {
      ReleasesAreSpaced(maxQueueingTimeNs, statIntervalNs, requests[..|requests| - 1]);
    }
  }

  /**
   Waits are positive and no longer than allowed; a rejected request leaves nothing behind but the time; one that is let
   through goes at the later of now and its spacing after the last one, and is rejected exactly if that is too far away.
   */
  lemma WaitsAreBounded(maxQueueingTimeNs: int, statIntervalNs: nat, p: Pacer, q: Request)
    ensures var (p', outcome) := Check(maxQueueingTimeNs, statIntervalNs, p, q.batch, q.threshold, q.now);
            && (outcome.Wait? ==> 0 < outcome.ns <= maxQueueingTimeNs)
            && (outcome == Blocked ==> p'.lastPassedTime == p.lastPassedTime)
            && (q.batch == 0 ==> outcome == Pass) && (q.batch > 0 && q.threshold <= 0.0 ==> outcome == Blocked)
            && (q.batch == 0 || q.threshold <= 0.0 ==> p'.lastPassedTime == p.lastPassedTime)
            && (p.lastSystemTime <= q.now && q.batch > 0 && q.threshold > 0.0 && outcome != Blocked ==>
                  var turn := Max(q.now, p.lastPassedTime + IntervalNs(q.batch, q.threshold, statIntervalNs));
                  p'.lastPassedTime == turn && outcome == if turn == q.now then Pass else Wait(turn - q.now))
            && (p.lastSystemTime <= q.now && q.batch > 0 && q.threshold > 0.0 ==>
                  (outcome == Blocked <==> p.lastPassedTime + IntervalNs(q.batch, q.threshold, statIntervalNs) > q.now + Max(0, maxQueueingTimeNs)))
  {
  }

  /** Total batch of the releases from `i` up to and including `j`. */
  function Batches(releases: seq<Release>, i: nat, j: nat): nat
    requires i <= j < |releases|
  {
    releases[j].batch + if i == j then 0 else Batches(releases, i, j - 1)
  }

  ghost predicate SameThreshold(releases: seq<Release>, threshold: real, statIntervalNs: nat)
    requires threshold > 0.0
  {
    forall k :: 0 <= k < |releases| ==> releases[k].interval == IntervalNs(releases[k].batch, threshold, statIntervalNs)
  }

  /**
   RATE. Between any two releases at most `threshold` per statistic interval goes through, not counting the first:
   `(batches - first batch) / threshold * statInterval <= span`.
   */
  lemma {:induction false} SpanBoundsBatches(releases: seq<Release>, threshold: real, statIntervalNs: nat, i: nat, j: nat)
    requires threshold > 0.0 && Spaced(releases) && SameThreshold(releases, threshold, statIntervalNs) && i <= j < |releases|
    ensures (Batches(releases, i, j) - releases[i].batch) as real / threshold * statIntervalNs as real
              <= (releases[j].time - releases[i].time) as real
  {
    if i < j {
      SpanBoundsBatches(releases, threshold, statIntervalNs, i, j - 1);
      NextSpan(Batches(releases, i, j - 1) - releases[i].batch, releases[j].batch, threshold, statIntervalNs,
               releases[j - 1].time - releases[i].time, releases[j].time - releases[j - 1].time);
    }
  }

  lemma NextSpan(batches: int, batch: nat, threshold: real, statIntervalNs: nat, span: int, gap: int)
    requires threshold > 0.0 && gap >= IntervalNs(batch, threshold, statIntervalNs)
    requires batches as real / threshold * statIntervalNs as real <= span as real
    ensures (batches + batch) as real / threshold * statIntervalNs as real <= (span + gap) as real
  {
    RatiosAdd(batches as real, batch as real, threshold, statIntervalNs as real);
  }

  lemma RatiosAdd(a: real, b: real, t: real, s: real)
    requires t > 0.0
    ensures (a + b) / t * s == a / t * s + b / t * s
  {
  }

  /** Releases of a run with one threshold all have that threshold's spacing. */
  lemma {:induction false} RunHasSameThreshold(maxQueueingTimeNs: int, statIntervalNs: nat, requests: seq<Request>, threshold: real)
    requires threshold > 0.0 && forall q :: q in requests ==> q.threshold == threshold
    ensures SameThreshold(Run(maxQueueingTimeNs, statIntervalNs, requests).1, threshold, statIntervalNs)
  {
    if requests != [] {
      RunHasSameThreshold(maxQueueingTimeNs, statIntervalNs, requests[..|requests| - 1], threshold);
      assert requests[|requests| - 1] in requests;
    }
  }

  // ---------------------------------------------------------------- the token server

  /** What the token server answers; a wait is told in whole milliseconds. */
  datatype Answer = NoAnswer | StatusOk | ShouldWait(ms: int) | StatusBlocked

  class ClusterMetric {
    const maxQueueingTimeNs: int
    const statIntervalNs: nat
    var lastPassedTime: int
    var lastSystemTime: int
    var passed: nat
    var blocked: nat

    ghost function State(): Pacer
      reads this
    {
      Pacer(lastPassedTime, lastSystemTime)
    }

    constructor (maxQueueingTimeNs: int, statIntervalNs: nat)
      ensures this.maxQueueingTimeNs == maxQueueingTimeNs && this.statIntervalNs == statIntervalNs
      ensures State() == Pacer(0, 0) && passed == 0 && blocked == 0
    {
      this.maxQueueingTimeNs, this.statIntervalNs := maxQueueingTimeNs, statIntervalNs;
      lastPassedTime, lastSystemTime, passed, blocked := 0, 0, 0, 0;
    }

    /** Reserves a turn and tells the client how long to wait for it. */
    method PriorityHandle(acquireCount: nat, globalThreshold: real, now: int) returns (answer: Answer)
      requires globalThreshold > 0.0
      modifies this
      ensures var (p, outcome) := Pace(maxQueueingTimeNs, old(State()), IntervalNs(acquireCount, globalThreshold, statIntervalNs), now);
              State() == p && answer == AnswerFor(old(State()), outcome, now)
      ensures passed == old(passed) + (if answer.StatusOk? || answer.ShouldWait? then acquireCount else 0)
      ensures blocked == old(blocked) + (if answer.StatusBlocked? then acquireCount else 0)
    {
      var intervalNs := IntervalNs(acquireCount, globalThreshold, statIntervalNs);
      if lastSystemTime > now + SECOND_IN_NANOS {
        lastPassedTime := now;
        return NoAnswer;
      }
      var expectedTime := lastPassedTime + intervalNs;
      if expectedTime <= now {
        lastPassedTime := now;
        passed := passed + acquireCount;
        return StatusOk;
      }
      var estimated := lastPassedTime + intervalNs - now;
      if estimated > maxQueueingTimeNs {
        blocked := blocked + acquireCount;
        return StatusBlocked;
      }
      lastPassedTime := lastPassedTime + intervalNs;
      assert lastPassedTime - now == estimated;
      passed := passed + acquireCount;
      return ShouldWait(estimated / MILLIS_TO_NANOS);
    }
  }

  /** How the server's answer puts the pacer's outcome. */
  function AnswerFor(before: Pacer, outcome: Outcome, now: int): Answer {
    match outcome
    case Pass => if before.lastSystemTime > now + SECOND_IN_NANOS then NoAnswer else StatusOk
    case Wait(ns) => ShouldWait(ns / MILLIS_TO_NANOS)
    case Blocked => StatusBlocked
  }

  /**
   ANSWERS. As long as the clock has not gone back by more than a second, a request whose turn has come is let through, one
   whose turn is too far away is refused, and one in between waits for its turn, told in whole milliseconds; only a refused
   one takes no turn.
   */
  lemma ServerAnswersIff(maxQueueingTimeNs: int, statIntervalNs: nat, p: Pacer, q: Request)
    requires q.threshold > 0.0
    ensures var interval := IntervalNs(q.batch, q.threshold, statIntervalNs);
            var (p', outcome) := Pace(maxQueueingTimeNs, p, interval, q.now);
            var turn, answer := p.lastPassedTime + interval, AnswerFor(p, outcome, q.now);
            if p.lastSystemTime > q.now + 1000000000 then answer == NoAnswer && p'.lastPassedTime == q.now
            else
              && (answer == StatusOk <==> turn <= q.now)
              && (answer == StatusBlocked <==> turn > q.now && turn - q.now > maxQueueingTimeNs)
              && (answer.ShouldWait? <==> turn > q.now && turn - q.now <= maxQueueingTimeNs)
              && (answer.ShouldWait? ==> answer.ms * 1000000 <= turn - q.now < answer.ms * 1000000 + 1000000)
              && p'.lastPassedTime == if answer == StatusBlocked then p.lastPassedTime else Max(turn, q.now)
  {
  }

  /** When a client that heeds the answer goes on. */
  function ClientRelease(answer: Answer, now: int): int {
    if answer.ShouldWait? then now + answer.ms * MILLIS_TO_NANOS else now
  }

  ghost predicate PositiveThresholds(requests: seq<Request>) {
    forall k :: 0 <= k < |requests| ==> requests[k].threshold > 0.0
  }

  /** The turns that the server gave out, and when the clients went on, in the same order. */
  datatype Served = Served(p: Pacer, turns: seq<Release>, clients: seq<int>)

  /** One request to the server. Unlike the local checker it never notes the system time. */
  function ServeOne(maxQueueingTimeNs: int, statIntervalNs: nat, s: Served, q: Request): Served
    requires q.threshold > 0.0
  {
    var interval := IntervalNs(q.batch, q.threshold, statIntervalNs);
    var (p, outcome) := Pace(maxQueueingTimeNs, s.p, interval, q.now);
    if outcome == Blocked then s.(p := p)
    else Served(p, s.turns + [Release(p.lastPassedTime, q.batch, interval)], s.clients + [ClientRelease(AnswerFor(s.p, outcome, q.now), q.now)])
  }

  function ServerRun(maxQueueingTimeNs: int, statIntervalNs: nat, requests: seq<Request>): Served
    requires PositiveThresholds(requests)
  {
    if requests == [] then Served(Pacer(0, 0), [], [])
    else
      var n := |requests| - 1;
      ServeOne(maxQueueingTimeNs, statIntervalNs, ServerRun(maxQueueingTimeNs, statIntervalNs, requests[..n]), requests[n])
  }

  /** Each client goes on at its turn or less than a millisecond before it. */
  ghost predicate NearTheirTurns(turns: seq<Release>, clients: seq<int>) {
    |turns| == |clients| && forall k :: 0 <= k < |turns| ==> turns[k].time - MILLIS_TO_NANOS < clients[k] <= turns[k].time
  }

  /** SERVER TURNS. Over any run the server's turns are spaced as the local checker's, and clients are near their turns. */
  lemma {:induction false} ServerTurnsAreSpaced(maxQueueingTimeNs: int, statIntervalNs: nat, requests: seq<Request>)
    requires PositiveThresholds(requests) && ClockNeverGoesBack(requests)
    ensures var s := ServerRun(maxQueueingTimeNs, statIntervalNs, requests);
            && Spaced(s.turns) && NearTheirTurns(s.turns, s.clients)
            && s.p == Pacer(if s.turns == [] then 0 else s.turns[|s.turns| - 1].time, 0)
            && Clock(requests) >= 0
  {
    if requests != [] {
      ServerTurnsAreSpaced(maxQueueingTimeNs, statIntervalNs, requests[..|requests| - 1]);
    }
  }

  /** So clients keep all of their spacing but less than a millisecond. */
  lemma {:induction false} ClientsAreAlmostSpaced(maxQueueingTimeNs: int, statIntervalNs: nat, requests: seq<Request>, k: nat)
    requires PositiveThresholds(requests) && ClockNeverGoesBack(requests)
    requires 0 < k < |ServerRun(maxQueueingTimeNs, statIntervalNs, requests).clients|
    ensures var s := ServerRun(maxQueueingTimeNs, statIntervalNs, requests);
            k < |s.turns| && s.clients[k] > s.clients[k - 1] + s.turns[k].interval - MILLIS_TO_NANOS
  {
    ServerTurnsAreSpaced(maxQueueingTimeNs, statIntervalNs, requests);
  }

  /** SERVER RATE. Between two clients goes at most the threshold's share of the span and a millisecond, not counting the first. */
  lemma {:induction false} ServerSpanBoundsBatches(maxQueueingTimeNs: int, statIntervalNs: nat, requests: seq<Request>, threshold: real, i: nat, j: nat)
    requires threshold > 0.0 && PositiveThresholds(requests) && ClockNeverGoesBack(requests)
    requires forall q :: q in requests ==> q.threshold == threshold
    requires i <= j < |ServerRun(maxQueueingTimeNs, statIntervalNs, requests).turns|
    ensures var s := ServerRun(maxQueueingTimeNs, statIntervalNs, requests);
            && j < |s.clients|
            && (Batches(s.turns, i, j) - s.turns[i].batch) as real / threshold * statIntervalNs as real
                 < (s.clients[j] - s.clients[i] + MILLIS_TO_NANOS) as real
  {
    hide ServerRun, Batches, SameThreshold, Spaced;
    var s := ServerRun(maxQueueingTimeNs, statIntervalNs, requests);
    ServerTurnsAreSpaced(maxQueueingTimeNs, statIntervalNs, requests);
    ServerHasSameThreshold(maxQueueingTimeNs, statIntervalNs, requests, threshold);
    SpanBoundsBatches(s.turns, threshold, statIntervalNs, i, j);
    assert s.turns[j].time - s.turns[i].time < s.clients[j] - s.clients[i] + MILLIS_TO_NANOS by {
      assert s.clients[i] <= s.turns[i].time && s.turns[j].time - MILLIS_TO_NANOS < s.clients[j];
    }
    LessAsReals(s.turns[j].time - s.turns[i].time, s.clients[j] - s.clients[i] + MILLIS_TO_NANOS);
  }

  lemma LessAsReals(a: int, b: int)
    requires a < b
    ensures a as real < b as real
  {
  }

  lemma {:induction false} ServerHasSameThreshold(maxQueueingTimeNs: int, statIntervalNs: nat, requests: seq<Request>, threshold: real)
    requires threshold > 0.0 && PositiveThresholds(requests) && forall q :: q in requests ==> q.threshold == threshold
    ensures SameThreshold(ServerRun(maxQueueingTimeNs, statIntervalNs, requests).turns, threshold, statIntervalNs)
  {
    if requests != [] {
      ServerHasSameThreshold(maxQueueingTimeNs, statIntervalNs, requests[..|requests| - 1], threshold);
      assert requests[|requests| - 1] in requests;
    }
  }

  /** How far the last client went on before its turn. */
  function LastLead(s: Served): int {
    if s.turns == [] || |s.turns| != |s.clients| then 0 else s.turns[|s.turns| - 1].time - s.clients[|s.clients| - 1]
  }

  /** The request will have to wait, and by a longer fraction of a millisecond than the last client was early. */
  predicate FallsShort(s: Served, interval: nat, now: int) {
    s.p.lastPassedTime + interval > now && (s.p.lastPassedTime + interval - now) % MILLIS_TO_NANOS > LastLead(s)
  }

  /**
   SERVER SPACING. After any run, a further client that is let through keeps its whole spacing from the client before it
   exactly unless the wait it is going to get falls short.
   */
  lemma {:induction false} ServerSpacingIffNotShort(maxQueueingTimeNs: int, statIntervalNs: nat, requests: seq<Request>, q: Request)
    requires PositiveThresholds(requests + [q]) && ClockNeverGoesBack(requests + [q]) && PositiveThresholds(requests)
    requires ServerRun(maxQueueingTimeNs, statIntervalNs, requests).turns != []
    ensures var s, after := ServerRun(maxQueueingTimeNs, statIntervalNs, requests), ServerRun(maxQueueingTimeNs, statIntervalNs, requests + [q]);
            var interval := IntervalNs(q.batch, q.threshold, statIntervalNs);
            var n := |s.clients|;
            && 0 < n <= |after.clients| <= n + 1
            && (|after.clients| == n + 1 ==>
                  (after.clients[n] >= after.clients[n - 1] + interval <==> !FallsShort(s, interval, q.now)))
  {
    var all := requests + [q];
    assert all[..|all| - 1] == requests;
    ServerTurnsAreSpaced(maxQueueingTimeNs, statIntervalNs, requests);
  }

  /** A request passes at T, and one with a spacing of 1.5 ms comes at the same time: it is let go after 1 ms. */
  lemma {:induction false} ServerSpacingCanBeShort(t: int)
    requires t >= 1_500_000
    ensures var requests := [Request(1, 1.0, t), Request(1, 1.0, t)];
            var s := ServerRun(10_000_000, 1_500_000, requests);
            && ClockNeverGoesBack(requests)
            && |s.turns| == |s.clients| == 2 && s.turns[1].interval == 1_500_000
            && s.clients[0] == t && s.clients[1] == t + 1_000_000
  {
    var first, second := [Request(1, 1.0, t)], [Request(1, 1.0, t), Request(1, 1.0, t)];
    assert second[..1] == first && first[..0] == [];
    assert IntervalNs(1, 1.0, 1_500_000) == 1_500_000 by {
      assert 1 as real / 1.0 * 1_500_000 as real == 1_500_000.0;
    }
    assert ClockNeverGoesBack(first[..0]) && ClockNeverGoesBack(first);
    assert ServerRun(10_000_000, 1_500_000, first) == Served(Pacer(t, 0), [] + [Release(t, 1, 1_500_000)], [] + [t]);
  }
}
