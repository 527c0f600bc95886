/**
 Per-argument pacing (core/hotspot/traffic_shaping.go): requests with the same argument are let through a fixed
 cost apart, waiting for their turn if that is not too long; the last release of each argument is kept in a
 least-recently-used cache.
 */
module HotspotThrottling {
  import opened Arithmetic
  import opened Hotspot
  import opened LruCaches
  import opened Prelude

  datatype Outcome = Released(at: int) | Refused

  type Releases = Recency<Arg, int>

  /** The time that a batch takes up, rounded down to milliseconds. */
  function Cost(r: Rule, arg: Arg, batch: nat): nat
    requires TokenCount(r, arg) > 0
  {
    batch * DurationMs(r) / TokenCount(r, arg)
  }

  function Throttle(r: Rule, maxQueueingMs: int, size: int, time: Releases, arg: Arg, batch: nat, now: int): (Outcome, Releases) {
    if TokenCount(r, arg) <= 0 then (Refused, time)
    else
      var added := AddedIfAbsent(time, size, arg, now);
      match Lookup(time, arg)
      case None => (Released(now), added)
      case Some(last) =>
        var expected := last + Cost(r, arg, batch);
        if expected <= now || expected - now < maxQueueingMs then (Released(Max(now, expected)), Stored(added, arg, Max(now, expected)))
        else (Refused, added)
  }

  class ThrottlingTrafficShapingController {
    const rule: Rule
    const maxQueueingTimeMs: int
    const timeCounter: LRU<Arg, int>

    constructor (rule: Rule, maxQueueingTimeMs: int, size: int)
      requires size > 0
      ensures this.rule == rule && this.maxQueueingTimeMs == maxQueueingTimeMs && fresh(timeCounter)
      ensures timeCounter.Valid() && timeCounter.size == size && timeCounter.Contents() == []
    {
      this.rule := rule;
      this.maxQueueingTimeMs := maxQueueingTimeMs;
      timeCounter := new LRU<Arg, int>(size);
    }

    /** With one caller at a time the compare-and-swap succeeds and the first round decides. */
    method PerformChecking(arg: Arg, batchCount: nat, now: int) returns (outcome: Outcome)
      requires timeCounter.Valid()
      modifies timeCounter, timeCounter.evictList
      ensures timeCounter.Valid() && timeCounter.size == old(timeCounter.size)
      ensures (outcome, timeCounter.Contents()) ==
                Throttle(rule, maxQueueingTimeMs, timeCounter.size, old(timeCounter.Contents()), arg, batchCount, now)
    {
      hide Agree, Find, ToFront, Without, Push, EntriesOf, Stored, Touched, AddedIfAbsent, PositionIn;
      if TokenCount(rule, arg) <= 0 {
        return Refused;
      }
      var intervalCostTime := Cost(rule, arg, batchCount);
      var lastPassTime := timeCounter.AddIfAbsent(arg, now);
      if lastPassTime == null {
        return Released(now);
      }
      var expectedTime := lastPassTime.value + intervalCostTime;
      if expectedTime > now && expectedTime - now >= maxQueueingTimeMs {
        return Refused;
      }
      if expectedTime > now {
        timeCounter.StoreThrough(lastPassTime, expectedTime);
        return Released(expectedTime);
      }
      timeCounter.StoreThrough(lastPassTime, now);
      return Released(now);
    }
  }

  // ---------------------------------------------------------------- spacing over runs

  function AfterPacing(r: Rule, maxQueueingMs: int, size: int, reqs: seq<Req>): Releases {
    if reqs == [] then []
    else
      var q := reqs[|reqs| - 1];
      Throttle(r, maxQueueingMs, size, AfterPacing(r, maxQueueingMs, size, reqs[..|reqs| - 1]), q.arg, q.batch, q.now).1
  }

  /** The answer to the `i`-th request of a run. */
  function OutcomeOf(r: Rule, maxQueueingMs: int, size: int, reqs: seq<Req>, i: nat): Outcome
    requires i < |reqs|
  {
    Throttle(r, maxQueueingMs, size, AfterPacing(r, maxQueueingMs, size, reqs[..i]), reqs[i].arg, reqs[i].batch, reqs[i].now).0
  }

  /** `a` is cached after each request from the `i`-th on. */
  predicate StaysFrom(r: Rule, maxQueueingMs: int, size: int, reqs: seq<Req>, i: nat, a: Arg) {
    |reqs| <= i || (Lookup(AfterPacing(r, maxQueueingMs, size, reqs), a).Some? && StaysFrom(r, maxQueueingMs, size, reqs[..|reqs| - 1], i, a))
  }

  /** The total cost of the requests for `a` that are let through after the `i`-th request. */
  function CostAfter(r: Rule, maxQueueingMs: int, size: int, reqs: seq<Req>, i: nat, a: Arg): nat {
    if |reqs| <= i + 1 then 0
    else
      var k := |reqs| - 1;
      CostAfter(r, maxQueueingMs, size, reqs[..k], i, a) +
      if reqs[k].arg == a && OutcomeOf(r, maxQueueingMs, size, reqs, k).Released? && TokenCount(r, a) > 0 then Cost(r, a, reqs[k].batch)
      else 0
  }

  lemma {:induction false} PacingKeepsUnique(r: Rule, maxQueueingMs: int, size: int, reqs: seq<Req>)
    requires size > 0
    ensures NoDuplicates(AfterPacing(r, maxQueueingMs, size, reqs))
  {
    if reqs != [] {
      var before, q := reqs[..|reqs| - 1], reqs[|reqs| - 1];
      PacingKeepsUnique(r, maxQueueingMs, size, before);
      ThrottleStep(r, maxQueueingMs, size, AfterPacing(r, maxQueueingMs, size, before), q, q.arg);
    }
  }

  /** One call: the argument's last release moves on by at least the cost, or stays, and no other one changes. */
  lemma ThrottleStep(r: Rule, maxQueueingMs: int, size: int, time: Releases, q: Req, a: Arg)
    requires size > 0 && NoDuplicates(time)
    ensures var (outcome, after) := Throttle(r, maxQueueingMs, size, time, q.arg, q.batch, q.now);
            && NoDuplicates(after)
            && (a != q.arg ==> KeptOrGone(time, after, a))
            && (outcome.Released? ==>
                  && TokenCount(r, q.arg) > 0
                  && Lookup(after, q.arg) == Some(outcome.at)
                  && q.now <= outcome.at <= q.now + Max(0, maxQueueingMs)
                  && (Lookup(time, q.arg).Some? ==> outcome.at >= Lookup(time, q.arg).value + Cost(r, q.arg, q.batch)))
            && (outcome.Refused? ==> KeptOrGone(time, after, q.arg))
  {
    hide AddedIfAbsent, Stored, NoDuplicates, Find, Lookup, Cost;
    if TokenCount(r, q.arg) > 0 {
      AfterAdd(time, size, q.arg, q.now, a);
      if Lookup(time, q.arg).Some? {
        var release := Max(q.now, Lookup(time, q.arg).value + Cost(r, q.arg, q.batch));
        AfterStore(AddedIfAbsent(time, size, q.arg, q.now), q.arg, release, a);
      }
    }
  }

  /**
   SPACING. From a release of `a` on, as long as it stays cached, every later release costs what the request
   asked for: the total cost of what was let through fits between that release and the latest one, and
   the latest one is at most the longest wait ahead of the clock.
   */
  lemma {:induction false} CostsFitTheSpan(r: Rule, maxQueueingMs: int, size: int, reqs: seq<Req>, i: nat, a: Arg)
    requires size > 0 && i < |reqs| && reqs[i].arg == a && OutcomeOf(r, maxQueueingMs, size, reqs, i).Released?
    requires ClockMovesOn(reqs) && StaysFrom(r, maxQueueingMs, size, reqs, i, a)
    ensures var last := Lookup(AfterPacing(r, maxQueueingMs, size, reqs), a);
            && last.Some?
            && CostAfter(r, maxQueueingMs, size, reqs, i, a) <= last.value - OutcomeOf(r, maxQueueingMs, size, reqs, i).at
            && last.value <= reqs[|reqs| - 1].now + Max(0, maxQueueingMs)
  {
    hide Throttle, Find, Cost, NoDuplicates;
    var k := |reqs| - 1;
    var before, q := reqs[..k], reqs[k];
    var mid := AfterPacing(r, maxQueueingMs, size, before);
    PacingKeepsUnique(r, maxQueueingMs, size, before);
    ThrottleStep(r, maxQueueingMs, size, mid, q, a);
    if i < k {
      assert before[..i] == reqs[..i];
      CostsFitTheSpan(r, maxQueueingMs, size, before, i, a);
    }
  }

  /** Each release of `a` is at least its own cost after the release before it, and waits no longer than allowed. */
  lemma {:induction false} NextReleaseIsSpaced(r: Rule, maxQueueingMs: int, size: int, reqs: seq<Req>, i: nat, a: Arg)
    requires size > 0 && i < |reqs| - 1 && reqs[i].arg == a && OutcomeOf(r, maxQueueingMs, size, reqs, i).Released?
    requires ClockMovesOn(reqs) && StaysFrom(r, maxQueueingMs, size, reqs, i, a) && TokenCount(r, a) > 0
    requires reqs[|reqs| - 1].arg == a && OutcomeOf(r, maxQueueingMs, size, reqs, |reqs| - 1).Released?
    ensures var at := OutcomeOf(r, maxQueueingMs, size, reqs, |reqs| - 1).at;
            && OutcomeOf(r, maxQueueingMs, size, reqs, i).at + Cost(r, a, reqs[|reqs| - 1].batch) <= at
            && 0 <= at - reqs[|reqs| - 1].now <= Max(0, maxQueueingMs)
  {
    hide Throttle, Find, Cost, NoDuplicates;
    var k := |reqs| - 1;
    var before, q := reqs[..k], reqs[k];
    assert before[..i] == reqs[..i];
    PacingKeepsUnique(r, maxQueueingMs, size, before);
    CostsFitTheSpan(r, maxQueueingMs, size, before, i, a);
    ThrottleStep(r, maxQueueingMs, size, AfterPacing(r, maxQueueingMs, size, before), q, a);
  }

  // ---------------------------------------------------------------- what a request is told

  /** The first request goes at once; a later one as soon as its cost since the last release is over, unless that is too long. */
  lemma {:induction false} ThrottleDecides(r: Rule, maxQueueingMs: int, size: int, time: Releases, a: Arg, batch: nat, now: int)
    ensures var rate := if a in r.specificItems then r.specificItems[a] else r.threshold;
            Throttle(r, maxQueueingMs, size, time, a, batch, now).0 ==
              if rate <= 0 then Refused
              else
                match Lookup(time, a)
                case None => Released(now)
                case Some(last) =>
                  var turn := last + batch * (r.durationInSec * 1000) / rate;
                  if turn <= now then Released(now)
                  else if turn - now < maxQueueingMs then Released(turn)
                  else Refused
  {
  }

  /** The last release of `a` in the run was at its `i`-th request. */
  predicate LastReleased(r: Rule, maxQueueingMs: int, size: int, reqs: seq<Req>, i: nat, a: Arg)
  {
    i < |reqs| &&
    if i == |reqs| - 1 then reqs[i].arg == a && OutcomeOf(r, maxQueueingMs, size, reqs, i).Released?
    else
      && !(reqs[|reqs| - 1].arg == a && OutcomeOf(r, maxQueueingMs, size, reqs, |reqs| - 1).Released?)
      && LastReleased(r, maxQueueingMs, size, reqs[..|reqs| - 1], i, a)
  }

  lemma {:induction false} LastReleaseIsKept(r: Rule, maxQueueingMs: int, size: int, reqs: seq<Req>, i: nat, a: Arg, at: int)
    requires size > 0 && LastReleased(r, maxQueueingMs, size, reqs, i, a) && StaysFrom(r, maxQueueingMs, size, reqs, i, a)
    requires OutcomeOf(r, maxQueueingMs, size, reqs, i) == Released(at)
    ensures Lookup(AfterPacing(r, maxQueueingMs, size, reqs), a) == Some(at)
  {
    hide Throttle, Find, Cost, NoDuplicates;
    var k := |reqs| - 1;
    var before, q := reqs[..k], reqs[k];
    PacingKeepsUnique(r, maxQueueingMs, size, before);
    ThrottleStep(r, maxQueueingMs, size, AfterPacing(r, maxQueueingMs, size, before), q, a);
    if i < k {
      assert before[..i] == reqs[..i];
      LastReleaseIsKept(r, maxQueueingMs, size, before, i, a, at);
    }
  }

  /**
   PACED. After any run in which an argument stayed cached since its last release, a request for it is released at the later of
   now and its cost after that release, if it need not wait too long for that, and refused if it would.
   */
  lemma {:induction false} ReleasedIffTheTurnIsNear(r: Rule, maxQueueingMs: int, size: int, reqs: seq<Req>, i: nat, q: Req, at: int)
    requires size > 0 && LastReleased(r, maxQueueingMs, size, reqs, i, q.arg) && StaysFrom(r, maxQueueingMs, size, reqs, i, q.arg)
    requires OutcomeOf(r, maxQueueingMs, size, reqs, i) == Released(at)
    ensures var rate := if q.arg in r.specificItems then r.specificItems[q.arg] else r.threshold;
            && rate > 0
            && var turn := at + q.batch * (r.durationInSec * 1000) / rate;
               OutcomeOf(r, maxQueueingMs, size, reqs + [q], |reqs|) ==
                 if turn <= q.now then Released(q.now) else if turn - q.now < maxQueueingMs then Released(turn) else Refused
  {
    hide Throttle, AfterPacing;
    assert (reqs + [q])[..|reqs|] == reqs;
    LastReleaseIsKept(r, maxQueueingMs, size, reqs, i, q.arg, at);
    ThrottleDecides(r, maxQueueingMs, size, AfterPacing(r, maxQueueingMs, size, reqs), q.arg, q.batch, q.now);
    ReleasedHasRate(r, maxQueueingMs, size, reqs, i, q.arg);
  }

  lemma {:induction false} ReleasedHasRate(r: Rule, maxQueueingMs: int, size: int, reqs: seq<Req>, i: nat, a: Arg)
    requires LastReleased(r, maxQueueingMs, size, reqs, i, a)
    ensures (if a in r.specificItems then r.specificItems[a] else r.threshold) > 0
  {
    if i == |reqs| - 1 {
      ThrottleDecides(r, maxQueueingMs, size, AfterPacing(r, maxQueueingMs, size, reqs[..i]), a, reqs[i].batch, reqs[i].now);
    } else {
      ReleasedHasRate(r, maxQueueingMs, size, reqs[..|reqs| - 1], i, a);
    }
  }
}
