/**
 Circuit breakers (core/circuitbreaker/circuit_breaker.go, core/circuitbreaker/rule.go). The three breakers of
 the source differ only in which completions count as bad and in when the counts trip the breaker, so they are
 one class here, told apart by the strategy of their rule.
 */
module CircuitBreakers {
  import Arithmetic
  import opened LeapArrays
  import opened Prelude

  datatype State = Closed | HalfOpen | Open

  datatype Strategy = SlowRequestRatio | ErrorRatio | ErrorCount | Custom(id: nat)

  datatype Rule = Rule(
    resource: string,
    limitApp: string,
    strategy: Strategy,
    retryTimeoutMs: nat,
    minRequestAmount: nat,
    statIntervalMs: nat,
    statSlidingWindowBucketCount: nat,
    maxAllowedRtMs: nat,
    threshold: real,
    probeNum: nat)

  /** What it takes to lay out the buckets of a rule: a 32-bit statistic interval that is not 0. */
  predicate Buildable(r: Rule) {
    0 < r.statIntervalMs < TWO_TO_THE_32
  }

  /** The rules that loading is meant to accept. */
  predicate IsValidRule(r: Rule) {
    && r.resource != ""
    && r.statIntervalMs > 0 && r.retryTimeoutMs > 0
    && r.threshold >= 0.0
    && (r.strategy == SlowRequestRatio || r.strategy == ErrorRatio ==> r.threshold <= 1.0)
  }

  /** An illegal bucket count is replaced by one bucket. */
  function BucketCount(r: Rule): (n: nat)
    ensures n > 0
  {
    if r.statSlidingWindowBucketCount == 0 || r.statIntervalMs % r.statSlidingWindowBucketCount != 0 then 1
    else r.statSlidingWindowBucketCount
  }

  /** The circular array that a rule asks for. */
  function Layout(r: Rule): Geometry {
    Geometry(r.statIntervalMs / BucketCount(r), BucketCount(r))
  }

  function RuleGeometry(r: Rule): (g: Geometry)
    requires Buildable(r)
    ensures g.Valid() && g.Interval() == r.statIntervalMs && g == Layout(r)
  {
    Arithmetic.DivMod(r.statIntervalMs, BucketCount(r));
    Layout(r)
  }

  // ---------------------------------------------------------------- counting

  /** Bad and total completions of one bucket. */
  datatype Counter = Counter(bad: nat, total: nat)

  const NO_REQUESTS: Counter := Counter(0, 0)

  type Counters = seq<Slot<Counter>>

  function Count(g: Geometry, slots: Counters, now: nat, bad: bool): Counters
    requires g.bucketLength > 0 && g.sampleCount > 0 && |slots| == g.sampleCount
  {
    var current := Refresh(g, slots, now, NO_REQUESTS);
    var i := g.Index(now);
    var c := current[i].value;
    current[i := Slot(current[i].start, Counter(c.bad + (if bad then 1 else 0), c.total + 1))]
  }

  function BadOf(slots: Counters): nat {
    if slots == [] then 0 else BadOf(slots[..|slots| - 1]) + slots[|slots| - 1].value.bad
  }

  function TotalOf(slots: Counters): nat {
    if slots == [] then 0 else TotalOf(slots[..|slots| - 1]) + slots[|slots| - 1].value.total
  }

  /** Every bucket that is up to date at `now` starts counting from zero. */
  function ResetLive(g: Geometry, slots: Counters, now: nat): Counters {
    seq(|slots|, i requires 0 <= i < |slots| =>
      if Deprecated(g.Interval(), now, slots[i].start) then slots[i] else Slot(slots[i].start, NO_REQUESTS))
  }

  // ---------------------------------------------------------------- deciding

  datatype Completion = Completion(rt: nat, failed: bool)

  predicate IsBad(r: Rule, c: Completion) {
    if r.strategy == SlowRequestRatio then c.rt > r.maxAllowedRtMs else c.failed
  }

  const PRECISION := 0.00000001

  predicate Float64Equals(x: real, y: real) {
    -PRECISION < x - y < PRECISION
  }

  /** Whether the counts call for opening a closed breaker. Zero over zero is not a number and trips nothing. */
  predicate Trips(r: Rule, bad: nat, total: nat) {
    && total >= r.minRequestAmount
    && if r.strategy == ErrorCount then bad >= r.threshold.Floor
       else total > 0 && (var ratio := bad as real / total as real;
                          ratio > r.threshold || Float64Equals(ratio, r.threshold))
  }

  datatype Control = Control(state: State, nextRetry: nat, curProbe: nat)

  const INITIAL_CONTROL: Control := Control(Closed, 0, 0)

  predicate Passes(r: Rule, ctl: Control, now: nat) {
    ctl.state == Closed || (ctl.state == Open && now >= ctl.nextRetry) || (ctl.state == HalfOpen && r.probeNum > 0)
  }

  function AfterTryPass(r: Rule, ctl: Control, now: nat): Control {
    if ctl.state == Open && now >= ctl.nextRetry then ctl.(state := HalfOpen) else ctl
  }

  /** A good probe that is the last one needed closes the breaker. */
  predicate ClosesBy(r: Rule, ctl: Control, bad: bool) {
    ctl.state == HalfOpen && !bad && (r.probeNum == 0 || ctl.curProbe + 1 >= r.probeNum)
  }

  function AfterCompletion(r: Rule, ctl: Control, bad: bool, trips: bool, now: nat): Control {
    match ctl.state
    case Open => ctl
    case HalfOpen =>
      if bad then Control(Open, now + r.retryTimeoutMs, 0)
      else if ClosesBy(r, ctl, bad) then Control(Closed, ctl.nextRetry, 0)
      else ctl.(curProbe := ctl.curProbe + 1)
    case Closed =>
      if trips then Control(Open, now + r.retryTimeoutMs, ctl.curProbe) else ctl
  }

  /** The hook of the entry that opened the probe: if that entry was blocked after all, the breaker is open again. */
  function AfterExitHook(ctl: Control, blocked: bool): Control {
    if blocked && ctl.state == HalfOpen then ctl.(state := Open) else ctl
  }

  datatype Breaker = Breaker(ctl: Control, slots: Counters)

  function AfterRequest(r: Rule, g: Geometry, b: Breaker, c: Completion, now: nat): (b': Breaker)
    requires g.bucketLength > 0 && g.sampleCount > 0 && |b.slots| == g.sampleCount
    ensures |b'.slots| == g.sampleCount
  {
    if now == 0 then b
    else
      var bad := IsBad(r, c);
      var counted := Count(g, b.slots, now, bad);
      var live := Select(g.Interval(), counted, now, EVERY_START);
      var ctl := AfterCompletion(r, b.ctl, bad, Trips(r, BadOf(live), TotalOf(live)), now);
      Breaker(ctl, if ClosesBy(r, b.ctl, bad) then ResetLive(g, counted, now) else counted)
  }

  // ---------------------------------------------------------------- the breaker itself

  class CircuitBreaker {
    const rule: Rule
    const stat: LeapArray<Counter>
    var state: State
    var nextRetryTimestampMs: nat
    var curProbeNumber: nat

    ghost predicate Valid()
      reads stat.cells
    {
      stat.Valid()
    }

    ghost function Ctl(): Control
      reads this
    {
      Control(state, nextRetryTimestampMs, curProbeNumber)
    }

    ghost function Abstract(): Breaker
      reads this, stat.cells
    {
      Breaker(Ctl(), stat.cells[..])
    }

    constructor (r: Rule, now: nat)
      requires Buildable(r) && now < TIME_LIMIT
      ensures Valid() && fresh(stat) && fresh(stat.cells)
      ensures rule == r && stat.g == RuleGeometry(r)
      ensures Abstract() == Breaker(INITIAL_CONTROL, InitialSlots(stat.g, now, NO_REQUESTS))
    {
      rule := r;
      var g := RuleGeometry(r);
      stat := new LeapArray<Counter>(g.sampleCount, g.bucketLength, now, NO_REQUESTS);
      state, nextRetryTimestampMs, curProbeNumber := Closed, 0, 0;
    }

    /** A breaker for a changed rule that goes on counting in the statistic of an old one. */
    constructor WithStat(r: Rule, reuse: LeapArray<Counter>)
      ensures stat == reuse && rule == r
      ensures Ctl() == INITIAL_CONTROL
    {
      rule := r;
      stat := reuse;
      state, nextRetryTimestampMs, curProbeNumber := Closed, 0, 0;
    }

    method TryPass(now: nat) returns (passed: bool)
      modifies this
      ensures passed == Passes(rule, old(Ctl()), now)
      ensures Ctl() == AfterTryPass(rule, old(Ctl()), now)
    {
      var curStatus := state;
      if curStatus == Closed {
        return true;
      }
      if curStatus == Open {
        if now >= nextRetryTimestampMs {
          FromOpenToHalfOpen();
          return true;
        }
      }
      if curStatus == HalfOpen && rule.probeNum > 0 {
        return true;
      }
      return false;
    }

    method FromOpenToHalfOpen()
      requires state == Open
      modifies this
      ensures Ctl() == old(Ctl()).(state := HalfOpen)
    {
      state := HalfOpen;
    }

    method FromClosedToOpen(now: nat)
      requires state == Closed
      modifies this
      ensures Ctl() == Control(Open, now + rule.retryTimeoutMs, old(curProbeNumber))
    {
      state := Open;
      nextRetryTimestampMs := now + rule.retryTimeoutMs;
    }

    method FromHalfOpenToOpen(now: nat)
      requires state == HalfOpen
      modifies this
      ensures Ctl() == Control(Open, now + rule.retryTimeoutMs, 0)
    {
      state := Open;
      curProbeNumber := 0;
      nextRetryTimestampMs := now + rule.retryTimeoutMs;
    }

    method FromHalfOpenToClosed()
      requires state == HalfOpen
      modifies this
      ensures Ctl() == Control(Closed, old(nextRetryTimestampMs), 0)
    {
      state := Closed;
      curProbeNumber := 0;
    }

    /** Runs when the entry that was let through as a probe exits. */
    method ExitHook(blocked: bool)
      modifies this
      ensures Ctl() == AfterExitHook(old(Ctl()), blocked)
    {
      if blocked && state == HalfOpen {
        state := Open;
      }
    }

    /** Counts a finished request and moves the state machine. */
    method OnRequestComplete(rt: nat, failed: bool, now: nat)
      requires Valid() && now < TIME_LIMIT
      modifies this, stat.cells
      ensures Valid()
      ensures Abstract() == AfterRequest(rule, stat.g, old(Abstract()), Completion(rt, failed), now)
    {
      var counter := stat.CurrentBucketOfTime(now, NO_REQUESTS);
      if counter == None {
        return;
      }
      var bad := IsBad(rule, Completion(rt, failed));
      var slot := stat.cells[counter.value];
      var badIncrement := if bad then 1 else 0;
      stat.cells[counter.value] := Slot(slot.start, Counter(slot.value.bad + badIncrement, slot.value.total + 1));
      assert stat.cells[..] == Count(stat.g, old(stat.cells[..]), now, bad);
      var badCount, totalCount := SumCounters(now);
      if state == Open {
        return;
      }
      if state == HalfOpen {
        if bad {
          FromHalfOpenToOpen(now);
        } else {
          curProbeNumber := curProbeNumber + 1;
          if rule.probeNum == 0 || curProbeNumber >= rule.probeNum {
            FromHalfOpenToClosed();
            ResetMetric(now);
          }
        }
        return;
      }
      if Trips(rule, badCount, totalCount) {
        FromClosedToOpen(now);
      }
    }

    method SumCounters(now: nat) returns (bad: nat, total: nat)
      requires Valid() && now > 0
      ensures bad == BadOf(Select(stat.g.Interval(), stat.cells[..], now, EVERY_START))
      ensures total == TotalOf(Select(stat.g.Interval(), stat.cells[..], now, EVERY_START))
    {
      bad, total := 0, 0;
      var counters := stat.ValuesWithTime(now);
      for k := 0 to |counters|
        invariant bad == BadOf(counters[..k]) && total == TotalOf(counters[..k])
      {
        assert counters[..k + 1][..k] == counters[..k];
        bad := bad + counters[k].value.bad;
        total := total + counters[k].value.total;
      }
      assert counters[..|counters|] == counters;
    }

    method ResetMetric(now: nat)
      requires Valid()
      modifies stat.cells
      ensures Valid()
      ensures stat.cells[..] == ResetLive(stat.g, old(stat.cells[..]), now)
    {
      for i := 0 to stat.cells.Length
        invariant forall j :: 0 <= j < i ==> stat.cells[j] == ResetLive(stat.g, old(stat.cells[..]), now)[j]
        invariant forall j :: i <= j < stat.cells.Length ==> stat.cells[j] == old(stat.cells[j])
      {
        if !Deprecated(stat.g.Interval(), now, stat.cells[i].start) {
          stat.cells[i] := Slot(stat.cells[i].start, NO_REQUESTS);
        }
      }
      ghost var before := old(stat.cells[..]);
      assert forall i {:trigger stat.cells[..][i]} :: 0 <= i < |before| ==> stat.cells[..][i].start == before[i].start;
    }
  }
}
