/**
 The warm-up token bucket of flow control (core/flow/tc_warm_up.go): a full bucket means a cold system, which
 is allowed less; traffic empties the bucket.
 */
module WarmUp {
  import opened Arithmetic
  import opened Prelude

  datatype Config = Config(threshold: real, coldFactor: nat, warningToken: nat, maxToken: nat, slope: real) {
    /** What the constructor establishes, given that there is room above the warning line. */
    ghost predicate Valid() {
      && threshold > 0.0 && coldFactor >= 2 && warningToken < maxToken
      && slope == (coldFactor - 1) as real / threshold / (maxToken - warningToken) as real
    }
  }

  const DEFAULT_COLD_FACTOR := 3

  function NewConfig(threshold: real, warmUpPeriodSec: nat, ruleColdFactor: nat): Option<Config>
    requires threshold > 0.0
  {
    var cold := if ruleColdFactor <= 1 then DEFAULT_COLD_FACTOR else ruleColdFactor;
    var warning := (warmUpPeriodSec as real * threshold / (cold - 1) as real).Floor;
    var room := (2.0 * warmUpPeriodSec as real * threshold / (1 + cold) as real).Floor;
    if warning < 0 || room <= 0 then None
    else Some(Config(threshold, cold, warning, warning + room, (cold - 1) as real / threshold / room as real))
  }

  lemma NewConfigIsValid(threshold: real, warmUpPeriodSec: nat, ruleColdFactor: nat)
    requires threshold > 0.0
    ensures var c := NewConfig(threshold, warmUpPeriodSec, ruleColdFactor); c.Some? ==> c.value.Valid()
    ensures var c, cold := NewConfig(threshold, warmUpPeriodSec, ruleColdFactor), if ruleColdFactor > 1 then ruleColdFactor else 3;
            c.Some? ==>
              && c.value.threshold == threshold && c.value.coldFactor == cold
              && c.value.warningToken == (warmUpPeriodSec as real * threshold / (cold - 1) as real).Floor
              && c.value.maxToken - c.value.warningToken == (2.0 * warmUpPeriodSec as real * threshold / (1 + cold) as real).Floor
  {
  }

  datatype Bucket = Bucket(stored: int, lastFilled: nat)

  /** Tokens that come in over a span of time. */
  function Refill(c: Config, stored: int, elapsedMs: int): int {
    (stored as real + elapsedMs as real * c.threshold / 1000.0).Floor
  }

  /** Traffic below which a warm-up has not really begun: an integer division of the truncated threshold. */
  function CoolingQps(c: Config): int
    requires c.coldFactor > 0
  {
    c.threshold.Floor / c.coldFactor
  }

  function CoolDownTokens(c: Config, b: Bucket, currentTime: nat, passQps: real): int
    requires c.coldFactor > 0
  {
    var filled :=
      if b.stored < c.warningToken then Refill(c, b.stored, currentTime - b.lastFilled)
      else if b.stored > c.warningToken && passQps < CoolingQps(c) as real then Refill(c, b.stored, currentTime - b.lastFilled)
      else b.stored;
    Min(filled, c.maxToken)
  }

  /** Once per second: refill or not, then take out what has passed. */
  function SyncToken(c: Config, b: Bucket, passQps: real, now: nat): Bucket
    requires c.coldFactor > 0
  {
    var currentTime := now - now % 1000;
    if currentTime <= b.lastFilled then b
    else Bucket(Max(0, CoolDownTokens(c, b, currentTime, passQps) - passQps.Floor), currentTime)
  }

  function AllowedQps(c: Config, stored: int): real
    requires c.Valid()
  {
    var rest := Max(0, stored);
    if rest >= c.warningToken then
      PositiveDenominator(c, rest - c.warningToken);
      1.0 / Denominator(c, rest - c.warningToken)
    else c.threshold
  }

  /** Seconds per request when `above` tokens are above the warning line. */
  function Denominator(c: Config, above: int): real
    requires c.threshold > 0.0
  {
    above as real * c.slope + 1.0 / c.threshold
  }

  class WarmUpTrafficShapingCalculator {
    const c: Config
    var storedTokens: int
    var lastFilledTime: nat

    ghost function State(): Bucket
      reads this
    {
      Bucket(storedTokens, lastFilledTime)
    }

    constructor (c: Config)
      ensures this.c == c && State() == Bucket(0, 0)
    {
      this.c := c;
      storedTokens, lastFilledTime := 0, 0;
    }

    method CalculateAllowedTokens(previousQps: real, now: nat) returns (allowed: real)
      requires c.Valid()
      modifies this
      ensures State() == SyncToken(c, old(State()), previousQps, now)
      ensures allowed == AllowedQps(c, State().stored)
    {
      DoSyncToken(previousQps, now);
      var restToken := storedTokens;
      if restToken <= 0 {
        restToken := 0;
      }
      if restToken >= c.warningToken {
        var aboveToken := restToken - c.warningToken;
        PositiveDenominator(c, aboveToken);
        return 1.0 / (aboveToken as real * c.slope + 1.0 / c.threshold);
      }
      return c.threshold;
    }

    method DoSyncToken(passQps: real, now: nat)
      requires c.Valid()
      modifies this
      ensures State() == SyncToken(c, old(State()), passQps, now)
    {
      var currentTime := now - now % 1000;
      if currentTime <= lastFilledTime {
        return;
      }
      storedTokens := CoolDown(currentTime, passQps);
      storedTokens := storedTokens - passQps.Floor;
      if storedTokens < 0 {
        storedTokens := 0;
      }
      lastFilledTime := currentTime;
    }

    method CoolDown(currentTime: nat, passQps: real) returns (newValue: int)
      requires c.Valid()
      ensures newValue == CoolDownTokens(c, State(), currentTime, passQps)
    {
      newValue := storedTokens;
      if storedTokens < c.warningToken {
        newValue := Refill(c, storedTokens, currentTime - lastFilledTime);
      } else if storedTokens > c.warningToken {
        if passQps < CoolingQps(c) as real {
          newValue := Refill(c, storedTokens, currentTime - lastFilledTime);
        }
      }
      if newValue <= c.maxToken {
        return;
      }
      return c.maxToken;
    }
  }

  // ---------------------------------------------------------------- what is allowed

  lemma PositiveRatio(a: real, b: real)
    requires a > 0.0 && b > 0.0
    ensures a / b > 0.0
  {
  }

  lemma SlopeIsPositive(c: Config)
    requires c.Valid()
    ensures c.slope > 0.0
    ensures (c.maxToken - c.warningToken) as real * c.slope == (c.coldFactor - 1) as real / c.threshold
  {
    var room, part := (c.maxToken - c.warningToken) as real, (c.coldFactor - 1) as real / c.threshold;
    PositiveRatio((c.coldFactor - 1) as real, c.threshold);
    PositiveRatio(part, room);
    assert c.slope == part / room;
    CancelRatio(part, room);
  }

  lemma CancelRatio(a: real, b: real)
    requires b > 0.0
    ensures b * (a / b) == a
  {
  }

  lemma MulMonotone(a: real, b: real, s: real)
    requires a <= b && s >= 0.0
    ensures a * s <= b * s
  {
  }

  lemma PositiveDenominator(c: Config, above: int)
    requires c.Valid() && above >= 0
    ensures Denominator(c, above) >= 1.0 / c.threshold > 0.0
  {
    SlopeIsPositive(c);
    PositiveRatio(1.0, c.threshold);
    MulMonotone(0.0, above as real, c.slope);
  }

  lemma ReciprocalAntitone(x: real, y: real)
    requires 0.0 < x <= y
    ensures 1.0 / y <= 1.0 / x
  {
  }

  lemma ReciprocalTwice(x: real)
    requires x > 0.0
    ensures 1.0 / (1.0 / x) == x
  {
  }

  lemma ReciprocalOfRatio(a: real, b: real)
    requires a > 0.0 && b > 0.0
    ensures 1.0 / (a / b) == b / a
  {
    PositiveRatio(a, b);
    assert (a / b) * (b / a) == 1.0 by {
      CancelRatio(a, b);
      CancelRatio(b, a);
    }
  }

  /** The fuller the bucket, the less is allowed. */
  lemma {:induction false} AllowedIsAntitone(c: Config, stored: int, stored': int)
    requires c.Valid() && stored <= stored'
    ensures AllowedQps(c, stored') <= AllowedQps(c, stored)
  {
    var rest, rest' := Max(0, stored), Max(0, stored');
    if rest' >= c.warningToken {
      PositiveDenominator(c, rest' - c.warningToken);
      if rest >= c.warningToken {
        PositiveDenominator(c, rest - c.warningToken);
        DenominatorMonotone(c, rest - c.warningToken, rest' - c.warningToken);
        ReciprocalAntitone(Denominator(c, rest - c.warningToken), Denominator(c, rest' - c.warningToken));
      } else {
        ReciprocalAntitone(1.0 / c.threshold, Denominator(c, rest' - c.warningToken));
        ReciprocalTwice(c.threshold);
      }
    }
  }

  lemma DenominatorMonotone(c: Config, above: int, above': int)
    requires c.Valid() && above <= above'
    ensures Denominator(c, above) <= Denominator(c, above')
  {
    SlopeIsPositive(c);
    MulMonotone(above as real, above' as real, c.slope);
  }

  /** At the warning line and below it the whole threshold is allowed, at the top of the bucket the cold share of it. */
  lemma {:induction false} AllowedAtTheEnds(c: Config)
    requires c.Valid()
    ensures AllowedQps(c, c.warningToken) == c.threshold
    ensures AllowedQps(c, c.maxToken) == c.threshold / c.coldFactor as real
  {
    PositiveDenominator(c, 0);
    assert 0.0 * c.slope == 0.0;
    ReciprocalTwice(c.threshold);
    SlopeIsPositive(c);
    PositiveDenominator(c, c.maxToken - c.warningToken);
    SumOfRatios((c.coldFactor - 1) as real, 1.0, c.threshold);
    ReciprocalOfRatio(c.coldFactor as real, c.threshold);
  }

  lemma SumOfRatios(a: real, b: real, t: real)
    requires t > 0.0
    ensures a / t + b / t == (a + b) / t
  {
  }

  /** The allowed rate always lies between the cold share and the threshold. */
  lemma {:induction false} AllowedIsBounded(c: Config, stored: int)
    requires c.Valid() && stored <= c.maxToken
    ensures c.threshold / c.coldFactor as real <= AllowedQps(c, stored) <= c.threshold
  {
    AllowedAtTheEnds(c);
    AllowedIsAntitone(c, stored, c.maxToken);
    if stored >= c.warningToken {
      AllowedIsAntitone(c, c.warningToken, stored);
    }
  }

  /**
   PACE. From the warning line up the time per request rises in proportion to the tokens above it, from the time that the
   threshold allows to the cold factor times that at the top; below the line it is that of the threshold.
   */
  lemma {:induction false} TimePerRequest(c: Config, stored: int)
    requires c.Valid() && stored <= c.maxToken
    ensures AllowedQps(c, stored) > 0.0
    ensures 1.0 / AllowedQps(c, stored) ==
              if stored < c.warningToken then 1.0 / c.threshold
              else (1.0 + (c.coldFactor - 1) as real * (stored - c.warningToken) as real / (c.maxToken - c.warningToken) as real) / c.threshold
  {
    AllowedReciprocal(c, stored);
    hide AllowedQps;
    if stored >= c.warningToken {
      DenominatorByShare(c, stored - c.warningToken);
    }
  }

  lemma AllowedReciprocal(c: Config, stored: int)
    requires c.Valid()
    ensures AllowedQps(c, stored) > 0.0
    ensures 1.0 / AllowedQps(c, stored) ==
              if stored < c.warningToken then 1.0 / c.threshold else Denominator(c, Max(0, stored) - c.warningToken)
  {
    var rest := Max(0, stored);
    if rest >= c.warningToken {
      PositiveDenominator(c, rest - c.warningToken);
      ReciprocalTwice(Denominator(c, rest - c.warningToken));
      PositiveRatio(1.0, Denominator(c, rest - c.warningToken));
    }
  }

  lemma DenominatorByShare(c: Config, above: nat)
    requires c.Valid()
    ensures Denominator(c, above) ==
              (1.0 + (c.coldFactor - 1) as real * above as real / (c.maxToken - c.warningToken) as real) / c.threshold
  {
    ShareOfSlope(above as real, (c.coldFactor - 1) as real, c.threshold, (c.maxToken - c.warningToken) as real);
  }

  lemma ShareOfSlope(above: real, cold: real, threshold: real, room: real)
    requires threshold > 0.0 && room > 0.0
    ensures above * (cold / threshold / room) + 1.0 / threshold == (1.0 + cold * above / room) / threshold
  {
    var x, y := cold / threshold / room, cold * above / room;
    CancelRatio(cold / threshold, room);
    CancelRatio(cold, threshold);
    CancelRatio(cold * above, room);
    ProductOfFour(above, x, threshold, room, cold);
    SameProduct(above * x * threshold, y, room);
    CancelRatio(y, threshold);
    SameProduct(above * x, y / threshold, threshold);
    SumOfRatios(y, 1.0, threshold);
  }

  lemma ProductOfFour(above: real, x: real, threshold: real, room: real, cold: real)
    requires threshold * (room * x) == cold
    ensures above * x * threshold * room == cold * above
  {
  }

  lemma SameProduct(a: real, b: real, t: real)
    requires t > 0.0 && a * t == b * t
    ensures a == b
  {
  }

  /** SYNC. Once per second tokens come in as the level and the traffic have it, up to the top, and what passed goes out. */
  lemma {:induction false} SyncByLevel(c: Config, b: Bucket, passQps: real, now: nat)
    requires c.Valid()
    ensures var t := now - now % 1000;
            var fills := b.stored < c.warningToken || (b.stored > c.warningToken && passQps < (c.threshold.Floor / c.coldFactor) as real);
            var level := if fills then (b.stored as real + (t - b.lastFilled) as real * c.threshold / 1000.0).Floor else b.stored;
            SyncToken(c, b, passQps, now) ==
              if t <= b.lastFilled then b else Bucket(Max(0, Min(level, c.maxToken) - passQps.Floor), t)
  {
  }

  // ---------------------------------------------------------------- runs

  /** One call: the traffic of the previous second and the clock. */
  datatype Call = Call(passQps: real, now: nat)

  function Run(c: Config, b: Bucket, calls: seq<Call>): Bucket
    requires c.coldFactor > 0
  {
    if calls == [] then b
    else SyncToken(c, Run(c, b, calls[..|calls| - 1]), calls[|calls| - 1].passQps, calls[|calls| - 1].now)
  }

  /** BOUNDS. Over any run, whatever the clock and the traffic, the bucket holds between 0 and `maxToken` tokens. */
  lemma {:induction false} TokensStayInBucket(c: Config, calls: seq<Call>)
    requires c.Valid() && forall q :: q in calls ==> q.passQps >= 0.0
    ensures 0 <= Run(c, Bucket(0, 0), calls).stored <= c.maxToken
  {
    if calls != [] {
      TokensStayInBucket(c, calls[..|calls| - 1]);
      assert calls[|calls| - 1] in calls;
    }
  }

  /** The calls come in different seconds, later than the bucket's last fill. */
  ghost predicate OnePerSecond(lastFilled: nat, calls: seq<Call>) {
    && (forall k :: 0 <= k < |calls| ==> calls[k].now - calls[k].now % 1000 > lastFilled)
    && (forall j, k :: 0 <= j < k < |calls| ==> calls[j].now - calls[j].now % 1000 < calls[k].now - calls[k].now % 1000)
  }

  /** Traffic that keeps the bucket from refilling and takes out at least one token per second. */
  predicate Sustained(c: Config, passQps: real)
    requires c.coldFactor > 0
  {
    passQps >= 1.0 && passQps >= CoolingQps(c) as real
  }

  /** Above the warning line one second of sustained traffic takes out what passed. */
  lemma SustainedSecondDrains(c: Config, b: Bucket, q: Call)
    requires c.Valid() && c.warningToken < b.stored <= c.maxToken && Sustained(c, q.passQps)
    requires q.now - q.now % 1000 > b.lastFilled
    ensures SyncToken(c, b, q.passQps, q.now) == Bucket(Max(0, b.stored - q.passQps.Floor), q.now - q.now % 1000)
    ensures SyncToken(c, b, q.passQps, q.now).stored <= b.stored - 1
  {
  }

  /**
   COMPLETION. Under sustained traffic, one call a second, the bucket is down at the warning line after at most
   as many seconds as it had tokens above it: until then every second takes out at least one.
   */
  lemma {:induction false} WarmUpCompletes(c: Config, b: Bucket, calls: seq<Call>)
    requires c.Valid() && 0 <= b.stored <= c.maxToken && OnePerSecond(b.lastFilled, calls)
    requires forall q :: q in calls ==> Sustained(c, q.passQps)
    requires forall k :: 0 <= k < |calls| ==> Run(c, b, calls[..k]).stored > c.warningToken
    ensures |calls| > 0 ==> Run(c, b, calls).stored <= b.stored - |calls|
    ensures |calls| <= b.stored - c.warningToken || |calls| == 0
    ensures |calls| > 0 ==> Run(c, b, calls).lastFilled == calls[|calls| - 1].now - calls[|calls| - 1].now % 1000
    decreases |calls|
  {
    if calls != [] {
      var n := |calls| - 1;
      var before := calls[..n];
      assert forall k :: 0 <= k < n ==> before[..k] == calls[..k];
      WarmUpCompletes(c, b, before);
      assert calls[n] in calls;
      assert Run(c, b, calls[..n]).stored > c.warningToken;
      assert calls[..0] == [];
      SustainedSecondDrains(c, Run(c, b, before), calls[n]);
    }
  }

  // ---------------------------------------------------------------- getting cold again

  /** Tokens that a span of time brings, as a real number. */
  function Income(c: Config, elapsedMs: int): real {
    elapsedMs as real * c.threshold / 1000.0
  }

  lemma IncomeIsNatural(c: Config, elapsedMs: int)
    requires c.threshold > 0.0 && elapsedMs >= 0
    ensures Income(c, elapsedMs) >= 0.0
  {
    MulMonotone(0.0, elapsedMs as real, c.threshold);
  }

  lemma IncomeGrows(c: Config, elapsedMs: int, longer: int)
    requires c.threshold > 0.0 && elapsedMs <= longer
    ensures Income(c, elapsedMs) <= Income(c, longer)
  {
    MulMonotone(elapsedMs as real, longer as real, c.threshold);
  }

  /** Whether the bucket takes in anything at all while there is no traffic. */
  predicate TakesIn(c: Config, stored: int)
    requires c.coldFactor > 0
  {
    stored < c.warningToken || (stored > c.warningToken && CoolingQps(c) > 0)
  }

  /**
   IDLE SECOND. A sync without traffic loses nothing, and it makes a bucket fuller exactly when there is room, the tokens
   are not at the warning line (nor above it with a threshold that rounds to nothing), and the time brings a whole token.
   */
  lemma {:induction false} IdleSecondRefillsIff(c: Config, b: Bucket, now: nat)
    requires c.Valid() && 0 <= b.stored <= c.maxToken && now - now % 1000 > b.lastFilled
    ensures var after := SyncToken(c, b, 0.0, now).stored;
            && b.stored <= after <= c.maxToken
            && (after > b.stored <==> b.stored < c.maxToken && TakesIn(c, b.stored) && Income(c, now - now % 1000 - b.lastFilled) >= 1.0)
            && (TakesIn(c, b.stored) ==> after == Min(b.stored + Income(c, now - now % 1000 - b.lastFilled).Floor, c.maxToken))
  {
    IncomeIsNatural(c, now - now % 1000 - b.lastFilled);
  }

  ghost predicate Idle(calls: seq<Call>) {
    forall q :: q in calls ==> q.passQps == 0.0
  }

  /** A bucket that takes nothing in, as one at the warning line, stays as it is while the system is idle. */
  lemma {:induction false} IdleAtTheLineForEver(c: Config, b: Bucket, calls: seq<Call>)
    requires c.Valid() && 0 <= b.stored < c.maxToken && !TakesIn(c, b.stored) && Idle(calls)
    ensures Run(c, b, calls).stored == b.stored
  {
    if calls != [] {
      assert calls[|calls| - 1] in calls;
      IdleAtTheLineForEver(c, b, calls[..|calls| - 1]);
    }
  }

  function SecondStart(t: nat): nat {
    t - t % 1000
  }

  /** When the bucket was last filled after a run of syncs in different seconds. */
  function LastFill(lastFilled: nat, calls: seq<Call>): nat {
    if calls == [] then lastFilled else SecondStart(calls[|calls| - 1].now)
  }

  /** The whole tokens that the time before each sync is worth: told by the clock alone. */
  function Earned(c: Config, lastFilled: nat, calls: seq<Call>): int {
    if calls == [] then 0
    else
      var before := calls[..|calls| - 1];
      Earned(c, lastFilled, before) + Income(c, LastFill(lastFilled, calls) - LastFill(lastFilled, before)).Floor
  }

  /** A level at which an idle bucket is full or goes on filling. */
  predicate Moving(c: Config, level: int)
    requires c.coldFactor > 0
  {
    level >= c.maxToken || TakesIn(c, level)
  }

  /** All levels before the last sync are. */
  predicate AllMoving(c: Config, b: Bucket, calls: seq<Call>)
    requires c.coldFactor > 0
  {
    calls == [] ||
    (AllMoving(c, b, calls[..|calls| - 1]) && Moving(c, b.stored + Earned(c, b.lastFilled, calls[..|calls| - 1])))
  }

  lemma {:induction false} AllMovingIff(c: Config, b: Bucket, calls: seq<Call>)
    requires c.coldFactor > 0
    ensures AllMoving(c, b, calls) <==> forall k :: 0 <= k < |calls| ==> Moving(c, b.stored + Earned(c, b.lastFilled, calls[..k]))
  {
    hide Moving, Earned;
    if calls != [] {
      var n := |calls| - 1;
      AllMovingIff(c, b, calls[..n]);
      forall k | 0 <= k < n
        ensures calls[..n][..k] == calls[..k]
      {
      }
    }
  }

  /** One idle sync: a bucket at a level, capped at the top, gets what the time is worth if the level moves, and stays if not. */
  lemma IdleSync(c: Config, b: Bucket, level: int, now: nat)
    requires c.Valid() && 0 <= b.stored == Min(level, c.maxToken) && SecondStart(now) > b.lastFilled
    ensures var after, more := SyncToken(c, b, 0.0, now), Income(c, SecondStart(now) - b.lastFilled).Floor;
            && after.lastFilled == SecondStart(now) && more >= 0
            && after.stored == if Moving(c, level) then Min(level + more, c.maxToken) else b.stored
  {
    IdleSecondRefillsIff(c, b, now);
    IncomeIsNatural(c, SecondStart(now) - b.lastFilled);
  }

  lemma {:induction false} FilledInOrder(c: Config, b: Bucket, calls: seq<Call>)
    requires calls != [] && OnePerSecond(b.lastFilled, calls)
    ensures OnePerSecond(b.lastFilled, calls[..|calls| - 1]) && SecondStart(calls[|calls| - 1].now) > LastFill(b.lastFilled, calls[..|calls| - 1])
  {
  }

  /** An idle run earns the bucket what the time is worth, as long as no level on the way keeps it from moving; else it is stuck. */
  lemma {:induction false} IdleRunEarns(c: Config, b: Bucket, calls: seq<Call>)
    requires c.Valid() && 0 <= b.stored <= c.maxToken && OnePerSecond(b.lastFilled, calls) && Idle(calls)
    ensures Run(c, b, calls).lastFilled == LastFill(b.lastFilled, calls)
    ensures AllMoving(c, b, calls) ==> Run(c, b, calls).stored == Min(b.stored + Earned(c, b.lastFilled, calls), c.maxToken)
    ensures !AllMoving(c, b, calls) ==> 0 <= Run(c, b, calls).stored < c.maxToken && !TakesIn(c, Run(c, b, calls).stored)
    ensures Earned(c, b.lastFilled, calls) >= 0
  {
    hide SyncToken, TakesIn, Income, SecondStart;
    if calls != [] {
      var before, q := calls[..|calls| - 1], calls[|calls| - 1];
      assert q in calls;
      FilledInOrder(c, b, calls);
      IdleRunEarns(c, b, before);
      var mid := Run(c, b, before);
      if AllMoving(c, b, before) {
        IdleSync(c, mid, b.stored + Earned(c, b.lastFilled, before), q.now);
      } else {
        IdleSync(c, mid, mid.stored, q.now);
      }
    }
  }

  /**
   COLD AGAIN. An idle system, synced at most once a second, is quite cold exactly if the time was worth enough tokens and
   no level on the way was one that takes nothing in: the warning line, or anything above it when the threshold is less
   than the cold factor.
   */
  lemma {:induction false} IdleGetsColdIff(c: Config, b: Bucket, calls: seq<Call>)
    requires c.Valid() && 0 <= b.stored <= c.maxToken && OnePerSecond(b.lastFilled, calls) && Idle(calls)
    ensures Run(c, b, calls).stored == c.maxToken <==>
              && b.stored + Earned(c, b.lastFilled, calls) >= c.maxToken
              && forall k :: 0 <= k < |calls| ==> Moving(c, b.stored + Earned(c, b.lastFilled, calls[..k]))
  {
    IdleRunEarns(c, b, calls);
    AllMovingIff(c, b, calls);
  }

  lemma {:induction false} SecondsAreWorthTokens(c: Config, lastFilled: nat, calls: seq<Call>)
    requires c.Valid() && CoolingQps(c) > 0 && lastFilled % 1000 == 0 && OnePerSecond(lastFilled, calls)
    ensures Earned(c, lastFilled, calls) >= |calls| && LastFill(lastFilled, calls) % 1000 == 0
  {
    if calls != [] {
      FilledInOrder(c, Bucket(0, lastFilled), calls);
      SecondsAreWorthTokens(c, lastFilled, calls[..|calls| - 1]);
      SecondIsWorthAToken(c, LastFill(lastFilled, calls[..|calls| - 1]), LastFill(lastFilled, calls));
    }
  }

  lemma SecondIsWorthAToken(c: Config, from: nat, to: nat)
    requires c.Valid() && CoolingQps(c) > 0 && from % 1000 == 0 && to % 1000 == 0 && from < to
    ensures Income(c, to - from).Floor >= 1
  {
    assert to - from >= 1000;
    assert c.threshold >= 1.0;
    IncomeGrows(c, 1000, to - from);
  }

  /** With a threshold of at least the cold factor and as many syncs as there is room, only the line itself can be in the way. */
  lemma {:induction false} IdleGetsColdIffOffTheLine(c: Config, b: Bucket, calls: seq<Call>)
    requires c.Valid() && CoolingQps(c) > 0 && 0 <= b.stored <= c.maxToken && OnePerSecond(b.lastFilled, calls)
    requires b.lastFilled % 1000 == 0 && Idle(calls) && |calls| >= c.maxToken - b.stored
    ensures Run(c, b, calls).stored == c.maxToken <==>
              forall k :: 0 <= k < |calls| ==> b.stored + Earned(c, b.lastFilled, calls[..k]) != c.warningToken
  {
    hide Earned;
    IdleGetsColdIff(c, b, calls);
    SecondsAreWorthTokens(c, b.lastFilled, calls);
  }

  /** One sync in every second. */
  ghost predicate EverySecond(lastFilled: nat, calls: seq<Call>) {
    forall k :: 0 <= k < |calls| ==> SecondStart(calls[k].now) == lastFilled + 1000 * (k + 1)
  }

  lemma {:induction false} EverySecondEarns(c: Config, lastFilled: nat, calls: seq<Call>)
    requires c.Valid() && EverySecond(lastFilled, calls)
    ensures Earned(c, lastFilled, calls) == |calls| * c.threshold.Floor
    ensures LastFill(lastFilled, calls) == lastFilled + 1000 * |calls|
  {
    if calls != [] {
      EverySecondEarns(c, lastFilled, calls[..|calls| - 1]);
      assert Income(c, 1000) == c.threshold;
    }
  }

  /**
   EVERY SECOND. Synced in every second, an idle system gets cold exactly unless the tokens missing to the warning line are
   a whole number of times the truncated threshold.
   */
  lemma {:induction false} EverySecondGetsColdIff(c: Config, b: Bucket, calls: seq<Call>)
    requires c.Valid() && CoolingQps(c) > 0 && 0 <= b.stored <= c.maxToken && b.lastFilled % 1000 == 0
    requires EverySecond(b.lastFilled, calls) && Idle(calls) && |calls| >= c.maxToken - b.stored
    ensures c.threshold.Floor > 0
    ensures Run(c, b, calls).stored == c.maxToken <==>
              !(b.stored <= c.warningToken && (c.warningToken - b.stored) % c.threshold.Floor == 0)
  {
    hide Earned, Run, EverySecond;
    var gain, missing := c.threshold.Floor, c.warningToken - b.stored;
    assert gain > 0;
    EverySecondIsInOrder(b.lastFilled, calls);
    IdleGetsColdIffOffTheLine(c, b, calls);
    forall k | 0 <= k < |calls|
      ensures Earned(c, b.lastFilled, calls[..k]) == k * gain
    {
      EverySecondPrefix(b.lastFilled, calls, k);
      EverySecondEarns(c, b.lastFilled, calls[..k]);
    }
    if missing >= 0 && missing % gain == 0 {
      var k := missing / gain;
      DivMod(missing, gain);
      MulMono(k, 1, gain);
      assert k < |calls| && b.stored + Earned(c, b.lastFilled, calls[..k]) == c.warningToken;
    } else {
      forall k | 0 <= k < |calls|
        ensures b.stored + Earned(c, b.lastFilled, calls[..k]) != c.warningToken
      {
        MulMono(k, 0, gain);
        MultipleFacts(gain, k);
      }
    }
  }

  lemma EverySecondPrefix(lastFilled: nat, calls: seq<Call>, k: nat)
    requires EverySecond(lastFilled, calls) && k <= |calls|
    ensures EverySecond(lastFilled, calls[..k])
  {
  }

  lemma EverySecondIsInOrder(lastFilled: nat, calls: seq<Call>)
    requires EverySecond(lastFilled, calls)
    ensures OnePerSecond(lastFilled, calls)
  {
    forall k | 0 <= k < |calls|
      ensures calls[k].now - calls[k].now % 1000 == lastFilled + 1000 * (k + 1)
    {
      assert SecondStart(calls[k].now) == lastFilled + 1000 * (k + 1);
    }
  }

  // ---------------------------------------------------------------- a system that never gets cold

  lemma {:induction false} RunOn(c: Config, b: Bucket, calls: seq<Call>, q: Call)
    requires c.coldFactor > 0
    ensures Run(c, b, calls + [q]) == SyncToken(c, Run(c, b, calls), q.passQps, q.now)
  {
    assert (calls + [q])[..|calls|] == calls;
  }

  lemma {:induction false} RunOfParts(c: Config, b: Bucket, first: seq<Call>, second: seq<Call>)
    requires c.coldFactor > 0
    ensures Run(c, b, first + second) == Run(c, Run(c, b, first), second)
  {
    if second == [] {
      assert first + second == first;
    } else {
      var n := |second| - 1;
      RunOfParts(c, b, first, second[..n]);
      assert (first + second)[..|first + second| - 1] == first + second[..n];
    }
  }

  /** Seconds of traffic at ten requests per second. */
  function Busy(t: nat, seconds: nat): seq<Call> {
    if seconds == 0 then [] else Busy(t, seconds - 1) + [Call(10.0, t + 1000 * seconds)]
  }

  lemma BusySecond(c: Config, stored: int, now: nat)
    requires c.Valid() && c.threshold == 10.0 && c.coldFactor == 3 && c.warningToken == 50 && c.maxToken == 100
    requires 50 <= stored <= 100 && now % 1000 == 0 && now >= 1000
    ensures SyncToken(c, Bucket(stored, now - 1000), 10.0, now) == Bucket(stored - 10, now)
  {
  }

  lemma {:induction false} BusyDrains(c: Config, t: nat, seconds: nat)
    requires c.Valid() && t % 1000 == 0 && c.threshold == 10.0 && c.coldFactor == 3 && c.warningToken == 50 && c.maxToken == 100
    requires seconds <= 6
    ensures Run(c, Bucket(100, t), Busy(t, seconds)) == Bucket(100 - 10 * seconds, t + 1000 * seconds)
  {
    hide SyncToken;
    if seconds > 0 {
      BusyDrains(c, t, seconds - 1);
      BusySecond(c, 100 - 10 * (seconds - 1), t + 1000 * seconds);
      RunOn(c, Bucket(100, t), Busy(t, seconds - 1), Call(10.0, t + 1000 * seconds));
    }
  }

  /** A sync, six busy seconds and an idle one. */
  function BusyThenIdle(t: nat): seq<Call> {
    [Call(0.0, t)] + Busy(t, 6) + [Call(0.0, t + 7000)]
  }

  lemma {:induction false} LeavesItOnTheLine(c: Config, t: nat)
    requires c.Valid() && t >= 10000 && t % 1000 == 0 && c.threshold == 10.0 && c.coldFactor == 3 && c.warningToken == 50 && c.maxToken == 100
    ensures Run(c, Bucket(0, 0), BusyThenIdle(t)) == Bucket(50, t + 7000)
  {
    hide SyncToken, Busy;
    var b, first := Bucket(0, 0), [Call(0.0, t)];
    assert [] + first == first;
    RunOn(c, b, [], Call(0.0, t));
    FirstSyncFills(c, t);
    RunOfParts(c, b, first, Busy(t, 6));
    BusyDrains(c, t, 6);
    RunOn(c, b, first + Busy(t, 6), Call(0.0, t + 7000));
    IdleSecondAddsTen(c, t + 7000);
  }

  lemma IdleSecondAddsTen(c: Config, now: nat)
    requires c.Valid() && c.threshold == 10.0 && c.warningToken == 50 && c.maxToken == 100 && now % 1000 == 0 && now >= 1000
    ensures SyncToken(c, Bucket(40, now - 1000), 0.0, now) == Bucket(50, now)
  {
    assert Income(c, 1000) == 10.0;
    IdleSync(c, Bucket(40, now - 1000), 40, now);
  }

  lemma ExampleConfig()
    ensures var c := NewConfig(10.0, 10, 3);
            && c.Some? && c.value.Valid() && c.value.threshold == 10.0 && c.value.coldFactor == 3
            && c.value.warningToken == 50 && c.value.maxToken == 100
  {
    assert NewConfig(10.0, 10, 3) == Some(Config(10.0, 3, 50, 100, 2 as real / 10.0 / 50 as real));
  }

  /**
   NEVER COLD. A threshold of 10, a warm-up of 10 seconds and the cold factor 3 put the line at 50 and the top at 100. From
   the start of the system: a sync fills the bucket, six seconds of traffic leave 40, an idle second makes it 50, and
   however long the system is idle after that it is no colder.
   */
  lemma {:induction false} IdleSystemStaysWarm(t: nat, later: seq<Call>)
    requires t >= 10000 && t % 1000 == 0 && Idle(later)
    ensures var c := NewConfig(10.0, 10, 3);
            && c.Some? && c.value.Valid() && c.value.maxToken == 100
            && Run(c.value, Bucket(0, 0), BusyThenIdle(t) + later).stored == 50
  {
    hide NewConfig, BusyThenIdle, Run;
    ExampleConfig();
    var c := NewConfig(10.0, 10, 3).value;
    LeavesItOnTheLine(c, t);
    RunOfParts(c, Bucket(0, 0), BusyThenIdle(t), later);
    IdleAtTheLineForEver(c, Bucket(50, t + 7000), later);
  }

  lemma FirstSyncFills(c: Config, t: nat)
    requires c.Valid() && c.threshold == 10.0 && c.warningToken == 50 && c.maxToken == 100 && t >= 10000 && t % 1000 == 0
    ensures SyncToken(c, Bucket(0, 0), 0.0, t) == Bucket(100, t)
  {
    IncomeGrows(c, 10000, t);
    assert Income(c, 10000) == 100.0;
    IdleSync(c, Bucket(0, 0), 0, t);
  }
}
