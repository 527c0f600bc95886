/**
 Per-argument rate limiting (core/hotspot/traffic_shaping.go): a token bucket per argument value, kept in two
 least-recently-used caches, one for the time of the last refill and one for the tokens left.
 */
module Hotspot {
  import opened Arithmetic
  import opened LruCaches
  import opened Prelude

  type Arg = string

  /** A rate rule; arguments may have their own token count. */
  datatype Rule = Rule(threshold: int, specificItems: map<Arg, int>, burstCount: nat, durationInSec: nat)

  function TokenCount(r: Rule, arg: Arg): int {
    if arg in r.specificItems then r.specificItems[arg] else r.threshold
  }

  function MaxCount(r: Rule, arg: Arg): int {
    TokenCount(r, arg) + r.burstCount
  }

  function DurationMs(r: Rule): nat {
    r.durationInSec * 1000
  }

  /** Refused before the caches are looked at. */
  predicate RefusedAtOnce(r: Rule, arg: Arg, batch: nat) {
    TokenCount(r, arg) <= 0 || batch > MaxCount(r, arg)
  }

  datatype Caches = Caches(time: Recency<Arg, int>, token: Recency<Arg, int>)

  datatype Verdict = Pass | Blocked | Spin

  /** Tokens after `passTime` milliseconds and a batch; negative when the batch does not fit. */
  function Refilled(r: Rule, arg: Arg, rest: int, passTime: int, batch: nat): int
    requires r.durationInSec > 0
  {
    var toAdd := passTime * TokenCount(r, arg) / DurationMs(r);
    if toAdd + rest > MaxCount(r, arg) then MaxCount(r, arg) - batch else toAdd + rest - batch
  }

  /** One round of the check; `Spin` means that the code goes round its loop again. */
  function Perform(r: Rule, size: int, cs: Caches, arg: Arg, batch: nat, now: int): (Verdict, Caches)
    requires r.durationInSec > 0
  {
    if RefusedAtOnce(r, arg, batch) then (Blocked, cs)
    else
      var left := MaxCount(r, arg) - batch;
      var time := AddedIfAbsent(cs.time, size, arg, now);
      var filled := AddedIfAbsent(cs.token, size, arg, left);
      var touched := Touched(cs.token, arg);
      match (Lookup(cs.time, arg), Lookup(cs.token, arg))
      case (None, _) => (Pass, Caches(time, filled))
      case (Some(last), None) =>
        if now - last > DurationMs(r) then (Pass, Caches(Stored(time, arg, now), filled)) else (Spin, Caches(time, touched))
      case (Some(last), Some(rest)) =>
        if now - last > DurationMs(r) then
          var newQps := Refilled(r, arg, rest, now - last, batch);
          if newQps < 0 then (Blocked, Caches(time, filled))
          else (Pass, Caches(Stored(time, arg, now), Stored(filled, arg, newQps)))
        else if rest - batch >= 0 then (Pass, Caches(time, Stored(touched, arg, rest - batch)))
        else (Blocked, Caches(time, touched))
  }

  // ---------------------------------------------------------------- lockstep

  /** Both caches hold the same keys in the same order of use. */
  predicate Lockstep(cs: Caches) {
    Keys(cs.time) == Keys(cs.token)
  }

  lemma SameKeysSameFind<V, W>(es: Recency<Arg, V>, fs: Recency<Arg, W>, key: Arg)
    requires Keys(es) == Keys(fs)
    ensures Find(es, key) == Find(fs, key)
  {
    KeysFind(es, key);
    KeysFind(fs, key);
    var i, j := Find(es, key), Find(fs, key);
    assert |es| == |Keys(es)| == |fs|;
    if i >= 0 {
      assert fs[i].key == Keys(fs)[i];
    }
    if j >= 0 {
      assert es[j].key == Keys(es)[j];
    }
  }

  lemma KeysOfStored(es: Recency<Arg, int>, key: Arg, value: int)
    ensures Keys(Stored(es, key, value)) == Keys(es)
  {
    var i := Find(es, key);
    if i >= 0 {
      assert Keys(es[i := Entry(key, value)]) == Keys(es);
    }
  }

  lemma KeysOfTouched(es: Recency<Arg, int>, key: Arg)
    ensures Keys(Touched(es, key)) == var i := Find(es, key); if i >= 0 then ToFront(Keys(es), i) else Keys(es)
  {
    var i := Find(es, key);
    if i >= 0 {
      KeysToFront(es, i);
    }
  }

  /**
   LOCKSTEP. Whatever is evicted, a check leaves the two caches in lockstep, so a key found in the time cache is
   also found in the token cache and the loop ends after one round.
   */
  lemma {:induction false} LockstepIsKept(r: Rule, size: int, cs: Caches, arg: Arg, batch: nat, now: int)
    requires r.durationInSec > 0 && Lockstep(cs)
    ensures Lockstep(Perform(r, size, cs, arg, batch, now).1)
    ensures Perform(r, size, cs, arg, batch, now).0 != Spin
  {
    var left := MaxCount(r, arg) - batch;
    var time := AddedIfAbsent(cs.time, size, arg, now);
    var filled := AddedIfAbsent(cs.token, size, arg, left);
    var touched := Touched(cs.token, arg);
    SameKeysSameFind(cs.time, cs.token, arg);
    KeysOfAdded(cs.time, size, arg, now);
    KeysOfAdded(cs.token, size, arg, left);
    KeysOfTouched(cs.token, arg);
    KeysOfStored(time, arg, now);
    if Lookup(cs.time, arg).Some? {
      var last, rest := Lookup(cs.time, arg).value, Lookup(cs.token, arg).value;
      KeysOfStored(filled, arg, Refilled(r, arg, rest, now - last, batch));
      KeysOfStored(touched, arg, rest - batch);
    }
  }

  // ---------------------------------------------------------------- what one call does to each argument

  /** A duplicate-free cache finds exactly its entries. */
  lemma LookupIsMembership<V>(es: Recency<Arg, V>, a: Arg, v: V)
    requires NoDuplicates(es)
    ensures Lookup(es, a) == Some(v) <==> Entry(a, v) in es
  {
    var i := Find(es, a);
    if Entry(a, v) in es {
      var j :| 0 <= j < |es| && es[j] == Entry(a, v);
      assert es[j].key == a;
      assert i == j;
    }
  }

  /** What the cache holds of `a` is as before, or gone. */
  predicate KeptOrGone(before: Recency<Arg, int>, after: Recency<Arg, int>, a: Arg) {
    Lookup(after, a) == None || Lookup(after, a) == Lookup(before, a)
  }

  lemma KeptOrGoneByMembers(before: Recency<Arg, int>, after: Recency<Arg, int>, a: Arg)
    requires NoDuplicates(before) && NoDuplicates(after)
    requires forall e :: e in after && e.key == a ==> e in before
    ensures KeptOrGone(before, after, a)
  {
    if Lookup(after, a).Some? {
      var v := Lookup(after, a).value;
      LookupIsMembership(after, a, v);
      LookupIsMembership(before, a, v);
    }
  }

  lemma AfterTouch(es: Recency<Arg, int>, key: Arg, a: Arg)
    requires NoDuplicates(es)
    ensures NoDuplicates(Touched(es, key)) && KeptOrGone(es, Touched(es, key), a)
    ensures Lookup(Touched(es, key), key) == Lookup(es, key)
  {
    var i := Find(es, key);
    if i >= 0 {
      ToFrontKeepsUnique(es, i);
      forall e | e in Touched(es, key)
        ensures e in es
      {
        ToFrontMembers(es, i, e);
      }
      KeptOrGoneByMembers(es, Touched(es, key), a);
    }
  }

  lemma AfterAdd(es: Recency<Arg, int>, size: int, key: Arg, value: int, a: Arg)
    requires NoDuplicates(es) && size > 0
    ensures NoDuplicates(AddedIfAbsent(es, size, key, value))
    ensures a != key ==> KeptOrGone(es, AddedIfAbsent(es, size, key, value), a)
    ensures Lookup(AddedIfAbsent(es, size, key, value), key) == if Lookup(es, key).Some? then Lookup(es, key) else Some(value)
  {
    if Find(es, key) >= 0 {
      AfterTouch(es, key, a);
    } else {
      var after := Push(es, Entry(key, value), size);
      PushKeepsUnique(es, Entry(key, value), size);
      assert after[0] == Entry(key, value);
      if a != key {
        KeptOrGoneByMembers(es, after, a);
      }
    }
  }

  lemma AfterStore(es: Recency<Arg, int>, key: Arg, value: int, a: Arg)
    requires NoDuplicates(es)
    ensures NoDuplicates(Stored(es, key, value))
    ensures a != key ==> KeptOrGone(es, Stored(es, key, value), a)
    ensures Lookup(Stored(es, key, value), key) == if Lookup(es, key).Some? then Some(value) else None
  {
    var i, after := Find(es, key), Stored(es, key, value);
    if i >= 0 {
      assert forall j {:trigger after[j]} :: 0 <= j < |es| ==> after[j].key == es[j].key;
      assert after[i] == Entry(key, value);
      LookupIsMembership(after, key, value);
      if a != key {
        KeptOrGoneByMembers(es, after, a);
      }
    }
  }

  ghost predicate Sound(cs: Caches) {
    Lockstep(cs) && NoDuplicates(cs.time) && NoDuplicates(cs.token)
  }

  /** A check on one argument leaves the tokens and the time of every other one alone, or evicts both. */
  lemma {:induction false} OthersAreKeptOrGone(r: Rule, size: int, cs: Caches, arg: Arg, batch: nat, now: int, a: Arg)
    requires r.durationInSec > 0 && size > 0 && Sound(cs)
    ensures Sound(Perform(r, size, cs, arg, batch, now).1)
    ensures a != arg ==> KeptOrGone(cs.time, Perform(r, size, cs, arg, batch, now).1.time, a)
    ensures a != arg ==> KeptOrGone(cs.token, Perform(r, size, cs, arg, batch, now).1.token, a)
  {
    hide AddedIfAbsent, Touched, Stored, Keys, NoDuplicates, Find, Refilled;
    LockstepIsKept(r, size, cs, arg, batch, now);
    var left := MaxCount(r, arg) - batch;
    var time := AddedIfAbsent(cs.time, size, arg, now);
    var filled := AddedIfAbsent(cs.token, size, arg, left);
    AfterAdd(cs.time, size, arg, now, a);
    AfterAdd(cs.token, size, arg, left, a);
    AfterTouch(cs.token, arg, a);
    AfterStore(time, arg, now, a);
    if Lookup(cs.time, arg).Some? && Lookup(cs.token, arg).Some? {
      var last, rest := Lookup(cs.time, arg).value, Lookup(cs.token, arg).value;
      AfterStore(filled, arg, Refilled(r, arg, rest, now - last, batch), a);
      AfterStore(Touched(cs.token, arg), arg, rest - batch, a);
    }
  }

  // ---------------------------------------------------------------- the rate bound

  datatype Req = Req(arg: Arg, batch: nat, now: int)

  predicate ClockMovesOn(reqs: seq<Req>) {
    forall i, j :: 0 <= i < j < |reqs| ==> reqs[i].now <= reqs[j].now
  }

  function AfterRun(r: Rule, size: int, cs: Caches, reqs: seq<Req>): Caches
    requires r.durationInSec > 0
  {
    if reqs == [] then cs
    else
      var q := reqs[|reqs| - 1];
      Perform(r, size, AfterRun(r, size, cs, reqs[..|reqs| - 1]), q.arg, q.batch, q.now).1
  }

  /** The batches of `a` that a run lets through. */
  function Admitted(r: Rule, size: int, cs: Caches, reqs: seq<Req>, a: Arg): nat
    requires r.durationInSec > 0
  {
    if reqs == [] then 0
    else
      var before, q := reqs[..|reqs| - 1], reqs[|reqs| - 1];
      var verdict := Perform(r, size, AfterRun(r, size, cs, before), q.arg, q.batch, q.now).0;
      Admitted(r, size, cs, before, a) + if q.arg == a && verdict == Pass then q.batch else 0
  }

  /** After every request of the run `a` is still cached. */
  predicate StaysCached(r: Rule, size: int, cs: Caches, reqs: seq<Req>, a: Arg)
    requires r.durationInSec > 0
  {
    reqs == [] || (Lookup(AfterRun(r, size, cs, reqs).time, a).Some? && StaysCached(r, size, cs, reqs[..|reqs| - 1], a))
  }

  /** Tokens admitted plus tokens left are covered by the first fill and the refills since `t0`. */
  predicate Accounted(r: Rule, a: Arg, cs: Caches, t0: int, admitted: nat, clock: int) {
    && Lookup(cs.time, a).Some? && Lookup(cs.token, a).Some?
    && var last, rest := Lookup(cs.time, a).value, Lookup(cs.token, a).value;
    && 0 <= rest <= MaxCount(r, a)
    && t0 <= last <= clock
    && Covered(r, a, admitted + rest - MaxCount(r, a), last - t0)
  }

  predicate Covered(r: Rule, a: Arg, tokens: int, span: int) {
    DurationMs(r) * tokens <= TokenCount(r, a) * span
  }

  lemma RefillIsCovered(r: Rule, a: Arg, rest: int, passTime: int, batch: nat)
    requires r.durationInSec > 0 && TokenCount(r, a) > 0 && passTime > 0 && 0 <= rest
    ensures var newQps := Refilled(r, a, rest, passTime, batch);
            newQps + batch <= MaxCount(r, a) && DurationMs(r) * (newQps + batch - rest) <= TokenCount(r, a) * passTime
  {
    var toAdd := passTime * TokenCount(r, a) / DurationMs(r);
    DivMod(passTime * TokenCount(r, a), DurationMs(r));
    MulMono(DurationMs(r), Refilled(r, a, rest, passTime, batch) + batch - rest, toAdd);
  }

  lemma CoveredGrows(r: Rule, a: Arg, tokens: int, span: int, more: int, passTime: int)
    requires Covered(r, a, tokens, span) && DurationMs(r) * more <= TokenCount(r, a) * passTime
    ensures Covered(r, a, tokens + more, span + passTime)
  {
    MulDist(DurationMs(r), tokens, more);
    MulDist(TokenCount(r, a), span, passTime);
  }

  /** One check of the argument itself keeps the account. */
  lemma {:induction false} OwnStep(r: Rule, size: int, cs: Caches, a: Arg, batch: nat, now: int, t0: int, admitted: nat, clock: int)
    requires r.durationInSec > 0 && size > 0 && Sound(cs)
    requires Accounted(r, a, cs, t0, admitted, clock) && clock <= now
    ensures var (verdict, next) := Perform(r, size, cs, a, batch, now);
            Accounted(r, a, next, t0, admitted + (if verdict == Pass then batch else 0), now)
  {
    hide AddedIfAbsent, Touched, Stored, Keys, NoDuplicates, Find, Lookup, Refilled, Covered;
    if RefusedAtOnce(r, a, batch) {
      return;
    }
    var left := MaxCount(r, a) - batch;
    var time := AddedIfAbsent(cs.time, size, a, now);
    var filled := AddedIfAbsent(cs.token, size, a, left);
    AfterAdd(cs.time, size, a, now, a);
    AfterAdd(cs.token, size, a, left, a);
    AfterTouch(cs.token, a, a);
    AfterStore(time, a, now, a);
    var last, rest := Lookup(cs.time, a).value, Lookup(cs.token, a).value;
    AfterStore(Touched(cs.token, a), a, rest - batch, a);
    if now - last > DurationMs(r) {
      var newQps := Refilled(r, a, rest, now - last, batch);
      AfterStore(filled, a, newQps, a);
      RefillIsCovered(r, a, rest, now - last, batch);
      CoveredGrows(r, a, admitted + rest - MaxCount(r, a), last - t0, newQps + batch - rest, now - last);
      assert (admitted + rest - MaxCount(r, a)) + (newQps + batch - rest) == admitted + batch + newQps - MaxCount(r, a);
    } else {
      assert admitted + batch + (rest - batch) == admitted + rest;
    }
  }

  /** The first check of an argument that is not cached opens its account. */
  lemma {:induction false} FirstStep(r: Rule, size: int, cs: Caches, a: Arg, batch: nat, now: int)
    requires r.durationInSec > 0 && size > 0 && Sound(cs)
    requires Lookup(cs.time, a) == None && Lookup(Perform(r, size, cs, a, batch, now).1.time, a).Some?
    ensures var (verdict, next) := Perform(r, size, cs, a, batch, now);
            verdict == Pass && Accounted(r, a, next, now, batch, now)
  {
    AfterAdd(cs.time, size, a, now, a);
    AfterAdd(cs.token, size, a, MaxCount(r, a) - batch, a);
    SameKeysSameFind(cs.time, cs.token, a);
  }

  lemma {:induction false} RunIsAccounted(r: Rule, size: int, cs: Caches, reqs: seq<Req>, a: Arg)
    requires r.durationInSec > 0 && size > 0 && Sound(cs) && Lookup(cs.time, a) == None
    requires reqs != [] && reqs[0].arg == a && ClockMovesOn(reqs) && StaysCached(r, size, cs, reqs, a)
    ensures Sound(AfterRun(r, size, cs, reqs))
    ensures Accounted(r, a, AfterRun(r, size, cs, reqs), reqs[0].now, Admitted(r, size, cs, reqs, a), reqs[|reqs| - 1].now)
  {
    hide NoDuplicates, Find, Perform, Lockstep, Covered;
    var before, q := reqs[..|reqs| - 1], reqs[|reqs| - 1];
    if before == [] {
      assert AfterRun(r, size, cs, reqs) == Perform(r, size, cs, a, q.batch, q.now).1;
      OthersAreKeptOrGone(r, size, cs, a, q.batch, q.now, a);
      FirstStep(r, size, cs, a, q.batch, q.now);
    } else {
      RunIsAccounted(r, size, cs, before, a);
      var mid, admitted, clock := AfterRun(r, size, cs, before), Admitted(r, size, cs, before, a), before[|before| - 1].now;
      OthersAreKeptOrGone(r, size, mid, q.arg, q.batch, q.now, a);
      if q.arg == a {
        OwnStep(r, size, mid, a, q.batch, q.now, reqs[0].now, admitted, clock);
      } else {
        var after := AfterRun(r, size, cs, reqs);
        InLockstepBothPresent(after, a);
        assert Lookup(after.time, a) == Lookup(mid.time, a) && Lookup(after.token, a) == Lookup(mid.token, a);
      }
    }
  }

  lemma InLockstepBothPresent(cs: Caches, a: Arg)
    requires Lockstep(cs)
    ensures Lookup(cs.time, a).Some? <==> Lookup(cs.token, a).Some?
  {
    SameKeysSameFind(cs.time, cs.token, a);
  }

  /**
   RATE BOUND. From the first use of an argument at `t0`, as long as it is not evicted, the batches let through by
   time `t` are at most maxCount + tokenCount * (t - t0) / duration, and what is left stays in [0, maxCount].
   */
  lemma {:induction false} RateIsBounded(r: Rule, size: int, cs: Caches, reqs: seq<Req>, a: Arg)
    requires r.durationInSec > 0 && size > 0 && Sound(cs) && Lookup(cs.time, a) == None
    requires reqs != [] && reqs[0].arg == a && ClockMovesOn(reqs) && StaysCached(r, size, cs, reqs, a)
    ensures var t0, t := reqs[0].now, reqs[|reqs| - 1].now;
            DurationMs(r) * Admitted(r, size, cs, reqs, a) <= DurationMs(r) * MaxCount(r, a) + TokenCount(r, a) * (t - t0)
    ensures var rest := Lookup(AfterRun(r, size, cs, reqs).token, a); rest.Some? && 0 <= rest.value <= MaxCount(r, a)
  {
    hide AfterRun, Admitted, Find, Sound, StaysCached, ClockMovesOn, Lookup;
    RunIsAccounted(r, size, cs, reqs, a);
    CachedIsPositive(r, size, cs, reqs, a);
    var t0, t, admitted, after := reqs[0].now, reqs[|reqs| - 1].now, Admitted(r, size, cs, reqs, a), AfterRun(r, size, cs, reqs);
    AccountedIsBounded(r, a, admitted, Lookup(after.token, a).value, Lookup(after.time, a).value - t0, t - t0);
  }

  lemma AccountedIsBounded(r: Rule, a: Arg, admitted: nat, rest: nat, span: int, longer: int)
    requires Covered(r, a, admitted + rest - MaxCount(r, a), span) && span <= longer && TokenCount(r, a) > 0
    ensures DurationMs(r) * admitted <= DurationMs(r) * MaxCount(r, a) + TokenCount(r, a) * longer
  {
    MulMono(TokenCount(r, a), span, longer);
    MulDist(DurationMs(r), admitted + rest, MaxCount(r, a));
    MulMono(DurationMs(r), admitted, admitted + rest);
  }

  /**
   REFILL. More than a duration after the last refill a whole token count is there again, so any batch up to it passes;
   and no batch passes that is larger than what was left and has come in since.
   */
  lemma {:induction false} WholeCountIsBackAfterADuration(r: Rule, size: int, cs: Caches, a: Arg, batch: nat, now: int)
    requires r.durationInSec > 0 && Sound(cs) && Lookup(cs.time, a).Some? && Lookup(cs.token, a).Some?
    requires TokenCount(r, a) > 0 && 0 <= Lookup(cs.token, a).value <= MaxCount(r, a)
    requires now - Lookup(cs.time, a).value > DurationMs(r)
    ensures var verdict := Perform(r, size, cs, a, batch, now).0;
            && (batch <= TokenCount(r, a) ==> verdict == Pass)
            && (verdict == Pass ==>
                  DurationMs(r) * (batch - Lookup(cs.token, a).value) <= TokenCount(r, a) * (now - Lookup(cs.time, a).value))
  {
    hide AddedIfAbsent, Touched, Stored, Find, Lookup, Refilled, NoDuplicates, Lockstep;
    var rest, passTime := Lookup(cs.token, a).value, now - Lookup(cs.time, a).value;
    RefillIsCovered(r, a, rest, passTime, batch);
    RefillIsWhole(r, a, rest, passTime, batch);
    if Refilled(r, a, rest, passTime, batch) >= 0 {
      MulMono(DurationMs(r), batch - rest, Refilled(r, a, rest, passTime, batch) + batch - rest);
    }
  }

  lemma RefillIsWhole(r: Rule, a: Arg, rest: int, passTime: int, batch: nat)
    requires r.durationInSec > 0 && TokenCount(r, a) > 0 && passTime > DurationMs(r) && 0 <= rest
    ensures batch <= TokenCount(r, a) ==> Refilled(r, a, rest, passTime, batch) >= 0
    ensures Refilled(r, a, rest, passTime, batch) >= 0 ==> batch <= MaxCount(r, a)
  {
    var d, tc := DurationMs(r), TokenCount(r, a);
    var toAdd := passTime * tc / d;
    DivMod(passTime * tc, d);
    MulMono(tc, d, passTime);
    if toAdd < tc {
      MulMono(d, toAdd + 1, tc);
      MulDist(d, toAdd, 1);
    }
  }

  /** Only an argument with a positive token count gets cached. */
  lemma {:induction false} CachedIsPositive(r: Rule, size: int, cs: Caches, reqs: seq<Req>, a: Arg)
    requires r.durationInSec > 0 && Lookup(cs.time, a) == None
    requires reqs != [] && reqs[0].arg == a && StaysCached(r, size, cs, reqs, a)
    ensures TokenCount(r, a) > 0
  {
    if |reqs| > 1 {
      CachedIsPositive(r, size, cs, reqs[..|reqs| - 1], a);
    } else {
      assert AfterRun(r, size, cs, reqs[..0]) == cs;
      assert AfterRun(r, size, cs, reqs) == Perform(r, size, cs, a, reqs[0].batch, reqs[0].now).1;
    }
  }

  // ---------------------------------------------------------------- what a check decides

  /** The first use of an argument passes if its rate is positive and the batch is not above rate and burst; it leaves the rest. */
  lemma {:induction false} FirstUseDecides(r: Rule, size: int, cs: Caches, a: Arg, batch: nat, now: int)
    requires r.durationInSec > 0 && size > 0 && Sound(cs) && Lookup(cs.time, a) == None
    ensures var rate := if a in r.specificItems then r.specificItems[a] else r.threshold;
            var limit := rate + r.burstCount;
            var (verdict, next) := Perform(r, size, cs, a, batch, now);
            if rate > 0 && batch <= limit
            then verdict == Pass && Lookup(next.time, a) == Some(now) && Lookup(next.token, a) == Some(limit - batch)
            else verdict == Blocked && next == cs
  {
    AfterAdd(cs.time, size, a, now, a);
    AfterAdd(cs.token, size, a, MaxCount(r, a) - batch, a);
    SameKeysSameFind(cs.time, cs.token, a);
  }

  /** Up to a duration after the last refill a batch passes exactly if it is no more than what is left. */
  lemma {:induction false} WithinTheDurationDecides(r: Rule, size: int, cs: Caches, a: Arg, batch: nat, now: int, t1: int, left: int)
    requires r.durationInSec > 0 && size > 0 && Sound(cs) && Lookup(cs.time, a) == Some(t1) && Lookup(cs.token, a) == Some(left)
    requires now <= t1 + r.durationInSec * 1000
    requires var rate := if a in r.specificItems then r.specificItems[a] else r.threshold;
             rate > 0 && 0 <= left <= rate + r.burstCount
    ensures var (verdict, next) := Perform(r, size, cs, a, batch, now);
            && verdict == (if batch <= left then Pass else Blocked)
            && Lookup(next.time, a) == Some(t1)
            && Lookup(next.token, a) == Some(if batch <= left then left - batch else left)
  {
    hide AddedIfAbsent, Touched, Stored, Keys, NoDuplicates, Find, Lookup, Refilled;
    var time := AddedIfAbsent(cs.time, size, a, now);
    AfterAdd(cs.time, size, a, now, a);
    AfterTouch(cs.token, a, a);
    AfterStore(Touched(cs.token, a), a, left - batch, a);
  }

  /**
   Later than that the time since is worth tokens at the rate, rounded down, up to rate and burst; the batch passes exactly
   if it is no more than these, and only then the time counts as used.
   */
  lemma {:induction false} RefillDecides(r: Rule, size: int, cs: Caches, a: Arg, batch: nat, now: int, t1: int, left: int)
    requires r.durationInSec > 0 && size > 0 && Sound(cs) && Lookup(cs.time, a) == Some(t1) && Lookup(cs.token, a) == Some(left)
    requires now > t1 + r.durationInSec * 1000
    requires var rate := if a in r.specificItems then r.specificItems[a] else r.threshold;
             rate > 0 && 0 <= left <= rate + r.burstCount
    ensures var rate := if a in r.specificItems then r.specificItems[a] else r.threshold;
            var grown := Min(left + (now - t1) * rate / (r.durationInSec * 1000), rate + r.burstCount);
            var (verdict, next) := Perform(r, size, cs, a, batch, now);
            && verdict == (if batch <= grown then Pass else Blocked)
            && Lookup(next.time, a) == Some(if batch <= grown then now else t1)
            && Lookup(next.token, a) == Some(if batch <= grown then grown - batch else left)
  {
    hide AddedIfAbsent, Touched, Stored, Keys, NoDuplicates, Find, Lookup;
    var time, filled := AddedIfAbsent(cs.time, size, a, now), AddedIfAbsent(cs.token, size, a, MaxCount(r, a) - batch);
    AfterAdd(cs.time, size, a, now, a);
    AfterAdd(cs.token, size, a, MaxCount(r, a) - batch, a);
    AfterStore(time, a, now, a);
    AfterStore(filled, a, Refilled(r, a, left, now - t1, batch), a);
  }

  /** What is left of `left` after a run within a duration of the refill at `t1`. */
  predicate LeftOver(cs: Caches, a: Arg, t1: int, left: int) {
    Lookup(cs.time, a) == Some(t1) && Lookup(cs.token, a) == Some(left) && 0 <= left
  }

  lemma {:induction false} LeftOverStep(r: Rule, size: int, cs: Caches, q: Req, a: Arg, t1: int, left: int)
    requires r.durationInSec > 0 && size > 0 && Sound(cs) && LeftOver(cs, a, t1, left) && q.now <= t1 + r.durationInSec * 1000
    requires var rate := if a in r.specificItems then r.specificItems[a] else r.threshold; rate > 0 && left <= rate + r.burstCount
    requires Lookup(Perform(r, size, cs, q.arg, q.batch, q.now).1.time, a).Some?
    ensures var (verdict, next) := Perform(r, size, cs, q.arg, q.batch, q.now);
            && Sound(next)
            && LeftOver(next, a, t1, left - if q.arg == a && verdict == Pass then q.batch else 0)
  {
    hide Perform, Lookup, Lockstep, NoDuplicates;
    OthersAreKeptOrGone(r, size, cs, q.arg, q.batch, q.now, a);
    if q.arg == a {
      WithinTheDurationDecides(r, size, cs, a, q.batch, q.now, t1, left);
    } else {
      InLockstepBothPresent(Perform(r, size, cs, q.arg, q.batch, q.now).1, a);
    }
  }

  lemma {:induction false} LeftAfterRun(r: Rule, size: int, cs: Caches, reqs: seq<Req>, a: Arg, t1: int, left: int)
    requires r.durationInSec > 0 && size > 0 && Sound(cs) && LeftOver(cs, a, t1, left)
    requires var rate := if a in r.specificItems then r.specificItems[a] else r.threshold; rate > 0 && left <= rate + r.burstCount
    requires StaysCached(r, size, cs, reqs, a) && forall q :: q in reqs ==> q.now <= t1 + r.durationInSec * 1000
    ensures Sound(AfterRun(r, size, cs, reqs))
    ensures LeftOver(AfterRun(r, size, cs, reqs), a, t1, left - Admitted(r, size, cs, reqs, a))
  {
    hide Perform, Sound, LeftOver;
    if reqs != [] {
      var before, q := reqs[..|reqs| - 1], reqs[|reqs| - 1];
      LeftAfterRun(r, size, cs, before, a, t1, left);
      assert q in reqs;
      LeftOverStep(r, size, AfterRun(r, size, cs, before), q, a, t1, left - Admitted(r, size, cs, before, a));
    }
  }

  /**
   WITHIN A DURATION. From any refill at `t1` that left some tokens, as long as the argument stays cached, a request for it up
   to a duration later passes if and only if the batches let through since and its own are together no more than these.
   */
  lemma {:induction false} PassesIffLeftSinceRefill(r: Rule, size: int, cs: Caches, reqs: seq<Req>, q: Req, t1: int, left: int)
    requires r.durationInSec > 0 && size > 0 && Sound(cs) && Lookup(cs.time, q.arg) == Some(t1) && Lookup(cs.token, q.arg) == Some(left)
    requires var rate := if q.arg in r.specificItems then r.specificItems[q.arg] else r.threshold; rate > 0 && 0 <= left <= rate + r.burstCount
    requires StaysCached(r, size, cs, reqs, q.arg) && forall x :: x in reqs + [q] ==> x.now <= t1 + r.durationInSec * 1000
    ensures Perform(r, size, AfterRun(r, size, cs, reqs), q.arg, q.batch, q.now).0 ==
              if Admitted(r, size, cs, reqs, q.arg) + q.batch <= left then Pass else Blocked
  {
    hide Perform, Sound, AfterRun, Admitted, StaysCached, Lookup;
    assert q in reqs + [q] && forall x :: x in reqs ==> x in reqs + [q];
    LeftAfterRun(r, size, cs, reqs, q.arg, t1, left);
    WithinTheDurationDecides(r, size, AfterRun(r, size, cs, reqs), q.arg, q.batch, q.now, t1, left - Admitted(r, size, cs, reqs, q.arg));
  }

  lemma {:induction false} LeftSinceFirstUse(r: Rule, size: int, cs: Caches, reqs: seq<Req>, a: Arg)
    requires r.durationInSec > 0 && size > 0 && Sound(cs) && Lookup(cs.time, a) == None
    requires reqs != [] && reqs[0].arg == a && StaysCached(r, size, cs, reqs, a)
    requires forall q :: q in reqs ==> q.now <= reqs[0].now + r.durationInSec * 1000
    ensures Sound(AfterRun(r, size, cs, reqs))
    ensures var rate := if a in r.specificItems then r.specificItems[a] else r.threshold;
            rate > 0 && LeftOver(AfterRun(r, size, cs, reqs), a, reqs[0].now, rate + r.burstCount - Admitted(r, size, cs, reqs, a))
  {
    hide Perform, Sound;
    var before, q := reqs[..|reqs| - 1], reqs[|reqs| - 1];
    if before == [] {
      assert AfterRun(r, size, cs, reqs) == Perform(r, size, cs, a, q.batch, q.now).1;
      assert Admitted(r, size, cs, reqs, a) == if Perform(r, size, cs, a, q.batch, q.now).0 == Pass then q.batch else 0;
      OthersAreKeptOrGone(r, size, cs, a, q.batch, q.now, a);
      FirstUseDecides(r, size, cs, a, q.batch, q.now);
    } else {
      LeftSinceFirstUse(r, size, cs, before, a);
      assert q in reqs;
      var rate := if a in r.specificItems then r.specificItems[a] else r.threshold;
      LeftOverStep(r, size, AfterRun(r, size, cs, before), q, a, reqs[0].now, rate + r.burstCount - Admitted(r, size, cs, before, a));
    }
  }

  /**
   FROM THE FIRST USE. From the first use of an argument, as long as it stays cached, a request for it up to a duration later
   passes if and only if the batches let through so far and its own are together at most its rate and the burst.
   */
  lemma {:induction false} PassesIffLeftSinceFirstUse(r: Rule, size: int, cs: Caches, reqs: seq<Req>, q: Req)
    requires r.durationInSec > 0 && size > 0 && Sound(cs) && Lookup(cs.time, q.arg) == None
    requires reqs != [] && reqs[0].arg == q.arg && StaysCached(r, size, cs, reqs, q.arg)
    requires forall x :: x in reqs + [q] ==> x.now <= reqs[0].now + r.durationInSec * 1000
    ensures var limit := (if q.arg in r.specificItems then r.specificItems[q.arg] else r.threshold) + r.burstCount;
            Perform(r, size, AfterRun(r, size, cs, reqs), q.arg, q.batch, q.now).0 ==
              if Admitted(r, size, cs, reqs, q.arg) + q.batch <= limit then Pass else Blocked
  {
    hide Perform, Sound, AfterRun, Admitted, StaysCached, Lookup;
    assert q in reqs + [q] && forall x :: x in reqs ==> x in reqs + [q];
    LeftSinceFirstUse(r, size, cs, reqs, q.arg);
    var limit := (if q.arg in r.specificItems then r.specificItems[q.arg] else r.threshold) + r.burstCount;
    WithinTheDurationDecides(r, size, AfterRun(r, size, cs, reqs), q.arg, q.batch, q.now, reqs[0].now, limit - Admitted(r, size, cs, reqs, q.arg));
  }

  // ---------------------------------------------------------------- the controller

  class RejectTrafficShapingController {
    const rule: Rule
    const timeCounter: LRU<Arg, int>
    const tokenCounter: LRU<Arg, int>

    /** The two caches are separate objects of the same size. */
    ghost predicate Separate()
      reads timeCounter, tokenCounter
    {
      && rule.durationInSec > 0
      && timeCounter != tokenCounter && timeCounter.size == tokenCounter.size > 0
      && timeCounter.Valid() && tokenCounter.Valid()
      && forall e :: e in timeCounter.evictList ==> e !in tokenCounter.evictList
    }

    ghost predicate Valid()
      reads timeCounter, tokenCounter, timeCounter.evictList, tokenCounter.evictList
    {
      Separate() && Lockstep(Counters())
    }

    ghost function Counters(): Caches
      reads timeCounter, tokenCounter, timeCounter.evictList, tokenCounter.evictList
    {
      Caches(timeCounter.Contents(), tokenCounter.Contents())
    }

    constructor (rule: Rule, size: int)
      requires rule.durationInSec > 0 && size > 0
      ensures Valid() && this.rule == rule && Counters() == Caches([], []) && timeCounter.size == size
      ensures fresh(timeCounter) && fresh(tokenCounter)
    {
      this.rule := rule;
      timeCounter := new LRU<Arg, int>(size);
      tokenCounter := new LRU<Arg, int>(size);
    }

    /** Goes round until a round decides, which the first one does. */
    method PerformChecking(arg: Arg, batchCount: nat, now: int) returns (verdict: Verdict)
      requires Valid()
      modifies timeCounter, tokenCounter, timeCounter.evictList, tokenCounter.evictList
      ensures Valid() && verdict != Spin
      ensures (verdict, Counters()) == Perform(rule, timeCounter.size, old(Counters()), arg, batchCount, now)
    {
      ghost var before := Counters();
      LockstepIsKept(rule, timeCounter.size, before, arg, batchCount, now);
      if TokenCount(rule, arg) <= 0 {
        return Blocked;
      }
      if batchCount > MaxCount(rule, arg) {
        return Blocked;
      }
      verdict := Spin;
      while verdict == Spin
        invariant timeCounter.size == old(timeCounter.size)
        invariant verdict == Spin ==> timeCounter.evictList == old(timeCounter.evictList) && tokenCounter.evictList == old(tokenCounter.evictList)
        invariant verdict == Spin ==> Separate() && Counters() == before
        invariant verdict != Spin ==> Separate() && (verdict, Counters()) == Perform(rule, timeCounter.size, before, arg, batchCount, now)
        decreases verdict == Spin
      {
        verdict := CheckOnce(arg, batchCount, now);
      }
    }

    /** One round of the loop, whatever the caches hold. */
    method CheckOnce(arg: Arg, batchCount: nat, now: int) returns (verdict: Verdict)
      requires Separate() && !RefusedAtOnce(rule, arg, batchCount)
      modifies timeCounter, tokenCounter, timeCounter.evictList, tokenCounter.evictList
      ensures Separate() && timeCounter.size == old(timeCounter.size)
      ensures (verdict, Counters()) == Perform(rule, timeCounter.size, old(Counters()), arg, batchCount, now)
    {
      hide Agree, Find, ToFront, Without, Push, EntriesOf, Stored, Touched, AddedIfAbsent, PositionIn, Keys;
      ghost var cs := Counters();
      var leftCount := MaxCount(rule, arg) - batchCount;
      var lastAddTokenTime := timeCounter.AddIfAbsent(arg, now);
      assert tokenCounter.Contents() == cs.token;
      if lastAddTokenTime == null {
        var _ := tokenCounter.AddIfAbsent(arg, leftCount);
        return Pass;
      }
      var passTime := now - lastAddTokenTime.value;
      if passTime > DurationMs(rule) {
        verdict := Refill(arg, batchCount, now, lastAddTokenTime, passTime);
      } else {
        verdict := Consume(arg, batchCount);
      }
    }

    /** More than a whole duration has passed: tokens come in before the batch is taken out. */
    method Refill(arg: Arg, batchCount: nat, now: int, lastAddTokenTime: Element<Arg, int>, passTime: int) returns (verdict: Verdict)
      requires Separate() && lastAddTokenTime in timeCounter.evictList && lastAddTokenTime.key == arg
      modifies tokenCounter, tokenCounter.evictList, lastAddTokenTime
      ensures Separate() && timeCounter.size == old(timeCounter.size)
      ensures var filled := AddedIfAbsent(old(tokenCounter.Contents()), timeCounter.size, arg, MaxCount(rule, arg) - batchCount);
              var rest := Lookup(old(tokenCounter.Contents()), arg);
              var time := old(timeCounter.Contents());
              (verdict, Counters()) ==
                if rest == None then (Pass, Caches(Stored(time, arg, now), filled))
                else
                  var newQps := Refilled(rule, arg, rest.value, passTime, batchCount);
                  if newQps < 0 then (Blocked, Caches(time, filled))
                  else (Pass, Caches(Stored(time, arg, now), Stored(filled, arg, newQps)))
    {
      hide Agree, Find, ToFront, Without, Push, EntriesOf, Stored, Touched, AddedIfAbsent, PositionIn, Keys;
      ghost var time := timeCounter.Contents();
      var oldQps := tokenCounter.AddIfAbsent(arg, MaxCount(rule, arg) - batchCount);
      assert timeCounter.Contents() == time;
      if oldQps == null {
        timeCounter.StoreThrough(lastAddTokenTime, now);
        return Pass;
      }
      var newQps := Refilled(rule, arg, oldQps.value, passTime, batchCount);
      if newQps < 0 {
        return Blocked;
      }
      tokenCounter.StoreThrough(oldQps, newQps);
      assert timeCounter.Contents() == time;
      timeCounter.StoreThrough(lastAddTokenTime, now);
      return Pass;
    }

    /** Within the duration: the batch comes out of what is left. */
    method Consume(arg: Arg, batchCount: nat) returns (verdict: Verdict)
      requires Separate()
      modifies tokenCounter, tokenCounter.evictList
      ensures Separate() && timeCounter.size == old(timeCounter.size)
      ensures timeCounter.Contents() == old(timeCounter.Contents())
      ensures var touched := Touched(old(tokenCounter.Contents()), arg);
              var rest := Lookup(old(tokenCounter.Contents()), arg);
              (verdict, tokenCounter.Contents()) ==
                if rest == None then (Spin, touched)
                else if rest.value - batchCount >= 0 then (Pass, Stored(touched, arg, rest.value - batchCount))
                else (Blocked, touched)
    {
      hide Agree, Find, ToFront, Without, Push, EntriesOf, Stored, Touched, AddedIfAbsent, PositionIn, Keys;
      var oldQps := tokenCounter.Get(arg);
      if oldQps == null {
        return Spin;
      }
      if oldQps.value - batchCount >= 0 {
        tokenCounter.StoreThrough(oldQps, oldQps.value - batchCount);
        return Pass;
      }
      return Blocked;
    }
  }
}
