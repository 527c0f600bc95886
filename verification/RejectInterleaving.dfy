/**
 The reject checker shared by any number of goroutines (core/flow/tc_default.go). The check takes no lock: it
 reads the count, adds the batch, reads again and takes the batch back if the limit is exceeded. Each of these
 is one atomic step on the window count.
 */
module RejectInterleaving {
  /** A goroutine: idle, past the first test, with its batch added, or about to take it back. */
  datatype Thread = Idle | Tested(batch: nat) | Added(batch: nat) | TakingBack(batch: nat)

  datatype World = World(count: int, admitted: nat, threads: seq<Thread>)

  function Initial(threads: nat): World {
    World(0, 0, seq(threads, _ => Idle))
  }

  /** One atomic step of goroutine `t`; an idle one starts a request with the given batch. */
  function Act(threshold: real, w: World, t: nat, batch: nat): World
    requires t < |w.threads|
  {
    match w.threads[t]
    case Idle => if w.count as real > threshold then w else w.(threads := w.threads[t := Tested(batch)])
    case Tested(b) => w.(count := w.count + b, threads := w.threads[t := Added(b)])
    case Added(b) =>
      if w.count as real > threshold then w.(threads := w.threads[t := TakingBack(b)])
      else w.(admitted := w.admitted + b, threads := w.threads[t := Idle])
    case TakingBack(b) => w.(count := w.count - b, threads := w.threads[t := Idle])
  }

  function Run(threshold: real, threads: nat, schedule: seq<(nat, nat)>): (w: World)
    ensures |w.threads| == threads
  {
    if schedule == [] then Initial(threads)
    else
      var w := Run(threshold, threads, schedule[..|schedule| - 1]);
      var (t, batch) := schedule[|schedule| - 1];
      if t < threads then Act(threshold, w, t, batch) else w
  }

  function TentativeOf(thread: Thread): nat {
    match thread
    case Added(b) => b
    case TakingBack(b) => b
    case _ => 0
  }

  /** Batches that have been added and are neither admitted nor taken back yet. */
  function Tentative(threads: seq<Thread>): nat {
    if threads == [] then 0 else Tentative(threads[..|threads| - 1]) + TentativeOf(threads[|threads| - 1])
  }

  lemma {:induction false} TentativeUpdate(threads: seq<Thread>, t: nat, thread: Thread)
    requires t < |threads|
    ensures Tentative(threads[t := thread]) == Tentative(threads) - TentativeOf(threads[t]) + TentativeOf(thread)
    ensures TentativeOf(threads[t]) <= Tentative(threads)
  {
    var n := |threads| - 1;
    if t == n {
      assert threads[t := thread][..n] == threads[..n];
    } else {
      TentativeUpdate(threads[..n], t, thread);
      assert threads[t := thread][..n] == threads[..n][t := thread];
    }
  }

  lemma {:induction false} NothingTentativeAtFirst(threads: nat)
    ensures Tentative(seq(threads, _ => Idle)) == 0
  {
    if threads > 0 {
      assert seq(threads, _ => Idle)[..threads - 1] == seq(threads - 1, _ => Idle);
      NothingTentativeAtFirst(threads - 1);
    }
  }

  /**
   NO OVER-ADMISSION. Under any interleaving of any number of goroutines the count is what has been admitted
   plus what is tentative, and what has been admitted never exceeds the threshold.
   */
  lemma {:induction false} NeverOverAdmits(threshold: real, threads: nat, schedule: seq<(nat, nat)>)
    ensures var w := Run(threshold, threads, schedule);
            && w.count == w.admitted + Tentative(w.threads)
            && (w.admitted == 0 || w.admitted as real <= threshold)
  {
    if schedule == [] {
      NothingTentativeAtFirst(threads);
    } else {
      var before := schedule[..|schedule| - 1];
      var (t, batch) := schedule[|schedule| - 1];
      NeverOverAdmits(threshold, threads, before);
      var w := Run(threshold, threads, before);
      if t < threads {
        TentativeUpdate(w.threads, t, Act(threshold, w, t, batch).threads[t]);
        assert w.threads[t := w.threads[t]] == w.threads;
      }
    }
  }

  /** Once every goroutine is idle again nothing of the rejected requests is left in the count. */
  lemma {:induction false} QuiescentCountIsAdmitted(threshold: real, threads: nat, schedule: seq<(nat, nat)>)
    requires forall t :: 0 <= t < threads ==> Run(threshold, threads, schedule).threads[t] == Idle
    ensures Run(threshold, threads, schedule).count == Run(threshold, threads, schedule).admitted
  {
    var w := Run(threshold, threads, schedule);
    NeverOverAdmits(threshold, threads, schedule);
    assert w.threads == seq(threads, _ => Idle);
    NothingTentativeAtFirst(threads);
  }

  // ---------------------------------------------------------------- a goroutine on its own

  /** Goroutine `t` goes on with its request to the end, and no other one takes a step. */
  function Finished(threshold: real, w: World, t: nat): World
    requires t < |w.threads|
    decreases match w.threads[t] case Idle => 0 case TakingBack(_) => 1 case Added(_) => 2 case Tested(_) => 3
  {
    if w.threads[t] == Idle then w else Finished(threshold, Act(threshold, w, t, 0), t)
  }

  lemma FinishedNext(threshold: real, w: World, t: nat)
    requires t < |w.threads|
    ensures Finished(threshold, w, t) == if w.threads[t] == Idle then w else Finished(threshold, Act(threshold, w, t, 0), t)
  {
  }

  /**
   ON ITS OWN. A request that no other goroutine comes between is admitted if and only if it fits, and otherwise leaves no
   trace; it is turned away at once if and only if the count is over the threshold already.
   */
  lemma {:induction false} RequestAlone(threshold: real, w: World, t: nat, batch: nat)
    requires t < |w.threads| && w.threads[t] == Idle
    ensures Finished(threshold, Act(threshold, w, t, batch), t) ==
              if w.count as real <= threshold && (w.count + batch) as real <= threshold
              then w.(count := w.count + batch, admitted := w.admitted + batch)
              else w
    ensures Act(threshold, w, t, batch) == w <==> w.count as real > threshold
  {
    hide Finished;
    var w1 := Act(threshold, w, t, batch);
    var w2 := Act(threshold, w1, t, 0);
    var w3 := Act(threshold, w2, t, 0);
    FinishedNext(threshold, w1, t);
    if w1.threads[t] != Idle {
      FinishedNext(threshold, w2, t);
      FinishedNext(threshold, w3, t);
      FinishedNext(threshold, Act(threshold, w3, t, 0), t);
    }
  }
}
