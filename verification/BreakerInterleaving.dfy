/**
 One circuit breaker shared by any number of goroutines (core/circuitbreaker/circuit_breaker.go). Every atomic
 load, store, add and compare-and-set of `TryPass`, `OnRequestComplete` and the exit hook is one step, and the
 scheduler may interleave the steps of the goroutines in any order.
 */
module BreakerInterleaving {
  import opened CircuitBreakers
  import opened Prelude

  /** Where a goroutine stands: the next atomic step it will take. */
  datatype Pc =
    | Idle
    | PassLoad                  // TryPass: load the state
    | PassCas                   // TryPass: Open, retry time reached, compare-and-set to HalfOpen
    | DoneLoad(bad: bool)       // OnRequestComplete: load the state
    | DoneAddProbe              // good probe: add to the probe counter
    | DoneLoadProbe             // good probe: load the probe counter
    | DoneCloseCas              // enough probes: compare-and-set HalfOpen to Closed
    | DoneReload                // threshold exceeded while closed: load the state again
    | DoneTripCas               // compare-and-set Closed to Open
    | DoneFailCas               // compare-and-set HalfOpen to Open
    | ResetProbe                // store 0 in the probe counter
    | HookCas                   // exit hook of a blocked probe: compare-and-set HalfOpen to Open

  datatype Admission = ByClosed | ByProbe | ByHalfOpen

  /** What an observer of the breaker sees, in order. */
  datatype Event = Moved(from: State, to: State) | Admitted(how: Admission)

  datatype World = World(state: State, curProbe: nat, threads: seq<Pc>, history: seq<Event>)

  /** Everything a step does not decide itself: which call an idle goroutine starts, and what clock and counts say. */
  datatype Choice = Choice(start: Pc, retryArrived: bool, trips: bool)

  predicate Startable(pc: Pc) {
    pc.PassLoad? || pc.DoneLoad? || pc.HookCas? || pc.Idle?
  }

  function Initial(threads: nat): World {
    World(Closed, 0, seq(threads, _ => Idle), [])
  }

  function Goto(w: World, t: nat, pc: Pc): World
    requires t < |w.threads|
  {
    w.(threads := w.threads[t := pc])
  }

  /** A compare-and-set on the state: on success it is visible and the goroutine goes on at `then'`. */
  function Cas(w: World, t: nat, from: State, to: State, then': Pc, else': Pc): World
    requires t < |w.threads|
  {
    if w.state == from then Goto(w.(state := to, history := w.history + [Moved(from, to)]), t, then')
    else Goto(w, t, else')
  }

  function Admit(w: World, how: Admission): World {
    w.(history := w.history + [Admitted(how)])
  }

  /** One atomic step of goroutine `t`. */
  function Act(probeNum: nat, w: World, t: nat, choice: Choice): World
    requires t < |w.threads|
  {
    match w.threads[t]
    case Idle => if Startable(choice.start) then Goto(w, t, choice.start) else w
    case PassLoad => (
      match w.state
      case Closed => Goto(Admit(w, ByClosed), t, Idle)
      case Open => Goto(w, t, if choice.retryArrived then PassCas else Idle)
      case HalfOpen => if probeNum > 0 then Goto(Admit(w, ByHalfOpen), t, Idle) else Goto(w, t, Idle))
    case PassCas =>
      var w' := Cas(w, t, Open, HalfOpen, Idle, Idle);
      if w.state == Open then Admit(w', ByProbe) else w'
    case DoneLoad(bad) => (
      match w.state
      case Open => Goto(w, t, Idle)
      case HalfOpen => Goto(w, t, if bad then DoneFailCas else DoneAddProbe)
      case Closed => Goto(w, t, if choice.trips then DoneReload else Idle))
    case DoneAddProbe => Goto(w.(curProbe := w.curProbe + 1), t, DoneLoadProbe)
    case DoneLoadProbe => Goto(w, t, if probeNum == 0 || w.curProbe >= probeNum then DoneCloseCas else Idle)
    case DoneCloseCas => Cas(w, t, HalfOpen, Closed, ResetProbe, Idle)
    case DoneReload => (
      match w.state
      case Closed => Goto(w, t, DoneTripCas)
      case HalfOpen => Goto(w, t, DoneFailCas)
      case Open => Goto(w, t, Idle))
    case DoneTripCas => Cas(w, t, Closed, Open, Idle, Idle)
    case DoneFailCas => Cas(w, t, HalfOpen, Open, ResetProbe, Idle)
    case ResetProbe => Goto(w.(curProbe := 0), t, Idle)
    case HookCas => Cas(w, t, HalfOpen, Open, Idle, Idle)
  }

  /** A schedule names the goroutine of every step. */
  function Run(probeNum: nat, threads: nat, schedule: seq<(nat, Choice)>): (w: World)
    ensures |w.threads| == threads
  {
    if schedule == [] then Initial(threads)
    else
      var w := Run(probeNum, threads, schedule[..|schedule| - 1]);
      var (t, choice) := schedule[|schedule| - 1];
      if t < threads then Act(probeNum, w, t, choice) else w
  }

  // ---------------------------------------------------------------- what an observer can rely on

  /** The edges of the state machine diagram. */
  predicate LegalEdge(from: State, to: State) {
    || (from == Closed && to == Open)
    || (from == Open && to == HalfOpen)
    || (from == HalfOpen && to == Open)
    || (from == HalfOpen && to == Closed)
  }

  /** The moves in the history form a path of the diagram from Closed to the given state. */
  predicate PathTo(history: seq<Event>, state: State) {
    if history == [] then state == Closed
    else
      var rest, e := history[..|history| - 1], history[|history| - 1];
      match e
      case Moved(from, to) => to == state && LegalEdge(from, to) && PathTo(rest, from)
      case Admitted(_) => PathTo(rest, state)
  }

  function Moves(history: seq<Event>, from: State, to: State): nat {
    if history == [] then 0
    else Moves(history[..|history| - 1], from, to) + (if history[|history| - 1] == Moved(from, to) then 1 else 0)
  }

  /** Requests let through since the last move by anyone who did not find the breaker closed. */
  function EpisodeAdmissions(history: seq<Event>): nat {
    if history == [] then 0
    else
      var rest := history[..|history| - 1];
      match history[|history| - 1]
      case Moved(_, _) => 0
      case Admitted(how) => EpisodeAdmissions(rest) + (if how == ByClosed then 0 else 1)
  }

  lemma PathAppend(history: seq<Event>, state: State, e: Event)
    requires PathTo(history, state)
    ensures e.Admitted? ==> PathTo(history + [e], state)
    ensures e.Moved? && e.from == state && LegalEdge(e.from, e.to) ==> PathTo(history + [e], e.to)
  {
    assert (history + [e])[..|history|] == history;
  }

  lemma EpisodeAppend(history: seq<Event>, e: Event)
    ensures EpisodeAdmissions(history + [e]) ==
              if e.Moved? then 0 else EpisodeAdmissions(history) + (if e.how == ByClosed then 0 else 1)
  {
    assert (history + [e])[..|history|] == history;
  }

  /**
   Under any interleaving of any number of goroutines the successful compare-and-sets follow the diagram, one
   after the other, and end in the current state.
   */
  lemma {:induction false} MovesFollowTheDiagram(probeNum: nat, threads: nat, schedule: seq<(nat, Choice)>)
    ensures PathTo(Run(probeNum, threads, schedule).history, Run(probeNum, threads, schedule).state)
  {
    if schedule != [] {
      var before := schedule[..|schedule| - 1];
      var (t, choice) := schedule[|schedule| - 1];
      MovesFollowTheDiagram(probeNum, threads, before);
      var w := Run(probeNum, threads, before);
      if t < threads {
        forall e { PathAppend(w.history, w.state, e); }
        if w.threads[t] == PassCas && w.state == Open {
          PathAppend(w.history + [Moved(Open, HalfOpen)], HalfOpen, Admitted(ByProbe));
        }
      }
    }
  }

  /** A path of the diagram balances: what enters a state and what leaves it differ by where the path ends. */
  lemma {:induction false} PathBalances(history: seq<Event>, state: State)
    requires PathTo(history, state)
    ensures Moves(history, Closed, Open) == Moves(history, HalfOpen, Closed) + (if state == Closed then 0 else 1)
    ensures Moves(history, Open, HalfOpen) ==
              Moves(history, HalfOpen, Open) + Moves(history, HalfOpen, Closed) + (if state == HalfOpen then 1 else 0)
  {
    if history != [] {
      var rest, e := history[..|history| - 1], history[|history| - 1];
      PathBalances(rest, if e.Moved? then e.from else state);
    }
  }

  /** BALANCE. Transition counts balance with the current state, whatever the interleaving. */
  lemma {:induction false} TransitionsBalance(probeNum: nat, threads: nat, schedule: seq<(nat, Choice)>)
    ensures var w := Run(probeNum, threads, schedule);
            && Moves(w.history, Closed, Open) == Moves(w.history, HalfOpen, Closed) + (if w.state == Closed then 0 else 1)
            && Moves(w.history, Open, HalfOpen) ==
                 Moves(w.history, HalfOpen, Open) + Moves(w.history, HalfOpen, Closed) + (if w.state == HalfOpen then 1 else 0)
  {
    MovesFollowTheDiagram(probeNum, threads, schedule);
    PathBalances(Run(probeNum, threads, schedule).history, Run(probeNum, threads, schedule).state);
  }

  /**
   ONE PROBE PER EPISODE. With `ProbeNum` 0, exactly one request gets through each half-open episode on the
   breaker's word, and none in any other state, unless it had already found the breaker closed.
   */
  lemma {:induction false} OneProbePerEpisode(threads: nat, schedule: seq<(nat, Choice)>)
    ensures var w := Run(0, threads, schedule);
            EpisodeAdmissions(w.history) == if w.state == HalfOpen then 1 else 0
  {
    if schedule != [] {
      var before := schedule[..|schedule| - 1];
      var (t, choice) := schedule[|schedule| - 1];
      OneProbePerEpisode(threads, before);
      if t < threads {
        StepKeepsOneProbe(Run(0, threads, before), t, choice);
      }
    }
  }

  predicate OneProbe(w: World) {
    EpisodeAdmissions(w.history) == if w.state == HalfOpen then 1 else 0
  }

  lemma {:induction false} StepKeepsOneProbe(w: World, t: nat, choice: Choice)
    requires t < |w.threads| && OneProbe(w)
    ensures OneProbe(Act(0, w, t, choice))
  {
    var h, pc := w.history, w.threads[t];
    EpisodeAppend(h, Admitted(ByClosed));
    EpisodeAppend(h, Moved(Closed, Open));
    EpisodeAppend(h, Moved(HalfOpen, Open));
    EpisodeAppend(h, Moved(HalfOpen, Closed));
    EpisodeAppend(h, Moved(Open, HalfOpen));
    EpisodeAppend(h + [Moved(Open, HalfOpen)], Admitted(ByProbe));
  }

  // ---------------------------------------------------------------- a goroutine on its own

  /** How many steps a call can still take. */
  function StepsLeft(pc: Pc): nat {
    match pc
    case DoneLoad(_) => 5
    case DoneAddProbe => 4
    case DoneLoadProbe | DoneReload => 3
    case DoneCloseCas | DoneTripCas | DoneFailCas | PassLoad => 2
    case PassCas | ResetProbe | HookCas => 1
    case Idle => 0
  }

  /** Goroutine `t` goes on with its call to the end, and no other one takes a step. */
  function Finished(probeNum: nat, w: World, t: nat, choice: Choice): World
    requires t < |w.threads|
    decreases StepsLeft(w.threads[t])
  {
    if w.threads[t] == Idle then w else Finished(probeNum, Act(probeNum, w, t, choice), t, choice)
  }

  lemma FinishedNext(probeNum: nat, w: World, t: nat, choice: Choice)
    requires t < |w.threads| && w.threads[t] != Idle
    ensures Finished(probeNum, w, t, choice) == Finished(probeNum, Act(probeNum, w, t, choice), t, choice)
  {
  }

  lemma FinishedAtIdle(probeNum: nat, w: World, t: nat, choice: Choice)
    requires t < |w.threads| && w.threads[t] == Idle
    ensures Finished(probeNum, w, t, choice) == w
  {
  }

  /** The call that goroutine `t` starts, from beginning to end. */
  function Called(probeNum: nat, w: World, t: nat, choice: Choice): World
    requires t < |w.threads|
  {
    Finished(probeNum, Act(probeNum, w, t, choice), t, choice)
  }

  function MovedBy(before: State, after: State): seq<Event> {
    if before == after then [] else [Moved(before, after)]
  }

  /**
   A REQUEST ON ITS OWN. If no other goroutine comes between, a request changes the state as with atomic calls, and it is
   let through exactly if it is with these.
   */
  lemma {:induction false} RequestAlone(r: Rule, w: World, t: nat, ctl: Control, choice: Choice, now: nat)
    requires t < |w.threads| && w.threads[t] == Idle && w.state == ctl.state && w.curProbe == ctl.curProbe
    requires choice.start == PassLoad && choice.retryArrived == (now >= ctl.nextRetry)
    ensures var after := AfterTryPass(r, ctl, now);
            var how := match ctl.state case Closed => ByClosed case Open => ByProbe case HalfOpen => ByHalfOpen;
            Called(r.probeNum, w, t, choice) ==
              World(after.state, after.curProbe, w.threads,
                w.history + MovedBy(ctl.state, after.state) + if Passes(r, ctl, now) then [Admitted(how)] else [])
  {
    hide Finished;
    var p := r.probeNum;
    var w1 := Act(p, w, t, choice);
    FinishedNext(p, w1, t, choice);
    var w2 := Act(p, w1, t, choice);
    if w2.threads[t] != Idle {
      FinishedNext(p, w2, t, choice);
      FinishedAtIdle(p, Act(p, w2, t, choice), t, choice);
    } else {
      FinishedAtIdle(p, w2, t, choice);
    }
  }

  /** A COMPLETION ON ITS OWN. It changes the state and the probe counter as with atomic calls. */
  lemma {:induction false} CompletionAlone(r: Rule, w: World, t: nat, ctl: Control, choice: Choice, now: nat)
    requires t < |w.threads| && w.threads[t] == Idle && w.state == ctl.state && w.curProbe == ctl.curProbe
    requires choice.start.DoneLoad?
    ensures var after := AfterCompletion(r, ctl, choice.start.bad, choice.trips, now);
            Called(r.probeNum, w, t, choice) == World(after.state, after.curProbe, w.threads, w.history + MovedBy(ctl.state, after.state))
  {
    hide Finished;
    var p := r.probeNum;
    var w1 := Act(p, w, t, choice);
    FinishedNext(p, w1, t, choice);
    var w2 := Act(p, w1, t, choice);
    if w2.threads[t] == Idle {
      FinishedAtIdle(p, w2, t, choice);
    } else {
      FinishedNext(p, w2, t, choice);
      var w3 := Act(p, w2, t, choice);
      FinishedNext(p, w3, t, choice);
      var w4 := Act(p, w3, t, choice);
      if w4.threads[t] == Idle {
        FinishedAtIdle(p, w4, t, choice);
      } else {
        FinishedNext(p, w4, t, choice);
        var w5 := Act(p, w4, t, choice);
        FinishedNext(p, w5, t, choice);
        FinishedAtIdle(p, Act(p, w5, t, choice), t, choice);
      }
    }
  }

  /** THE HOOK ON ITS OWN. That of a blocked entry changes the state as with atomic calls. */
  lemma {:induction false} HookAlone(probeNum: nat, w: World, t: nat, ctl: Control, choice: Choice)
    requires t < |w.threads| && w.threads[t] == Idle && w.state == ctl.state && choice.start == HookCas
    ensures var after := AfterExitHook(ctl, true);
            Called(probeNum, w, t, choice) == World(after.state, w.curProbe, w.threads, w.history + MovedBy(ctl.state, after.state))
  {
    var w1 := Act(probeNum, w, t, choice);
    FinishedNext(probeNum, w1, t, choice);
    FinishedAtIdle(probeNum, Act(probeNum, w1, t, choice), t, choice);
  }
}
