/**
 Requests in flight: over any interleaving of entries and exits a node's concurrency is the number of entries let in
 and not yet exited, and the isolation rules bound it.
 */
module EntryRuns {
  import opened MetricBuckets
  import opened Prelude
  import opened SlotChains

  /** An entry that was let in, with the context it holds. */
  datatype Ticket = Ticket(resource: string, flow: Flow, batch: nat, ctx: nat, inFlight: bool)

  /** Contexts are known by number; `marks` says which have an error set, `pool` which are free. */
  datatype World = World(nodes: map<string, NodeState>, inbound: NodeState, tickets: seq<Ticket>, marks: seq<bool>, pool: set<nat>)

  /** A caller enters, on a free context or a new one, or exits with the `i`-th entry that was let in. */
  datatype Act = Come(resource: string, flow: Flow, batch: nat, env: int, reuse: nat) | Go(i: nat, rt: int, failed: bool)

  datatype Chain = Chain(checks: seq<CheckSlot>, routers: seq<CheckSlot>)

  function NodeAt(w: World, resource: string): NodeState {
    if resource in w.nodes then w.nodes[resource] else NEW_NODE
  }

  function Verdict(c: Chain, w: World, a: Act): Option<BlockType>
    requires a.Come?
  {
    Decide(c.checks, c.routers, Input(a.resource, a.flow, a.batch, NodeAt(w, a.resource).concurrency, a.env))
  }

  /** The context that an entry gets. */
  function Taken(w: World, reuse: nat): nat {
    if reuse in w.pool && reuse < |w.marks| then reuse else |w.marks|
  }

  function MarksWith(marks: seq<bool>, ctx: nat, mark: bool): seq<bool> {
    if ctx < |marks| then marks[ctx := mark] else marks
  }

  /**
   Each call is one step. A blocked entry gives its context back at once. An exit with an error sets it on the context
   whether or not the entry has exited before; only the first exit records and gives the context back, cleared.
   */
  function StepWorld(c: Chain, w: World, a: Act): World {
    match a
    case Come(resource, flow, batch, _, reuse) =>
      var blocked, ctx := Verdict(c, w, a), Taken(w, reuse);
      var marks := if ctx == |w.marks| then w.marks + [false] else w.marks;
      World(
        w.nodes[resource := Entered(NodeAt(w, resource), blocked, batch)],
        if flow == Inbound then EnteredInbound(w.inbound, blocked, batch) else w.inbound,
        w.tickets + (if blocked == None then [Ticket(resource, flow, batch, ctx, true)] else []),
        if blocked == None then marks else MarksWith(marks, ctx, false),
        if blocked == None then w.pool - {ctx} else w.pool + {ctx})
    case Go(i, rt, failed) =>
      if i >= |w.tickets| then w
      else
        var t := w.tickets[i];
        var marks := if failed then MarksWith(w.marks, t.ctx, true) else w.marks;
        if !t.inFlight then w.(marks := marks)
        else
          var error := t.ctx < |marks| && marks[t.ctx];
          World(
            w.nodes[t.resource := CompletedOn(NodeAt(w, t.resource), t.batch, rt, error)],
            if t.flow == Inbound then CompletedOn(w.inbound, t.batch, rt, error) else w.inbound,
            w.tickets[i := t.(inFlight := false)],
            MarksWith(marks, t.ctx, false),
            w.pool + {t.ctx})
  }

  function RunWorld(c: Chain, acts: seq<Act>): World {
    if acts == [] then World(map[], NEW_NODE, [], [], {}) else StepWorld(c, RunWorld(c, acts[..|acts| - 1]), acts[|acts| - 1])
  }

  // ---------------------------------------------------------------- conservation

  /** Whose node: that of a resource, or the one of all inbound traffic. */
  datatype Who = Of(resource: string) | AllInbound

  predicate Belongs(t: Ticket, who: Who) {
    match who
    case Of(resource) => t.resource == resource
    case AllInbound => t.flow == Inbound
  }

  function StateFor(w: World, who: Who): NodeState {
    match who
    case Of(resource) => NodeAt(w, resource)
    case AllInbound => w.inbound
  }

  /** One for an entry in flight, nothing for any other. */
  function Weight(t: Ticket, who: Who): nat {
    if t.inFlight && Belongs(t, who) then 1 else 0
  }

  function InFlight(tickets: seq<Ticket>, who: Who): nat {
    if tickets == [] then 0 else InFlight(tickets[..|tickets| - 1], who) + Weight(tickets[|tickets| - 1], who)
  }

  function InFlightBatches(tickets: seq<Ticket>, who: Who): int {
    if tickets == [] then 0
    else InFlightBatches(tickets[..|tickets| - 1], who) + Weight(tickets[|tickets| - 1], who) * tickets[|tickets| - 1].batch
  }

  function Total(recorded: seq<Count>, event: int): int {
    if recorded == [] then 0
    else
      var last := recorded[|recorded| - 1];
      Total(recorded[..|recorded| - 1], event) + if last.event == event then last.amount else 0
  }

  /** Concurrency is what is in flight, and what passed and is not complete are its batches. */
  predicate Balanced(n: NodeState, tickets: seq<Ticket>, who: Who) {
    && n.concurrency == InFlight(tickets, who)
    && Total(n.recorded, PASS) - Total(n.recorded, COMPLETE) == InFlightBatches(tickets, who)
  }

  lemma TotalNext(n: NodeState, event: int, amount: int)
    ensures forall e :: Total(Recording(n, event, amount).recorded, e) == Total(n.recorded, e) + if e == event then amount else 0
    ensures Recording(n, event, amount).concurrency == n.concurrency
  {
    assert (n.recorded + [Count(event, amount)])[..|n.recorded|] == n.recorded;
  }

  lemma TotalsEntered(n: NodeState, blocked: Option<BlockType>, batch: nat)
    ensures var after := Entered(n, blocked, batch);
            var passed := if blocked == None then 1 else 0;
            && after.concurrency == n.concurrency + passed
            && Total(after.recorded, PASS) == Total(n.recorded, PASS) + passed * batch
            && Total(after.recorded, COMPLETE) == Total(n.recorded, COMPLETE)
    ensures EnteredInbound(n, blocked, batch).concurrency == Entered(n, blocked, batch).concurrency
    ensures forall e :: e == PASS || e == COMPLETE ==>
              Total(EnteredInbound(n, blocked, batch).recorded, e) == Total(Entered(n, blocked, batch).recorded, e)
  {
    hide Total;
    TotalNext(n.(concurrency := n.concurrency + 1), PASS, batch);
    TotalNext(n, BLOCK, batch);
    if blocked.Some? && BlockEvent(blocked.value).Some? {
      TotalNext(BlockedOn(n, batch), BlockEvent(blocked.value).value, batch);
    }
  }

  lemma TotalsCompleted(n: NodeState, batch: nat, rt: int, failed: bool)
    ensures var after := CompletedOn(n, batch, rt, failed);
            && after.concurrency == n.concurrency - 1
            && Total(after.recorded, PASS) == Total(n.recorded, PASS)
            && Total(after.recorded, COMPLETE) == Total(n.recorded, COMPLETE) + batch
  {
    hide Total;
    var marked := if failed then Recording(n, ERROR, batch) else n;
    TotalNext(n, ERROR, batch);
    TotalNext(marked, RT, rt);
    TotalNext(Recording(marked, RT, rt), COMPLETE, batch);
  }

  lemma TicketAdded(tickets: seq<Ticket>, t: Ticket, who: Who)
    ensures InFlight(tickets + [t], who) == InFlight(tickets, who) + Weight(t, who)
    ensures InFlightBatches(tickets + [t], who) == InFlightBatches(tickets, who) + Weight(t, who) * t.batch
  {
    assert (tickets + [t])[..|tickets|] == tickets;
  }

  lemma {:induction false} TicketClosed(tickets: seq<Ticket>, i: nat, who: Who)
    requires i < |tickets|
    ensures var t, after := tickets[i], tickets[i := tickets[i].(inFlight := false)];
            && InFlight(after, who) == InFlight(tickets, who) - Weight(t, who)
            && InFlightBatches(after, who) == InFlightBatches(tickets, who) - Weight(t, who) * t.batch
  {
    var n := |tickets| - 1;
    var after := tickets[i := tickets[i].(inFlight := false)];
    if i == n {
      assert after[..n] == tickets[..n];
    } else {
      TicketClosed(tickets[..n], i, who);
      assert after[..n] == tickets[..n][i := tickets[i].(inFlight := false)];
    }
  }

  lemma {:induction false} ComeIsBalanced(c: Chain, w: World, a: Act, who: Who)
    requires a.Come? && Balanced(StateFor(w, who), w.tickets, who)
    ensures Balanced(StateFor(StepWorld(c, w, a), who), StepWorld(c, w, a).tickets, who)
  {
    hide Total, InFlight, InFlightBatches, Decide, Entered, EnteredInbound;
    var blocked := Verdict(c, w, a);
    TotalsEntered(StateFor(w, who), blocked, a.batch);
    if blocked == None {
      TicketAdded(w.tickets, Ticket(a.resource, a.flow, a.batch, Taken(w, a.reuse), true), who);
    } else {
      assert w.tickets + [] == w.tickets;
    }
  }

  lemma {:induction false} GoIsBalanced(c: Chain, w: World, a: Act, who: Who)
    requires a.Go? && Balanced(StateFor(w, who), w.tickets, who)
    ensures Balanced(StateFor(StepWorld(c, w, a), who), StepWorld(c, w, a).tickets, who)
  {
    hide Total, InFlight, InFlightBatches, CompletedOn;
    if a.i < |w.tickets| && w.tickets[a.i].inFlight {
      TicketClosed(w.tickets, a.i, who);
      TotalsCompleted(StateFor(w, who), w.tickets[a.i].batch, a.rt, ErrorSeen(w, a));
    }
  }

  /** Whether an exit is recorded as an error: it brings one, or finds one on its context. */
  predicate ErrorSeen(w: World, a: Act)
    requires a.Go? && a.i < |w.tickets|
  {
    var ctx := w.tickets[a.i].ctx;
    ctx < |w.marks| && (a.failed || w.marks[ctx])
  }

  /**
   IN FLIGHT. Over any run, with repeated exits and blocked entries, the concurrency of a node is the number of entries
   let in and not yet exited, and the batches passed but not completed are theirs.
   */
  lemma {:induction false} InFlightIsConserved(c: Chain, acts: seq<Act>, who: Who)
    ensures Balanced(StateFor(RunWorld(c, acts), who), RunWorld(c, acts).tickets, who)
  {
    hide StepWorld;
    if acts == [] {
      NothingInFlight(c, who);
    } else {
      InFlightIsConserved(c, acts[..|acts| - 1], who);
      if acts[|acts| - 1].Come? {
        ComeIsBalanced(c, RunWorld(c, acts[..|acts| - 1]), acts[|acts| - 1], who);
      } else {
        GoIsBalanced(c, RunWorld(c, acts[..|acts| - 1]), acts[|acts| - 1], who);
      }
    }
  }

  lemma NothingInFlight(c: Chain, who: Who)
    ensures Balanced(StateFor(RunWorld(c, []), who), RunWorld(c, []).tickets, who)
  {
  }

  /** When every entry has been exited, every concurrency is back at zero. */
  lemma {:induction false} AllGoneIsIdle(c: Chain, acts: seq<Act>, who: Who)
    requires forall t :: t in RunWorld(c, acts).tickets ==> !t.inFlight
    ensures StateFor(RunWorld(c, acts), who).concurrency == 0
  {
    InFlightIsConserved(c, acts, who);
    NoneInFlight(RunWorld(c, acts).tickets, who);
  }

  lemma {:induction false} NoneInFlight(tickets: seq<Ticket>, who: Who)
    requires forall t :: t in tickets ==> !t.inFlight
    ensures InFlight(tickets, who) == 0
  {
    if tickets != [] {
      assert tickets[|tickets| - 1] in tickets;
      NoneInFlight(tickets[..|tickets| - 1], who);
    }
  }

  // ---------------------------------------------------------------- exiting again

  /** Exiting again changes no node, no ticket and no pool, and nothing at all exactly if it brings no new error. */
  lemma {:induction false} ExitingAgain(c: Chain, w: World, i: nat, rt: int, failed: bool)
    requires i < |w.tickets| && !w.tickets[i].inFlight && w.tickets[i].ctx < |w.marks|
    ensures var after := StepWorld(c, w, Go(i, rt, failed));
            && after == w.(marks := after.marks)
            && (after == w <==> !failed || w.marks[w.tickets[i].ctx])
  {
    var ctx := w.tickets[i].ctx;
    if !failed || w.marks[ctx] {
      assert MarksWith(w.marks, ctx, true) == w.marks || !failed;
    } else {
      assert MarksWith(w.marks, ctx, true)[ctx] != w.marks[ctx];
    }
  }

  /** Contexts are known, those in flight are not free, and no two entries in flight share one. */
  ghost predicate OwnContexts(w: World) {
    && (forall i :: 0 <= i < |w.tickets| ==> w.tickets[i].ctx < |w.marks|)
    && (forall i :: 0 <= i < |w.tickets| && w.tickets[i].inFlight ==> w.tickets[i].ctx !in w.pool)
    && (forall i, j :: 0 <= i < j < |w.tickets| && w.tickets[i].inFlight && w.tickets[j].inFlight ==> w.tickets[i].ctx != w.tickets[j].ctx)
    && (forall x :: x in w.pool ==> x < |w.marks|)
  }

  lemma {:induction false} StepKeepsOwnContexts(c: Chain, w: World, a: Act)
    requires OwnContexts(w)
    ensures OwnContexts(StepWorld(c, w, a))
  {
    hide Verdict, Entered, EnteredInbound, CompletedOn, NodeAt;
  }

  /** Over any run entries in flight hold contexts of their own. */
  lemma {:induction false} RunKeepsOwnContexts(c: Chain, acts: seq<Act>)
    ensures OwnContexts(RunWorld(c, acts))
  {
    hide StepWorld;
    if acts != [] {
      RunKeepsOwnContexts(c, acts[..|acts| - 1]);
      StepKeepsOwnContexts(c, RunWorld(c, acts[..|acts| - 1]), acts[|acts| - 1]);
    }
  }

  /** An exit with an error of an entry that has exited before. */
  predicate LateError(w: World, a: Act) {
    a.Go? && a.i < |w.tickets| && !w.tickets[a.i].inFlight && a.failed
  }

  predicate LateErrorOn(w: World, a: Act, x: nat) {
    LateError(w, a) && w.tickets[a.i].ctx == x
  }

  /** A context is cleared by the first exit of the entry that holds it, and by a blocked entry that takes it. */
  predicate Clears(c: Chain, w: World, a: Act, x: nat) {
    match a
    case Come(_, _, _, _, reuse) => Verdict(c, w, a).Some? && Taken(w, reuse) == x
    case Go(i, _, _) => i < |w.tickets| && w.tickets[i].inFlight && w.tickets[i].ctx == x
  }

  /** In the run there was a late error on the context, and nothing has cleared it since. */
  ghost predicate LateSince(c: Chain, acts: seq<Act>, x: nat) {
    exists k :: 0 <= k < |acts| && LateErrorAt(c, acts, k, x) && forall j :: k < j < |acts| ==> !ClearsAt(c, acts, j, x)
  }

  predicate LateErrorAt(c: Chain, acts: seq<Act>, k: nat, x: nat)
    requires k < |acts|
  {
    LateErrorOn(RunWorld(c, acts[..k]), acts[k], x)
  }

  predicate ClearsAt(c: Chain, acts: seq<Act>, k: nat, x: nat)
    requires k < |acts|
  {
    Clears(c, RunWorld(c, acts[..k]), acts[k], x)
  }

  lemma SameInPrefix(c: Chain, acts: seq<Act>, n: nat, k: nat, x: nat)
    requires k < n <= |acts|
    ensures LateErrorAt(c, acts[..n], k, x) == LateErrorAt(c, acts, k, x)
    ensures ClearsAt(c, acts[..n], k, x) == ClearsAt(c, acts, k, x)
  {
    assert acts[..n][..k] == acts[..k];
  }

  lemma {:induction false} LateSinceNext(c: Chain, acts: seq<Act>, x: nat)
    requires acts != []
    ensures var before, w, a := acts[..|acts| - 1], RunWorld(c, acts[..|acts| - 1]), acts[|acts| - 1];
            LateSince(c, acts, x) <==> LateErrorOn(w, a, x) || (LateSince(c, before, x) && !Clears(c, w, a, x))
  {
    hide RunWorld, LateErrorOn, Clears;
    var n := |acts| - 1;
    forall k | 0 <= k < n
      ensures LateErrorAt(c, acts[..n], k, x) == LateErrorAt(c, acts, k, x) && ClearsAt(c, acts[..n], k, x) == ClearsAt(c, acts, k, x)
    {
      SameInPrefix(c, acts, n, k, x);
    }
    if LateErrorOn(RunWorld(c, acts[..n]), acts[n], x) {
      assert LateErrorAt(c, acts, n, x);
    }
    if k :| 0 <= k < n && LateErrorAt(c, acts[..n], k, x) && forall j :: k < j < n ==> !ClearsAt(c, acts[..n], j, x) {
      assert LateErrorAt(c, acts, k, x);
      assert ClearsAt(c, acts, n, x) == Clears(c, RunWorld(c, acts[..n]), acts[n], x);
    }
    if LateSince(c, acts, x) {
      var k :| 0 <= k < |acts| && LateErrorAt(c, acts, k, x) && forall j :: k < j < |acts| ==> !ClearsAt(c, acts, j, x);
      if k < n {
        assert LateErrorAt(c, acts[..n], k, x);
        assert !ClearsAt(c, acts, n, x);
      }
    }
  }

  predicate Marked(w: World, x: nat) {
    x < |w.marks| && w.marks[x]
  }

  /** One step marks a context by a late error, keeps its mark, or clears it. */
  lemma StepMarks(c: Chain, w: World, a: Act, x: nat)
    requires OwnContexts(w)
    ensures Marked(StepWorld(c, w, a), x) <==> LateErrorOn(w, a, x) || (Marked(w, x) && !Clears(c, w, a, x))
  {
    hide Verdict, Entered, EnteredInbound, CompletedOn, NodeAt;
  }

  /** MARKS. Over any run a context has an error set exactly if there was a late error on it that nothing has cleared since. */
  lemma {:induction false} MarkedIffLate(c: Chain, acts: seq<Act>, x: nat)
    ensures Marked(RunWorld(c, acts), x) <==> LateSince(c, acts, x)
  {
    hide StepWorld, LateErrorOn, Clears, LateSince;
    if acts == [] {
      NothingLate(c, x);
    } else {
      var before := acts[..|acts| - 1];
      MarkedIffLate(c, before, x);
      RunKeepsOwnContexts(c, before);
      StepMarks(c, RunWorld(c, before), acts[|acts| - 1], x);
      LateSinceNext(c, acts, x);
    }
  }

  lemma NothingLate(c: Chain, x: nat)
    ensures !LateSince(c, [], x) && !Marked(RunWorld(c, []), x)
  {
  }

  /**
   RECORDED ERRORS. After any run an exit is recorded as an error exactly if it brings one itself or there was a late error
   on its context, of whatever entry, that nothing has cleared since.
   */
  lemma {:induction false} ErrorSeenIff(c: Chain, acts: seq<Act>, i: nat, rt: int, failed: bool)
    requires i < |RunWorld(c, acts).tickets|
    ensures ErrorSeen(RunWorld(c, acts), Go(i, rt, failed)) <==> failed || LateSince(c, acts, RunWorld(c, acts).tickets[i].ctx)
    ensures var w, t := RunWorld(c, acts), RunWorld(c, acts).tickets[i];
            t.inFlight ==>
              NodeAt(StepWorld(c, w, Go(i, rt, failed)), t.resource) ==
                CompletedOn(NodeAt(w, t.resource), t.batch, rt, failed || LateSince(c, acts, t.ctx))
  {
    hide RunWorld, LateSince, CompletedOn;
    RunKeepsOwnContexts(c, acts);
    MarkedIffLate(c, acts, RunWorld(c, acts).tickets[i].ctx);
  }

  ghost predicate NoLateErrors(c: Chain, acts: seq<Act>) {
    forall k, x: nat :: 0 <= k < |acts| ==> !LateErrorAt(c, acts, k, x)
  }

  /** OWN ERRORS. In a run without late errors every exit is recorded as an error exactly if it brings one itself. */
  lemma {:induction false} ErrorsAreOwn(c: Chain, acts: seq<Act>, a: Act)
    requires NoLateErrors(c, acts) && a.Go? && a.i < |RunWorld(c, acts).tickets|
    ensures ErrorSeen(RunWorld(c, acts), a) <==> a.failed
  {
    ErrorSeenIff(c, acts, a.i, a.rt, a.failed);
  }

  /**
   LATE ERRORS. A late error changes what another entry's exit records exactly if that entry holds the same context by
   now and neither brings an error itself nor has one set already.
   */
  lemma {:induction false} LateErrorShowsIff(c: Chain, w: World, late: Act, a: Act)
    requires OwnContexts(w) && LateError(w, late)
    requires a.Go? && a.i < |w.tickets| && w.tickets[a.i].inFlight
    ensures var after := StepWorld(c, w, late);
            StepWorld(c, after, a).nodes != StepWorld(c, w, a).nodes <==>
              w.tickets[a.i].ctx == w.tickets[late.i].ctx && !a.failed && !w.marks[w.tickets[a.i].ctx]
  {
    hide CompletedOn, NodeAt;
    var after, t := StepWorld(c, w, late), w.tickets[a.i];
    ErrorTells(NodeAt(w, t.resource), t.batch, a.rt);
    assert NodeAt(after, t.resource) == NodeAt(w, t.resource) by {
      NodesOnly(w, after, t.resource);
    }
    assert StepWorld(c, after, a).nodes[t.resource] == CompletedOn(NodeAt(w, t.resource), t.batch, a.rt, ErrorSeen(after, a));
    assert StepWorld(c, w, a).nodes[t.resource] == CompletedOn(NodeAt(w, t.resource), t.batch, a.rt, ErrorSeen(w, a));
  }

  lemma NodesOnly(w: World, w': World, resource: string)
    requires w.nodes == w'.nodes
    ensures NodeAt(w, resource) == NodeAt(w', resource)
  {
  }

  lemma ErrorTells(n: NodeState, batch: nat, rt: int)
    ensures CompletedOn(n, batch, rt, true) != CompletedOn(n, batch, rt, false)
  {
    assert |CompletedOn(n, batch, rt, true).recorded| == |n.recorded| + 3;
    assert |CompletedOn(n, batch, rt, false).recorded| == |n.recorded| + 2;
  }

  /** An error set on a free context stays there for the next entry that is let in on it: its exit is an error at any rate. */
  lemma {:induction false} ErrorWaitsInThePool(c: Chain, acts: seq<Act>, late: Act, come: Act, rt: int)
    requires LateError(RunWorld(c, acts), late) && RunWorld(c, acts).tickets[late.i].ctx in RunWorld(c, acts).pool
    requires come.Come? && come.reuse == RunWorld(c, acts).tickets[late.i].ctx && Verdict(c, RunWorld(c, acts), come) == None
    ensures var n, later := |RunWorld(c, acts).tickets|, acts + [late] + [come];
            && |RunWorld(c, later).tickets| == n + 1
            && LateSince(c, later, come.reuse) && ErrorSeen(RunWorld(c, later), Go(n, rt, false))
  {
    hide LateSince, CompletedOn, Entered, EnteredInbound;
    var w, marked := RunWorld(c, acts), acts + [late];
    RunKeepsOwnContexts(c, acts);
    RunOn(c, acts, late);
    RunOn(c, marked, come);
    NodesOnly(w, RunWorld(c, marked), come.resource);
    assert marked[..|acts|] == acts && (marked + [come])[..|marked|] == marked;
    LateSinceNext(c, marked, come.reuse);
    LateSinceNext(c, marked + [come], come.reuse);
    ErrorSeenIff(c, marked + [come], |w.tickets|, rt, false);
  }

  /** The second exit of one entry, with an error, while another one holds its context: the other one's exit is recorded as an error. */
  lemma {:induction false} LateErrorHitsAnotherEntry(first: string, second: string, rt: int)
    requires first != second
    ensures var acts := [Come(first, Outbound, 1, 0, 0), Go(0, rt, false), Come(second, Outbound, 1, 0, 0), Go(0, rt, true), Go(1, rt, false)];
            NodeAt(RunWorld(Chain([], []), acts), second).recorded == [Count(PASS, 1), Count(ERROR, 1), Count(RT, rt), Count(COMPLETE, 1)]
  {
    var c := Chain([], []);
    var one := [Come(first, Outbound, 1, 0, 0)];
    var two := one + [Go(0, rt, false)];
    var three := two + [Come(second, Outbound, 1, 0, 0)];
    var four := three + [Go(0, rt, true)];
    RunOn(c, [], one[0]);
    RunOn(c, one, Go(0, rt, false));
    RunOn(c, two, Come(second, Outbound, 1, 0, 0));
    RunOn(c, three, Go(0, rt, true));
    RunOn(c, four, Go(1, rt, false));
    assert [] + one == one;
    var w := RunWorld(c, one);
    assert w.tickets == [Ticket(first, Outbound, 1, 0, true)] && w.marks == [false];
    w := RunWorld(c, two);
    assert w.tickets == [Ticket(first, Outbound, 1, 0, false)] && w.marks == [false] && 0 in w.pool && second !in w.nodes;
    w := RunWorld(c, three);
    assert w.tickets == [Ticket(first, Outbound, 1, 0, false), Ticket(second, Outbound, 1, 0, true)] && w.marks == [false];
    w := RunWorld(c, four);
    assert w.marks == [true];
    assert four + [Go(1, rt, false)] ==
           [Come(first, Outbound, 1, 0, 0), Go(0, rt, false), Come(second, Outbound, 1, 0, 0), Go(0, rt, true), Go(1, rt, false)];
  }

  lemma RunOn(c: Chain, acts: seq<Act>, a: Act)
    ensures RunWorld(c, acts + [a]) == StepWorld(c, RunWorld(c, acts), a)
  {
    assert (acts + [a])[..|acts|] == acts;
  }

  // ---------------------------------------------------------------- the isolation bound

  /** A rule keeps its bound at every step exactly when the batch is positive and cannot wrap around with it. */
  lemma {:induction false} RuleKeepsItsBound(rule: Rule, batch: nat)
    requires rule.metricType == Concurrency && rule.threshold < TWO_TO_THE_32 && batch < TWO_TO_THE_32
    ensures (forall n: nat :: n <= rule.threshold && Admits(rule, n, batch) ==> n + 1 <= rule.threshold)
              <==> 1 <= batch && batch + rule.threshold < TWO_TO_THE_32
  {
    var n := rule.threshold;
    if batch == 0 {
      assert Admits(rule, n, batch);
    } else if batch + n >= TWO_TO_THE_32 {
      assert Add32(n, batch) == n + batch - TWO_TO_THE_32;
      assert Admits(rule, n, batch);
    }
  }

  /** With the isolation slot in the chain, what gets in is admitted by every rule of the resource. */
  lemma {:induction false} LetInIsAdmitted(c: Chain, w: World, a: Act, order: nat, rules: map<string, seq<Rule>>, rule: Rule)
    requires a.Come? && IsolationSlot(order, rules) in c.checks
    requires a.resource != "" && a.resource in rules && rule in rules[a.resource] && Verdict(c, w, a) == None
    ensures Admits(rule, NodeAt(w, a.resource).concurrency, a.batch)
  {
    var input := Input(a.resource, a.flow, a.batch, NodeAt(w, a.resource).concurrency, a.env);
    FirstBlockIffSome(c.checks, input);
    var i :| 0 <= i < |c.checks| && c.checks[i] == IsolationSlot(order, rules);
    assert c.checks[i].check(input).None?;
  }

  /** Every entry of the resource asks for at least one and not so much that the sum with the threshold wraps around. */
  ghost predicate FairBatches(acts: seq<Act>, resource: string, threshold: nat) {
    forall i :: 0 <= i < |acts| && acts[i].Come? && acts[i].resource == resource ==>
      1 <= acts[i].batch && acts[i].batch + threshold < TWO_TO_THE_32
  }

  /** ISOLATION BOUND. Concurrency never exceeds the threshold of any rule of the resource, so not the smallest one. */
  lemma {:induction false} ConcurrencyIsBounded(c: Chain, acts: seq<Act>, order: nat, rules: map<string, seq<Rule>>, resource: string, rule: Rule)
    requires IsolationSlot(order, rules) in c.checks && resource != "" && resource in rules
    requires rule in rules[resource] && rule.metricType == Concurrency && FairBatches(acts, resource, rule.threshold)
    ensures 0 <= NodeAt(RunWorld(c, acts), resource).concurrency <= rule.threshold
  {
    hide StepWorld, Balanced, StateFor;
    InFlightIsConserved(c, acts, Of(resource));
    BalancedIsNatural(RunWorld(c, acts), resource);
    if acts == [] {
      NothingInFlight(c, Of(resource));
      IdleAtFirst(c, resource);
    } else {
      var before, a := acts[..|acts| - 1], acts[|acts| - 1];
      ConcurrencyIsBounded(c, before, order, rules, resource, rule);
      StepIsBounded(c, RunWorld(c, before), a, order, rules, resource, rule);
    }
  }

  lemma BalancedIsNatural(w: World, resource: string)
    requires Balanced(StateFor(w, Of(resource)), w.tickets, Of(resource))
    ensures NodeAt(w, resource).concurrency >= 0
  {
  }

  lemma IdleAtFirst(c: Chain, resource: string)
    ensures NodeAt(RunWorld(c, []), resource).concurrency == 0
  {
  }

  lemma StepIsBounded(c: Chain, w: World, a: Act, order: nat, rules: map<string, seq<Rule>>, resource: string, rule: Rule)
    requires IsolationSlot(order, rules) in c.checks && resource != "" && resource in rules
    requires rule in rules[resource] && rule.metricType == Concurrency
    requires a.Come? && a.resource == resource ==> 1 <= a.batch && a.batch + rule.threshold < TWO_TO_THE_32
    requires 0 <= NodeAt(w, resource).concurrency <= rule.threshold
    ensures NodeAt(StepWorld(c, w, a), resource).concurrency <= rule.threshold
  {
    hide Verdict, Entered, IsolationSlot, EnteredInbound, CompletedOn;
    if a.Come? && a.resource == resource {
      if Verdict(c, w, a) == None {
        LetInIsAdmitted(c, w, a, order, rules, rule);
      }
      TotalsEntered(NodeAt(w, resource), Verdict(c, w, a), a.batch);
    } else if a.Go? && a.i < |w.tickets| {
      TotalsCompleted(NodeAt(w, resource), w.tickets[a.i].batch, a.rt, ErrorSeen(w, a));
    }
  }

  /** Entries of batch 1, as many as given, and then perhaps one more. */
  function Crowd(resource: string, n: nat): seq<Act> {
    if n == 0 then [] else Crowd(resource, n - 1) + [Come(resource, Outbound, 1, 0, 0)]
  }

  lemma {:induction false} CrowdGetsIn(resource: string, rule: Rule, n: nat)
    requires resource != "" && rule.metricType == Concurrency && n <= rule.threshold < TWO_TO_THE_32
    ensures NodeAt(RunWorld(Chain([IsolationSlot(0, map[resource := [rule]])], []), Crowd(resource, n)), resource).concurrency == n
  {
    hide StepWorld, IsolationSlot;
    var c := Chain([IsolationSlot(0, map[resource := [rule]])], []);
    if n == 0 {
      IdleAtFirst(c, resource);
    } else {
      CrowdGetsIn(resource, rule, n - 1);
      RunOn(c, Crowd(resource, n - 1), Come(resource, Outbound, 1, 0, 0));
      GetsIn(c, RunWorld(c, Crowd(resource, n - 1)), Come(resource, Outbound, 1, 0, 0), rule);
    }
  }

  lemma GetsIn(c: Chain, w: World, a: Act, rule: Rule)
    requires a.Come? && a.resource != "" && c == Chain([IsolationSlot(0, map[a.resource := [rule]])], [])
    requires Admits(rule, NodeAt(w, a.resource).concurrency, a.batch)
    ensures NodeAt(StepWorld(c, w, a), a.resource).concurrency == NodeAt(w, a.resource).concurrency + 1
  {
    hide Verdict, Admits, IsolationSlot;
    OnlyIsolationDecides(c, w, a, rule);
    TotalsEntered(NodeAt(w, a.resource), None, a.batch);
  }

  lemma OnlyIsolationDecides(c: Chain, w: World, a: Act, rule: Rule)
    requires a.Come? && a.resource != "" && c == Chain([IsolationSlot(0, map[a.resource := [rule]])], [])
    ensures Verdict(c, w, a) == None <==> Admits(rule, NodeAt(w, a.resource).concurrency, a.batch)
  {
    var input := Input(a.resource, a.flow, a.batch, NodeAt(w, a.resource).concurrency, a.env);
    assert c.checks[1..] == [];
    assert FirstBlock(c.checks[1..], input) == None;
    assert c.checks[0].check(input) == RuleVerdict([rule], input.concurrency, input.batch);
    assert RuleVerdict([rule], input.concurrency, input.batch) == None <==> Admits([rule][0], input.concurrency, input.batch);
  }

  /** UNFAIR BATCHES. For every batch that is not fair there is a run that takes the concurrency over the threshold. */
  lemma {:induction false} UnfairBatchBreaksTheBound(resource: string, rule: Rule, batch: nat)
    requires resource != "" && rule.metricType == Concurrency && rule.threshold < TWO_TO_THE_32 && batch < TWO_TO_THE_32
    requires batch == 0 || batch + rule.threshold >= TWO_TO_THE_32
    ensures var c := Chain([IsolationSlot(0, map[resource := [rule]])], []);
            var acts := Crowd(resource, rule.threshold) + [Come(resource, Outbound, batch, 0, 0)];
            NodeAt(RunWorld(c, acts), resource).concurrency == rule.threshold + 1
  {
    var c := Chain([IsolationSlot(0, map[resource := [rule]])], []);
    hide StepWorld, IsolationSlot;
    var crowd, last := Crowd(resource, rule.threshold), Come(resource, Outbound, batch, 0, 0);
    CrowdGetsIn(resource, rule, rule.threshold);
    RunOn(c, crowd, last);
    GetsIn(c, RunWorld(c, crowd), last, rule);
  }
}
