/**
 What entries leave on the nodes: over any run every total is the sum of what its entries, blocks and exits bring
 (core/stat/stat_slot.go), and who decides about an entry (core/base/slot_chain.go, core/isolation/slot.go).
 */
module EntryRecords {
  import opened EntryRuns
  import opened MetricBuckets
  import opened Prelude
  import opened SlotChains

  // ---------------------------------------------------------------- totals

  /** The event that a kind of block has to itself. */
  predicate HasEvent(t: BlockType, event: int) {
    || (event == BLOCK_FLOW && t == FlowControl)
    || (event == BLOCK_ISOLATION && t == Isolation)
    || (event == BLOCK_CIRCUIT_BREAKING && t == CircuitBreaking)
    || (event == BLOCK_SYSTEM && t == SystemFlow)
    || (event == BLOCK_HOT_SPOT_PARAM_FLOW && t == HotSpotParamFlow)
    || (event == BLOCK_MOCK && t in {Mock, MockError, MockRequest, MockCtxTimeout})
  }

  /** What an entry brings: its batch as a pass, or as a block and, on the node of its resource, as a block of its kind. */
  function Brings(verdict: Option<BlockType>, batch: nat, who: Who, event: int): int {
    match verdict
    case None => if event == PASS then batch else 0
    case Some(t) => if event == BLOCK || (who.Of? && HasEvent(t, event)) then batch else 0
  }

  /** What the first exit brings: the batch as complete, and as an error if it is one, and the response time. */
  function Leaves(batch: nat, rt: int, failed: bool, event: int): int {
    if event == RT then rt else if event == COMPLETE || (event == ERROR && failed) then batch else 0
  }

  /** What one step brings to a node. */
  function Share(c: Chain, w: World, a: Act, who: Who, event: int): int {
    match a
    case Come(resource, flow, batch, _, _) =>
      if (if who.Of? then resource == who.resource else flow == Inbound) then Brings(Verdict(c, w, a), batch, who, event) else 0
    case Go(i, rt, _) =>
      if i < |w.tickets| && w.tickets[i].inFlight && Belongs(w.tickets[i], who) then
        Leaves(w.tickets[i].batch, rt, ErrorSeen(w, a), event)
      else 0
  }

  function Shares(c: Chain, acts: seq<Act>, who: Who, event: int): int {
    if acts == [] then 0
    else
      var before := acts[..|acts| - 1];
      Shares(c, before, who, event) + Share(c, RunWorld(c, before), acts[|acts| - 1], who, event)
  }

  lemma KindIsRecorded(n: NodeState, t: BlockType, batch: nat, event: int)
    ensures Total(BlockedTypeOn(n, t, batch).recorded, event) == Total(n.recorded, event) + if HasEvent(t, event) then batch else 0
  {
    hide Total;
    if BlockEvent(t).Some? {
      TotalNext(n, BlockEvent(t).value, batch);
    }
  }

  lemma EntryIsRecorded(n: NodeState, verdict: Option<BlockType>, batch: nat, resource: string, event: int)
    ensures Total(Entered(n, verdict, batch).recorded, event) == Total(n.recorded, event) + Brings(verdict, batch, Of(resource), event)
    ensures Total(EnteredInbound(n, verdict, batch).recorded, event) == Total(n.recorded, event) + Brings(verdict, batch, AllInbound, event)
  {
    hide Total, BlockedTypeOn;
    TotalNext(n.(concurrency := n.concurrency + 1), PASS, batch);
    TotalNext(n, BLOCK, batch);
    if verdict.Some? {
      KindIsRecorded(BlockedOn(n, batch), verdict.value, batch, event);
    }
  }

  lemma ExitIsRecorded(n: NodeState, batch: nat, rt: int, failed: bool, event: int)
    ensures Total(CompletedOn(n, batch, rt, failed).recorded, event) == Total(n.recorded, event) + Leaves(batch, rt, failed, event)
  {
    hide Total;
    var marked := if failed then Recording(n, ERROR, batch) else n;
    TotalNext(n, ERROR, batch);
    TotalNext(marked, RT, rt);
    TotalNext(Recording(marked, RT, rt), COMPLETE, batch);
  }

  lemma StepIsRecorded(c: Chain, w: World, a: Act, who: Who, event: int)
    ensures Total(StateFor(StepWorld(c, w, a), who).recorded, event) == Total(StateFor(w, who).recorded, event) + Share(c, w, a, who, event)
  {
    hide Total, Verdict, Entered, EnteredInbound, CompletedOn, Brings, Leaves;
    var n := StateFor(w, who);
    match a
    case Come(resource, _, batch, _, _) => EntryIsRecorded(n, Verdict(c, w, a), batch, resource, event);
    case Go(i, rt, _) =>
      if i < |w.tickets| {
        ExitIsRecorded(n, w.tickets[i].batch, rt, ErrorSeen(w, a), event);
      }
  }

  /**
   RECORDS. Over any run the total of an event on a node is what the entries and exits that belong to it bring, no more
   and no less; the node of all inbound traffic has no kinds of block.
   */
  lemma {:induction false} RecordsAreShares(c: Chain, acts: seq<Act>, who: Who, event: int)
    ensures Total(StateFor(RunWorld(c, acts), who).recorded, event) == Shares(c, acts, who, event)
    ensures who == AllInbound && event >= BLOCK_FLOW ==> Total(StateFor(RunWorld(c, acts), who).recorded, event) == 0
  {
    hide StepWorld, Share;
    if acts == [] {
      NothingRecorded(c, who, event);
    } else {
      var before, a := acts[..|acts| - 1], acts[|acts| - 1];
      RecordsAreShares(c, before, who, event);
      StepIsRecorded(c, RunWorld(c, before), a, who, event);
      NoKindsInbound(c, RunWorld(c, before), a, event);
    }
  }

  lemma NothingRecorded(c: Chain, who: Who, event: int)
    ensures Total(StateFor(RunWorld(c, []), who).recorded, event) == 0
  {
  }

  lemma NoKindsInbound(c: Chain, w: World, a: Act, event: int)
    ensures event >= BLOCK_FLOW ==> Share(c, w, a, AllInbound, event) == 0
  {
  }

  // ---------------------------------------------------------------- who decides

  /** The first of the slots to block says this. */
  ghost predicate SaysFirst(slots: seq<CheckSlot>, input: Input, t: BlockType) {
    exists i :: 0 <= i < |slots| && slots[i].check(input) == Some(t) && forall j :: 0 <= j < i ==> slots[j].check(input).None?
  }

  lemma {:induction false} FirstBlockSaysFirst(slots: seq<CheckSlot>, input: Input, t: BlockType)
    ensures FirstBlock(slots, input) == Some(t) <==> SaysFirst(slots, input, t)
  {
    FirstBlockIffSome(slots, input);
    if FirstBlock(slots, input).Some? {
      var i := FirstToBlock(slots, input);
    }
  }

  lemma {:induction false} FirstToBlock(slots: seq<CheckSlot>, input: Input) returns (i: nat)
    requires exists k :: 0 <= k < |slots| && slots[k].check(input).Some?
    ensures i < |slots| && slots[i].check(input).Some? && forall j :: 0 <= j < i ==> slots[j].check(input).None?
  {
    i := 0;
    while slots[i].check(input).None?
      invariant i < |slots| && forall j :: 0 <= j < i ==> slots[j].check(input).None?
      decreases |slots| - i
    {
      i := i + 1;
    }
  }

  /** DECISION. An entry is blocked with what the first router to block says, or if none blocks, the first check to block. */
  lemma {:induction false} DecidedBy(c: Chain, w: World, a: Act, t: BlockType)
    requires a.Come?
    ensures var input := Input(a.resource, a.flow, a.batch, NodeAt(w, a.resource).concurrency, a.env);
            Verdict(c, w, a) == Some(t) <==>
              || SaysFirst(c.routers, input, t)
              || ((forall i :: 0 <= i < |c.routers| ==> c.routers[i].check(input).None?) && SaysFirst(c.checks, input, t))
  {
    hide FirstBlock, SaysFirst;
    var input := Input(a.resource, a.flow, a.batch, NodeAt(w, a.resource).concurrency, a.env);
    FirstBlockSaysFirst(c.routers, input, t);
    FirstBlockSaysFirst(c.checks, input, t);
    FirstBlockIffSome(c.routers, input);
  }

  /** ISOLATION. The slot blocks exactly if, as 32-bit numbers, those in flight and the batch exceed a concurrency threshold. */
  lemma {:induction false} IsolationBlocksIff(order: nat, rules: map<string, seq<Rule>>, input: Input)
    ensures var inFlight, said := if input.concurrency > 0 then input.concurrency else 0, IsolationSlot(order, rules).check(input);
            && (said.Some? <==>
                  && input.resource != "" && input.resource in rules
                  && exists rule :: rule in rules[input.resource] && rule.metricType == Concurrency
                                    && (inFlight + input.batch) % 0x1_0000_0000 > rule.threshold)
            && (said.Some? ==> said == Some(Isolation))
  {
    if input.resource != "" && input.resource in rules {
      var rs := rules[input.resource];
      if i :| 0 <= i < |rs| && !Admits(rs[i], input.concurrency, input.batch) {
        assert rs[i] in rs;
      }
    }
  }
}
