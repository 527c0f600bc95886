/**
 The life of an entry: the slot chain (core/base/slot_chain.go), the run-once exit (core/base/entry.go), the
 statistic slot (core/stat/stat_slot.go) and the isolation slot (core/isolation/slot.go).
 */
module SlotChains {
  import opened MetricBuckets
  import opened Prelude

  datatype Flow = Inbound | Outbound

  datatype BlockType =
    | Unknown | FlowControl | Isolation | CircuitBreaking | SystemFlow | HotSpotParamFlow
    | Mock | MockError | MockRequest | MockCtxTimeout | Gray

  // ---------------------------------------------------------------- what is recorded on a node

  datatype Count = Count(event: int, amount: int)

  /** Requests in flight, and the counts handed on to the node's window in order. */
  datatype NodeState = NodeState(concurrency: int, recorded: seq<Count>)

  const NEW_NODE := NodeState(0, [])

  /** The event for a kind of block; some kinds have none. */
  function BlockEvent(t: BlockType): Option<int> {
    match t
    case FlowControl => Some(BLOCK_FLOW)
    case Isolation => Some(BLOCK_ISOLATION)
    case CircuitBreaking => Some(BLOCK_CIRCUIT_BREAKING)
    case SystemFlow => Some(BLOCK_SYSTEM)
    case HotSpotParamFlow => Some(BLOCK_HOT_SPOT_PARAM_FLOW)
    case Mock | MockError | MockRequest | MockCtxTimeout => Some(BLOCK_MOCK)
    case Unknown | Gray => None
  }

  function Recording(n: NodeState, event: int, amount: int): NodeState {
    n.(recorded := n.recorded + [Count(event, amount)])
  }

  function PassedOn(n: NodeState, batch: nat): NodeState {
    Recording(n.(concurrency := n.concurrency + 1), PASS, batch)
  }

  function BlockedOn(n: NodeState, batch: nat): NodeState {
    Recording(n, BLOCK, batch)
  }

  function BlockedTypeOn(n: NodeState, t: BlockType, batch: nat): NodeState {
    match BlockEvent(t)
    case Some(event) => Recording(n, event, batch)
    case None => n
  }

  function CompletedOn(n: NodeState, batch: nat, rt: int, failed: bool): NodeState {
    var marked := if failed then Recording(n, ERROR, batch) else n;
    var counted := Recording(Recording(marked, RT, rt), COMPLETE, batch);
    counted.(concurrency := n.concurrency - 1)
  }

  class StatNode {
    var concurrency: int
    var recorded: seq<Count>

    ghost function State(): NodeState
      reads this
    {
      NodeState(concurrency, recorded)
    }

    constructor ()
      ensures State() == NEW_NODE
    {
      concurrency := 0;
      recorded := [];
    }

    method AddCount(event: int, amount: int)
      modifies this
      ensures State() == Recording(old(State()), event, amount)
    {
      recorded := recorded + [Count(event, amount)];
    }

    method RecordPass(count: nat)
      modifies this
      ensures State() == PassedOn(old(State()), count)
    {
      concurrency := concurrency + 1;
      AddCount(PASS, count);
    }

    method RecordBlock(count: nat)
      modifies this
      ensures State() == BlockedOn(old(State()), count)
    {
      AddCount(BLOCK, count);
    }

    method RecordBlockForType(t: BlockType, count: nat)
      modifies this
      ensures State() == BlockedTypeOn(old(State()), t, count)
    {
      if t == FlowControl {
        AddCount(BLOCK_FLOW, count);
      } else if t == Isolation {
        AddCount(BLOCK_ISOLATION, count);
      } else if t == CircuitBreaking {
        AddCount(BLOCK_CIRCUIT_BREAKING, count);
      } else if t == SystemFlow {
        AddCount(BLOCK_SYSTEM, count);
      } else if t == HotSpotParamFlow {
        AddCount(BLOCK_HOT_SPOT_PARAM_FLOW, count);
      } else if t == Mock || t == MockError || t == MockRequest || t == MockCtxTimeout {
        AddCount(BLOCK_MOCK, count);
      }
    }

    method RecordComplete(count: nat, rt: int, failed: bool)
      modifies this
      ensures State() == CompletedOn(old(State()), count, rt, failed)
    {
      if failed {
        AddCount(ERROR, count);
      }
      AddCount(RT, rt);
      AddCount(COMPLETE, count);
      concurrency := concurrency - 1;
    }
  }

  // ---------------------------------------------------------------- slots in order

  /** What a check sees; `env` stands for everything else it looks at. */
  datatype Input = Input(resource: string, flow: Flow, batch: nat, concurrency: int, env: int)

  /** A rule check or a router: a kind of block, or nothing. */
  datatype CheckSlot = CheckSlot(order: nat, check: Input -> Option<BlockType>)

  /** The first block along a list of slots. */
  function FirstBlock(slots: seq<CheckSlot>, input: Input): Option<BlockType> {
    if slots == [] then None
    else
      match slots[0].check(input)
      case Some(t) => Some(t)
      case None => FirstBlock(slots[1..], input)
  }

  /** A router's block takes the place of whatever the checks said. */
  function Decide(checks: seq<CheckSlot>, routers: seq<CheckSlot>, input: Input): Option<BlockType> {
    match FirstBlock(routers, input)
    case Some(t) => Some(t)
    case None => FirstBlock(checks, input)
  }

  /** Blocked exactly when some slot blocks, and then with what the first one to block says. */
  lemma {:induction false} FirstBlockIffSome(slots: seq<CheckSlot>, input: Input)
    ensures FirstBlock(slots, input).Some? <==> exists i :: 0 <= i < |slots| && slots[i].check(input).Some?
    ensures forall i :: 0 <= i < |slots| && slots[i].check(input).Some? && (forall j :: 0 <= j < i ==> slots[j].check(input).None?) ==>
              FirstBlock(slots, input) == slots[i].check(input)
  {
    if slots != [] && slots[0].check(input).None? {
      var rest := slots[1..];
      FirstBlockIffSome(rest, input);
      forall i | 0 <= i < |rest|
        ensures rest[i] == slots[i + 1]
      {
      }
      if FirstBlock(slots, input).Some? {
        var i :| 0 <= i < |rest| && rest[i].check(input).Some?;
        assert slots[i + 1].check(input).Some?;
      }
      forall i | 0 <= i < |slots| && slots[i].check(input).Some? && forall j :: 0 <= j < i ==> slots[j].check(input).None?
        ensures i > 0 && rest[i - 1] == slots[i] && forall j :: 0 <= j < i - 1 ==> rest[j].check(input).None?
      {
      }
    }
  }

  /** Puts a slot behind all those of its order or less, which keeps the slots in order and equal ones as added. */
  function Inserted(slots: seq<CheckSlot>, s: CheckSlot): seq<CheckSlot> {
    if slots == [] then [s]
    else
      var n := |slots| - 1;
      if slots[n].order <= s.order then slots + [s] else Inserted(slots[..n], s) + [slots[n]]
  }

  ghost predicate InOrder(slots: seq<CheckSlot>) {
    forall i, j :: 0 <= i < j < |slots| ==> slots[i].order <= slots[j].order
  }

  /** The slots of one order. */
  function OfOrder(slots: seq<CheckSlot>, order: nat): seq<CheckSlot> {
    if slots == [] then []
    else OfOrder(slots[..|slots| - 1], order) + if slots[|slots| - 1].order == order then [slots[|slots| - 1]] else []
  }

  function AfterAdds(added: seq<CheckSlot>): seq<CheckSlot> {
    if added == [] then [] else Inserted(AfterAdds(added[..|added| - 1]), added[|added| - 1])
  }

  lemma OfOrderNext(slots: seq<CheckSlot>, s: CheckSlot, order: nat)
    ensures OfOrder(slots + [s], order) == OfOrder(slots, order) + if s.order == order then [s] else []
  {
    assert (slots + [s])[..|slots|] == slots;
  }

  lemma {:induction false} InsertedKeeps(slots: seq<CheckSlot>, s: CheckSlot, bound: nat)
    requires InOrder(slots) && (forall i :: 0 <= i < |slots| ==> slots[i].order <= bound) && s.order <= bound
    ensures InOrder(Inserted(slots, s)) && |Inserted(slots, s)| == |slots| + 1
    ensures forall i :: 0 <= i < |Inserted(slots, s)| ==> Inserted(slots, s)[i].order <= bound
  {
    if slots != [] {
      var n := |slots| - 1;
      if slots[n].order > s.order {
        InsertedKeeps(slots[..n], s, slots[n].order);
      }
    }
  }

  lemma {:induction false} InsertedIsStable(slots: seq<CheckSlot>, s: CheckSlot, order: nat)
    ensures InOrder(slots) ==> OfOrder(Inserted(slots, s), order) == OfOrder(slots, order) + if s.order == order then [s] else []
  {
    if slots == [] {
      OfOrderNext([], s, order);
      assert [] + [s] == [s];
    } else if InOrder(slots) {
      var n := |slots| - 1;
      assert slots == slots[..n] + [slots[n]];
      if slots[n].order <= s.order {
        OfOrderNext(slots, s, order);
      } else {
        InsertedIsStable(slots[..n], s, order);
        OfOrderNext(slots[..n], slots[n], order);
        OfOrderNext(Inserted(slots[..n], s), slots[n], order);
      }
    }
  }

  /** SLOT ORDER. After any additions the slots are in order, none is lost, and those of one order are as added. */
  lemma {:induction false} AddsKeepOrder(added: seq<CheckSlot>, order: nat)
    ensures InOrder(AfterAdds(added)) && |AfterAdds(added)| == |added|
    ensures OfOrder(AfterAdds(added), order) == OfOrder(added, order)
  {
    if added != [] {
      var before, s := added[..|added| - 1], added[|added| - 1];
      AddsKeepOrder(before, order);
      var bound := Highest(AfterAdds(before) + [s]);
      assert forall i :: 0 <= i < |AfterAdds(before)| ==> (AfterAdds(before) + [s])[i] == AfterAdds(before)[i];
      assert (AfterAdds(before) + [s])[|before|] == s;
      InsertedKeeps(AfterAdds(before), s, bound);
      InsertedIsStable(AfterAdds(before), s, order);
    }
  }

  function Highest(slots: seq<CheckSlot>): (bound: nat)
    ensures forall i :: 0 <= i < |slots| ==> slots[i].order <= bound
  {
    if slots == [] then 0 else Max(Highest(slots[..|slots| - 1]), slots[|slots| - 1].order)
  }

  // ---------------------------------------------------------------- isolation

  datatype MetricType = UnknownMetric | Concurrency

  datatype Rule = Rule(resource: string, metricType: MetricType, threshold: nat)

  /** `uint32` addition. */
  function Add32(a: nat, b: nat): nat {
    (a + b) % TWO_TO_THE_32
  }

  predicate Admits(rule: Rule, concurrency: int, batch: nat) {
    rule.metricType == Concurrency ==> Add32(Max(0, concurrency), batch) <= rule.threshold
  }

  function RuleVerdict(rules: seq<Rule>, concurrency: int, batch: nat): Option<BlockType> {
    if forall i :: 0 <= i < |rules| ==> Admits(rules[i], concurrency, batch) then None else Some(Isolation)
  }

  /** Goes through the rules of a resource for one that does not admit the batch. */
  method CheckPass(rules: seq<Rule>, concurrency: int, batchCount: nat) returns (passed: bool, rule: Option<Rule>, snapshot: nat)
    ensures passed <==> RuleVerdict(rules, concurrency, batchCount) == None
    ensures !passed ==> rule.Some? && rule.value in rules && !Admits(rule.value, concurrency, batchCount) && snapshot == Max(0, concurrency)
  {
    var curCount: nat := 0;
    for i := 0 to |rules|
      invariant forall j :: 0 <= j < i ==> Admits(rules[j], concurrency, batchCount)
    {
      if rules[i].metricType == Concurrency {
        if concurrency >= 0 {
          curCount := concurrency;
        } else {
          curCount := 0;
        }
        if Add32(curCount, batchCount) > rules[i].threshold {
          return false, Some(rules[i]), curCount;
        }
      }
    }
    return true, None, curCount;
  }

  /** The isolation slot among the checks; an entry without a resource name is not checked. */
  function IsolationSlot(order: nat, rules: map<string, seq<Rule>>): CheckSlot {
    CheckSlot(order, (input: Input) =>
      if input.resource == "" || input.resource !in rules then None
      else RuleVerdict(rules[input.resource], input.concurrency, input.batch))
  }

  // ---------------------------------------------------------------- entries

  /** What an entry carries through the chain; it goes back to a pool on exit. */
  class EntryContext {
    var resource: string
    var flow: Flow
    var batchCount: nat
    var startTime: int
    var failed: bool
    var statNode: StatNode?
    var blocked: Option<BlockType>

    constructor (resource: string, flow: Flow, batchCount: nat, startTime: int)
      ensures this.resource == resource && this.flow == flow && this.batchCount == batchCount && this.startTime == startTime
      ensures !failed && statNode == null && blocked == None
    {
      this.resource, this.flow, this.batchCount, this.startTime := resource, flow, batchCount, startTime;
      failed, statNode, blocked := false, null, None;
    }

    method Reset()
      modifies this
      ensures !failed && statNode == null && blocked == None
    {
      failed, statNode, blocked := false, null, None;
    }
  }

  class SlotChain {
    var ruleChecks: seq<CheckSlot>
    var routers: seq<CheckSlot>
    var nodes: map<string, StatNode>
    var pool: seq<EntryContext>
    const inboundNode: StatNode

    ghost predicate Valid()
      reads this
    {
      && inboundNode !in nodes.Values
      && forall r, s :: r in nodes && s in nodes && nodes[r] == nodes[s] ==> r == s
    }

    constructor ()
      ensures Valid() && nodes == map[] && ruleChecks == [] && routers == [] && pool == []
      ensures fresh(inboundNode) && inboundNode.State() == NEW_NODE
    {
      ruleChecks, routers, nodes, pool := [], [], map[], [];
      inboundNode := new StatNode();
    }

    /** A context from the pool, with whatever error it was left with there, or a new one. Only the start time is set. */
    method GetPooledContext(now: int) returns (ctx: EntryContext)
      modifies `pool, pool
      ensures old(pool) == [] ==> fresh(ctx) && !ctx.failed && pool == []
      ensures old(pool) != [] ==> ctx == old(pool)[|old(pool)| - 1] && pool == old(pool)[..|old(pool)| - 1]
      ensures old(pool) != [] ==> ctx.failed == old(pool[|pool| - 1].failed)
      ensures ctx.startTime == now
    {
      if pool == [] {
        ctx := new EntryContext("", Outbound, 0, now);
      } else {
        ctx := pool[|pool| - 1];
        pool := pool[..|pool| - 1];
        ctx.startTime := now;
      }
    }

    method RefurbishContext(ctx: EntryContext)
      modifies `pool, ctx
      ensures pool == old(pool) + [ctx]
      ensures !ctx.failed && ctx.statNode == null && ctx.blocked == None
    {
      ctx.Reset();
      pool := pool + [ctx];
    }

    method AddRuleCheckSlot(s: CheckSlot)
      modifies `ruleChecks
      ensures ruleChecks == Inserted(old(ruleChecks), s)
    {
      ruleChecks := SortedIn(ruleChecks, s);
    }

    method AddRouterSlot(s: CheckSlot)
      modifies `routers
      ensures routers == Inserted(old(routers), s)
    {
      routers := SortedIn(routers, s);
    }

    /** Appends a slot and lets it sink past those of a higher order, as the stable sort does. */
    static method SortedIn(slots: seq<CheckSlot>, s: CheckSlot) returns (r: seq<CheckSlot>)
      ensures r == Inserted(slots, s)
    {
      var i := |slots|;
      assert slots[..i] == slots && slots[i..] == [] && Inserted(slots, s) + [] == Inserted(slots, s);
      r := slots + [s];
      while i > 0 && s.order < slots[i - 1].order
        invariant 0 <= i <= |slots|
        invariant r == slots[..i] + [s] + slots[i..]
        invariant Inserted(slots, s) == Inserted(slots[..i], s) + slots[i..]
      {
        i := i - 1;
        assert slots[..i + 1][..i] == slots[..i];
        r := slots[..i] + [s] + slots[i..];
        assert slots[i..] == [slots[i]] + slots[i + 1..];
        assert Inserted(slots[..i + 1], s) == Inserted(slots[..i], s) + [slots[i]];
      }
      assert i == 0 ==> slots[..i] == [];
    }

    /** The node of a resource, made when it comes for the first time. */
    method Prepare(ctx: EntryContext)
      requires Valid()
      modifies `nodes, ctx`statNode
      ensures Valid()
      ensures old(ctx.resource) in nodes && ctx.statNode == nodes[ctx.resource]
      ensures ctx.resource in old(nodes) ==> nodes == old(nodes)
      ensures ctx.resource !in old(nodes) ==> nodes == old(nodes)[ctx.resource := nodes[ctx.resource]]
      ensures ctx.resource !in old(nodes) ==> fresh(nodes[ctx.resource]) && nodes[ctx.resource].State() == NEW_NODE
    {
      if ctx.resource !in nodes {
        var node := new StatNode();
        nodes := nodes[ctx.resource := node];
      }
      ctx.statNode := nodes[ctx.resource];
    }

    method Check(slots: seq<CheckSlot>, input: Input) returns (blocked: Option<BlockType>)
      ensures blocked == FirstBlock(slots, input)
    {
      blocked := None;
      for i := 0 to |slots|
        invariant blocked == None && FirstBlock(slots, input) == FirstBlock(slots[i..], input)
      {
        assert slots[i..][1..] == slots[i + 1..];
        blocked := slots[i].check(input);
        if blocked.Some? {
          return;
        }
      }
    }

    ghost function NodesOf(resource: string): set<StatNode>
      reads this
    {
      if resource in nodes then {nodes[resource]} else {}
    }

    ghost function StateOf(resource: string): NodeState
      reads this, NodesOf(resource)
    {
      if resource in nodes then nodes[resource].State() else NEW_NODE
    }

    /** Prepares, checks, routes and records: the whole way in. */
    method Entry(ctx: EntryContext, env: int) returns (blocked: Option<BlockType>)
      requires Valid()
      modifies `nodes, ctx`statNode, ctx`blocked, NodesOf(ctx.resource), inboundNode
      ensures Valid() && ctx.resource in nodes && ctx.statNode == nodes[ctx.resource] && ctx.blocked == blocked
      ensures nodes == old(nodes)[ctx.resource := nodes[ctx.resource]]
      ensures ctx.resource in old(nodes) ==> nodes == old(nodes)
      ensures ctx.resource !in old(nodes) ==> fresh(nodes[ctx.resource])
      ensures var before := old(StateOf(ctx.resource));
              && blocked == Decide(ruleChecks, routers, Input(ctx.resource, ctx.flow, ctx.batchCount, before.concurrency, env))
              && StateOf(ctx.resource) == Entered(before, blocked, ctx.batchCount)
      ensures inboundNode.State() ==
                if ctx.flow == Inbound then EnteredInbound(old(inboundNode.State()), blocked, ctx.batchCount) else old(inboundNode.State())
    {
      Prepare(ctx);
      var node := nodes[ctx.resource];
      var input := Input(ctx.resource, ctx.flow, ctx.batchCount, node.concurrency, env);
      blocked := Check(ruleChecks, input);
      var rerouted := Check(routers, input);
      if rerouted.Some? {
        blocked := rerouted;
      }
      ctx.blocked := blocked;
      if blocked == None {
        OnEntryPassed(ctx, node);
      } else {
        OnEntryBlocked(ctx, node, blocked.value);
      }
    }

    method OnEntryPassed(ctx: EntryContext, node: StatNode)
      requires node != inboundNode
      modifies node, inboundNode
      ensures node.State() == PassedOn(old(node.State()), ctx.batchCount)
      ensures inboundNode.State() ==
                if ctx.flow == Inbound then PassedOn(old(inboundNode.State()), ctx.batchCount) else old(inboundNode.State())
    {
      node.RecordPass(ctx.batchCount);
      if ctx.flow == Inbound {
        inboundNode.RecordPass(ctx.batchCount);
      }
    }

    method OnEntryBlocked(ctx: EntryContext, node: StatNode, t: BlockType)
      requires node != inboundNode
      modifies node, inboundNode
      ensures node.State() == BlockedTypeOn(BlockedOn(old(node.State()), ctx.batchCount), t, ctx.batchCount)
      ensures inboundNode.State() ==
                if ctx.flow == Inbound then BlockedOn(old(inboundNode.State()), ctx.batchCount) else old(inboundNode.State())
    {
      node.RecordBlock(ctx.batchCount);
      node.RecordBlockForType(t, ctx.batchCount);
      if ctx.flow == Inbound {
        inboundNode.RecordBlock(ctx.batchCount);
      }
    }

    /** The way out of an entry that was let in; a blocked one leaves no trace here. */
    method Exit(ctx: EntryContext, now: int)
      requires ctx.blocked == None ==> ctx.statNode != null && ctx.statNode != inboundNode
      modifies ctx.statNode, inboundNode
      ensures ctx.blocked.Some? ==> unchanged(inboundNode) && (ctx.statNode != null ==> unchanged(ctx.statNode))
      ensures ctx.blocked == None ==>
                && ctx.statNode.State() == CompletedOn(old(ctx.statNode.State()), ctx.batchCount, now - ctx.startTime, ctx.failed)
                && inboundNode.State() ==
                     if ctx.flow == Inbound then CompletedOn(old(inboundNode.State()), ctx.batchCount, now - ctx.startTime, ctx.failed)
                     else old(inboundNode.State())
    {
      if ctx.blocked.Some? {
        return;
      }
      ctx.statNode.RecordComplete(ctx.batchCount, now - ctx.startTime, ctx.failed);
      if ctx.flow == Inbound {
        inboundNode.RecordComplete(ctx.batchCount, now - ctx.startTime, ctx.failed);
      }
    }
  }

  function Entered(n: NodeState, blocked: Option<BlockType>, batch: nat): NodeState {
    match blocked
    case None => PassedOn(n, batch)
    case Some(t) => BlockedTypeOn(BlockedOn(n, batch), t, batch)
  }

  function EnteredInbound(n: NodeState, blocked: Option<BlockType>, batch: nat): NodeState {
    match blocked
    case None => PassedOn(n, batch)
    case Some(_) => BlockedOn(n, batch)
  }

  /** An entry in the hands of a caller. Handlers are known by number. */
  class SeaEntry {
    const ctx: EntryContext
    const chain: SlotChain
    var exitHandlers: seq<nat>
    var exited: bool
    var handled: seq<nat>

    constructor (ctx: EntryContext, chain: SlotChain, firstHandler: nat)
      ensures this.ctx == ctx && this.chain == chain && exitHandlers == [firstHandler] && !exited && handled == []
    {
      this.ctx, this.chain := ctx, chain;
      exitHandlers, exited, handled := [firstHandler], false, [];
    }

    /** A handler added later runs earlier. */
    method WhenExit(handler: nat)
      modifies `exitHandlers
      ensures exitHandlers == [handler] + old(exitHandlers)
    {
      var handlers := [handler];
      for i := 0 to |exitHandlers|
        invariant handlers == [handler] + exitHandlers[..i]
        invariant exitHandlers == old(exitHandlers)
      {
        handlers := handlers + [exitHandlers[i]];
      }
      exitHandlers := handlers;
    }

    /**
     Leaves once: the handlers run and the exit is recorded the first time only. A second call does no more than
     set the error on the context, which by then is in the pool or with another entry (`EntryRuns` shows what comes of it).
     */
    method Exit(failed: bool, now: int)
      requires !exited && ctx.blocked == None ==> ctx.statNode != null && ctx.statNode != chain.inboundNode
      modifies this, ctx, ctx.statNode, chain.inboundNode, chain`pool
      ensures exited && exitHandlers == old(exitHandlers)
      ensures chain.pool == if old(exited) then old(chain.pool) else old(chain.pool) + [ctx]
      ensures old(exited) ==> handled == old(handled) && (old(ctx.statNode) != null ==> unchanged(old(ctx.statNode))) && unchanged(chain.inboundNode)
      ensures old(exited) ==> ctx.failed == (old(ctx.failed) || failed) && ctx.statNode == old(ctx.statNode) && ctx.blocked == old(ctx.blocked)
      ensures !old(exited) ==> handled == old(handled) + old(exitHandlers) && ctx.statNode == null && ctx.blocked == None && !ctx.failed
      ensures !old(exited) && old(ctx.blocked).Some? ==> (old(ctx.statNode) != null ==> unchanged(old(ctx.statNode))) && unchanged(chain.inboundNode)
      ensures !old(exited) && old(ctx.blocked) == None ==>
                var rt, marked := now - old(ctx.startTime), old(ctx.failed) || failed;
                && old(ctx.statNode).State() == CompletedOn(old(ctx.statNode.State()), old(ctx.batchCount), rt, marked)
                && chain.inboundNode.State() ==
                     if old(ctx.flow) == Inbound then CompletedOn(old(chain.inboundNode.State()), old(ctx.batchCount), rt, marked)
                     else old(chain.inboundNode.State())
    {
      if failed {
        ctx.failed := true;
      }
      if exited {
        return;
      }
      exited := true;
      for i := 0 to |exitHandlers|
        invariant handled == old(handled) + exitHandlers[..i]
        modifies `handled
      {
        handled := handled + [exitHandlers[i]];
      }
      chain.Exit(ctx, now);
      chain.RefurbishContext(ctx);
    }
  }

  /** Asks for an entry: a blocked one is exited at once and not given out. */
  method Enter(chain: SlotChain, resource: string, flow: Flow, batchCount: nat, now: int, env: int)
    returns (entry: SeaEntry?, blocked: Option<BlockType>)
    requires chain.Valid()
    modifies chain`nodes, chain`pool, chain.pool, chain.NodesOf(resource), chain.inboundNode
    ensures chain.Valid() && resource in chain.nodes && chain.nodes == old(chain.nodes)[resource := chain.nodes[resource]]
    ensures var before := old(chain.StateOf(resource));
            && blocked == Decide(chain.ruleChecks, chain.routers, Input(resource, flow, batchCount, before.concurrency, env))
            && chain.StateOf(resource) == Entered(before, blocked, batchCount)
    ensures chain.inboundNode.State() ==
              if flow == Inbound then EnteredInbound(old(chain.inboundNode.State()), blocked, batchCount) else old(chain.inboundNode.State())
    ensures entry == null <==> blocked.Some?
    ensures entry != null ==>
              && fresh(entry) && !entry.exited && entry.chain == chain && entry.ctx.statNode == chain.nodes[resource]
              && entry.ctx.batchCount == batchCount && entry.ctx.flow == flow && entry.ctx.blocked == None
    ensures entry != null && old(chain.pool) == [] ==> fresh(entry.ctx) && !entry.ctx.failed && chain.pool == []
    ensures entry != null && old(chain.pool) != [] ==>
              var n := |old(chain.pool)| - 1;
              && entry.ctx == old(chain.pool)[n] && chain.pool == old(chain.pool)[..n]
              && entry.ctx.failed == old(chain.pool[|chain.pool| - 1].failed)
  {
    hide Decide, Entered, EnteredInbound;
    var ctx := chain.GetPooledContext(now);
    ctx.resource, ctx.flow, ctx.batchCount := resource, flow, batchCount;
    entry, blocked := EnterOn(chain, ctx, now, env);
  }

  /** Enters on a context that is filled in. */
  method EnterOn(chain: SlotChain, ctx: EntryContext, now: int, env: int) returns (entry: SeaEntry?, blocked: Option<BlockType>)
    requires chain.Valid()
    modifies chain`nodes, chain`pool, ctx, chain.NodesOf(ctx.resource), chain.inboundNode
    ensures chain.Valid() && old(ctx.resource) in chain.nodes
    ensures chain.nodes == old(chain.nodes)[old(ctx.resource) := chain.nodes[old(ctx.resource)]]
    ensures var before, resource := old(chain.StateOf(ctx.resource)), old(ctx.resource);
            && blocked == Decide(chain.ruleChecks, chain.routers, Input(resource, old(ctx.flow), old(ctx.batchCount), before.concurrency, env))
            && chain.StateOf(resource) == Entered(before, blocked, old(ctx.batchCount))
    ensures chain.inboundNode.State() ==
              if old(ctx.flow) == Inbound then EnteredInbound(old(chain.inboundNode.State()), blocked, old(ctx.batchCount))
              else old(chain.inboundNode.State())
    ensures entry == null <==> blocked.Some?
    ensures entry == null ==> chain.pool == old(chain.pool) + [ctx] && !ctx.failed
    ensures entry != null ==>
              && fresh(entry) && !entry.exited && entry.chain == chain && entry.ctx == ctx && ctx.statNode == chain.nodes[old(ctx.resource)]
              && ctx.blocked == None && ctx.failed == old(ctx.failed) && ctx.batchCount == old(ctx.batchCount) && ctx.flow == old(ctx.flow)
              && chain.pool == old(chain.pool)
  {
    hide Decide, Entered, EnteredInbound;
    entry := new SeaEntry(ctx, chain, 0);
    blocked := chain.Entry(ctx, env);
    if blocked.Some? {
      entry.Exit(false, now);
      entry := null;
    }
  }
}
