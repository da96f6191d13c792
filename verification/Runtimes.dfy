/** The Maple runtime (maple/Runtime.hh): policy, trace tree and flow table agree.  */
module Runtimes {
  import opened Basics
  import opened Oxm
  import opened FieldSets
  import opened TraceTrees
  import opened Tracing
  import opened Compiler
  import opened Machines
  import opened Policies

  /** The tree, and the decision last recorded with each flow. */
  datatype State = State(root: Node, decisions: map<FlowId, Decision>)

  const START := State(Unexplored, map[])

  /** What happens to a runtime: a packet is handed to the policy, which performs at most
      `steps` actions, or the tree is thrown away. */
  datatype Call = Augment(pkt: Packet, flow: FlowId, steps: nat) | Invalidate

  function FinishOf(outcome: Outcome, flow: FlowId): Option<FlowId> {
    if outcome.Decided? && !outcome.decision.Disposable() then Some(flow) else None
  }

  function DecisionsAfter(decisions: map<FlowId, Decision>, outcome: Outcome, flow: FlowId): map<FlowId, Decision> {
    if outcome.Decided? then decisions[flow := outcome.decision] else decisions
  }

  /** None stands for a thrown `inconsistent_trace`. */
  function AugmentState(policy: Policy, st: State, pkt: Packet, flow: FlowId, steps: nat): Option<State> {
    var (events, outcome) := TracedRun(policy, pkt, steps);
    match Graft(st.root, events, FinishOf(outcome, flow))
    case None => None
    case Some(root) => Some(State(root, DecisionsAfter(st.decisions, outcome, flow)))
  }

  /** The flow handed in is new to the tree, or the one the tree already has for the packet
      (Controller.cc:788-804). */
  predicate FlowFits(root: Node, pkt: Packet, flow: FlowId) {
    flow !in Flows(root) || Leaf(root, pkt) == Some(flow)
  }

  // ---------------------------------------------------------------- the invariant

  const NOTHING_KNOWN := View([], map[])

  ghost predicate Sound(policy: Policy, st: State, n: nat) {
    Consistent(st.root, MachineOf(policy), NOTHING_KNOWN, n, st.decisions)
  }

  /** The traced run of a whole packet, as the machine and as the reference see it. */
  lemma WholeRun(policy: Policy, pkt: Packet, n: nat)
    ensures TracedRun(policy, pkt, n) == Run(MachineOf(policy), NOTHING_KNOWN, pkt, n)
    ensures TracedRun(policy, pkt, n).1 == BareRun(policy, pkt, n)
  {
    TracedRunIsMachineRun(policy, pkt, n);
    TracedRunIsBareRun(policy, pkt, n);
  }

  /** Lookup never disagrees with the policy. */
  lemma LookupIsPolicy(policy: Policy, st: State, n: nat, p: Packet)
    requires Sound(policy, st, n)
    ensures var leaf := Leaf(st.root, p);
            leaf.Some? ==>
              leaf.value in st.decisions && BareRun(policy, p, n) == Decided(st.decisions[leaf.value])
  {
    LeafIsDecision(st.root, MachineOf(policy), NOTHING_KNOWN, n, st.decisions, p);
    WholeRun(policy, p, n);
  }

  /** Two runs on one packet reach the same decision, whatever time they are given. */
  lemma DecisionIsUnique(policy: Policy, p: Packet, n: nat, m: nat)
    requires BareRun(policy, p, n).Decided? && BareRun(policy, p, m).Decided?
    ensures BareRun(policy, p, n) == BareRun(policy, p, m)
  {
    if n <= m { EndedRunIsFinal(PLAIN, policy, [], p, n, m); } else { EndedRunIsFinal(PLAIN, policy, [], p, m, n); }
  }

  /** Every augment run succeeds and keeps the tree sound: runs that decide, runs whose flow
      is disposable, runs that throw, and runs cut short. */
  lemma AugmentKeepsSound(policy: Policy, st: State, n: nat, pkt: Packet, flow: FlowId, steps: nat)
    requires Sound(policy, st, n) && FlowFits(st.root, pkt, flow)
    ensures AugmentState(policy, st, pkt, flow, steps).Some?
    ensures Sound(policy, AugmentState(policy, st, pkt, flow, steps).value, Max(n, steps))
  {
    var outcome := TracedRun(policy, pkt, steps).1;
    var decisions' := DecisionsAfter(st.decisions, outcome, flow);
    WholeRun(policy, pkt, steps);
    LookupIsPolicy(policy, st, n, pkt);
    if Leaf(st.root, pkt) == Some(flow) && outcome.Decided? {
      DecisionIsUnique(policy, pkt, n, steps);
    }
    ConsistentIsStable(st.root, MachineOf(policy), NOTHING_KNOWN, n, Max(n, steps), st.decisions, decisions');
    RunKeepsConsistent(st.root, MachineOf(policy), NOTHING_KNOWN, pkt, steps, Max(n, steps), decisions', FinishOf(outcome, flow));
  }

  // ---------------------------------------------------------------- all sequences of calls

  function Exec(policy: Policy, st: State, calls: seq<Call>): Option<State>
    decreases |calls|
  {
    if calls == [] then Some(st)
    else
      match calls[0]
      case Invalidate => Exec(policy, START, calls[1..])
      case Augment(pkt, flow, steps) =>
        match AugmentState(policy, st, pkt, flow, steps)
        case None => None
        case Some(st') => Exec(policy, st', calls[1..])
  }

  /** Every augment call is handed a flow that fits the tree at that time. */
  predicate FlowsFit(policy: Policy, st: State, calls: seq<Call>)
    decreases |calls|
  {
    calls == [] ||
    match calls[0]
    case Invalidate => FlowsFit(policy, START, calls[1..])
    case Augment(pkt, flow, steps) =>
      && FlowFits(st.root, pkt, flow)
      && var next := AugmentState(policy, st, pkt, flow, steps);
         (next.Some? ==> FlowsFit(policy, next.value, calls[1..]))
  }

  function LongestRun(n: nat, calls: seq<Call>): nat
    decreases |calls|
  {
    if calls == [] then n
    else LongestRun(if calls[0].Augment? then Max(n, calls[0].steps) else n, calls[1..])
  }

  /** No sequence of calls ever raises `inconsistent_trace`, and every tree it reaches is sound. */
  lemma {:induction false} ReachableIsSound(policy: Policy, st: State, n: nat, calls: seq<Call>)
    requires Sound(policy, st, n) && FlowsFit(policy, st, calls)
    ensures Exec(policy, st, calls).Some?
    ensures Sound(policy, Exec(policy, st, calls).value, LongestRun(n, calls))
    decreases |calls|
  {
    if calls != [] {
      match calls[0]
      case Invalidate => ReachableIsSound(policy, START, n, calls[1..]);
      case Augment(pkt, flow, steps) =>
        AugmentKeepsSound(policy, st, n, pkt, flow, steps);
        ReachableIsSound(policy, AugmentState(policy, st, pkt, flow, steps).value, Max(n, steps), calls[1..]);
    }
  }

  /** The main result.  For every policy, every sequence of calls, every packet, and every
      table compiled from the tree they leave, in any order and with any leaf rules since
      lost: the rule that wins the packet on the switch is a barrier, or it belongs to a
      flow whose recorded decision is the one the policy makes for that very packet; and a
      packet that has a live flow is won by it as long as its rule is there. */
  lemma PolicyTreeAndTableAgree(policy: Policy, calls: seq<Call>, p: Packet,
                                s: Schedule, alive: set<FlowId>, barrier: FlowId, gone: set<nat>)
    requires FlowsFit(policy, START, calls)
    ensures Exec(policy, START, calls).Some?
    ensures var st := Exec(policy, START, calls).value;
            && PathDisjoint(st.root, map[])
            && (Scheduled(st.root, s) ==>
                  var installs := Walk(st.root, s, map[], alive, barrier).0; var table := Numbered(installs);
                  var found := Lookup(st.root, p, alive);
                  RuleCount(st.root, alive) < PRIORITY_RANGE && OnlyLeavesGone(installs, gone, barrier) ==>
                    && (forall k: nat :: IsWinner(table, gone, p, k) ==>
                          table[k].flow == barrier || DecidedAs(policy, p, calls, st, table[k].flow))
                    && (found.Some? && !LeafGone(installs, gone, found.value) ==>
                          exists k: nat :: IsWinner(table, gone, p, k) && table[k].flow == found.value))
  {
    ReachableIsSound(policy, START, 0, calls);
    var st, n := Exec(policy, START, calls).value, LongestRun(0, calls);
    SoundIsPathDisjoint(policy, st, n);
    LookupIsPolicy(policy, st, n, p);
    if Scheduled(st.root, s) {
      var installs := Walk(st.root, s, map[], alive, barrier).0;
      if RuleCount(st.root, alive) < PRIORITY_RANGE && OnlyLeavesGone(installs, gone, barrier) {
        TableAgreesWithTree(st.root, s, alive, barrier, gone, p);
      }
    }
  }

  ghost predicate DecidedAs(policy: Policy, p: Packet, calls: seq<Call>, st: State, flow: FlowId) {
    flow in st.decisions && BareRun(policy, p, LongestRun(0, calls)) == Decided(st.decisions[flow])
  }

  // ---------------------------------------------------------------- what one run changes

  /** The run decided, and not on a disposable flow: its idle timeout is positive. */
  predicate Lasting(outcome: Outcome) { outcome.Decided? && outcome.decision.idleTimeout > 0 }

  /** Augmenting is conservative: a run that decides on a flow with a positive idle timeout
      redirects to that flow exactly the packets that answer like its own packet, which is one
      of them; all others keep what they had.  A run that decides on a disposable flow, throws
      or is cut short redirects nobody.  Every decision made is recorded with the flow. */
  lemma AugmentIsConservative(policy: Policy, st: State, pkt: Packet, flow: FlowId, steps: nat, q: Packet)
    requires AugmentState(policy, st, pkt, flow, steps).Some?
    ensures var events, outcome := TracedRun(policy, pkt, steps).0, BareRun(policy, pkt, steps);
            var st' := AugmentState(policy, st, pkt, flow, steps).value;
            && (Lasting(outcome) ==>
                  && Leaf(st'.root, pkt) == Some(flow)
                  && Leaf(st'.root, q) == if Follows(events, q) then Some(flow) else Leaf(st.root, q))
            && (!Lasting(outcome) ==> Leaf(st'.root, q) == Leaf(st.root, q))
            && st'.decisions == if outcome.Decided? then st.decisions[flow := outcome.decision] else st.decisions
  {
    var (events, outcome) := TracedRun(policy, pkt, steps);
    WholeRun(policy, pkt, steps);
    RunFollowsItself(MachineOf(policy), NOTHING_KNOWN, pkt, steps);
    if Lasting(outcome) {
      GraftRedirectsFollowers(st.root, events, flow, q);
      GraftRedirectsFollowers(st.root, events, flow, pkt);
    } else {
      UnfinishedGraftIsInvisible(st.root, events, q);
    }
  }

  /** The condition on the flow is needed: recording a second decision with a flow that the
      tree holds for some packet makes the tree wrong about that packet, exactly when the
      two decisions differ. */
  lemma ReusedFlowMisleads(policy: Policy, st: State, n: nat, pkt: Packet, flow: FlowId, steps: nat, q: Packet)
    requires Sound(policy, st, n) && Leaf(st.root, q) == Some(flow)
    requires BareRun(policy, pkt, steps).Decided?
    requires AugmentState(policy, st, pkt, flow, steps).Some?
    ensures var st' := AugmentState(policy, st, pkt, flow, steps).value;
            && Leaf(st'.root, q) == Some(flow) && flow in st.decisions
            && (BareRun(policy, q, n) == Decided(st'.decisions[flow]) <==>
                BareRun(policy, pkt, steps).decision == st.decisions[flow])
  {
    WholeRun(policy, pkt, steps);
    LookupIsPolicy(policy, st, n, q);
    AugmentIsConservative(policy, st, pkt, flow, steps, q);
  }

  // ---------------------------------------------------------------- the mutable runtime

  class Runtime {
    const policy: Policy
    const backend: Backend
    const miss: FlowId
    var tree: TraceTree
    var decisions: map<FlowId, Decision>
    ghost var longest: nat

    ghost function Current(): State
      reads this, tree
    {
      State(tree.root, decisions)
    }

    ghost predicate Valid()
      reads this, tree
    {
      Sound(policy, Current(), longest)
    }

    constructor (policy: Policy, backend: Backend, miss: FlowId)
      ensures this.policy == policy && this.backend == backend && this.miss == miss
      ensures fresh(tree) && Current() == START
      ensures Valid()
    {
      this.policy := policy;
      this.backend := backend;
      this.miss := miss;
      tree := new TraceTree();
      decisions := map[];
      longest := 0;
    }

    /** Run the policy on the traced packet, event by event into the tree.  The answer false
        stands for a thrown `inconsistent_trace`. */
    method Trace(pkt: Packet, flow: FlowId, steps: nat) returns (ok: bool, outcome: Outcome)
      modifies this`decisions, tree
      ensures var next := AugmentState(policy, old(Current()), pkt, flow, steps);
              (ok <==> next.Some?) && (ok ==> Current() == next.value)
      ensures ok ==> outcome == BareRun(policy, pkt, steps)
    {
      var tracer;
      ok, outcome, tracer := Follow(pkt, steps);
      WholeRun(policy, pkt, steps);
      if !ok {
        return;
      }
      if outcome.Decided? {
        decisions := decisions[flow := outcome.decision];
        if !outcome.decision.Disposable() {
          ok := tracer.Finish(flow);
        }
      }
    }

    /** The run itself: its tracer has the events of the traced run, or has refused one. */
    method Follow(pkt: Packet, steps: nat) returns (ok: bool, outcome: Outcome, tracer: Tracer)
      modifies tree
      ensures fresh(tracer) && tracer.tree == tree && tracer.start == old(tree.root)
      ensures ok ==> tracer.Valid() && (tracer.events, outcome) == TracedRun(policy, pkt, steps)
      ensures !ok ==> Doomed(old(tree.root), TracedRun(policy, pkt, steps).0)
    {
      tracer := new Tracer(tree);
      var tpkt := new TracedPacket(pkt, tracer);
      ghost var events := TracedRun(policy, pkt, steps).0;
      assert [] + events == events;
      ok, outcome := Drive(policy, [], tpkt, steps);
    }

    /** Hand a packet to the policy: always consistent with the tree. */
    method Augment(pkt: Packet, flow: FlowId, steps: nat) returns (ok: bool, outcome: Outcome)
      requires Valid() && FlowFits(tree.root, pkt, flow)
      modifies this`decisions, this`longest, tree
      ensures ok && outcome == BareRun(policy, pkt, steps)
      ensures Some(Current()) == AugmentState(policy, old(Current()), pkt, flow, steps)
      ensures Lasting(outcome) ==> Leaf(tree.root, pkt) == Some(flow)
      ensures !Lasting(outcome) ==> forall q :: Leaf(tree.root, q) == Leaf(old(tree.root), q)
      ensures decisions == if outcome.Decided? then old(decisions)[flow := outcome.decision] else old(decisions)
      ensures Valid()
    {
      ghost var before := Current();
      AugmentKeepsSound(policy, before, longest, pkt, flow, steps);
      ok, outcome := Trace(pkt, flow, steps);
      longest := Max(longest, steps);
      forall q
        ensures !Lasting(outcome) ==> Leaf(tree.root, q) == Leaf(before.root, q)
        ensures Lasting(outcome) ==> Leaf(tree.root, pkt) == Some(flow)
        ensures decisions == if outcome.Decided? then before.decisions[flow := outcome.decision] else before.decisions
      {
        AugmentIsConservative(policy, before, pkt, flow, steps, q);
      }
      AugmentIsConservative(policy, before, pkt, flow, steps, pkt);
    }

    /** The flow for a packet: that of its leaf if the flow is still alive, and then it is one
        the policy would decide on; otherwise the miss flow. */
    method Find(pkt: Packet, alive: set<FlowId>) returns (flow: FlowId)
      requires Valid()
      ensures match Leaf(tree.root, pkt)
              case None => flow == miss
              case Some(f) => flow == if f in alive then f else miss
      ensures flow == miss ||
              (flow in alive && flow in decisions && BareRun(policy, pkt, longest) == Decided(decisions[flow]))
    {
      LookupIsPolicy(policy, Current(), longest, pkt);
      var found := Lookup(tree.root, pkt, alive);
      return if found.Some? then found.value else miss;
    }

    method Invalidate()
      requires Valid()
      modifies this`tree
      ensures Valid() && tree.root == Unexplored
    {
      tree := new TraceTree();
    }

    /** Compile the tree: whatever leaf rules the switch loses afterwards, no packet is won
        by a flow that the policy would not choose for it, and a packet with a live flow is
        won by that flow as long as none of its rules is lost. */
    method Commit(alive: set<FlowId>)
      requires Valid()
      modifies backend
      ensures RuleCount(tree.root, alive) < PRIORITY_RANGE ==>
                forall p, gone :: NoneLost(backend.table, gone, miss) ==>
                  && ServesOnly(policy, Current(), longest, miss, backend.table, gone, p)
                  && ServesLive(backend.table, gone, p, Lookup(tree.root, p, alive))
    {
      backend.RemoveAll();
      SoundIsPathDisjoint(policy, Current(), longest);
      PathDisjointIsSized(tree.root, map[]);
      var compiler := new TreeCompiler(backend, miss);
      ghost var s := compiler.VisitNode(tree.root, alive);
      ghost var installs := Walk(tree.root, s, map[], alive, miss).0;
      assert compiler.installs == installs;
      if RuleCount(tree.root, alive) < PRIORITY_RANGE {
        forall p, gone | NoneLost(backend.table, gone, miss)
          ensures ServesOnly(policy, Current(), longest, miss, backend.table, gone, p)
          ensures ServesLive(backend.table, gone, p, Lookup(tree.root, p, alive))
        {
          CompiledServes(policy, Current(), longest, s, alive, miss, gone, p);
        }
      }
    }
  }

  lemma SoundIsPathDisjoint(policy: Policy, st: State, n: nat)
    requires Sound(policy, st, n)
    ensures PathDisjoint(st.root, map[])
  {
    PolicyAsksUnseen(policy);
    ConsistentIsPathDisjoint(st.root, MachineOf(policy), NOTHING_KNOWN, n, st.decisions, map[]);
  }

  /** What a compiled table does for one packet. */
  lemma CompiledServes(policy: Policy, st: State, n: nat, s: Schedule, alive: set<FlowId>, miss: FlowId, gone: set<nat>, p: Packet)
    requires Sound(policy, st, n) && Scheduled(st.root, s) && RuleCount(st.root, alive) < PRIORITY_RANGE
    requires NoneLost(Numbered(Walk(st.root, s, map[], alive, miss).0), gone, miss)
    ensures var table := Numbered(Walk(st.root, s, map[], alive, miss).0);
            && ServesOnly(policy, st, n, miss, table, gone, p)
            && ServesLive(table, gone, p, Lookup(st.root, p, alive))
  {
    var installs, found := Walk(st.root, s, map[], alive, miss).0, Lookup(st.root, p, alive);
    SameLost(installs, gone, miss);
    if found.Some? { SameLost(installs, gone, found.value); }
    SoundIsPathDisjoint(policy, st, n);
    TableAgreesWithTree(st.root, s, alive, miss, gone, p);
    LookupIsPolicy(policy, st, n, p);
  }

  /** The winner, if there is one, is a barrier or the policy's own choice. */
  ghost predicate ServesOnly(policy: Policy, st: State, n: nat, miss: FlowId, table: seq<Rule>, gone: set<nat>, p: Packet) {
    forall k: nat :: IsWinner(table, gone, p, k) ==>
      || table[k].flow == miss
      || (table[k].flow in st.decisions && BareRun(policy, p, n) == Decided(st.decisions[table[k].flow]))
  }

  /** No rule of the flow is among the lost ones. */
  predicate NoneLost(table: seq<Rule>, gone: set<nat>, flow: FlowId) {
    forall g :: g in gone && g < |table| ==> table[g].flow != flow
  }

  ghost predicate ServesLive(table: seq<Rule>, gone: set<nat>, p: Packet, found: Option<FlowId>) {
    found.Some? && NoneLost(table, gone, found.value) ==>
      exists k: nat :: IsWinner(table, gone, p, k) && table[k].flow == found.value
  }

  lemma SameLost(installs: seq<Install>, gone: set<nat>, flow: FlowId)
    ensures NoneLost(Numbered(installs), gone, flow) <==> OnlyLeavesGone(installs, gone, flow)
    ensures NoneLost(Numbered(installs), gone, flow) <==> !LeafGone(installs, gone, flow)
  {
  }

  /** One operation of the policy on its packet. */
  method Perform(tpkt: TracedPacket, op: PacketOp) returns (answer: Option<Answer>)
    requires tpkt.Valid()
    modifies tpkt, tpkt.cache, tpkt.tracer, tpkt.tracer.tree
    ensures var step := TracedStep(old(tpkt.State()), op);
            && (answer.Some? <==> Graft(tpkt.tracer.start, old(tpkt.tracer.events) + step.events, None).Some?)
            && (answer.Some? ==>
                  && tpkt.Valid() && answer.value == step.answer && tpkt.State() == step.next
                  && tpkt.tracer.events == old(tpkt.tracer.events) + step.events)
  {
    StepIsTransparent(tpkt.State(), tpkt.original, op);
    match op {
      case Load(m) =>
        var r := tpkt.Load(m);
        answer := if r.Some? then Some(Loaded(r.value)) else None;
      case Test(need) =>
        var r := tpkt.Test(need);
        answer := if r.Some? then Some(Tested(r.value)) else None;
      case Modify(patch) =>
        assert tpkt.tracer.events + [] == tpkt.tracer.events;
        tpkt.Modify(patch);
        answer := Some(Modified);
    }
  }

  /** The tracer has received the events of a run, on top of `was`, or has refused one. */
  ghost predicate Drove(impl: PacketImpl<Traced>, policy: Policy, h: seq<Answer>, s: Traced, n: nat, start: Node,
                        was: seq<Event>, now: seq<Event>, ok: bool, outcome: Outcome)
  {
    var (events, ending) := RunOn(impl, policy, h, s, n);
    if ok then now == was + events && outcome == ending else Doomed(start, was + events)
  }

  lemma DroveOneMore(impl: PacketImpl<Traced>, policy: Policy, h: seq<Answer>, s: Traced, n: nat, start: Node,
                     step: Step<Traced>, was: seq<Event>, now: seq<Event>, ok: bool, outcome: Outcome)
    requires n > 0 && policy(h).Do? && step == impl(s, policy(h).op)
    requires || Drove(impl, policy, h + [step.answer], step.next, n - 1, start, was + step.events, now, ok, outcome)
             || (!ok && Graft(start, was + step.events, None).None?)
    ensures Drove(impl, policy, h, s, n, start, was, now, ok, outcome)
  {
    var later := RunOn(impl, policy, h + [step.answer], step.next, n - 1).0;
    assert was + (step.events + later) == (was + step.events) + later;
    if Graft(start, was + step.events, None).None? { GraftFailsEarly(start, was + step.events, later); }
  }

  /** At most n actions of the policy on its packet. */
  method Drive(policy: Policy, h: seq<Answer>, tpkt: TracedPacket, n: nat) returns (ok: bool, outcome: Outcome)
    requires tpkt.Valid()
    modifies tpkt, tpkt.cache, tpkt.tracer, tpkt.tracer.tree
    ensures Drove(TRACED, policy, h, old(tpkt.State()), n, tpkt.tracer.start,
                  old(tpkt.tracer.events), tpkt.tracer.events, ok, outcome)
    ensures ok ==> tpkt.Valid()
    decreases n
  {
    if n == 0 {
      return true, Running;
    }
    match policy(h) {
      case Decide(d) =>
        return true, Decided(d);
      case Throw =>
        return true, Threw;
      case Do(op) =>
        ghost var s, was := tpkt.State(), tpkt.tracer.events;
        ghost var step := TRACED(s, op);
        var answer := Perform(tpkt, op);
        if answer.None? {
          ok, outcome := false, Threw;
        } else {
          ok, outcome := Drive(policy, h + [answer.value], tpkt, n - 1);
        }
        DroveOneMore(TRACED, policy, h, s, n, tpkt.tracer.start, step, was, tpkt.tracer.events, ok, outcome);
    }
  }

  /** No way of ending the run makes the events consistent with the tree. */
  ghost predicate Doomed(node: Node, events: seq<Event>) {
    forall finish :: Graft(node, events, finish).None?
  }

  /** An inconsistency in a prefix of a run is one of the whole run. */
  lemma {:induction false} GraftFailsEarly(node: Node, events: seq<Event>, more: seq<Event>)
    requires Graft(node, events, None).None?
    ensures Doomed(node, events + more)
    decreases |events|
  {
    assert events != [];
    assert (events + more)[1..] == events[1..] + more;
    var n := Extend(node, events[0]);
    if n.Some? {
      GraftFailsEarly(Child(n.value, BranchOf(events[0])), events[1..], more);
    }
  }

  lemma {:induction false} PathDisjointIsSized(node: Node, known: Entries)
    requires PathDisjoint(node, known)
    ensures Sized(node)
    decreases node
  {
    match node
    case Unexplored =>
    case FlowNode(_) =>
    case TestNode(need, pos, neg) =>
      PathDisjointIsSized(pos, ModifyIn(known, need));
      PathDisjointIsSized(neg, known);
    case LoadNode(mask, cases) =>
      forall v | v in cases
        ensures Sized(cases[v])
      {
        PathDisjointIsSized(cases[v], ModifyIn(known, CaseField(mask, v)));
      }
  }
}
