/** Exploring machines: deterministic programs seen through what they ask of a packet, and
    the trees their runs grow.

    A machine asks for bits of a packet (a load) or for the outcome of a comparison (a
    test), moves on without asking, concludes with a decision, or aborts.  The tracing layer
    turns every policy into such a machine over the *original* packet (module Policies);
    what the trace tree does with the machine's questions is proved here for all machines.  */
module Machines {
  import opened Basics
  import opened Oxm
  import opened FieldSets
  import opened TraceTrees
  import opened Tracing
  import opened Compiler

  /** The part of a decision that matters to the runtime (Controller.cc:351-353). */
  datatype Decision = Decision(action: int, idleTimeout: int) {
    predicate Disposable() { idleTimeout <= 0 }
  }

  datatype Outcome = Decided(decision: Decision) | Threw | Running

  /** Everything a policy has learned: its answers so far, and the cache of known bits. */
  datatype View = View(answers: seq<Answer>, cache: Entries)

  datatype Move =
    | Conclude(decision: Decision)
    | Abort
    | Quiet(next: View)
    | AskLoad(mask: Mask, loaded: Field -> View)
    | AskTest(need: Field, yes: View, no: View)

  type Machine = View -> Move

  // ---------------------------------------------------------------- runs

  /** At most n moves of the machine on a packet: the questions asked, and how it ended. */
  function Run(machine: Machine, x: View, p: Packet, n: nat): (seq<Event>, Outcome)
    decreases n
  {
    if n == 0 then ([], Running)
    else
      match machine(x)
      case Conclude(d) => ([], Decided(d))
      case Abort => ([], Threw)
      case Quiet(y) => Run(machine, y, p, n - 1)
      case AskLoad(mask, loaded) =>
        var data := p.Load(mask);
        var (events, outcome) := Run(machine, loaded(data), p, n - 1);
        ([LoadEvent(data)] + events, outcome)
      case AskTest(need, yes, no) =>
        var ret := p.Test(need);
        var (events, outcome) := Run(machine, if ret then yes else no, p, n - 1);
        ([TestEvent(need, ret)] + events, outcome)
  }

  /** A packet gives the answers of its own run. */
  lemma {:induction false} RunFollowsItself(machine: Machine, x: View, p: Packet, n: nat)
    ensures Follows(Run(machine, x, p, n).0, p)
    decreases n
  {
    if n > 0 {
      match machine(x)
      case Conclude(_) =>
      case Abort =>
      case Quiet(y) => RunFollowsItself(machine, y, p, n - 1);
      case AskLoad(mask, loaded) =>
        LoadIsTheAgreeingField(p, p.Load(mask));
        RunFollowsItself(machine, loaded(p.Load(mask)), p, n - 1);
      case AskTest(need, yes, no) => RunFollowsItself(machine, if p.Test(need) then yes else no, p, n - 1);
    }
  }

  /** Packets that share a trace share the outcome. */
  lemma {:induction false} TraceDeterminesOutcome(machine: Machine, x: View, p: Packet, q: Packet, n: nat)
    requires Follows(Run(machine, x, p, n).0, q)
    ensures Run(machine, x, q, n) == Run(machine, x, p, n)
    decreases n
  {
    if n > 0 {
      var events := Run(machine, x, p, n).0;
      match machine(x)
      case Conclude(_) =>
      case Abort =>
      case Quiet(y) => TraceDeterminesOutcome(machine, y, p, q, n - 1);
      case AskLoad(mask, loaded) =>
        FollowsCons(events, q);
        TraceDeterminesOutcome(machine, loaded(p.Load(mask)), p, q, n - 1);
      case AskTest(need, yes, no) =>
        FollowsCons(events, q);
        TraceDeterminesOutcome(machine, if p.Test(need) then yes else no, p, q, n - 1);
    }
  }

  // ---------------------------------------------------------------- trees a machine can grow

  /** The subtree agrees with the machine from view x on: its nodes are the machine's
      questions and its leaves hold the machine's decisions.  n bounds the number of moves
      on any explored path. */
  ghost predicate Consistent(node: Node, machine: Machine, x: View, n: nat, decisions: map<FlowId, Decision>)
    decreases n
  {
    node.Unexplored? || (n > 0 &&
      match machine(x)
      case Conclude(d) => node.FlowNode? && node.flow in decisions && decisions[node.flow] == d
      case Abort => false
      case Quiet(y) => Consistent(node, machine, y, n - 1, decisions)
      case AskLoad(mask, loaded) =>
        && node.LoadNode? && node.mask == mask
        && forall v :: v in node.cases ==>
             IsCase(mask, v) && Consistent(node.cases[v], machine, loaded(CaseField(mask, v)), n - 1, decisions)
      case AskTest(need, yes, no) =>
        && node.TestNode? && node.need == need
        && Consistent(node.positive, machine, yes, n - 1, decisions)
        && Consistent(node.negative, machine, no, n - 1, decisions))
  }

  predicate IsCase(mask: Mask, v: Bits) {
    |v| == mask.t.nbits && CaseField(mask, v).value == v
  }

  lemma LoadedCase(p: Packet, mask: Mask)
    ensures IsCase(mask, p.Load(mask).value) && CaseField(mask, p.Load(mask).value) == p.Load(mask)
  {
  }

  /** Soundness: if the tree has a flow for a packet, the machine run on that packet from
      the start makes the decision recorded with the flow. */
  lemma {:induction false} LeafIsDecision(
    node: Node, machine: Machine, x: View, n: nat, decisions: map<FlowId, Decision>, p: Packet)
    requires Consistent(node, machine, x, n, decisions)
    ensures var leaf := Leaf(node, p);
            leaf.Some? ==>
              leaf.value in decisions && Run(machine, x, p, n).1 == Decided(decisions[leaf.value])
    decreases n
  {
    if !node.Unexplored? {
      match machine(x)
      case Conclude(_) =>
      case Quiet(y) => LeafIsDecision(node, machine, y, n - 1, decisions, p);
      case AskLoad(mask, loaded) =>
        var v := p.Load(mask).value;
        if v in node.cases {
          LoadedCase(p, mask);
          LeafIsDecision(node.cases[v], machine, loaded(p.Load(mask)), n - 1, decisions, p);
        }
      case AskTest(need, yes, no) =>
        if p.Test(need) {
          LeafIsDecision(node.positive, machine, yes, n - 1, decisions, p);
        } else {
          LeafIsDecision(node.negative, machine, no, n - 1, decisions, p);
        }
    }
  }

  /** The flow a run may record: only with the decision it reached. */
  ghost predicate MayFinish(outcome: Outcome, finish: Option<FlowId>, decisions: map<FlowId, Decision>) {
    finish.Some? ==> outcome.Decided? && finish.value in decisions && decisions[finish.value] == outcome.decision
  }

  /** Every run, finished, thrown or cut short, extends a consistent tree without an
      inconsistency and leaves it consistent. */
  lemma {:induction false} RunKeepsConsistent(
    node: Node, machine: Machine, x: View, p: Packet, m: nat, n: nat,
    decisions: map<FlowId, Decision>, finish: Option<FlowId>)
    requires Consistent(node, machine, x, n, decisions) && m <= n
    requires MayFinish(Run(machine, x, p, m).1, finish, decisions)
    ensures var grown := Graft(node, Run(machine, x, p, m).0, finish);
            grown.Some? && Consistent(grown.value, machine, x, n, decisions)
    decreases m
  {
    if m > 0 {
      match machine(x)
      case Conclude(_) =>
      case Abort =>
      case Quiet(y) => RunKeepsConsistent(node, machine, y, p, m - 1, n - 1, decisions, finish);
      case AskLoad(mask, loaded) => LoadKeepsConsistent(node, machine, x, p, m, n, decisions, finish);
      case AskTest(need, yes, no) => TestKeepsConsistent(node, machine, x, p, m, n, decisions, finish);
    }
  }

  lemma {:induction false} TestKeepsConsistent(
    node: Node, machine: Machine, x: View, p: Packet, m: nat, n: nat,
    decisions: map<FlowId, Decision>, finish: Option<FlowId>)
    requires 0 < m <= n && machine(x).AskTest?
    requires Consistent(node, machine, x, n, decisions)
    requires MayFinish(Run(machine, x, p, m).1, finish, decisions)
    ensures var grown := Graft(node, Run(machine, x, p, m).0, finish);
            grown.Some? && Consistent(grown.value, machine, x, n, decisions)
    decreases m, 0
  {
    var need := machine(x).need;
    var ret := p.Test(need);
    var y := if ret then machine(x).yes else machine(x).no;
    var e := TestEvent(need, ret);
    var node' := Extend(node, e).value;
    RunKeepsConsistent(Child(node', BranchOf(e)), machine, y, p, m - 1, n - 1, decisions, finish);
    assert Run(machine, x, p, m).0[1..] == Run(machine, y, p, m - 1).0;
  }

  lemma {:induction false} LoadKeepsConsistent(
    node: Node, machine: Machine, x: View, p: Packet, m: nat, n: nat,
    decisions: map<FlowId, Decision>, finish: Option<FlowId>)
    requires 0 < m <= n && machine(x).AskLoad?
    requires Consistent(node, machine, x, n, decisions)
    requires MayFinish(Run(machine, x, p, m).1, finish, decisions)
    ensures var grown := Graft(node, Run(machine, x, p, m).0, finish);
            grown.Some? && Consistent(grown.value, machine, x, n, decisions)
    decreases m, 0
  {
    var mask, loaded := machine(x).mask, machine(x).loaded;
    var data := p.Load(mask);
    LoadedCase(p, mask);
    var node' := ExtendedLoad(node, machine, x, data, n, decisions);
    RunKeepsConsistent(node'.cases[data.value], machine, loaded(data), p, m - 1, n - 1, decisions, finish);
    var events := Run(machine, loaded(data), p, m - 1).0;
    GraftAtLoad(node, node', data, events, finish);
    LoadIsConsistent(node', machine, x, n, decisions, data, Graft(node'.cases[data.value], events, finish).value);
  }

  /** Replacing the case of one value by a consistent one. */
  lemma LoadIsConsistent(node: Node, machine: Machine, x: View, n: nat, decisions: map<FlowId, Decision>, data: Field, child: Node)
    requires n > 0 && machine(x).AskLoad? && node.LoadNode? && node.mask == machine(x).mask
    requires IsCase(node.mask, data.value) && CaseField(node.mask, data.value) == data
    requires Consistent(child, machine, machine(x).loaded(data), n - 1, decisions)
    requires forall v :: v in node.cases ==>
               IsCase(node.mask, v) && Consistent(node.cases[v], machine, machine(x).loaded(CaseField(node.mask, v)), n - 1, decisions)
    ensures Consistent(node.(cases := node.cases[data.value := child]), machine, x, n, decisions)
  {
  }

  lemma GraftAtLoad(node: Node, node': Node, data: Field, events: seq<Event>, finish: Option<FlowId>)
    requires Extend(node, LoadEvent(data)) == Some(node') && node'.LoadNode? && data.value in node'.cases
    requires Graft(node'.cases[data.value], events, finish).Some?
    ensures Graft(node, [LoadEvent(data)] + events, finish) ==
            Some(node'.(cases := node'.cases[data.value := Graft(node'.cases[data.value], events, finish).value]))
  {
    assert ([LoadEvent(data)] + events)[1..] == events;
  }

  /** A load node, or an unexplored one, after the case of the loaded value was added. */
  lemma ExtendedLoad(node: Node, machine: Machine, x: View, data: Field, n: nat, decisions: map<FlowId, Decision>)
    returns (node': Node)
    requires n > 0 && machine(x).AskLoad? && MaskOf(data) == machine(x).mask
    requires IsCase(machine(x).mask, data.value) && CaseField(machine(x).mask, data.value) == data
    requires Consistent(node, machine, x, n, decisions)
    ensures Extend(node, LoadEvent(data)) == Some(node')
    ensures node'.LoadNode? && node'.mask == machine(x).mask && data.value in node'.cases
    ensures forall v :: v in node'.cases ==>
              && IsCase(node'.mask, v)
              && Consistent(node'.cases[v], machine, machine(x).loaded(CaseField(node'.mask, v)), n - 1, decisions)
  {
    node' := Extend(node, LoadEvent(data)).value;
  }

  /** More time, and decisions that agree on the tree's flows, keep consistency. */
  lemma {:induction false} ConsistentIsStable(
    node: Node, machine: Machine, x: View, n: nat, m: nat,
    decisions: map<FlowId, Decision>, decisions': map<FlowId, Decision>)
    requires Consistent(node, machine, x, n, decisions) && n <= m
    requires forall f :: f in Flows(node) && f in decisions ==> f in decisions' && decisions'[f] == decisions[f]
    ensures Consistent(node, machine, x, m, decisions')
    decreases n
  {
    if !node.Unexplored? {
      match machine(x)
      case Conclude(_) =>
      case Quiet(y) => ConsistentIsStable(node, machine, y, n - 1, m - 1, decisions, decisions');
      case AskLoad(mask, loaded) =>
        forall v | v in node.cases
          ensures Consistent(node.cases[v], machine, loaded(CaseField(mask, v)), m - 1, decisions')
        {
          ConsistentIsStable(node.cases[v], machine, loaded(CaseField(mask, v)), n - 1, m - 1, decisions, decisions');
        }
      case AskTest(_, yes, no) =>
        ConsistentIsStable(node.positive, machine, yes, n - 1, m - 1, decisions, decisions');
        ConsistentIsStable(node.negative, machine, no, n - 1, m - 1, decisions, decisions');
    }
  }

  // ---------------------------------------------------------------- machines that never ask twice

  /** Every bit the pattern fixes is held by the cache. */
  ghost predicate Within(pattern: Entries, c: Entries) {
    forall t, i :: Known(pattern, t, i) ==> Known(c, t, i)
  }

  /** The machine asks only for bits outside its cache, at least one at a time, and
      remembers what it has learned. */
  ghost predicate AsksUnseen(machine: Machine) {
    forall x: View :: MoveIsUnseen(x, machine(x))
  }

  ghost predicate MoveIsUnseen(x: View, move: Move) {
    match move
    case Conclude(_) => true
    case Abort => true
    case Quiet(y) => Within(x.cache, y.cache)
    case AskLoad(mask, loaded) =>
      && !NoneSet(mask.bits) && Untouched(x.cache, mask)
      && forall f: Field :: MaskOf(f) == mask ==> loaded(f).cache == ModifyIn(x.cache, f)
    case AskTest(need, yes, no) =>
      && !Wildcard(need) && Untouched(x.cache, MaskOf(need))
      && yes.cache == ModifyIn(x.cache, need) && no.cache == x.cache
  }

  lemma WithinAfterModify(pattern: Entries, c: Entries, f: Field)
    requires Within(pattern, c)
    ensures Within(ModifyIn(pattern, f), ModifyIn(c, f))
  {
    forall t, i | Known(ModifyIn(pattern, f), t, i)
      ensures Known(ModifyIn(c, f), t, i)
    {
      ModifyKnown(pattern, f, t, i);
      ModifyKnown(c, f, t, i);
    }
  }

  /** No bit is explored twice on a path: what the compiler relies on. */
  lemma {:induction false} ConsistentIsPathDisjoint(
    node: Node, machine: Machine, x: View, n: nat, decisions: map<FlowId, Decision>, pattern: Entries)
    requires AsksUnseen(machine)
    requires Consistent(node, machine, x, n, decisions)
    requires Within(pattern, x.cache)
    ensures PathDisjoint(node, pattern)
    decreases n
  {
    if !node.Unexplored? {
      assert MoveIsUnseen(x, machine(x));
      match machine(x)
      case Conclude(_) =>
      case Quiet(y) => ConsistentIsPathDisjoint(node, machine, y, n - 1, decisions, pattern);
      case AskLoad(mask, loaded) =>
        forall v | v in node.cases
          ensures PathDisjoint(node.cases[v], ModifyIn(pattern, CaseField(mask, v)))
        {
          var f := CaseField(mask, v);
          assert MaskOf(f) == mask;
          WithinAfterModify(pattern, x.cache, f);
          ConsistentIsPathDisjoint(node.cases[v], machine, loaded(f), n - 1, decisions, ModifyIn(pattern, f));
        }
      case AskTest(need, yes, no) =>
        WithinAfterModify(pattern, x.cache, need);
        ConsistentIsPathDisjoint(node.positive, machine, yes, n - 1, decisions, ModifyIn(pattern, need));
        ConsistentIsPathDisjoint(node.negative, machine, no, n - 1, decisions, pattern);
    }
  }
}
