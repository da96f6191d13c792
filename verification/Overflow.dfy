/** Why a tree may not take more than 65535 rules: a policy, two packets handed to it, and a
    third packet that the compiled table sends to the wrong flow (maple/TraceTree.cc:63-80).

    The policy throws on packets with one bit set.  Otherwise it tests another bit over and
    over; a negative answer is not cached, so every test adds a node to the tree.  With one
    rule too many the barrier of the first test gets priority 0, below the leaf rule it is
    there to cover.  */
module Overflow {
  import opened Basics
  import opened Oxm
  import opened FieldSets
  import opened TraceTrees
  import opened Tracing
  import opened Compiler
  import opened Machines
  import opened Policies
  import opened Runtimes

  /** Two fields on different bits, and packets that have neither, only the rung, or both. */
  datatype Scene = Scene(guard: Field, rung: Field, neither: Packet, climbing: Packet, guarded: Packet) {
    ghost predicate Set() {
      && guard.t != rung.t && !Wildcard(guard) && !Wildcard(rung)
      && !neither.Test(guard) && !neither.Test(rung)
      && !climbing.Test(guard) && climbing.Test(rung)
      && guarded.Test(guard) && guarded.Test(rung)
    }
  }

  const GIVEN_UP := Decision(3, 1)
  const SEEN := Decision(1, 1)

  /** At most m tests of the rung. */
  function Climb(x: Scene, m: nat, h: seq<Answer>): Action {
    if h == [] then Do(PacketOp.Test(x.guard))
    else if h[|h| - 1] == Tested(true) then if |h| == 1 then Throw else Decide(SEEN)
    else if |h| > m then Decide(GIVEN_UP)
    else Do(PacketOp.Test(x.rung))
  }

  function Climber(x: Scene, m: nat): Policy { h => Climb(x, m, h) }

  // ---------------------------------------------------------------- the runs

  /** A test of bits nothing is known of; a negative answer leaves it that way. */
  ghost predicate AnswersFresh<S>(impl: PacketImpl<S>, s: S, need: Field, ret: bool) {
    var r := impl(s, PacketOp.Test(need));
    r.answer == Tested(ret) && r.events == [TestEvent(need, ret)] && (!ret ==> r.next == s)
  }

  lemma FreshTest(p: Packet, need: Field)
    requires !Wildcard(need)
    ensures AnswersFresh(TRACED, Traced(map[], p), need, p.Test(need))
  {
    var s, m := Traced(map[], p), MaskOf(need);
    var unseen := Widen(need, UnseenMask(map[], m));
    assert InSync(s, p);
    UnseenTestIsOriginal(s, p, need);
    assert unseen.mask == need.mask;
    FieldExtensional(unseen, need);
    MatchFieldsBits(LoadFrom(map[], m), need);
  }

  function Times(need: Field, n: nat): seq<Event> {
    if n == 0 then [] else [TestEvent(need, false)] + Times(need, n - 1)
  }

  lemma {:induction false} ClimbToTheEnd<S>(impl: PacketImpl<S>, s: S, x: Scene, m: nat, h: seq<Answer>, n: nat)
    requires AnswersFresh(impl, s, x.rung, false)
    requires 0 < |h| <= m + 1 && h[|h| - 1] == Tested(false) && n >= m + 2 - |h|
    ensures RunOn(impl, Climber(x, m), h, s, n) == (Times(x.rung, m + 1 - |h|), Decided(GIVEN_UP))
    decreases n
  {
    if |h| <= m { ClimbToTheEnd(impl, s, x, m, h + [Tested(false)], n - 1); }
  }

  /** A packet without the rung: all the tests, then the decision to give up. */
  lemma RunWithout<S>(impl: PacketImpl<S>, s: S, x: Scene, m: nat)
    requires AnswersFresh(impl, s, x.guard, false) && AnswersFresh(impl, s, x.rung, false)
    ensures RunOn(impl, Climber(x, m), [], s, m + 2) ==
            ([TestEvent(x.guard, false)] + Times(x.rung, m), Decided(GIVEN_UP))
  {
    ClimbToTheEnd(impl, s, x, m, [] + [Tested(false)], m + 1);
  }

  /** A packet with the rung: two tests. */
  lemma RunWith<S>(impl: PacketImpl<S>, s: S, x: Scene, m: nat, n: nat)
    requires AnswersFresh(impl, s, x.guard, false) && AnswersFresh(impl, s, x.rung, true)
    requires m > 0 && n >= 3
    ensures RunOn(impl, Climber(x, m), [], s, n) ==
            ([TestEvent(x.guard, false), TestEvent(x.rung, true)], Decided(SEEN))
  {
    var next := impl(s, PacketOp.Test(x.rung)).next;
    var h := [] + [Tested(false)];
    assert RunOn(impl, Climber(x, m), h + [Tested(true)], next, n - 2) == ([], Decided(SEEN));
    assert RunOn(impl, Climber(x, m), h, s, n - 1) == ([TestEvent(x.rung, true)] + [], Decided(SEEN));
    assert [TestEvent(x.guard, false)] + ([TestEvent(x.rung, true)] + []) == [TestEvent(x.guard, false), TestEvent(x.rung, true)];
  }

  /** A packet with the guarded bit: the policy throws. */
  lemma RunGuarded<S>(impl: PacketImpl<S>, s: S, x: Scene, m: nat, n: nat)
    requires impl(s, PacketOp.Test(x.guard)).answer == Tested(true) && n >= 2
    ensures RunOn(impl, Climber(x, m), [], s, n).1 == Threw
  {
    var r := impl(s, PacketOp.Test(x.guard));
    assert RunOn(impl, Climber(x, m), [] + [Tested(true)], r.next, n - 1) == ([], Threw);
  }

  // ---------------------------------------------------------------- the tree

  function Rungs(need: Field, n: nat): Node {
    if n == 0 then FlowNode(3) else TestNode(need, Unexplored, Rungs(need, n - 1))
  }

  function Inner(x: Scene, n: nat): Node { TestNode(x.rung, FlowNode(1), Rungs(x.rung, n)) }

  function Tree(x: Scene, n: nat): Node { TestNode(x.guard, Unexplored, Inner(x, n)) }

  function CallsOf(x: Scene, m: nat): seq<Call> {
    [Augment(x.neither, 3, m + 2), Augment(x.climbing, 1, m + 2)]
  }

  lemma {:induction false} GraftRungs(need: Field, n: nat)
    ensures Graft(Unexplored, Times(need, n), Some(3)) == Some(Rungs(need, n))
    ensures Flows(Rungs(need, n)) == {3}
  {
    if n > 0 {
      GraftRungs(need, n - 1);
      assert Times(need, n)[1..] == Times(need, n - 1);
    }
  }

  /** The first packet explores all the rungs. */
  lemma FirstCall(x: Scene, m: nat)
    requires x.Set()
    ensures AugmentState(Climber(x, m), START, x.neither, 3, m + 2) ==
            Some(State(TestNode(x.guard, Unexplored, Rungs(x.rung, m)), map[3 := GIVEN_UP]))
  {
    FreshTest(x.neither, x.guard);
    FreshTest(x.neither, x.rung);
    RunWithout(TRACED, Traced(map[], x.neither), x, m);
    GraftGuard(x, m);
  }

  lemma GraftGuard(x: Scene, m: nat)
    ensures Graft(Unexplored, [TestEvent(x.guard, false)] + Times(x.rung, m), Some(3)) ==
            Some(TestNode(x.guard, Unexplored, Rungs(x.rung, m)))
  {
    GraftRungs(x.rung, m);
    var events := [TestEvent(x.guard, false)] + Times(x.rung, m);
    assert events[1..] == Times(x.rung, m);
  }

  /** The second finds the positive answer to the first of them. */
  lemma SecondCall(x: Scene, m: nat, st: State)
    requires x.Set() && m > 0 && st == State(TestNode(x.guard, Unexplored, Rungs(x.rung, m)), map[3 := GIVEN_UP])
    ensures AugmentState(Climber(x, m), st, x.climbing, 1, m + 2) ==
            Some(State(Tree(x, m - 1), map[3 := GIVEN_UP, 1 := SEEN]))
  {
    FreshTest(x.climbing, x.guard);
    FreshTest(x.climbing, x.rung);
    RunWith(TRACED, Traced(map[], x.climbing), x, m, m + 2);
    GraftTwo(x, m);
  }

  lemma GraftTwo(x: Scene, m: nat)
    requires m > 0
    ensures Graft(TestNode(x.guard, Unexplored, Rungs(x.rung, m)),
                  [TestEvent(x.guard, false), TestEvent(x.rung, true)], Some(1)) == Some(Tree(x, m - 1))
  {
    var events := [TestEvent(x.guard, false), TestEvent(x.rung, true)];
    assert events[1..] == [TestEvent(x.rung, true)] && events[1..][1..] == [];
    assert Graft(Rungs(x.rung, m), events[1..], Some(1)) == Some(Inner(x, m - 1));
  }

  lemma GrownTree(x: Scene, m: nat)
    requires x.Set() && m > 0
    ensures FlowsFit(Climber(x, m), START, CallsOf(x, m))
    ensures Exec(Climber(x, m), START, CallsOf(x, m)) == Some(State(Tree(x, m - 1), map[3 := GIVEN_UP, 1 := SEEN]))
  {
    var calls := CallsOf(x, m);
    FirstCall(x, m);
    GraftRungs(x.rung, m);
    var st := AugmentState(Climber(x, m), START, x.neither, 3, m + 2).value;
    SecondCall(x, m, st);
    var st' := AugmentState(Climber(x, m), st, x.climbing, 1, m + 2).value;
    assert calls[1..] == [calls[1]] && calls[1..][1..] == [];
    assert Exec(Climber(x, m), st', []) == Some(st') && FlowsFit(Climber(x, m), st', []);
  }

  // ---------------------------------------------------------------- the table

  function Down(n: nat): Schedule {
    if n == 0 then Trivial else TestOrder(Down(n - 1), Trivial)
  }

  lemma {:induction false} RungsScheduled(need: Field, n: nat)
    requires !Wildcard(need)
    ensures Scheduled(Rungs(need, n), Down(n)) && PathDisjoint(Rungs(need, n), map[])
  {
    if n > 0 {
      RungsScheduled(need, n - 1);
      TestScheduled(need, Unexplored, Rungs(need, n - 1), Trivial, Down(n - 1));
    }
  }

  lemma TestScheduled(need: Field, pos: Node, neg: Node, s: Schedule, t: Schedule)
    requires Scheduled(pos, s) && Scheduled(neg, t)
    ensures Scheduled(TestNode(need, pos, neg), TestOrder(t, s))
  {
  }

  /** The rules of a test: those for the negative answer, the barrier, those for the positive. */
  lemma WalkOfTest(need: Field, pos: Node, neg: Node, s: Schedule, t: Schedule, alive: set<FlowId>)
    requires Scheduled(pos, s) && Scheduled(neg, t) && PathDisjoint(neg, map[])
    ensures Scheduled(TestNode(need, pos, neg), TestOrder(t, s))
    ensures Walk(TestNode(need, pos, neg), TestOrder(t, s), map[], alive, 0).0 ==
            Walk(neg, t, map[], alive, 0).0 + [Install(ModifyIn(map[], need), 0)] +
            Walk(pos, s, ModifyIn(map[], need), alive, 0).0
  {
    WalkRestoresMatch(neg, t, map[], alive, 0);
  }

  lemma {:induction false} RungsCount(need: Field, n: nat, alive: set<FlowId>)
    requires 3 in alive
    ensures RuleCount(Rungs(need, n), alive) == n + 1
  {
    if n > 0 { RungsCount(need, n - 1, alive); }
  }

  lemma InnerCompiles(x: Scene, n: nat, alive: set<FlowId>)
    requires !Wildcard(x.rung) && 1 in alive && 3 in alive
    ensures Scheduled(Inner(x, n), Down(n + 1)) && PathDisjoint(Inner(x, n), map[])
    ensures var installs := Walk(Inner(x, n), Down(n + 1), map[], alive, 0).0;
            |installs| == n + 3 && installs[n + 2] == Install(ModifyIn(map[], x.rung), 1)
  {
    var rungs := Rungs(x.rung, n);
    RungsScheduled(x.rung, n);
    RungsCount(x.rung, n, alive);
    WalkLength(rungs, Down(n), map[], alive, 0);
    WalkOfTest(x.rung, FlowNode(1), rungs, Trivial, Down(n), alive);
    assert Walk(FlowNode(1), Trivial, ModifyIn(map[], x.rung), alive, 0).0 == [Install(ModifyIn(map[], x.rung), 1)];
  }

  /** The leaf rule of the second packet comes last but one, before the barrier of the guard. */
  lemma TreeCompiles(x: Scene, n: nat, alive: set<FlowId>)
    requires !Wildcard(x.rung) && 1 in alive && 3 in alive
    ensures Scheduled(Tree(x, n), Down(n + 2)) && RuleCount(Tree(x, n), alive) == n + 4
    ensures var installs := Walk(Tree(x, n), Down(n + 2), map[], alive, 0).0;
            |installs| == n + 4 && installs[n + 2] == Install(ModifyIn(map[], x.rung), 1)
  {
    InnerCompiles(x, n, alive);
    WalkOfTest(x.guard, Unexplored, Inner(x, n), Trivial, Down(n + 1), alive);
    assert Walk(Unexplored, Trivial, ModifyIn(map[], x.guard), alive, 0).0 == [];
    WalkLength(Tree(x, n), Down(n + 2), map[], alive, 0);
  }

  lemma HighestPriorityWins(installs: seq<Install>, p: Packet, k: nat)
    requires |installs| < 2 * PRIORITY_RANGE - 1
    requires k == PRIORITY_RANGE - 2 < |installs| && Matches(installs[k].pattern, p)
    ensures IsWinner(Numbered(installs), {}, p, k)
  {
  }

  /** The table has a winner for the packet, and it is the given flow. */
  ghost predicate SendsTo(installs: seq<Install>, p: Packet, flow: FlowId) {
    exists k: nat :: IsWinner(Numbered(installs), {}, p, k) && Numbered(installs)[k].flow == flow
  }

  lemma LeafBeatsGuard(x: Scene, n: nat, alive: set<FlowId>)
    requires x.Set() && n + 4 == PRIORITY_RANGE && 1 in alive && 3 in alive
    ensures Scheduled(Tree(x, n), Down(n + 2)) && RuleCount(Tree(x, n), alive) == PRIORITY_RANGE
    ensures SendsTo(Walk(Tree(x, n), Down(n + 2), map[], alive, 0).0, x.guarded, 1)
  {
    TreeCompiles(x, n, alive);
    LastButOneWins(x, Walk(Tree(x, n), Down(n + 2), map[], alive, 0).0, n + 2);
  }

  lemma LastButOneWins(x: Scene, installs: seq<Install>, k: nat)
    requires x.Set() && k + 2 == |installs| == PRIORITY_RANGE
    requires installs[k] == Install(ModifyIn(map[], x.rung), 1)
    ensures SendsTo(installs, x.guarded, 1)
  {
    ModifyIsConjunction(map[], x.rung, x.guarded);
    HighestPriorityWins(installs, x.guarded, k);
    assert Numbered(installs)[k].flow == 1;
  }

  lemma LongEnough(x: Scene, m: nat)
    ensures LongestRun(0, CallsOf(x, m)) == m + 2
  {
    var calls := CallsOf(x, m);
    assert calls[1..] == [calls[1]] && calls[1..][1..] == [];
    assert LongestRun(m + 2, calls[1..]) == LongestRun(m + 2, []) == m + 2;
  }

  /** The tree has no flow for the packet and the policy does not decide as recorded with the
      flow, but some compiled table sends the packet to it. */
  ghost predicate Misrouted(policy: Policy, calls: seq<Call>, p: Packet, alive: set<FlowId>, flow: FlowId)
    requires Exec(policy, START, calls).Some?
  {
    var st := Exec(policy, START, calls).value;
    && flow != 0 && Lookup(st.root, p, alive) == None && !DecidedAs(policy, p, calls, st, flow)
    && exists s :: Scheduled(st.root, s) && SendsTo(Walk(st.root, s, map[], alive, 0).0, p, flow)
  }

  /** One rule more than the theorem on policy, tree and table allows, and it fails. */
  lemma OneRuleTooMany(x: Scene, m: nat, alive: set<FlowId>)
    requires x.Set() && m + 3 == PRIORITY_RANGE && 1 in alive && 3 in alive
    ensures FlowsFit(Climber(x, m), START, CallsOf(x, m)) && Exec(Climber(x, m), START, CallsOf(x, m)).Some?
    ensures RuleCount(Exec(Climber(x, m), START, CallsOf(x, m)).value.root, alive) == PRIORITY_RANGE
    ensures Misrouted(Climber(x, m), CallsOf(x, m), x.guarded, alive, 1)
  {
    GrownTree(x, m);
    LeafBeatsGuard(x, m - 1, alive);
    LongEnough(x, m);
    RunGuarded(PLAIN, x.guarded, x, m, m + 2);
    assert Leaf(Tree(x, m - 1), x.guarded) == None;
  }

  // ---------------------------------------------------------------- the input

  function BitSet(id: nat): Field { RawField.Field(OxmType(0, id, 1, true), [true], [true]) }

  /** A packet with bit 0 of the first field as given, and that of every other field. */
  function TwoBits(first: bool, other: bool): Packet { Packet((t: OxmType, i: int) => if t.id == 0 then first else other) }

  lemma BitTest(id: nat, first: bool, other: bool)
    ensures TwoBits(first, other).Test(BitSet(id)) == if id == 0 then first else other
    ensures !Wildcard(BitSet(id))
  {
    var p, f := TwoBits(first, other), BitSet(id);
    TestIffAgrees(p, f);
    assert f.mask[0];
    assert p.Agrees(f) <==> p.bit(f.t, 0) == f.value[0];
  }

  /** The bound on the rules is needed, and it is tight: 65536 are too many. */
  lemma PriorityWrapMisroutes() returns (policy: Policy, calls: seq<Call>, p: Packet)
    ensures FlowsFit(policy, START, calls) && Exec(policy, START, calls).Some?
    ensures RuleCount(Exec(policy, START, calls).value.root, {1, 3}) == PRIORITY_RANGE
    ensures Misrouted(policy, calls, p, {1, 3}, 1)
  {
    var x := Scene(BitSet(0), BitSet(1), TwoBits(false, false), TwoBits(false, true), TwoBits(true, true));
    forall id: nat, first: bool, other: bool
      ensures TwoBits(first, other).Test(BitSet(id)) == (if id == 0 then first else other) && !Wildcard(BitSet(id))
    {
      BitTest(id, first, other);
    }
    var m: nat := PRIORITY_RANGE - 3;
    policy, calls, p := Climber(x, m), CallsOf(x, m), x.guarded;
    OneRuleTooMany(x, m, {1, 3});
  }
}
