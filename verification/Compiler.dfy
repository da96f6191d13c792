/** Compilation of a trace tree to a prioritised flow table (maple/TraceTree.cc:58-102).

    The compiler walks the tree with one mutable match that it modifies on the way down and
    erases on the way up, and installs its rules with a 16-bit priority that counts up from
    one.  The cases of a load node live in a hash table, so they are visited in an arbitrary
    order; a `Schedule` fixes the order for a whole walk.  */
module Compiler {
  import opened Basics
  import opened Oxm
  import opened FieldSets
  import opened TraceTrees

  const PRIORITY_RANGE := 0x1_0000  // `uint16_t priority`

  /** One call to the backend, before its priority is known. */
  datatype Install = Install(pattern: Entries, flow: FlowId)

  datatype Rule = Rule(priority: nat, pattern: Entries, flow: FlowId)

  datatype Schedule =
    | Trivial
    | TestOrder(neg: Schedule, pos: Schedule)
    | LoadOrder(visits: seq<Visit>)

  datatype Visit = Visit(value: Bits, sub: Schedule)

  // ---------------------------------------------------------------- the walk

  /** The schedule visits every case of every load node exactly once. */
  ghost predicate Scheduled(node: Node, s: Schedule)
    decreases node
  {
    match node
    case Unexplored => s == Trivial
    case FlowNode(_) => s == Trivial
    case TestNode(_, pos, neg) => s.TestOrder? && Scheduled(neg, s.neg) && Scheduled(pos, s.pos)
    case LoadNode(mask, cases) =>
      && s.LoadOrder?
      && VisitsCases(node, s.visits)
      && AllVisited(node, s.visits)
  }

  predicate AllVisited(node: Node, visits: seq<Visit>)
    requires node.LoadNode?
  {
    forall v :: v in node.cases ==> Visited(visits, v)
  }

  predicate Visited(visits: seq<Visit>, v: Bits) {
    exists i :: 0 <= i < |visits| && visits[i].value == v
  }

  ghost predicate VisitsCases(node: Node, visits: seq<Visit>)
    requires node.LoadNode?
    decreases node, 1 + |visits|
  {
    visits == [] ||
    var init, last := visits[..|visits| - 1], visits[|visits| - 1];
    VisitsCases(node, init) && VisitsCase(node, last) && !Visited(init, last.value)
  }

  ghost predicate VisitsCase(node: Node, v: Visit)
    requires node.LoadNode?
    decreases node, 0
  {
    && v.value in node.cases
    && |v.value| == node.mask.t.nbits
    && Scheduled(node.cases[v.value], v.sub)
  }

  /** The field of one case: `(type == value) & mask`. */
  function CaseField(mask: Mask, v: Bits): Field
    requires |v| == mask.t.nbits
  {
    MakeField(mask.t, v, mask.bits)
  }

  /** The installs of a walk, in order, and the match it leaves behind. */
  ghost function Walk(node: Node, s: Schedule, pattern: Entries, alive: set<FlowId>, barrier: FlowId)
    : (seq<Install>, Entries)
    requires Scheduled(node, s)
    decreases node
  {
    match node
    case Unexplored => ([], pattern)
    case FlowNode(f) => (if f in alive then [Install(pattern, f)] else [], pattern)
    case TestNode(need, pos, neg) =>
      var (below, p1) := Walk(neg, s.neg, pattern, alive, barrier);
      var p2 := ModifyIn(p1, need);
      var (above, p3) := Walk(pos, s.pos, p2, alive, barrier);
      (below + [Install(p2, barrier)] + above, EraseFrom(p3, MaskOf(need)))
    case LoadNode(_, _) => WalkCases(node, s.visits, pattern, alive, barrier)
  }

  ghost function WalkCases(node: Node, visits: seq<Visit>, pattern: Entries, alive: set<FlowId>, barrier: FlowId)
    : (seq<Install>, Entries)
    requires node.LoadNode? && VisitsCases(node, visits)
    decreases node, |visits|
  {
    if visits == [] then ([], pattern)
    else
      var last := visits[|visits| - 1];
      var (below, p1) := WalkCases(node, visits[..|visits| - 1], pattern, alive, barrier);
      assert VisitsCase(node, last);
      var p2 := ModifyIn(p1, CaseField(node.mask, last.value));
      var (above, p3) := Walk(node.cases[last.value], last.sub, p2, alive, barrier);
      (below + above, EraseFrom(p3, node.mask))
  }

  /** The k-th install gets the k-th value of the priority counter. */
  function Numbered(installs: seq<Install>): seq<Rule> {
    seq(|installs|, k requires 0 <= k < |installs| =>
      Rule(Priority(k), installs[k].pattern, installs[k].flow))
  }

  function Priority(k: nat): nat { (1 + k) % PRIORITY_RANGE }

  // ---------------------------------------------------------------- how many rules a tree takes

  /** The tests of the tree and its leaves whose flow is alive. */
  ghost function RuleCount(node: Node, alive: set<FlowId>): nat
    decreases node, if node.LoadNode? then |node.cases.Keys| + 1 else 0
  {
    match node
    case Unexplored => 0
    case FlowNode(f) => if f in alive then 1 else 0
    case TestNode(_, pos, neg) => RuleCount(pos, alive) + 1 + RuleCount(neg, alive)
    case LoadNode(_, cases) => CaseCount(node, cases.Keys, alive)
  }

  ghost function CaseCount(node: Node, values: set<Bits>, alive: set<FlowId>): nat
    requires node.LoadNode? && values <= node.cases.Keys
    decreases node, |values|
  {
    if values == {} then 0
    else
      var v :| v in values;
      RuleCount(node.cases[v], alive) + CaseCount(node, values - {v}, alive)
  }

  lemma {:induction false} CaseCountIsSum(node: Node, values: set<Bits>, v: Bits, alive: set<FlowId>)
    requires node.LoadNode? && values <= node.cases.Keys && v in values
    ensures CaseCount(node, values, alive) == RuleCount(node.cases[v], alive) + CaseCount(node, values - {v}, alive)
    decreases |values|
  {
    var u :| u in values && CaseCount(node, values, alive) == RuleCount(node.cases[u], alive) + CaseCount(node, values - {u}, alive);
    if u != v {
      CaseCountIsSum(node, values - {u}, v, alive);
      CaseCountIsSum(node, values - {v}, u, alive);
      assert values - {u} - {v} == values - {v} - {u};
    }
  }

  ghost function VisitedValues(node: Node, visits: seq<Visit>): set<Bits>
    requires node.LoadNode?
  {
    set v | v in node.cases && Visited(visits, v)
  }

  /** Whatever the order of the walk, it makes as many installs as the tree has tests and live
      leaves. */
  lemma {:induction false} WalkLength(node: Node, s: Schedule, pattern: Entries, alive: set<FlowId>, barrier: FlowId)
    requires Scheduled(node, s)
    ensures |Walk(node, s, pattern, alive, barrier).0| == RuleCount(node, alive)
    decreases node
  {
    match node
    case Unexplored =>
    case FlowNode(_) =>
    case TestNode(need, pos, neg) =>
      var p1 := Walk(neg, s.neg, pattern, alive, barrier).1;
      WalkLength(neg, s.neg, pattern, alive, barrier);
      WalkLength(pos, s.pos, ModifyIn(p1, need), alive, barrier);
    case LoadNode(_, cases) =>
      WalkCasesLength(node, s.visits, pattern, alive, barrier);
      assert VisitedValues(node, s.visits) == cases.Keys;
  }

  lemma {:induction false} WalkCasesLength(node: Node, visits: seq<Visit>, pattern: Entries, alive: set<FlowId>, barrier: FlowId)
    requires node.LoadNode? && VisitsCases(node, visits)
    ensures |WalkCases(node, visits, pattern, alive, barrier).0| == CaseCount(node, VisitedValues(node, visits), alive)
    decreases node, |visits|
  {
    if visits != [] {
      var init, last := visits[..|visits| - 1], visits[|visits| - 1];
      assert VisitsCase(node, last);
      var p1 := WalkCases(node, init, pattern, alive, barrier).1;
      WalkCasesLength(node, init, pattern, alive, barrier);
      WalkLength(node.cases[last.value], last.sub, ModifyIn(p1, CaseField(node.mask, last.value)), alive, barrier);
      OneMoreValue(node, visits, alive);
    }
  }

  lemma OneMoreValue(node: Node, visits: seq<Visit>, alive: set<FlowId>)
    requires node.LoadNode? && visits != [] && VisitsCases(node, visits)
    ensures var init, last := visits[..|visits| - 1], visits[|visits| - 1].value;
            && last in node.cases
            && CaseCount(node, VisitedValues(node, visits), alive) ==
               RuleCount(node.cases[last], alive) + CaseCount(node, VisitedValues(node, init), alive)
  {
    var init, last := visits[..|visits| - 1], visits[|visits| - 1];
    assert VisitsCase(node, last);
    VisitedSnoc(init, last);
    assert init + [last] == visits;
    var now := VisitedValues(node, visits);
    assert now - {last.value} == VisitedValues(node, init);
    CaseCountIsSum(node, now, last.value, alive);
  }

  // ---------------------------------------------------------------- path-disjoint trees

  /** Along every path the loads and the positively answered tests read fresh bits, and at
      least one of them; `known` are the bits the path above has fixed. */
  ghost predicate PathDisjoint(node: Node, known: Entries) {
    match node
    case Unexplored => true
    case FlowNode(_) => true
    case TestNode(need, pos, neg) =>
      && !Wildcard(need)
      && Untouched(known, MaskOf(need))
      && PathDisjoint(pos, ModifyIn(known, need))
      && PathDisjoint(neg, known)
    case LoadNode(mask, cases) =>
      && !NoneSet(mask.bits)
      && Untouched(known, mask)
      && forall v :: v in cases ==>
        && |v| == mask.t.nbits
        && CaseField(mask, v).value == v
        && PathDisjoint(cases[v], ModifyIn(known, CaseField(mask, v)))
  }

  lemma ModifyKeepsNoWildcards(s: Entries, f: Field)
    requires NoWildcards(s) && !Wildcard(f)
    ensures NoWildcards(ModifyIn(s, f))
  {
    var i :| 0 <= i < f.t.nbits && f.mask[i];
    ModifyKnown(s, f, f.t, i);
  }

  /** Visiting any subtree leaves the match exactly as it was. */
  lemma {:induction false} WalkRestoresMatch(
    node: Node, s: Schedule, pattern: Entries, alive: set<FlowId>, barrier: FlowId)
    requires Scheduled(node, s)
    requires PathDisjoint(node, pattern) && NoWildcards(pattern)
    ensures Walk(node, s, pattern, alive, barrier).1 == pattern
    decreases node
  {
    match node
    case Unexplored =>
    case FlowNode(_) =>
    case TestNode(need, pos, neg) =>
      WalkRestoresMatch(neg, s.neg, pattern, alive, barrier);
      ModifyKeepsNoWildcards(pattern, need);
      WalkRestoresMatch(pos, s.pos, ModifyIn(pattern, need), alive, barrier);
      ModifyThenErase(pattern, need);
    case LoadNode(_, _) =>
      WalkCasesRestoresMatch(node, s.visits, pattern, alive, barrier);
  }

  lemma {:induction false} WalkCasesRestoresMatch(
    node: Node, visits: seq<Visit>, pattern: Entries, alive: set<FlowId>, barrier: FlowId)
    requires node.LoadNode? && VisitsCases(node, visits)
    requires PathDisjoint(node, pattern) && NoWildcards(pattern)
    ensures WalkCases(node, visits, pattern, alive, barrier).1 == pattern
    decreases node, |visits|
  {
    if visits != [] {
      var last := visits[|visits| - 1];
      WalkCasesRestoresMatch(node, visits[..|visits| - 1], pattern, alive, barrier);
      assert VisitsCase(node, last);
      var f := CaseField(node.mask, last.value);
      ModifyKeepsNoWildcards(pattern, f);
      WalkRestoresMatch(node.cases[last.value], last.sub, ModifyIn(pattern, f), alive, barrier);
      ModifyThenErase(pattern, f);
    }
  }

  // ---------------------------------------------------------------- the switch

  /** Rule k is present, matches the packet, and has a higher priority than every other
      present rule that matches (OpenFlow Switch Specification 1.3.5, section 5.3).  `gone`
      are the rules the switch has lost. */
  ghost predicate IsWinner(table: seq<Rule>, gone: set<nat>, p: Packet, k: nat) {
    && k < |table| && k !in gone && Matches(table[k].pattern, p)
    && forall j: nat :: j < |table| && j != k && j !in gone && Matches(table[j].pattern, p) ==>
         table[j].priority < table[k].priority
  }

  /** Only leaf rules time out; a barrier rule stays. */
  predicate OnlyLeavesGone(installs: seq<Install>, gone: set<nat>, barrier: FlowId) {
    forall k :: k in gone && k < |installs| ==> installs[k].flow != barrier
  }

  /** Install k is the last present one, among lo..hi, that matches. */
  ghost predicate IsLast(all: seq<Install>, gone: set<nat>, p: Packet, k: nat, lo: nat, hi: nat)
    requires hi <= |all|
  {
    && lo <= k < hi && k !in gone && Matches(all[k].pattern, p)
    && forall j: nat :: k < j < hi && j !in gone ==> !Matches(all[j].pattern, p)
  }

  ghost predicate NoneMatch(all: seq<Install>, gone: set<nat>, p: Packet, lo: nat, hi: nat)
    requires hi <= |all|
  {
    forall j: nat :: lo <= j < hi && j !in gone ==> !Matches(all[j].pattern, p)
  }

  /** The numbering is increasing exactly while the counter has not wrapped around. */
  lemma PrioritiesIncreaseIffNoWrap(installs: seq<Install>)
    ensures (forall j, k :: 0 <= j < k < |installs| ==>
               Numbered(installs)[j].priority < Numbered(installs)[k].priority)
            <==> |installs| < PRIORITY_RANGE
  {
    if |installs| >= PRIORITY_RANGE {
      assert Numbered(installs)[PRIORITY_RANGE - 1].priority == 0;
      assert Numbered(installs)[0].priority == 1;
    }
  }

  /** Without wrap-around, the switch's winner is the last matching install. */
  lemma WinnerIsLast(installs: seq<Install>, gone: set<nat>, p: Packet, k: nat)
    requires |installs| < PRIORITY_RANGE
    ensures IsWinner(Numbered(installs), gone, p, k) <==> IsLast(installs, gone, p, k, 0, |installs|)
  {
  }

  // ---------------------------------------------------------------- the table agrees with the tree

  /** What a stretch lo..hi of the table does for a packet: nothing if the packet is not for
      it; otherwise its winner is a barrier or the wanted flow, and it is the wanted flow
      unless the rule of that flow is gone. */
  ghost predicate Serves(all: seq<Install>, lo: nat, hi: nat, gone: set<nat>, p: Packet,
                         hit: bool, want: Option<FlowId>, barrier: FlowId)
    requires hi <= |all|
  {
    && (!hit ==> NoneMatch(all, gone, p, lo, hi))
    && (forall k: nat :: IsLast(all, gone, p, k, lo, hi) ==>
          all[k].flow == barrier || want == Some(all[k].flow))
    && (hit && want.Some? && !LeafGone(all, gone, want.value) ==>
          exists k: nat :: IsLast(all, gone, p, k, lo, hi) && all[k].flow == want.value)
  }

  predicate LeafGone(all: seq<Install>, gone: set<nat>, f: FlowId) {
    exists k :: k in gone && k < |all| && all[k].flow == f
  }

  lemma {:induction false} LastExists(all: seq<Install>, gone: set<nat>, p: Packet, lo: nat, hi: nat)
    requires lo <= hi <= |all|
    ensures NoneMatch(all, gone, p, lo, hi) || exists k: nat :: IsLast(all, gone, p, k, lo, hi)
    decreases hi - lo
  {
    if lo < hi {
      LastExists(all, gone, p, lo + 1, hi);
      if NoneMatch(all, gone, p, lo + 1, hi) {
        assert NoneMatch(all, gone, p, lo, hi) || IsLast(all, gone, p, lo, lo, hi);
      } else {
        var k: nat :| IsLast(all, gone, p, k, lo + 1, hi);
        assert IsLast(all, gone, p, k, lo, hi);
      }
    }
  }

  /** A silent upper stretch leaves the decision to the lower one. */
  lemma LowerServes(all: seq<Install>, lo: nat, mid: nat, hi: nat, gone: set<nat>, p: Packet,
                    hit: bool, want: Option<FlowId>, barrier: FlowId)
    requires lo <= mid <= hi <= |all|
    requires NoneMatch(all, gone, p, mid, hi)
    requires Serves(all, lo, mid, gone, p, hit, want, barrier)
    ensures Serves(all, lo, hi, gone, p, hit, want, barrier)
  {
  }

  /** An upper stretch that serves the packet overrides a lower one that cannot object. */
  lemma UpperServes(all: seq<Install>, lo: nat, mid: nat, hi: nat, gone: set<nat>, p: Packet,
                    want: Option<FlowId>, barrier: FlowId)
    requires lo <= mid <= hi <= |all|
    requires Serves(all, mid, hi, gone, p, true, want, barrier)
    requires Serves(all, lo, mid, gone, p, true, None, barrier) || !NoneMatch(all, gone, p, mid, hi)
    ensures Serves(all, lo, hi, gone, p, true, want, barrier)
  {
  }

  /** The stretch lo..hi is compiled from the subtree, under a match that fixes its path. */
  ghost predicate Compiled(node: Node, s: Schedule, pattern: Entries, alive: set<FlowId>, barrier: FlowId,
                           all: seq<Install>, lo: nat, hi: nat) {
    && Scheduled(node, s) && PathDisjoint(node, pattern) && NoWildcards(pattern)
    && lo <= hi <= |all| && all[lo..hi] == Walk(node, s, pattern, alive, barrier).0
  }

  /** Every stretch compiled from a subtree serves exactly the packets of its path, as the
      tree would. */
  lemma {:induction false} WalkServes(
    node: Node, s: Schedule, pattern: Entries, alive: set<FlowId>, barrier: FlowId,
    all: seq<Install>, lo: nat, hi: nat, gone: set<nat>, p: Packet)
    requires Compiled(node, s, pattern, alive, barrier, all, lo, hi)
    requires OnlyLeavesGone(all, gone, barrier)
    ensures Serves(all, lo, hi, gone, p, Matches(pattern, p), Lookup(node, p, alive), barrier)
    decreases node
  {
    match node
    case Unexplored =>
    case FlowNode(f) =>
      LeafServes(f, pattern, alive, barrier, all, lo, hi, gone, p);
    case TestNode(need, pos, neg) =>
      WalkServesTest(node, s, pattern, alive, barrier, all, lo, hi, gone, p);
    case LoadNode(mask, cases) =>
      WalkCasesServe(node, s.visits, pattern, alive, barrier, all, lo, hi, gone, p);
      assert VisitedPart(node, s.visits).cases == cases;
  }

  lemma {:induction false} WalkServesTest(
    node: Node, s: Schedule, pattern: Entries, alive: set<FlowId>, barrier: FlowId,
    all: seq<Install>, lo: nat, hi: nat, gone: set<nat>, p: Packet)
    requires node.TestNode? && Compiled(node, s, pattern, alive, barrier, all, lo, hi)
    requires OnlyLeavesGone(all, gone, barrier)
    ensures Serves(all, lo, hi, gone, p, Matches(pattern, p), Lookup(node, p, alive), barrier)
    decreases node, 0
  {
    var need := node.need;
    var mid := TestStretches(node, s, pattern, alive, barrier, all, lo, hi);
    WalkServes(node.negative, s.neg, pattern, alive, barrier, all, lo, mid, gone, p);
    WalkServes(node.positive, s.pos, ModifyIn(pattern, need), alive, barrier, all, mid + 1, hi, gone, p);
    TestServes(node, pattern, alive, barrier, all, lo, mid, hi, gone, p);
  }

  lemma TestServes(node: Node, pattern: Entries, alive: set<FlowId>, barrier: FlowId,
                   all: seq<Install>, lo: nat, mid: nat, hi: nat, gone: set<nat>, p: Packet)
    requires node.TestNode? && Untouched(pattern, MaskOf(node.need))
    requires lo <= mid < hi <= |all| && mid !in gone
    requires all[mid] == Install(ModifyIn(pattern, node.need), barrier)
    requires Serves(all, lo, mid, gone, p, Matches(pattern, p), Lookup(node.negative, p, alive), barrier)
    requires Serves(all, mid + 1, hi, gone, p, Matches(ModifyIn(pattern, node.need), p),
                    Lookup(node.positive, p, alive), barrier)
    ensures Serves(all, lo, hi, gone, p, Matches(pattern, p), Lookup(node, p, alive), barrier)
  {
    ModifyIsConjunction(pattern, node.need, p);
    ServesAroundBarrier(all, lo, mid, hi, gone, p, Matches(pattern, p), p.Test(node.need),
                        Lookup(node.positive, p, alive), Lookup(node.negative, p, alive), barrier);
  }

  /** Lower stretch, barrier, upper stretch: the shape of a compiled test. */
  lemma ServesAroundBarrier(all: seq<Install>, lo: nat, mid: nat, hi: nat, gone: set<nat>, p: Packet,
                            hit: bool, test: bool, yes: Option<FlowId>, no: Option<FlowId>, barrier: FlowId)
    requires lo <= mid < hi <= |all|
    requires all[mid].flow == barrier && mid !in gone
    requires Matches(all[mid].pattern, p) <==> hit && test
    requires Serves(all, lo, mid, gone, p, hit, no, barrier)
    requires Serves(all, mid + 1, hi, gone, p, hit && test, yes, barrier)
    ensures Serves(all, lo, hi, gone, p, hit, if test then yes else no, barrier)
  {
    if hit && test {
      assert Serves(all, mid, mid + 1, gone, p, true, None, barrier);
      UpperServes(all, mid, mid + 1, hi, gone, p, yes, barrier);
      UpperServes(all, lo, mid, hi, gone, p, yes, barrier);
    } else {
      assert NoneMatch(all, gone, p, mid, hi);
      LowerServes(all, lo, mid, hi, gone, p, hit, no, barrier);
      assert !hit ==> NoneMatch(all, gone, p, lo, hi);
    }
  }

  lemma LeafServes(f: FlowId, pattern: Entries, alive: set<FlowId>, barrier: FlowId,
                   all: seq<Install>, lo: nat, hi: nat, gone: set<nat>, p: Packet)
    requires lo <= hi <= |all| && all[lo..hi] == if f in alive then [Install(pattern, f)] else []
    ensures Serves(all, lo, hi, gone, p, Matches(pattern, p), if f in alive then Some(f) else None, barrier)
  {
    if f in alive {
      assert all[lo] == all[lo..hi][0];
      assert Matches(pattern, p) && !LeafGone(all, gone, f) ==> IsLast(all, gone, p, lo, lo, hi);
    }
  }

  lemma TestStretches(node: Node, s: Schedule, pattern: Entries, alive: set<FlowId>, barrier: FlowId,
                      all: seq<Install>, lo: nat, hi: nat) returns (mid: nat)
    requires node.TestNode? && Compiled(node, s, pattern, alive, barrier, all, lo, hi)
    ensures lo <= mid < hi && all[mid] == Install(ModifyIn(pattern, node.need), barrier)
    ensures s.TestOrder? && Untouched(pattern, MaskOf(node.need))
    ensures Compiled(node.negative, s.neg, pattern, alive, barrier, all, lo, mid)
    ensures Compiled(node.positive, s.pos, ModifyIn(pattern, node.need), alive, barrier, all, mid + 1, hi)
  {
    WalkRestoresMatch(node.negative, s.neg, pattern, alive, barrier);
    ModifyKeepsNoWildcards(pattern, node.need);
    var below := Walk(node.negative, s.neg, pattern, alive, barrier).0;
    var above := Walk(node.positive, s.pos, ModifyIn(pattern, node.need), alive, barrier).0;
    mid := SplitAtBarrier(all, lo, hi, below, Install(ModifyIn(pattern, node.need), barrier), above);
  }

  lemma SplitAtBarrier(all: seq<Install>, lo: nat, hi: nat, below: seq<Install>, x: Install, above: seq<Install>)
    returns (mid: nat)
    requires lo <= hi <= |all| && all[lo..hi] == below + [x] + above
    ensures lo <= mid < hi && all[lo..mid] == below && all[mid] == x && all[mid + 1..hi] == above
  {
    mid := SplitStretch(all, lo, hi, below + [x], above);
    mid := mid - 1;
    assert all[lo..mid] == all[lo..mid + 1][..|below|];
    assert all[mid] == all[lo..mid + 1][|below|];
  }

  /** Only the case of the packet's own value can match it. */
  lemma CaseFieldTest(mask: Mask, v: Bits, p: Packet)
    requires |v| == mask.t.nbits && CaseField(mask, v).value == v
    ensures p.Test(CaseField(mask, v)) <==> p.Load(mask).value == v
  {
    TestIffAgrees(p, CaseField(mask, v));
    LoadIsTheAgreeingField(p, CaseField(mask, v));
  }

  /** The stretch of a prefix of the visits serves the load node as far as it was visited. */
  lemma {:induction false} WalkCasesServe(
    node: Node, visits: seq<Visit>, pattern: Entries, alive: set<FlowId>, barrier: FlowId,
    all: seq<Install>, lo: nat, hi: nat, gone: set<nat>, p: Packet)
    requires node.LoadNode? && VisitsCases(node, visits)
    requires PathDisjoint(node, pattern) && NoWildcards(pattern)
    requires lo <= hi <= |all| && all[lo..hi] == WalkCases(node, visits, pattern, alive, barrier).0
    requires OnlyLeavesGone(all, gone, barrier)
    ensures Serves(all, lo, hi, gone, p, Matches(pattern, p), Lookup(VisitedPart(node, visits), p, alive), barrier)
    decreases node, |visits|
  {
    if visits != [] {
      var n := |visits| - 1;
      var last := visits[n];
      LastVisit(node, visits, pattern, alive, barrier);
      var f := CaseField(node.mask, last.value);
      var mid := SplitStretch(all, lo, hi, WalkCases(node, visits[..n], pattern, alive, barrier).0,
                              Walk(node.cases[last.value], last.sub, ModifyIn(pattern, f), alive, barrier).0);
      ModifyKeepsNoWildcards(pattern, f);
      WalkCasesServe(node, visits[..n], pattern, alive, barrier, all, lo, mid, gone, p);
      WalkServes(node.cases[last.value], last.sub, ModifyIn(pattern, f), alive, barrier, all, mid, hi, gone, p);
      ModifyIsConjunction(pattern, f, p);
      CaseFieldTest(node.mask, last.value, p);
      OneMoreVisit(node, visits, p);
      ServesBesideCase(all, lo, mid, hi, gone, p, Matches(pattern, p), p.Test(f),
                       Lookup(node.cases[last.value], p, alive),
                       Lookup(VisitedPart(node, visits[..n]), p, alive), barrier);
    }
  }

  /** One more case on top of the cases below it. */
  lemma ServesBesideCase(all: seq<Install>, lo: nat, mid: nat, hi: nat, gone: set<nat>, p: Packet,
                         hit: bool, mine: bool, yes: Option<FlowId>, no: Option<FlowId>, barrier: FlowId)
    requires lo <= mid <= hi <= |all|
    requires mine ==> no == None
    requires Serves(all, lo, mid, gone, p, hit, no, barrier)
    requires Serves(all, mid, hi, gone, p, hit && mine, yes, barrier)
    ensures Serves(all, lo, hi, gone, p, hit, if mine then yes else no, barrier)
  {
  }

  /** The last visit, peeled off. */
  lemma LastVisit(node: Node, visits: seq<Visit>, pattern: Entries, alive: set<FlowId>, barrier: FlowId)
    requires node.LoadNode? && VisitsCases(node, visits) && visits != []
    requires PathDisjoint(node, pattern) && NoWildcards(pattern)
    ensures var init, last := visits[..|visits| - 1], visits[|visits| - 1];
            && VisitsCases(node, init) && VisitsCase(node, last)
            && WalkCases(node, visits, pattern, alive, barrier).0 ==
               WalkCases(node, init, pattern, alive, barrier).0 +
               Walk(node.cases[last.value], last.sub,
                    ModifyIn(pattern, CaseField(node.mask, last.value)), alive, barrier).0
  {
    WalkCasesRestoresMatch(node, visits[..|visits| - 1], pattern, alive, barrier);
  }

  lemma SplitStretch(all: seq<Install>, lo: nat, hi: nat, below: seq<Install>, above: seq<Install>) returns (mid: nat)
    requires lo <= hi <= |all| && all[lo..hi] == below + above
    ensures lo <= mid <= hi && all[lo..mid] == below && all[mid..hi] == above
  {
    mid := lo + |below|;
    assert all[lo..mid] == all[lo..hi][..|below|];
    assert all[mid..hi] == all[lo..hi][|below|..];
  }

  lemma OneMoreVisit(node: Node, visits: seq<Visit>, p: Packet)
    requires node.LoadNode? && VisitsCases(node, visits) && visits != []
    ensures var n := |visits| - 1;
            var part, rest := VisitedPart(node, visits), VisitedPart(node, visits[..n]);
            if p.Load(node.mask).value == visits[n].value then
              VisitsCase(node, visits[n]) && Leaf(part, p) == Leaf(node.cases[visits[n].value], p) && Leaf(rest, p) == None
            else
              Leaf(part, p) == Leaf(rest, p)
  {
    var n := |visits| - 1;
    var v := p.Load(node.mask).value;
    var part, rest := VisitedPart(node, visits), VisitedPart(node, visits[..n]);
    assert VisitsCase(node, visits[n]);
    if v != visits[n].value {
      assert v in part.cases <==> v in rest.cases;
    }
  }

  /** The load node restricted to the cases already visited. */
  ghost function VisitedPart(node: Node, visits: seq<Visit>): Node
    requires node.LoadNode?
  {
    LoadNode(node.mask, map v | v in node.cases && Visited(visits, v) :: node.cases[v])
  }

  /** The compiled table decides as the tree does, on every packet and for every order of
      the walk, also when the switch has lost any of the leaf rules: a packet is won by the
      flow of its own leaf, by a barrier, or by nothing; and it is won by its own flow unless
      that flow has expired or its rule is gone. */
  lemma TableAgreesWithTree(root: Node, s: Schedule, alive: set<FlowId>, barrier: FlowId, gone: set<nat>, p: Packet)
    requires Scheduled(root, s) && PathDisjoint(root, map[])
    requires RuleCount(root, alive) < PRIORITY_RANGE
    requires OnlyLeavesGone(Walk(root, s, map[], alive, barrier).0, gone, barrier)
    ensures var installs := Walk(root, s, map[], alive, barrier).0; var table := Numbered(installs);
            var want := Lookup(root, p, alive);
            && (forall k: nat :: IsWinner(table, gone, p, k) ==>
                  table[k].flow == barrier || want == Some(table[k].flow))
            && (want.Some? && !LeafGone(installs, gone, want.value) ==>
                  exists k: nat :: IsWinner(table, gone, p, k) && table[k].flow == want.value)
  {
    var installs := Walk(root, s, map[], alive, barrier).0;
    assert installs[0..|installs|] == installs;
    WalkLength(root, s, map[], alive, barrier);
    WalkServes(root, s, map[], alive, barrier, installs, 0, |installs|, gone, p);
    forall k: nat
      ensures IsWinner(Numbered(installs), gone, p, k) <==> IsLast(installs, gone, p, k, 0, |installs|)
    {
      WinnerIsLast(installs, gone, p, k);
    }
  }

  lemma VisitedSnoc(visits: seq<Visit>, last: Visit)
    ensures forall v :: Visited(visits + [last], v) <==> Visited(visits, v) || v == last.value
  {
    var all := visits + [last];
    assert all[|visits|] == last;
    assert forall i :: 0 <= i < |visits| ==> all[i] == visits[i];
  }

  // ---------------------------------------------------------------- the mutable compiler

  /** The switch behind `Backend`: the installs it was given. */
  class Backend {
    var table: seq<Rule>

    constructor ()
      ensures table == []
    {
      table := [];
    }

    method RemoveAll()
      modifies this
      ensures table == []
    {
      table := [];
    }

    method Install(priority: nat, pattern: Entries, flow: FlowId)
      modifies this
      ensures table == old(table) + [Rule(priority, pattern, flow)]
    {
      table := table + [Rule(priority, pattern, flow)];
    }
  }

  /** One walk took the match from `before` to `after` and the installs from `was` to `now`. */
  ghost predicate Walked(node: Node, s: Schedule, alive: set<FlowId>, barrier: FlowId,
                         before: Entries, after: Entries, was: seq<Install>, now: seq<Install>) {
    && Scheduled(node, s)
    && now == was + Walk(node, s, before, alive, barrier).0
    && after == Walk(node, s, before, alive, barrier).1
  }

  ghost predicate WalkedCases(node: Node, visits: seq<Visit>, alive: set<FlowId>, barrier: FlowId,
                              before: Entries, after: Entries, was: seq<Install>, now: seq<Install>)
    requires node.LoadNode?
  {
    && VisitsCases(node, visits)
    && now == was + WalkCases(node, visits, before, alive, barrier).0
    && after == WalkCases(node, visits, before, alive, barrier).1
  }

  lemma WalkedTest(node: Node, s: Schedule, alive: set<FlowId>, barrier: FlowId,
                   p0: Entries, p1: Entries, p3: Entries,
                   i0: seq<Install>, i1: seq<Install>, i2: seq<Install>, i3: seq<Install>)
    requires node.TestNode? && s.TestOrder?
    requires Walked(node.negative, s.neg, alive, barrier, p0, p1, i0, i1)
    requires i2 == i1 + [Install(ModifyIn(p1, node.need), barrier)]
    requires Walked(node.positive, s.pos, alive, barrier, ModifyIn(p1, node.need), p3, i2, i3)
    ensures Walked(node, s, alive, barrier, p0, EraseFrom(p3, MaskOf(node.need)), i0, i3)
  {
    var below := Walk(node.negative, s.neg, p0, alive, barrier).0;
    var above := Walk(node.positive, s.pos, ModifyIn(p1, node.need), alive, barrier).0;
    assert i3 == i0 + (below + [Install(ModifyIn(p1, node.need), barrier)] + above);
  }

  lemma WalkedCase(node: Node, visits: seq<Visit>, last: Visit, alive: set<FlowId>, barrier: FlowId,
                   p0: Entries, p1: Entries, p3: Entries,
                   i0: seq<Install>, i1: seq<Install>, i3: seq<Install>)
    requires node.LoadNode? && last.value in node.cases && |last.value| == node.mask.t.nbits
    requires !Visited(visits, last.value)
    requires WalkedCases(node, visits, alive, barrier, p0, p1, i0, i1)
    requires Walked(node.cases[last.value], last.sub, alive, barrier,
                    ModifyIn(p1, CaseField(node.mask, last.value)), p3, i1, i3)
    ensures WalkedCases(node, visits + [last], alive, barrier, p0, EraseFrom(p3, node.mask), i0, i3)
  {
    var all := visits + [last];
    assert all[..|all| - 1] == visits && all[|all| - 1] == last;
    var below := WalkCases(node, visits, p0, alive, barrier).0;
    var above := Walk(node.cases[last.value], last.sub, ModifyIn(p1, CaseField(node.mask, last.value)), alive, barrier).0;
    assert i3 == i0 + (below + above);
  }

  /** The case values are full-length bit strings, as the constructor of a value demands. */
  predicate Sized(node: Node) {
    match node
    case Unexplored => true
    case FlowNode(_) => true
    case TestNode(_, pos, neg) => Sized(pos) && Sized(neg)
    case LoadNode(mask, cases) => forall v :: v in cases ==> |v| == mask.t.nbits && Sized(cases[v])
  }

  class TreeCompiler {
    const backend: Backend
    const barrier: FlowId
    const pattern: FieldSet
    var priority: nat
    ghost var installs: seq<Install>

    ghost predicate Valid()
      reads this, backend
    {
      && backend.table == Numbered(installs)
      && priority == Priority(|installs|)
    }

    constructor (backend: Backend, barrier: FlowId)
      requires backend.table == []
      ensures this.backend == backend && this.barrier == barrier && fresh(pattern)
      ensures installs == [] && pattern.entries == map[]
      ensures Valid()
    {
      this.backend := backend;
      this.barrier := barrier;
      pattern := new FieldSet();
      priority := 1;
      installs := [];
    }

    method Emit(flow: FlowId)
      requires Valid()
      modifies this, backend
      ensures Valid()
      ensures installs == old(installs) + [Install(pattern.entries, flow)]
    {
      backend.Install(priority, pattern.entries, flow);
      installs := installs + [Install(pattern.entries, flow)];
      priority := (priority + 1) % PRIORITY_RANGE;
      assert backend.table == Numbered(installs);
    }

    /** The walk, visiting hash table entries in an order of its own choice. */
    method VisitNode(node: Node, alive: set<FlowId>) returns (ghost s: Schedule)
      requires Valid() && Sized(node)
      modifies this, backend, pattern
      ensures Valid()
      ensures Walked(node, s, alive, barrier, old(pattern.entries), pattern.entries, old(installs), installs)
      decreases node
    {
      match node
      case Unexplored =>
        s := Trivial;
      case FlowNode(f) =>
        s := Trivial;
        if f in alive {
          Emit(f);
        }
      case TestNode(need, pos, neg) =>
        ghost var sneg := VisitNode(neg, alive);
        ghost var p1, i1 := pattern.entries, installs;
        pattern.Modify(need);
        Emit(barrier);
        ghost var i2 := installs;
        ghost var spos := VisitNode(pos, alive);
        ghost var p3 := pattern.entries;
        pattern.Erase(MaskOf(need));
        s := TestOrder(sneg, spos);
        WalkedTest(node, s, alive, barrier, old(pattern.entries), p1, p3, old(installs), i1, i2, installs);
      case LoadNode(mask, cases) =>
        ghost var visits := VisitCases(node, alive);
        s := LoadOrder(visits);
    }

    method VisitCases(node: Node, alive: set<FlowId>) returns (ghost visits: seq<Visit>)
      requires Valid() && Sized(node) && node.LoadNode?
      modifies this, backend, pattern
      ensures Valid()
      ensures AllVisited(node, visits)
      ensures WalkedCases(node, visits, alive, barrier, old(pattern.entries), pattern.entries, old(installs), installs)
      decreases node, 0
    {
      visits := [];
      var rest := node.cases.Keys;
      while rest != {}
        invariant Valid()
        invariant rest <= node.cases.Keys
        invariant forall v :: v in node.cases ==> (v in rest <==> !Visited(visits, v))
        invariant WalkedCases(node, visits, alive, barrier, old(pattern.entries), pattern.entries, old(installs), installs)
        decreases |rest|
      {
        var v :| v in rest;
        ghost var p1, i1 := pattern.entries, installs;
        pattern.Modify(CaseField(node.mask, v));
        ghost var sub := VisitNode(node.cases[v], alive);
        ghost var p3 := pattern.entries;
        pattern.Erase(node.mask);
        WalkedCase(node, visits, Visit(v, sub), alive, barrier, old(pattern.entries), p1, p3, old(installs), i1, installs);
        VisitedSnoc(visits, Visit(v, sub));
        visits := visits + [Visit(v, sub)];
        rest := rest - {v};
      }
    }
  }
}
