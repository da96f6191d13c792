/** Reconciling the known rules of a switch with the flows it reports (FlowManager.cc). */
module FlowRules {

  /** What a switch reports of a flow.  Counters and durations change between reports. */
  datatype FlowStats = FlowStats(
    cookie: nat, hardTimeout: nat, idleTimeout: nat, priority: nat, tableId: nat, flags: nat,
    match_: seq<nat>, instructions: seq<nat>, duration: nat, packets: nat, bytes: nat)

  datatype Key = Key(
    cookie: nat, hardTimeout: nat, idleTimeout: nat, priority: nat, tableId: nat, flags: nat,
    match_: seq<nat>, instructions: seq<nat>)

  function KeyOf(f: FlowStats): Key {
    Key(f.cookie, f.hardTimeout, f.idleTimeout, f.priority, f.tableId, f.flags, f.match_, f.instructions)
  }

  predicate EqualFlows(one: FlowStats, two: FlowStats)
    ensures EqualFlows(one, two) <==> KeyOf(one) == KeyOf(two)
  {
    && one.cookie == two.cookie
    && one.hardTimeout == two.hardTimeout
    && one.idleTimeout == two.idleTimeout
    && one.priority == two.priority
    && one.tableId == two.tableId
    && one.flags == two.flags
    && one.match_ == two.match_
    && one.instructions == two.instructions
  }

  datatype Rule = Rule(id: nat, dpid: nat, flow: FlowStats)

  datatype Report = Added(rule: Rule) | Deleted(rule: Rule)

  function FlowKeys(flows: seq<FlowStats>): multiset<Key> {
    if flows == [] then multiset{} else multiset{KeyOf(flows[0])} + FlowKeys(flows[1..])
  }

  function RuleKeys(rules: seq<Rule>): multiset<Key> {
    if rules == [] then multiset{} else multiset{KeyOf(rules[0].flow)} + RuleKeys(rules[1..])
  }

  // ---------------------------------------------------------------- the specification

  /** The first flow equal to the given one, or the end. */
  function FirstEqual(flows: seq<FlowStats>, f: FlowStats): (k: nat)
    ensures k <= |flows|
    ensures k < |flows| ==> EqualFlows(flows[k], f)
  {
    if flows == [] || EqualFlows(flows[0], f) then 0 else 1 + FirstEqual(flows[1..], f)
  }

  function Without(flows: seq<FlowStats>, k: nat): seq<FlowStats>
    requires k < |flows|
  {
    flows[..k] + flows[k + 1..]
  }

  /** The rules that stay, those that go, and the flows that no rule accounts for. */
  datatype Sifted = Sifted(kept: seq<Rule>, gone: seq<Rule>, unclaimed: seq<FlowStats>)

  function Sift(rules: seq<Rule>, flows: seq<FlowStats>): Sifted {
    if rules == [] then Sifted([], [], flows)
    else
      var k := FirstEqual(flows, rules[0].flow);
      if k < |flows| then
        var rest := Sift(rules[1..], Without(flows, k));
        Sifted([rules[0]] + rest.kept, rest.gone, rest.unclaimed)
      else
        var rest := Sift(rules[1..], flows);
        Sifted(rest.kept, [rules[0]] + rest.gone, rest.unclaimed)
  }

  /** New rules for the flows, numbered behind `lastId`. */
  function NewRules(dpid: nat, flows: seq<FlowStats>, lastId: nat): seq<Rule> {
    if flows == [] then []
    else [Rule(lastId + 1, dpid, flows[0])] + NewRules(dpid, flows[1..], lastId + 1)
  }

  function Deletions(rules: seq<Rule>): seq<Report> {
    if rules == [] then [] else [Deleted(rules[0])] + Deletions(rules[1..])
  }

  function Additions(rules: seq<Rule>): seq<Report> {
    if rules == [] then [] else [Added(rules[0])] + Additions(rules[1..])
  }

  function RulesOf(tables: map<nat, seq<Rule>>, dpid: nat): seq<Rule> {
    if dpid in tables then tables[dpid] else []
  }

  ghost predicate AllOf(dpid: nat, rules: seq<Rule>) { forall r :: r in rules ==> r.dpid == dpid }

  /** New rules carry the identifier of the switch, the next numbers, and the flows as reported. */
  lemma {:induction false} NewRulesCarry(dpid: nat, flows: seq<FlowStats>, lastId: nat)
    ensures var added := NewRules(dpid, flows, lastId);
            |added| == |flows| && forall k :: 0 <= k < |flows| ==> added[k] == Rule(lastId + k + 1, dpid, flows[k])
    decreases |flows|
  {
    if flows != [] {
      NewRulesCarry(dpid, flows[1..], lastId + 1);
      var added := NewRules(dpid, flows, lastId);
      forall k | 0 < k < |flows|
        ensures added[k] == Rule(lastId + k + 1, dpid, flows[k])
      {
        assert added[k] == NewRules(dpid, flows[1..], lastId + 1)[k - 1];
      }
    }
  }

  // ---------------------------------------------------------------- the program

  class FlowManager {
    var tables: map<nat, seq<Rule>>
    var lastId: nat
    var reports: seq<Report>

    constructor ()
      ensures tables == map[] && lastId == 0 && reports == []
    {
      tables, lastId, reports := map[], 0, [];
    }

    method UpdateSwitchRules(dpid: nat, reported: seq<FlowStats>)
      modifies this
      ensures var rules := RulesOf(old(tables), dpid);
              var sifted := Sift(rules, reported);
              var added := NewRules(dpid, sifted.unclaimed, old(lastId));
              && tables == old(tables)[dpid := sifted.kept + added]
              && lastId == old(lastId) + |sifted.unclaimed|
              && reports == old(reports) + Deletions(sifted.gone) + Additions(added)
      ensures var sifted := Sift(RulesOf(old(tables), dpid), reported);
              && |tables[dpid]| == |sifted.kept| + |sifted.unclaimed|
              && (forall k :: 0 <= k < |sifted.unclaimed| ==>
                    tables[dpid][|sifted.kept| + k] == Rule(old(lastId) + k + 1, dpid, sifted.unclaimed[k]))
    {
      var flows := RemoveMissing(dpid, reported);
      ghost var sifted, last := Sift(RulesOf(old(tables), dpid), reported), lastId;
      ghost var before := reports;
      ghost var added := NewRules(dpid, flows, last);
      assert sifted.kept + added == sifted.kept + NewRules(dpid, flows[0..], lastId);
      assert before + Additions(added) == reports + Additions(NewRules(dpid, flows[0..], lastId));
      for i := 0 to |flows|
        invariant dpid in tables && tables == old(tables)[dpid := tables[dpid]]
        invariant lastId == last + i
        invariant tables[dpid] + NewRules(dpid, flows[i..], lastId) == sifted.kept + added
        invariant reports + Additions(NewRules(dpid, flows[i..], lastId)) == before + Additions(added)
      {
        AddOne(dpid, flows, i);
      }
      assert flows[|flows|..] == [] && tables[dpid] + [] == tables[dpid] && reports + [] == reports;
      NewRulesCarry(dpid, flows, last);
    }

    method CleanSwitchRules(dpid: nat)
      modifies this`tables, this`reports
      ensures tables == old(tables)[dpid := []]
      ensures reports == old(reports) + Deletions(RulesOf(old(tables), dpid))
    {
      var rules := RulesOf(tables, dpid);
      assert rules[0..] == rules;
      for i := 0 to |rules|
        invariant tables == old(tables)
        invariant reports + Deletions(rules[i..]) == old(reports) + Deletions(rules)
      {
        assert rules[i..][0] == rules[i] && rules[i..][1..] == rules[i + 1..];
        reports := reports + [Deleted(rules[i])];
      }
      assert rules[|rules|..] == [] && reports + [] == reports;
      tables := tables[dpid := []];
    }

    /** A new rule for the flow at i. */
    method AddOne(dpid: nat, flows: seq<FlowStats>, i: nat)
      requires i < |flows| && dpid in tables
      modifies this
      ensures lastId == old(lastId) + 1
      ensures dpid in tables && tables == old(tables)[dpid := tables[dpid]]
      ensures tables[dpid] + NewRules(dpid, flows[i + 1..], lastId) ==
              old(tables)[dpid] + NewRules(dpid, flows[i..], old(lastId))
      ensures reports + Additions(NewRules(dpid, flows[i + 1..], lastId)) ==
              old(reports) + Additions(NewRules(dpid, flows[i..], old(lastId)))
    {
      assert flows[i..][0] == flows[i] && flows[i..][1..] == flows[i + 1..];
      lastId := lastId + 1;
      var rule := Rule(lastId, dpid, flows[i]);
      ghost var more := NewRules(dpid, flows[i + 1..], lastId);
      assert ([rule] + more)[0] == rule && ([rule] + more)[1..] == more;
      tables := tables[dpid := tables[dpid] + [rule]];
      reports := reports + [Added(rule)];
    }

    /** Rules that the switch no longer reports are removed; what is left of the reported
        flows is returned. */
    method RemoveMissing(dpid: nat, reported: seq<FlowStats>) returns (flows: seq<FlowStats>)
      modifies this`tables, this`reports
      ensures var sifted := Sift(RulesOf(old(tables), dpid), reported);
              && flows == sifted.unclaimed
              && tables == old(tables)[dpid := sifted.kept]
              && reports == old(reports) + Deletions(sifted.gone)
    {
      flows := reported;
      var rules := RulesOf(tables, dpid);
      var kept: seq<Rule> := [];
      ghost var sifted := Sift(rules, reported);
      assert rules[0..] == rules;
      assert kept + sifted.kept == sifted.kept;
      for i := 0 to |rules|
        invariant tables == old(tables)
        invariant sifted.kept == kept + Sift(rules[i..], flows).kept
        invariant old(reports) + Deletions(sifted.gone) == reports + Deletions(Sift(rules[i..], flows).gone)
        invariant sifted.unclaimed == Sift(rules[i..], flows).unclaimed
      {
        kept, flows := KeepOrDelete(rules, i, kept, flows);
      }
      assert rules[|rules|..] == [] && kept + [] == kept;
      tables := tables[dpid := kept];
    }

    method KeepOrDelete(rules: seq<Rule>, i: nat, kept: seq<Rule>, flows: seq<FlowStats>)
      returns (kept': seq<Rule>, flows': seq<FlowStats>)
      requires i < |rules|
      modifies this`reports
      ensures var before, after := Sift(rules[i..], flows), Sift(rules[i + 1..], flows');
              && kept' + after.kept == kept + before.kept
              && reports + Deletions(after.gone) == old(reports) + Deletions(before.gone)
              && after.unclaimed == before.unclaimed
    {
      kept', flows' := kept, flows;
      assert rules[i..][0] == rules[i] && rules[i..][1..] == rules[i + 1..];
      var k := 0;
      while k < |flows|
        invariant k <= |flows|
        invariant FirstEqual(flows, rules[i].flow) == k + FirstEqual(flows[k..], rules[i].flow)
      {
        assert flows[k..][1..] == flows[k + 1..];
        if EqualFlows(flows[k], rules[i].flow) {
          flows' := Without(flows, k);
          kept' := kept + [rules[i]];
          return;
        }
        k := k + 1;
      }
      ghost var gone := Sift(rules[i + 1..], flows).gone;
      assert ([rules[i]] + gone)[0] == rules[i] && ([rules[i]] + gone)[1..] == gone;
      reports := reports + [Deleted(rules[i])];
    }
  }

  // ---------------------------------------------------------------- what reconciling achieves

  lemma {:induction false} FlowKeysWithout(flows: seq<FlowStats>, k: nat)
    requires k < |flows|
    ensures FlowKeys(flows) == multiset{KeyOf(flows[k])} + FlowKeys(Without(flows, k))
  {
    if k == 0 {
      assert Without(flows, k) == flows[1..];
    } else {
      FlowKeysWithout(flows[1..], k - 1);
      assert Without(flows, k)[1..] == Without(flows[1..], k - 1);
    }
  }

  lemma {:induction false} FirstEqualIsKey(flows: seq<FlowStats>, f: FlowStats)
    ensures FirstEqual(flows, f) < |flows| <==> KeyOf(f) in FlowKeys(flows)
  {
    if flows != [] && !EqualFlows(flows[0], f) { FirstEqualIsKey(flows[1..], f); }
  }

  lemma Matched(k: Key, rules: multiset<Key>, flows: multiset<Key>)
    ensures (multiset{k} + rules) * (multiset{k} + flows) == multiset{k} + rules * flows
    ensures (multiset{k} + rules) - (multiset{k} + flows) == rules - flows
    ensures (multiset{k} + flows) - (multiset{k} + rules) == flows - rules
  {
  }

  lemma Unmatched(k: Key, rules: multiset<Key>, flows: multiset<Key>)
    requires k !in flows
    ensures (multiset{k} + rules) * flows == rules * flows
    ensures (multiset{k} + rules) - flows == multiset{k} + (rules - flows)
    ensures flows - (multiset{k} + rules) == flows - rules
  {
  }

  /** What stays is the intersection of what was known and what is reported, as multisets of
      flows; what goes and what is new are the two differences. */
  lemma {:induction false} SiftIsIntersection(rules: seq<Rule>, flows: seq<FlowStats>)
    ensures var s := Sift(rules, flows);
            && RuleKeys(s.kept) == RuleKeys(rules) * FlowKeys(flows)
            && RuleKeys(s.gone) == RuleKeys(rules) - FlowKeys(flows)
            && FlowKeys(s.unclaimed) == FlowKeys(flows) - RuleKeys(rules)
    decreases |rules|
  {
    if rules != [] {
      var r, k := rules[0], FirstEqual(flows, rules[0].flow);
      FirstEqualIsKey(flows, r.flow);
      if k < |flows| {
        var rest := Sift(rules[1..], Without(flows, k));
        SiftIsIntersection(rules[1..], Without(flows, k));
        FlowKeysWithout(flows, k);
        Matched(KeyOf(r.flow), RuleKeys(rules[1..]), FlowKeys(Without(flows, k)));
        assert ([r] + rest.kept)[1..] == rest.kept;
      } else {
        var rest := Sift(rules[1..], flows);
        SiftIsIntersection(rules[1..], flows);
        Unmatched(KeyOf(r.flow), RuleKeys(rules[1..]), FlowKeys(flows));
        assert ([r] + rest.gone)[1..] == rest.gone;
      }
    }
  }

  /** Which rules stay: taking `kept` and `gone` apart again in the original order, a rule goes
      only if none behind it with the same flow stays. */
  ghost predicate Splits(rules: seq<Rule>, kept: seq<Rule>, gone: seq<Rule>)
    decreases |rules|
  {
    if rules == [] then kept == [] && gone == []
    else
      || (kept != [] && kept[0] == rules[0] && Splits(rules[1..], kept[1..], gone))
      || (&& gone != [] && gone[0] == rules[0]
          && KeyOf(rules[0].flow) !in RuleKeys(kept)
          && Splits(rules[1..], kept, gone[1..]))
  }

  lemma {:induction false} SiftKeepsOrder(rules: seq<Rule>, flows: seq<FlowStats>)
    ensures Splits(rules, Sift(rules, flows).kept, Sift(rules, flows).gone)
    decreases |rules|
  {
    if rules != [] {
      var k := FirstEqual(flows, rules[0].flow);
      FirstEqualIsKey(flows, rules[0].flow);
      if k < |flows| {
        var rest := Sift(rules[1..], Without(flows, k));
        SiftKeepsOrder(rules[1..], Without(flows, k));
        assert ([rules[0]] + rest.kept)[1..] == rest.kept;
      } else {
        var rest := Sift(rules[1..], flows);
        SiftKeepsOrder(rules[1..], flows);
        SiftIsIntersection(rules[1..], flows);
        assert ([rules[0]] + rest.gone)[1..] == rest.gone;
      }
    }
  }

  /** The flows of one key, in order. */
  function Having(flows: seq<FlowStats>, key: Key): seq<FlowStats> {
    if flows == [] then []
    else if KeyOf(flows[0]) == key then [flows[0]] + Having(flows[1..], key)
    else Having(flows[1..], key)
  }

  ghost predicate PartOf(some: seq<FlowStats>, all: seq<FlowStats>)
    decreases |all|
  {
    if all == [] then some == []
    else PartOf(some, all[1..]) || (some != [] && some[0] == all[0] && PartOf(some[1..], all[1..]))
  }

  lemma {:induction false} PartOfItself(flows: seq<FlowStats>)
    ensures PartOf(flows, flows)
  {
    if flows != [] { PartOfItself(flows[1..]); }
  }

  lemma {:induction false} PartOfPart(a: seq<FlowStats>, b: seq<FlowStats>, c: seq<FlowStats>)
    requires PartOf(a, b) && PartOf(b, c)
    ensures PartOf(a, c)
    decreases |c|
  {
    if c != [] {
      if PartOf(b, c[1..]) {
        PartOfPart(a, b, c[1..]);
      } else if PartOf(a, b[1..]) {
        PartOfPart(a, b[1..], c[1..]);
      } else {
        PartOfPart(a[1..], b[1..], c[1..]);
      }
    }
  }

  lemma {:induction false} WithoutIsPart(flows: seq<FlowStats>, k: nat)
    requires k < |flows|
    ensures PartOf(Without(flows, k), flows)
  {
    if k == 0 {
      assert Without(flows, k) == flows[1..];
      PartOfItself(flows[1..]);
    } else {
      WithoutIsPart(flows[1..], k - 1);
      assert Without(flows, k)[1..] == Without(flows[1..], k - 1);
    }
  }

  lemma HavingMore(f: FlowStats, flows: seq<FlowStats>, key: Key)
    ensures Having([f] + flows, key) == if KeyOf(f) == key then [f] + Having(flows, key) else Having(flows, key)
  {
    assert ([f] + flows)[1..] == flows;
  }

  /** Taking out the first flow of a key leaves the others in place. */
  lemma {:induction false} WithoutFirst(flows: seq<FlowStats>, f: FlowStats, k: nat, key: Key)
    requires FirstEqual(flows, f) == k < |flows|
    ensures var rest := Having(Without(flows, k), key);
            Having(flows, key) == if key == KeyOf(f) then [flows[k]] + rest else rest
  {
    if k == 0 {
      assert Without(flows, k) == flows[1..];
    } else {
      WithoutFirst(flows[1..], f, k - 1, key);
      HavingMore(flows[0], Without(flows[1..], k - 1), key);
      assert Without(flows, k) == [flows[0]] + Without(flows[1..], k - 1);
    }
  }

  lemma {:induction false} HavingNone(flows: seq<FlowStats>, f: FlowStats)
    requires FirstEqual(flows, f) == |flows|
    ensures Having(flows, KeyOf(f)) == []
  {
    if flows != [] { HavingNone(flows[1..], f); }
  }

  function Behind<T>(n: nat, s: seq<T>): seq<T> { if n <= |s| then s[n..] else [] }

  lemma BehindOneMore<T>(n: nat, x: T, s: seq<T>)
    ensures Behind(n + 1, [x] + s) == Behind(n, s)
  {
  }

  /** The flows left over stand in the order of the report, with the counters as reported. */
  lemma {:induction false} UnclaimedIsPart(rules: seq<Rule>, flows: seq<FlowStats>)
    ensures PartOf(Sift(rules, flows).unclaimed, flows)
    decreases |rules|
  {
    if rules == [] {
      PartOfItself(flows);
    } else {
      var k := FirstEqual(flows, rules[0].flow);
      if k < |flows| {
        WithoutIsPart(flows, k);
        UnclaimedIsPart(rules[1..], Without(flows, k));
        PartOfPart(Sift(rules, flows).unclaimed, Without(flows, k), flows);
      } else {
        UnclaimedIsPart(rules[1..], flows);
      }
    }
  }

  /** Of every key as many flows are gone from the front as there are rules to claim them. */
  lemma {:induction false} UnclaimedIsBehind(rules: seq<Rule>, flows: seq<FlowStats>, key: Key)
    ensures Having(Sift(rules, flows).unclaimed, key) == Behind(RuleKeys(rules)[key], Having(flows, key))
    decreases |rules|
  {
    if rules != [] {
      var f := rules[0].flow;
      var k := FirstEqual(flows, f);
      if k < |flows| {
        WithoutFirst(flows, f, k, key);
        UnclaimedIsBehind(rules[1..], Without(flows, k), key);
        BehindOneMore(RuleKeys(rules[1..])[key], flows[k], Having(Without(flows, k), key));
      } else {
        HavingNone(flows, f);
        UnclaimedIsBehind(rules[1..], flows, key);
      }
    }
  }

  /** Each rule that goes or comes is reported once, in order. */
  lemma {:induction false} ReportsInOrder(rules: seq<Rule>)
    ensures |Deletions(rules)| == |Additions(rules)| == |rules|
    ensures forall k :: 0 <= k < |rules| ==> Deletions(rules)[k] == Deleted(rules[k]) && Additions(rules)[k] == Added(rules[k])
  {
    if rules != [] {
      ReportsInOrder(rules[1..]);
      forall k | 0 < k < |rules|
        ensures Deletions(rules)[k] == Deleted(rules[k]) && Additions(rules)[k] == Added(rules[k])
      {
        assert Deletions(rules)[k] == Deletions(rules[1..])[k - 1] && Additions(rules)[k] == Additions(rules[1..])[k - 1];
      }
    }
  }

  lemma {:induction false} NewRulesHaveKeys(dpid: nat, flows: seq<FlowStats>, lastId: nat)
    ensures RuleKeys(NewRules(dpid, flows, lastId)) == FlowKeys(flows)
    ensures |NewRules(dpid, flows, lastId)| == |flows|
    decreases |flows|
  {
    if flows != [] {
      NewRulesHaveKeys(dpid, flows[1..], lastId + 1);
      var more := NewRules(dpid, flows[1..], lastId + 1);
      assert ([Rule(lastId + 1, dpid, flows[0])] + more)[1..] == more;
    }
  }

  lemma {:induction false} RuleKeysConcat(a: seq<Rule>, b: seq<Rule>)
    ensures RuleKeys(a + b) == RuleKeys(a) + RuleKeys(b)
  {
    if a == [] {
      assert a + b == b;
    } else {
      assert (a + b)[1..] == a[1..] + b;
      RuleKeysConcat(a[1..], b);
    }
  }

  lemma {:induction false} ReportsCount(rules: seq<Rule>)
    ensures |RuleKeys(rules)| == |Deletions(rules)| == |Additions(rules)|
  {
    if rules != [] { ReportsCount(rules[1..]); }
  }

  /** After an update the rules of the switch are exactly the reported flows, and the numbers
      of Delete and Add events are the sizes of the two differences; nothing is reported if
      nothing changed. */
  lemma UpdateReconciles(dpid: nat, rules: seq<Rule>, flows: seq<FlowStats>, lastId: nat)
    ensures var s := Sift(rules, flows);
            var added := NewRules(dpid, s.unclaimed, lastId);
            && RuleKeys(s.kept + added) == FlowKeys(flows)
            && RuleKeys(s.gone) == RuleKeys(rules) - FlowKeys(flows)
            && RuleKeys(added) == FlowKeys(flows) - RuleKeys(rules)
            && |RuleKeys(s.gone)| == |Deletions(s.gone)| && |RuleKeys(added)| == |Additions(added)|
            && (RuleKeys(rules) == FlowKeys(flows) ==> s.kept == rules && s.gone == [] && added == [])
  {
    var s := Sift(rules, flows);
    SiftIsIntersection(rules, flows);
    SiftKeepsOrder(rules, flows);
    NewRulesHaveKeys(dpid, s.unclaimed, lastId);
    RuleKeysConcat(s.kept, NewRules(dpid, s.unclaimed, lastId));
    ReportsCount(s.gone);
    ReportsCount(NewRules(dpid, s.unclaimed, lastId));
    if RuleKeys(rules) == FlowKeys(flows) {
      assert RuleKeys(s.gone) == multiset{};
      NothingGone(rules, s.kept, s.gone);
    }
  }

  lemma {:induction false} NothingGone(rules: seq<Rule>, kept: seq<Rule>, gone: seq<Rule>)
    requires Splits(rules, kept, gone) && RuleKeys(gone) == multiset{}
    ensures kept == rules && gone == []
    decreases |rules|
  {
    if rules != [] { NothingGone(rules[1..], kept[1..], gone); }
  }
}
