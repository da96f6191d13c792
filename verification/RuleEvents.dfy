/** The flow manager as a user of the event log (FlowManager.cc:255-294, Event.cc:121-193).

    Each rule is added to the log when it is created and deleted from it when the switch no
    longer reports it.  That keeps the contract of the log, so a client that polls the flow
    manager holds exactly the rules of all switches.  */
module RuleEvents {
  import opened Events
  import opened EventPolling
  import opened FlowRules

  datatype Manager = Manager(tables: map<nat, seq<Rule>>, lastId: nat)

  function IdsOf(rules: seq<Rule>): set<nat> {
    if rules == [] then {} else {rules[0].id} + IdsOf(rules[1..])
  }

  function Ids(m: Manager): set<nat> {
    set d, id | d in m.tables && id in IdsOf(m.tables[d]) :: id
  }

  lemma {:induction false} IdsOfRules(rules: seq<Rule>, r: Rule)
    requires r in rules
    ensures r.id in IdsOf(rules)
  {
    if rules[0] != r { IdsOfRules(rules[1..], r); }
  }

  predicate Distinct(rules: seq<Rule>) {
    rules == [] || (rules[0].id !in IdsOf(rules[1..]) && Distinct(rules[1..]))
  }

  /** No two rules share an identifier, the counter is past all of them, and each is a rule of the
      switch that holds it. */
  ghost predicate WellNumbered(m: Manager) {
    && (forall d :: d in m.tables ==> AllOf(d, m.tables[d]))
    && (forall d :: d in m.tables ==> Distinct(m.tables[d]))
    && (forall d, id :: d in m.tables && id in IdsOf(m.tables[d]) ==> id <= m.lastId)
    && (forall d, e, id :: d in m.tables && e in m.tables && d != e && id in IdsOf(m.tables[d]) ==> id !in IdsOf(m.tables[e]))
  }

  // ---------------------------------------------------------------- steps of the manager

  function UpdateReports(m: Manager, dpid: nat, flows: seq<FlowStats>): seq<Report> {
    var s := Sift(RulesOf(m.tables, dpid), flows);
    Deletions(s.gone) + Additions(NewRules(dpid, s.unclaimed, m.lastId))
  }

  function Updated(m: Manager, dpid: nat, flows: seq<FlowStats>): Manager {
    var s := Sift(RulesOf(m.tables, dpid), flows);
    Manager(m.tables[dpid := s.kept + NewRules(dpid, s.unclaimed, m.lastId)], m.lastId + |s.unclaimed|)
  }

  /** `cleanSwitchRules` */
  function Cleaned(m: Manager, dpid: nat): Manager {
    m.(tables := m.tables[dpid := []])
  }

  // ---------------------------------------------------------------- reports alternate

  function Change1(ids: set<nat>, report: Report): set<nat> {
    match report
    case Added(r) => ids + {r.id}
    case Deleted(r) => ids - {r.id}
  }

  function ChangeAll(ids: set<nat>, reports: seq<Report>): set<nat>
    decreases |reports|
  {
    if reports == [] then ids else ChangeAll(Change1(ids, reports[0]), reports[1..])
  }

  /** Only rules that are not there are added, and only rules that are there are deleted. */
  predicate Alternate(ids: set<nat>, reports: seq<Report>)
    decreases |reports|
  {
    reports == [] ||
    (&& (reports[0].rule.id in ids <==> reports[0].Deleted?)
     && Alternate(Change1(ids, reports[0]), reports[1..]))
  }

  lemma {:induction false} DeletionsAlternate(ids: set<nat>, gone: seq<Rule>, more: seq<Report>)
    requires Distinct(gone) && IdsOf(gone) <= ids && Alternate(ids - IdsOf(gone), more)
    ensures Alternate(ids, Deletions(gone) + more)
    ensures ChangeAll(ids, Deletions(gone) + more) == ChangeAll(ids - IdsOf(gone), more)
    decreases |gone|
  {
    if gone == [] {
      assert Deletions(gone) + more == more && ids - IdsOf(gone) == ids;
    } else {
      FirstDeletion(gone, more);
      assert ids - {gone[0].id} - IdsOf(gone[1..]) == ids - IdsOf(gone);
      DeletionsAlternate(ids - {gone[0].id}, gone[1..], more);
    }
  }

  lemma FirstDeletion(gone: seq<Rule>, more: seq<Report>)
    requires gone != []
    ensures Deletions(gone) + more == [Deleted(gone[0])] + (Deletions(gone[1..]) + more)
    ensures (Deletions(gone) + more)[1..] == Deletions(gone[1..]) + more
  {
  }

  lemma {:induction false} AdditionsAlternate(ids: set<nat>, added: seq<Rule>)
    requires Distinct(added) && IdsOf(added) !! ids
    ensures Alternate(ids, Additions(added)) && ChangeAll(ids, Additions(added)) == ids + IdsOf(added)
    decreases |added|
  {
    if added != [] {
      var reports := Additions(added);
      assert reports[0] == Added(added[0]) && reports[1..] == Additions(added[1..]);
      AdditionsAlternate(ids + {added[0].id}, added[1..]);
    }
  }

  lemma {:induction false} SplitIds(rules: seq<Rule>, kept: seq<Rule>, gone: seq<Rule>)
    requires Splits(rules, kept, gone) && Distinct(rules)
    ensures IdsOf(kept) + IdsOf(gone) == IdsOf(rules) && IdsOf(kept) !! IdsOf(gone)
    ensures Distinct(kept) && Distinct(gone)
    decreases |rules|
  {
    if rules != [] {
      if kept != [] && kept[0] == rules[0] && Splits(rules[1..], kept[1..], gone) {
        SplitIds(rules[1..], kept[1..], gone);
      } else {
        SplitIds(rules[1..], kept, gone[1..]);
      }
    }
  }

  lemma {:induction false} SplitsAreRules(rules: seq<Rule>, kept: seq<Rule>, gone: seq<Rule>)
    requires Splits(rules, kept, gone)
    ensures forall r :: r in kept || r in gone ==> r in rules
    decreases |rules|
  {
    if rules != [] {
      if kept != [] && kept[0] == rules[0] && Splits(rules[1..], kept[1..], gone) {
        SplitsAreRules(rules[1..], kept[1..], gone);
        assert forall r :: r in kept ==> r == kept[0] || r in kept[1..];
      } else {
        SplitsAreRules(rules[1..], kept, gone[1..]);
        assert forall r :: r in gone ==> r == gone[0] || r in gone[1..];
      }
    }
  }

  lemma {:induction false} NewRulesAreNew(dpid: nat, flows: seq<FlowStats>, lastId: nat)
    ensures var added := NewRules(dpid, flows, lastId);
            Distinct(added) && forall id :: id in IdsOf(added) <==> lastId < id <= lastId + |flows|
    decreases |flows|
  {
    if flows != [] {
      NewRulesAreNew(dpid, flows[1..], lastId + 1);
      var more := NewRules(dpid, flows[1..], lastId + 1);
      assert ([Rule(lastId + 1, dpid, flows[0])] + more)[1..] == more;
    }
  }

  lemma {:induction false} IdsConcat(a: seq<Rule>, b: seq<Rule>)
    ensures IdsOf(a + b) == IdsOf(a) + IdsOf(b)
    ensures Distinct(a) && Distinct(b) && IdsOf(a) !! IdsOf(b) ==> Distinct(a + b)
  {
    if a == [] {
      assert a + b == b;
    } else {
      assert (a + b)[1..] == a[1..] + b;
      IdsConcat(a[1..], b);
    }
  }

  /** Replacing the rules of one switch by others that are partly new. */
  lemma ReplaceRules(m: Manager, dpid: nat, rules: seq<Rule>, lastId: nat)
    requires WellNumbered(m) && Distinct(rules) && lastId >= m.lastId && AllOf(dpid, rules)
    requires forall id :: id in IdsOf(rules) ==> id in IdsOf(RulesOf(m.tables, dpid)) || m.lastId < id <= lastId
    ensures var m' := Manager(m.tables[dpid := rules], lastId);
            WellNumbered(m') && Ids(m') == Ids(m) - IdsOf(RulesOf(m.tables, dpid)) + IdsOf(rules)
  {
    var m' := Manager(m.tables[dpid := rules], lastId);
    forall d | d in m'.tables
      ensures d != dpid ==> d in m.tables && m'.tables[d] == m.tables[d]
    {
    }
    forall id
      ensures id in Ids(m') <==> id in Ids(m) - IdsOf(RulesOf(m.tables, dpid)) + IdsOf(rules)
    {
      if id in Ids(m) && id !in IdsOf(RulesOf(m.tables, dpid)) {
        var d :| d in m.tables && id in IdsOf(m.tables[d]);
        assert d in m'.tables && id in IdsOf(m'.tables[d]);
      }
      if id in IdsOf(rules) { assert dpid in m'.tables && id in IdsOf(m'.tables[dpid]); }
    }
  }

  /** A part of the rules of one switch goes and new ones come. */
  lemma ReplaceAlternates(m: Manager, dpid: nat, kept: seq<Rule>, gone: seq<Rule>, added: seq<Rule>, lastId: nat)
    requires WellNumbered(m) && Splits(RulesOf(m.tables, dpid), kept, gone) && lastId >= m.lastId
    requires AllOf(dpid, added) && Distinct(added) && forall id :: id in IdsOf(added) ==> m.lastId < id <= lastId
    ensures var m' := Manager(m.tables[dpid := kept + added], lastId);
            var reports := Deletions(gone) + Additions(added);
            WellNumbered(m') && Alternate(Ids(m), reports) && ChangeAll(Ids(m), reports) == Ids(m')
  {
    var rules := RulesOf(m.tables, dpid);
    SplitIds(rules, kept, gone);
    SplitsAreRules(rules, kept, gone);
    IdsConcat(kept, added);
    ReplaceRules(m, dpid, kept + added, lastId);
    RulesAreKnown(m, dpid);
    AdditionsAlternate(Ids(m) - IdsOf(gone), added);
    DeletionsAlternate(Ids(m), gone, Additions(added));
  }

  lemma RulesAreKnown(m: Manager, dpid: nat)
    requires WellNumbered(m)
    ensures IdsOf(RulesOf(m.tables, dpid)) <= Ids(m) && forall id :: id in Ids(m) ==> id <= m.lastId
  {
  }

  lemma UpdateAlternates(m: Manager, dpid: nat, flows: seq<FlowStats>)
    requires WellNumbered(m)
    ensures WellNumbered(Updated(m, dpid, flows))
    ensures Alternate(Ids(m), UpdateReports(m, dpid, flows))
    ensures ChangeAll(Ids(m), UpdateReports(m, dpid, flows)) == Ids(Updated(m, dpid, flows))
  {
    var rules := RulesOf(m.tables, dpid);
    var s := Sift(rules, flows);
    SiftKeepsOrder(rules, flows);
    NewRulesAreNew(dpid, s.unclaimed, m.lastId);
    NewRulesCarry(dpid, s.unclaimed, m.lastId);
    ReplaceAlternates(m, dpid, s.kept, s.gone, NewRules(dpid, s.unclaimed, m.lastId), m.lastId + |s.unclaimed|);
  }

  lemma CleanAlternates(m: Manager, dpid: nat)
    requires WellNumbered(m)
    ensures WellNumbered(Cleaned(m, dpid))
    ensures Alternate(Ids(m), Deletions(RulesOf(m.tables, dpid)))
    ensures ChangeAll(Ids(m), Deletions(RulesOf(m.tables, dpid))) == Ids(Cleaned(m, dpid))
  {
    var rules := RulesOf(m.tables, dpid);
    ReplaceRules(m, dpid, [], m.lastId);
    DeletionsAlternate(Ids(m), rules, []);
    assert Deletions(rules) + [] == Deletions(rules);
  }

  // ---------------------------------------------------------------- the log follows the rules

  function StepOf(report: Report): Step {
    match report
    case Added(r) => Raise(Add, Obj(r.id))
    case Deleted(r) => Raise(Delete, Obj(r.id))
  }

  /** Every report may be raised when its turn comes. */
  ghost predicate AllEnabled(cfg: Setting, w: World, reports: seq<Report>)
    decreases |reports|
  {
    reports == [] ||
    (Enabled(cfg, w, StepOf(reports[0])) && AllEnabled(cfg, Next(cfg, w, StepOf(reports[0])), reports[1..]))
  }

  ghost function RaiseAll(cfg: Setting, w: World, reports: seq<Report>): World
    requires AllEnabled(cfg, w, reports)
    decreases |reports|
  {
    if reports == [] then w else RaiseAll(cfg, Next(cfg, w, StepOf(reports[0])), reports[1..])
  }

  ghost predicate LiveIff(cfg: Setting, fm: Rest, w: World, ids: set<nat>, o: Obj) {
    cfg.owner(o) == fm ==> (IsLive(w.events, |w.events|, o) <==> o.address in ids)
  }

  /** Of the flow manager's objects exactly the rules are live in the log. */
  ghost predicate Mirrors(cfg: Setting, fm: Rest, w: World, ids: set<nat>) {
    forall o :: LiveIff(cfg, fm, w, ids, o)
  }

  /** What an event changes of what is live. */
  lemma LiveAfter(events: seq<Event>, id: nat, kind: Kind, o: Obj, rest: Rest, p: Obj)
    requires Deletable(events, kind, o, rest) && rest.bit.Some?
    ensures var events' := Appended(events, id, kind, o, rest);
            IsLive(events', |events'|, p) <==>
            if p == o && kind != Change then kind == Add else IsLive(events, |events|, p)
  {
    var events' := Appended(events, id, kind, o, rest);
    var n := |events|;
    assert |events'| == n + 1 && events'[n].obj == o && events'[n].kind == kind;
    SameAbout(events, events', n, p);
  }

  lemma {:induction false} SameAbout(events: seq<Event>, events': seq<Event>, n: nat, p: Obj)
    requires n <= |events| && n <= |events'|
    requires forall k :: 0 <= k < n ==> events'[k].obj == events[k].obj && events'[k].kind == events[k].kind
    ensures LastAbout(events', n, p) == LastAbout(events, n, p)
  {
  }

  lemma LiveIsDeletable(events: seq<Event>, o: Obj)
    requires IsLive(events, |events|, o)
    ensures LatestAdd(events, o).Some?
  {
  }

  lemma OneReport(cfg: Setting, fm: Rest, w: World, ids: set<nat>, report: Report)
    requires Mirrors(cfg, fm, w, ids) && fm.bit.Some? && cfg.owner(Obj(report.rule.id)) == fm
    requires (report.rule.id in ids <==> report.Deleted?) && w.lastId + 1 < ID_BOUND
    ensures Enabled(cfg, w, StepOf(report))
    ensures Mirrors(cfg, fm, Next(cfg, w, StepOf(report)), Change1(ids, report))
  {
    var o := Obj(report.rule.id);
    assert LiveIff(cfg, fm, w, ids, o);
    var step := StepOf(report);
    if report.Deleted? { LiveIsDeletable(w.events, o); }
    var w' := Next(cfg, w, step);
    forall p: Obj
      ensures LiveIff(cfg, fm, w', Change1(ids, report), p)
    {
      assert LiveIff(cfg, fm, w, ids, p);
      LiveAfter(w.events, w.lastId + 1, step.kind, o, fm, p);
    }
  }

  /** Reports that alternate keep the contract of the log, and the log follows them. */
  lemma {:induction false} ReportsAreRaisable(cfg: Setting, fm: Rest, w: World, ids: set<nat>, reports: seq<Report>)
    requires Mirrors(cfg, fm, w, ids) && fm.bit.Some? && Inv(cfg, w)
    requires Alternate(ids, reports) && w.lastId + |reports| < ID_BOUND
    requires forall k :: 0 <= k < |reports| ==> cfg.owner(Obj(reports[k].rule.id)) == fm
    ensures AllEnabled(cfg, w, reports)
    ensures Mirrors(cfg, fm, RaiseAll(cfg, w, reports), ChangeAll(ids, reports)) && Inv(cfg, RaiseAll(cfg, w, reports))
    decreases |reports|
  {
    if reports != [] {
      var step := StepOf(reports[0]);
      OneReport(cfg, fm, w, ids, reports[0]);
      RaiseKeepsInv(cfg, w, step.kind, step.obj);
      ReportsAreRaisable(cfg, fm, Next(cfg, w, step), Change1(ids, reports[0]), reports[1..]);
    }
  }

  // ---------------------------------------------------------------- runs

  /** A switch reports its flows, a switch goes down, or something else happens to the log: an
      event of another application, an identifier spent elsewhere, a poll. */
  datatype Act = Update(dpid: nat, flows: seq<FlowStats>) | Down(dpid: nat) | Other(step: Step)

  datatype System = System(manager: Manager, world: World)

  function ReportsOf(m: Manager, act: Act): seq<Report> {
    match act
    case Update(dpid, flows) => UpdateReports(m, dpid, flows)
    case Down(dpid) => Deletions(RulesOf(m.tables, dpid))
    case Other(_) => []
  }

  function ManagerAfter(m: Manager, act: Act): Manager {
    match act
    case Update(dpid, flows) => Updated(m, dpid, flows)
    case Down(dpid) => Cleaned(m, dpid)
    case Other(_) => m
  }

  /** Every rule is an object of the flow manager, and other applications leave those alone. */
  ghost predicate CanDo(cfg: Setting, fm: Rest, sys: System, act: Act) {
    var reports := ReportsOf(sys.manager, act);
    && sys.world.lastId + |reports| < ID_BOUND
    && (forall k :: 0 <= k < |reports| ==> cfg.owner(Obj(reports[k].rule.id)) == fm)
    && (act.Other? ==> Enabled(cfg, sys.world, act.step) && (act.step.Raise? ==> cfg.owner(act.step.obj) != fm))
  }

  ghost function Do(cfg: Setting, fm: Rest, sys: System, act: Act): System
    requires CanDo(cfg, fm, sys, act) && AllEnabled(cfg, sys.world, ReportsOf(sys.manager, act))
  {
    var w := RaiseAll(cfg, sys.world, ReportsOf(sys.manager, act));
    System(ManagerAfter(sys.manager, act), if act.Other? then Next(cfg, w, act.step) else w)
  }

  ghost predicate SystemInv(cfg: Setting, fm: Rest, sys: System) {
    WellNumbered(sys.manager) && Inv(cfg, sys.world) && Mirrors(cfg, fm, sys.world, Ids(sys.manager))
  }

  lemma OtherKeepsInv(cfg: Setting, fm: Rest, w: World, ids: set<nat>, step: Step)
    requires Inv(cfg, w) && Mirrors(cfg, fm, w, ids) && Enabled(cfg, w, step)
    requires step.Raise? ==> cfg.owner(step.obj) != fm
    ensures Inv(cfg, Next(cfg, w, step)) && Mirrors(cfg, fm, Next(cfg, w, step), ids)
  {
    match step
    case Raise(kind, o) =>
      RaiseKeepsInv(cfg, w, kind, o);
      OtherRaiseMirrors(cfg, fm, w, ids, kind, o);
    case Elsewhere =>
      SameLogMirrors(cfg, fm, w, Next(cfg, w, step), ids);
    case Poll(result, apps) =>
      PollIsExact(cfg, w, result, apps);
      SameLogMirrors(cfg, fm, w, Next(cfg, w, step), ids);
  }

  lemma SameLogMirrors(cfg: Setting, fm: Rest, w: World, w': World, ids: set<nat>)
    requires Mirrors(cfg, fm, w, ids) && w'.events == w.events
    ensures Mirrors(cfg, fm, w', ids)
  {
    forall p: Obj
      ensures LiveIff(cfg, fm, w', ids, p)
    {
      assert LiveIff(cfg, fm, w, ids, p);
    }
  }

  lemma OtherRaiseMirrors(cfg: Setting, fm: Rest, w: World, ids: set<nat>, kind: Kind, o: Obj)
    requires Mirrors(cfg, fm, w, ids) && Enabled(cfg, w, Raise(kind, o)) && cfg.owner(o) != fm
    ensures Mirrors(cfg, fm, Next(cfg, w, Raise(kind, o)), ids)
  {
    var w' := Next(cfg, w, Raise(kind, o));
    forall p: Obj
      ensures LiveIff(cfg, fm, w', ids, p)
    {
      assert LiveIff(cfg, fm, w, ids, p);
      if cfg.owner(o).bit.Some? { LiveAfter(w.events, w.lastId + 1, kind, o, cfg.owner(o), p); }
    }
  }

  /** Whatever the switches report, the flow manager keeps the contract of the event log. */
  lemma ActKeepsInv(cfg: Setting, fm: Rest, sys: System, act: Act)
    requires SystemInv(cfg, fm, sys) && CanDo(cfg, fm, sys, act) && fm.bit.Some?
    ensures AllEnabled(cfg, sys.world, ReportsOf(sys.manager, act))
    ensures SystemInv(cfg, fm, Do(cfg, fm, sys, act))
  {
    var m, ids := sys.manager, Ids(sys.manager);
    match act
    case Update(dpid, flows) =>
      UpdateAlternates(m, dpid, flows);
      ReportsAreRaisable(cfg, fm, sys.world, ids, ReportsOf(m, act));
    case Down(dpid) =>
      CleanAlternates(m, dpid);
      ReportsAreRaisable(cfg, fm, sys.world, ids, ReportsOf(m, act));
    case Other(step) =>
      OtherKeepsInv(cfg, fm, sys.world, ids, step);
  }

  ghost predicate Proceeds(cfg: Setting, fm: Rest, sys: System, acts: seq<Act>, sys': System)
    decreases |acts|
  {
    if acts == [] then sys == sys'
    else
      && CanDo(cfg, fm, sys, acts[0])
      && (AllEnabled(cfg, sys.world, ReportsOf(sys.manager, acts[0])) ==>
            Proceeds(cfg, fm, Do(cfg, fm, sys, acts[0]), acts[1..], sys'))
  }

  lemma {:induction false} RunKeepsSystemInv(cfg: Setting, fm: Rest, sys: System, acts: seq<Act>, sys': System)
    requires SystemInv(cfg, fm, sys) && Proceeds(cfg, fm, sys, acts, sys') && fm.bit.Some?
    ensures SystemInv(cfg, fm, sys')
    decreases |acts|
  {
    if acts != [] {
      ActKeepsInv(cfg, fm, sys, acts[0]);
      RunKeepsSystemInv(cfg, fm, Do(cfg, fm, sys, acts[0]), acts[1..], sys');
    }
  }

  /** A client that polls the flow manager holds, after every poll of every run, exactly the
      rules of all switches; each of them names the switch that reported it. */
  lemma ClientsHoldTheRules(
    cfg: Setting, fm: Rest, acts: seq<Act>, sys: System, result: map<string, seq<Event>>, apps: seq<string>)
    requires Selected(fm, cfg.mask)
    requires Proceeds(cfg, fm, System(Manager(map[], 0), START), acts, sys)
    requires Enabled(cfg, sys.world, Poll(result, apps))
    ensures var held := Next(cfg, sys.world, Poll(result, apps)).held;
            forall o :: cfg.owner(o) == fm ==> (o in held <==> o.address in Ids(sys.manager))
    ensures forall d, r :: d in sys.manager.tables && r in sys.manager.tables[d] ==> r.dpid == d && r.id in Ids(sys.manager)
  {
    var start := System(Manager(map[], 0), START);
    assert SystemInv(cfg, fm, start);
    RunKeepsSystemInv(cfg, fm, start, acts, sys);
    forall d, r | d in sys.manager.tables && r in sys.manager.tables[d]
      ensures r.id in IdsOf(sys.manager.tables[d])
    {
      IdsOfRules(sys.manager.tables[d], r);
    }
    var w := sys.world;
    PollIsExact(cfg, w, result, apps);
    forall o | cfg.owner(o) == fm
      ensures o in Live(w.events, |w.events|, cfg.mask) <==> o.address in Ids(sys.manager)
    {
      assert LiveIff(cfg, fm, w, Ids(sys.manager), o);
      LiveIffLastIsAdd(w.events, |w.events|, cfg.mask, cfg.owner, o);
    }
  }
}
