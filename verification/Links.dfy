/** The table of discovered links and its index by endpoint (LinkDiscovery.cc).

    The table is a set ordered by expiry time alone, so a time stands for an entry of the set
    and for the iterator to it.  The index holds such iterators.  In `TimerEvent` the index
    is only updated inside `assert`, so it matters whether the build evaluates assertions.  */
module Links {

  datatype Port = Port(dpid: nat, no: nat)

  predicate Less(a: Port, b: Port) { a.dpid < b.dpid || (a.dpid == b.dpid && a.no < b.no) }

  datatype Link = Link(source: Port, target: Port)

  datatype Signal = Discovered(link: Link) | Broken(link: Link)

  datatype Table = Table(links: map<nat, Link>, out: map<Port, nat>, signals: seq<Signal>)

  const EMPTY := Table(map[], map[], [])

  predicate IsEnd(p: Port, l: Link) { p == l.source || p == l.target }

  /** The link is indexed from both of its ends, which are distinct and in order. */
  predicate Indexed(t: Table, u: nat)
    requires u in t.links
  {
    && Less(t.links[u].source, t.links[u].target)
    && t.links[u].source in t.out && t.out[t.links[u].source] == u
    && t.links[u].target in t.out && t.out[t.links[u].target] == u
  }

  /** The index entry points at a link that ends there. */
  predicate Backed(t: Table, p: Port)
    requires p in t.out
  {
    t.out[p] in t.links && IsEnd(p, t.links[t.out[p]])
  }

  /** Each link is indexed from both ends, and nothing else is indexed. */
  predicate Agree(t: Table) {
    && (forall u :: u in t.links ==> Indexed(t, u))
    && (forall p :: p in t.out ==> Backed(t, p))
  }

  // ---------------------------------------------------------------- the operations

  /** A link that would expire at the same time as another is not inserted, and the index
      then points at the other one. */
  function Beacon(t: Table, from: Port, to: Port, through: nat): Table {
    var isNew := from !in t.out;
    var links := if isNew then t.links else t.links - {t.out[from]};
    var out := if isNew then t.out else t.out - {from, to};
    Table(if through in links then links else links[through := Link(from, to)],
          out[from := through][to := through],
          if isNew then t.signals + [Discovered(Link(from, to))] else t.signals)
  }

  function Clear(t: Table, p: Port): Table
    requires Agree(t)
  {
    if p !in t.out then t
    else
      var l := t.links[t.out[p]];
      Table(t.links - {t.out[p]}, t.out - {l.source, l.target}, t.signals + [Broken(l)])
  }

  lemma {:induction false} HasBegin(times: set<nat>) returns (u: nat)
    requires times != {}
    ensures u in times && forall v :: v in times ==> u <= v
    decreases |times|
  {
    var x :| x in times;
    var rest := times - {x};
    assert times == rest + {x};
    u := x;
    if rest != {} {
      var w := HasBegin(rest);
      if w < x { u := w; }
    }
  }

  /** `m_links.begin()` */
  function Begin(links: map<nat, Link>): (u: nat)
    requires links != map[]
    ensures u in links && forall v :: v in links ==> u <= v
  {
    assert exists u :: u in links.Keys && forall v :: v in links.Keys ==> u <= v by {
      assert links.Keys == {} ==> links == map[];
      var u := HasBegin(links.Keys);
    }
    var u :| u in links.Keys && forall v :: v in links.Keys ==> u <= v;
    u
  }

  predicate Overdue(links: map<nat, Link>, now: nat) { links != map[] && Begin(links) < now }

  function DropFirst(t: Table, asserts: bool): Table
    requires t.links != map[]
  {
    var u := Begin(t.links);
    var l := t.links[u];
    Table(t.links - {u}, if asserts then t.out - {l.source, l.target} else t.out, t.signals + [Broken(l)])
  }

  function Expire(t: Table, now: nat, asserts: bool): Table
    decreases |t.links|
  {
    if Overdue(t.links, now) then Expire(DropFirst(t, asserts), now, asserts) else t
  }

  class LinkDiscovery {
    const pollInterval: nat
    const asserts: bool
    var links: map<nat, Link>
    var outEdges: map<Port, nat>
    var signals: seq<Signal>

    constructor (pollInterval: nat, asserts: bool)
      ensures this.pollInterval == pollInterval && this.asserts == asserts
      ensures State() == EMPTY
    {
      this.pollInterval, this.asserts := pollInterval, asserts;
      links, outEdges, signals := map[], map[], [];
    }

    ghost function State(): Table
      reads this
    {
      Table(links, outEdges, signals)
    }

    /** The ends of a received beacon are put in order. */
    method ReceiveBeacon(source: Port, target: Port, now: nat)
      modifies this
      ensures State() == if Less(target, source) then Beacon(old(State()), target, source, now + 2 * pollInterval)
                         else Beacon(old(State()), source, target, now + 2 * pollInterval)
    {
      if Less(target, source) {
        HandleBeacon(target, source, now);
      } else {
        HandleBeacon(source, target, now);
      }
    }

    method HandleBeacon(from: Port, to: Port, now: nat)
      modifies this
      ensures State() == Beacon(old(State()), from, to, now + 2 * pollInterval)
    {
      var through := now + 2 * pollInterval;
      var isNew := true;
      if from in outEdges {
        links := links - {outEdges[from]};
        outEdges := outEdges - {from};
        outEdges := outEdges - {to};
        assert outEdges == old(outEdges) - {from, to};
        isNew := false;
      }
      if through !in links {
        links := links[through := Link(from, to)];
      }
      outEdges := outEdges[from := through];
      outEdges := outEdges[to := through];
      if isNew {
        signals := signals + [Discovered(Link(from, to))];
      }
    }

    method ClearLinkAt(source: Port)
      requires Agree(State())
      modifies this
      ensures State() == Clear(old(State()), source)
    {
      if source !in outEdges {
        return;
      }
      var u := outEdges[source];
      var target := if links[u].source == source then links[u].target else links[u].source;
      assert source in outEdges && target in outEdges && source != target;
      ghost var l := links[u];
      links := links - {u};
      outEdges := outEdges - {source};
      outEdges := outEdges - {target};
      assert outEdges == old(outEdges) - {l.source, l.target};
      if Less(source, target) {
        signals := signals + [Broken(Link(source, target))];
      } else {
        signals := signals + [Broken(Link(target, source))];
      }
    }

    /** The expiry loop; both assertions hold if the index agrees with the table. */
    method TimerEvent(now: nat)
      requires asserts ==> Agree(State())
      modifies this
      ensures State() == Expire(old(State()), now, asserts)
    {
      while links != map[] && Begin(links) < now
        invariant Expire(State(), now, asserts) == Expire(old(State()), now, asserts)
        invariant asserts ==> Agree(State())
        decreases |links|
      {
        RemoveTop();
      }
    }

    method RemoveTop()
      requires links != map[] && (asserts ==> Agree(State()))
      modifies this
      ensures State() == DropFirst(old(State()), asserts) && |links| < old(|links|)
      ensures asserts ==> Agree(State())
    {
      var top := Begin(links);
      var l := links[top];
      if asserts {
        DropFirstAgrees(State());
        assert l.source in outEdges;
        outEdges := outEdges - {l.source};
        assert l.target in outEdges;
        outEdges := outEdges - {l.target};
        assert outEdges == old(outEdges) - {l.source, l.target};
      }
      signals := signals + [Broken(l)];
      links := links - {top};
    }
  }

  lemma DropFirstAgrees(t: Table)
    requires t.links != map[] && Agree(t)
    ensures Agree(DropFirst(t, true))
  {
  }

  // ---------------------------------------------------------------- when the index agrees

  /** The two ports are not in use, or are the two ends of one link. */
  predicate Wired(t: Table, from: Port, to: Port) {
    && (from in t.out <==> to in t.out)
    && (from in t.out ==> t.out[from] == t.out[to])
  }

  /** No other link expires at that time. */
  predicate Vacant(t: Table, from: Port, through: nat) {
    through in t.links ==> from in t.out && t.out[from] == through
  }

  lemma BeaconAgrees(t: Table, from: Port, to: Port, through: nat)
    requires Agree(t) && Less(from, to) && Wired(t, from, to) && Vacant(t, from, through)
    ensures Agree(Beacon(t, from, to, through))
  {
    var t' := Beacon(t, from, to, through);
    if from in t.out { assert Backed(t, from) && Backed(t, to); }
    forall u | u in t'.links
      ensures Indexed(t', u)
    {
      if u != through { assert Indexed(t, u); }
    }
    forall p | p in t'.out
      ensures Backed(t', p)
    {
      if p != from && p != to {
        assert Backed(t, p);
        if from in t.out { assert Indexed(t, t.out[from]); }
      }
    }
  }

  /** A beacon keeps the index in agreement exactly when its ports were not re-cabled behind
      the table's back and no other link has the same expiry time. */
  lemma BeaconAgreesIff(t: Table, from: Port, to: Port, through: nat)
    requires Agree(t) && Less(from, to)
    ensures Agree(Beacon(t, from, to, through)) <==> Wired(t, from, to) && Vacant(t, from, through)
  {
    var t' := Beacon(t, from, to, through);
    if Wired(t, from, to) && Vacant(t, from, through) { BeaconAgrees(t, from, to, through); }
    if Agree(t') {
      assert Backed(t', from) && Backed(t', to);
      assert through in t.links ==> Indexed(t, through);
      if from !in t.out && to in t.out { assert Backed(t, to); }
      assert to in t.out && t.out[to] in t'.links ==> Indexed(t', t.out[to]);
      if from in t.out { StillWired(t, from, to, through); }
    }
  }

  lemma StillWired(t: Table, from: Port, to: Port, through: nat)
    requires Agree(t) && Less(from, to) && from in t.out && Agree(Beacon(t, from, to, through))
    ensures to in t.out && t.out[to] == t.out[from]
  {
    var t' := Beacon(t, from, to, through);
    var u := t.out[from];
    assert Backed(t, from) && Indexed(t, u);
    var l := t.links[u];
    var x := if l.source == from then l.target else l.source;
    assert x in t'.out ==> Backed(t', x);
  }

  lemma ClearAgrees(t: Table, p: Port)
    requires Agree(t)
    ensures Agree(Clear(t, p)) && p !in Clear(t, p).out
  {
  }

  /** Clearing a port takes out and signals the one link that ends there, and keeps all others. */
  lemma ClearTakesOne(t: Table, p: Port, l: Link)
    requires Agree(t) && l in Stored(t)
    ensures IsEnd(p, l) ==> Clear(t, p).signals == t.signals + [Broken(l)] && Stored(Clear(t, p)) == Stored(t) - {l}
    ensures p !in t.out <==> forall k :: k in Stored(t) ==> !IsEnd(p, k)
    ensures p !in t.out ==> Clear(t, p) == t
  {
    var u :| u in t.links && t.links[u] == l;
    assert Indexed(t, u);
    if IsEnd(p, l) {
      assert t.out[p] == u;
      StoredWithout(t, u);
    }
    if p in t.out {
      assert Backed(t, p);
      assert t.links[t.out[p]] in Stored(t);
    }
    forall k | k in Stored(t)
      ensures IsEnd(p, k) ==> p in t.out
    {
      var v :| v in t.links && t.links[v] == k;
      assert Indexed(t, v);
    }
  }

  /** A beacon stores its link, to expire at the time given, keeps all others and signals the link
      if it was not stored. */
  lemma BeaconStoresOne(t: Table, from: Port, to: Port, through: nat)
    requires Agree(t) && Less(from, to) && Wired(t, from, to) && Vacant(t, from, through)
    ensures var t' := Beacon(t, from, to, through);
            var l := Link(from, to);
            && through in t'.links && t'.links[through] == l && Stored(t') == Stored(t) + {l}
            && t'.signals == (if l in Stored(t) then t.signals else t.signals + [Discovered(l)])
            && forall u :: u in t.links && t.links[u] != l ==> u in t'.links && t'.links[u] == t.links[u]
  {
    var l := Link(from, to);
    if from in t.out {
      var u := t.out[from];
      assert Backed(t, from) && Backed(t, to);
      assert t.links[u] == l;
      StoredWithout(t, u);
      StoredWith(t.links - {u}, through, l);
    } else {
      forall v | v in t.links
        ensures t.links[v] != l
      {
        assert Indexed(t, v);
      }
      StoredWith(t.links, through, l);
    }
  }

  /** The links of the given times break. */
  function Breaks(links: map<nat, Link>, times: seq<nat>): seq<Signal>
    requires forall u :: u in times ==> u in links
  {
    if times == [] then [] else [Broken(links[times[0]])] + Breaks(links, times[1..])
  }

  ghost predicate Ascending(times: seq<nat>) { forall j, k :: 0 <= j < k < |times| ==> times[j] < times[k] }

  /** Each overdue link is signalled once, in the order in which they were due. */
  lemma {:induction false} ExpirySignalsInOrder(t: Table, now: nat, asserts: bool) returns (times: seq<nat>)
    ensures Ascending(times) && (forall u :: u in times <==> u in t.links && u < now)
    ensures Expire(t, now, asserts).signals == t.signals + Breaks(t.links, times)
    decreases |t.links|
  {
    times := [];
    if Overdue(t.links, now) {
      var u := Begin(t.links);
      var rest := ExpirySignalsInOrder(DropFirst(t, asserts), now, asserts);
      SameBreaks(t.links - {u}, t.links, rest);
      times := [u] + rest;
      BreakFirst(t.links, u, rest, t.signals);
      DueFirst(u, rest);
    }
  }

  lemma DueFirst(u: nat, rest: seq<nat>)
    requires Ascending(rest) && forall v :: v in rest ==> u < v
    ensures Ascending([u] + rest) && forall v :: v in [u] + rest <==> v == u || v in rest
  {
    assert forall k :: 0 < k < |[u] + rest| ==> ([u] + rest)[k] == rest[k - 1] && rest[k - 1] in rest;
  }

  lemma BreakFirst(links: map<nat, Link>, u: nat, rest: seq<nat>, signals: seq<Signal>)
    requires u in links && forall v :: v in rest ==> v in links
    ensures signals + [Broken(links[u])] + Breaks(links, rest) == signals + Breaks(links, [u] + rest)
  {
    assert ([u] + rest)[1..] == rest;
  }

  lemma {:induction false} SameBreaks(links: map<nat, Link>, links': map<nat, Link>, times: seq<nat>)
    requires forall u :: u in times ==> u in links && u in links' && links[u] == links'[u]
    ensures Breaks(links, times) == Breaks(links', times)
  {
    if times != [] { SameBreaks(links, links', times[1..]); }
  }

  /** Expiry removes exactly the links that are overdue, whether or not the index follows. */
  lemma {:induction false} ExpireRemovesOverdue(t: Table, now: nat, asserts: bool)
    ensures var links := Expire(t, now, asserts).links;
            && (forall u :: u in links <==> u in t.links && u >= now)
            && (forall u :: u in links ==> links[u] == t.links[u])
    decreases |t.links|
  {
    if Overdue(t.links, now) { ExpireRemovesOverdue(DropFirst(t, asserts), now, asserts); }
  }

  lemma {:induction false} ExpireAgrees(t: Table, now: nat)
    requires Agree(t)
    ensures Agree(Expire(t, now, true))
    decreases |t.links|
  {
    if Overdue(t.links, now) {
      DropFirstAgrees(t);
      ExpireAgrees(DropFirst(t, true), now);
    }
  }

  lemma {:induction false} ExpireKeepsIndex(t: Table, now: nat)
    ensures Expire(t, now, false).out == t.out
    decreases |t.links|
  {
    if Overdue(t.links, now) { ExpireKeepsIndex(DropFirst(t, false), now); }
  }

  /** A build that leaves assertions out keeps the index only as long as nothing expires. */
  lemma ExpiryAgreesIff(t: Table, now: nat, asserts: bool)
    requires Agree(t)
    ensures Agree(Expire(t, now, asserts)) <==> asserts || !Overdue(t.links, now)
  {
    ExpireAgrees(t, now);
    if !asserts && Overdue(t.links, now) {
      ExpireKeepsIndex(t, now);
      ExpireRemovesOverdue(t, now, false);
      var u := Begin(t.links);
      assert Indexed(t, u);
      assert !Backed(Expire(t, now, false), t.links[u].source);
    }
  }

  // ---------------------------------------------------------------- the signals tell the table

  /** The links a listener knows of. */
  function Known(signals: seq<Signal>): set<Link> {
    if signals == [] then {}
    else
      match signals[|signals| - 1]
      case Discovered(l) => Known(signals[..|signals| - 1]) + {l}
      case Broken(l) => Known(signals[..|signals| - 1]) - {l}
  }

  /** Only unknown links are discovered, only known links break, and their ends are in order. */
  predicate Truthful(signals: seq<Signal>) {
    signals == [] ||
    (&& Truthful(signals[..|signals| - 1])
     && Less(signals[|signals| - 1].link.source, signals[|signals| - 1].link.target)
     && (signals[|signals| - 1].link in Known(signals[..|signals| - 1]) <==> signals[|signals| - 1].Broken?))
  }

  function Stored(t: Table): set<Link> { t.links.Values }

  predicate Told(t: Table) { Agree(t) && Truthful(t.signals) && Known(t.signals) == Stored(t) }

  lemma OneMoreSignal(signals: seq<Signal>, s: Signal)
    requires Truthful(signals) && Less(s.link.source, s.link.target) && (s.link in Known(signals) <==> s.Broken?)
    ensures Truthful(signals + [s])
    ensures Known(signals + [s]) == if s.Broken? then Known(signals) - {s.link} else Known(signals) + {s.link}
  {
  }

  /** Taking out one entry takes out its link: no other entry holds the same one. */
  lemma StoredWithout(t: Table, u: nat)
    requires Agree(t) && u in t.links
    ensures (t.links - {u}).Values == Stored(t) - {t.links[u]}
  {
    forall l
      ensures l in (t.links - {u}).Values <==> l in Stored(t) && l != t.links[u]
    {
      if l in Stored(t) && l != t.links[u] {
        var v :| v in t.links && t.links[v] == l;
        assert v in t.links - {u};
      }
      if l in (t.links - {u}).Values {
        var v :| v in t.links - {u} && t.links[v] == l;
        assert t.out[l.source] == v;
      }
    }
  }

  lemma BeaconTells(t: Table, from: Port, to: Port, through: nat)
    requires Told(t) && Less(from, to) && Wired(t, from, to) && Vacant(t, from, through)
    ensures Told(Beacon(t, from, to, through))
  {
    BeaconAgreesIff(t, from, to, through);
    var l := Link(from, to);
    var t' := Beacon(t, from, to, through);
    if from in t.out {
      var u := t.out[from];
      assert t.links[u] == l;
      StoredWithout(t, u);
      assert t'.links == (t.links - {u})[through := l];
      StoredWith(t.links - {u}, through, l);
    } else {
      forall v | v in t.links
        ensures t.links[v] != l
      {
        assert Indexed(t, v);
      }
      OneMoreSignal(t.signals, Discovered(l));
      StoredWith(t.links, through, l);
    }
  }

  lemma StoredWith(links: map<nat, Link>, u: nat, l: Link)
    requires u !in links
    ensures links[u := l].Values == links.Values + {l}
  {
    var links' := links[u := l];
    assert links'[u] == l;
    forall m | m in links.Values
      ensures m in links'.Values
    {
      var v :| v in links && links[v] == m;
      assert links'[v] == m;
    }
  }

  lemma ClearTells(t: Table, p: Port)
    requires Told(t)
    ensures Told(Clear(t, p))
  {
    ClearAgrees(t, p);
    if p in t.out {
      var l := t.links[t.out[p]];
      StoredWithout(t, t.out[p]);
      OneMoreSignal(t.signals, Broken(l));
    }
  }

  lemma {:induction false} ExpireTells(t: Table, now: nat)
    requires Told(t)
    ensures Told(Expire(t, now, true))
    decreases |t.links|
  {
    if Overdue(t.links, now) {
      var u := Begin(t.links);
      DropFirstAgrees(t);
      StoredWithout(t, u);
      OneMoreSignal(t.signals, Broken(t.links[u]));
      ExpireTells(DropFirst(t, true), now);
    }
  }

  // ---------------------------------------------------------------- runs

  /** A beacon between two ports, a port that goes down, or the timer. */
  datatype Step = Receive(source: Port, target: Port, now: nat) | PortDown(port: Port) | Tick(now: nat)

  datatype World = World(table: Table, clock: nat)

  /** The clock moves between beacons, a link has two distinct ports, and a port is re-cabled
      only after its old link was cleared. */
  predicate Enabled(w: World, step: Step) {
    match step
    case Receive(source, target, now) =>
      w.clock < now && source != target && Wired(w.table, source, target)
    case PortDown(port) => true
    case Tick(now) => w.clock <= now
  }

  /** `asserts` says whether the build evaluates assertions. */
  function Next(w: World, step: Step, poll: nat, asserts: bool): World
    requires Agree(w.table)
  {
    match step
    case Receive(source, target, now) =>
      if Less(target, source) then Heard(w, target, source, now, poll) else Heard(w, source, target, now, poll)
    case PortDown(port) => World(Clear(w.table, port), w.clock)
    case Tick(now) => World(Expire(w.table, now, asserts), now)
  }

  function Heard(w: World, from: Port, to: Port, now: nat, poll: nat): World {
    World(Beacon(w.table, from, to, now + 2 * poll), now)
  }

  predicate Inv(w: World, poll: nat) {
    Told(w.table) && forall u :: u in w.table.links ==> u <= w.clock + 2 * poll
  }

  lemma BeaconKeepsInv(w: World, from: Port, to: Port, now: nat, poll: nat)
    requires Inv(w, poll) && w.clock < now && Less(from, to) && Wired(w.table, from, to)
    ensures Inv(World(Beacon(w.table, from, to, now + 2 * poll), now), poll)
  {
    BeaconTells(w.table, from, to, now + 2 * poll);
  }

  lemma ReceiveKeepsInv(w: World, source: Port, target: Port, now: nat, poll: nat, asserts: bool)
    requires Inv(w, poll) && Enabled(w, Receive(source, target, now))
    ensures Inv(Next(w, Receive(source, target, now), poll, asserts), poll)
  {
    if Less(target, source) {
      BeaconKeepsInv(w, target, source, now, poll);
    } else {
      BeaconKeepsInv(w, source, target, now, poll);
    }
  }

  lemma ClearKeepsInv(w: World, port: Port, poll: nat, asserts: bool)
    requires Inv(w, poll)
    ensures Inv(Next(w, PortDown(port), poll, asserts), poll)
  {
    ClearTells(w.table, port);
  }

  lemma TickKeepsInv(w: World, now: nat, poll: nat, asserts: bool)
    requires Inv(w, poll) && w.clock <= now && (asserts || !Overdue(w.table.links, now))
    ensures Inv(Next(w, Tick(now), poll, asserts), poll)
  {
    if asserts {
      ExpireRemovesOverdue(w.table, now, true);
      ExpireTells(w.table, now);
    }
  }

  /** The step finds a link that has expired. */
  predicate Expires(w: World, step: Step) { step.Tick? && Overdue(w.table.links, step.now) }

  lemma StepKeepsInv(w: World, step: Step, poll: nat, asserts: bool)
    requires Inv(w, poll) && Enabled(w, step) && (asserts || !Expires(w, step))
    ensures Inv(Next(w, step, poll, asserts), poll)
  {
    match step
    case Receive(source, target, now) => ReceiveKeepsInv(w, source, target, now, poll, asserts);
    case PortDown(port) => ClearKeepsInv(w, port, poll, asserts);
    case Tick(now) => TickKeepsInv(w, now, poll, asserts);
  }

  /** Some step of the run finds a link that has expired. */
  ghost predicate SomethingExpires(w: World, steps: seq<Step>, poll: nat, asserts: bool)
    decreases |steps|
  {
    && steps != [] && Agree(w.table) && Enabled(w, steps[0])
    && (Expires(w, steps[0]) || SomethingExpires(Next(w, steps[0], poll, asserts), steps[1..], poll, asserts))
  }

  /** The table and its index agree at every moment of the run. */
  ghost predicate AlwaysAgrees(w: World, steps: seq<Step>, poll: nat, asserts: bool)
    decreases |steps|
  {
    && Agree(w.table)
    && (steps != [] && Enabled(w, steps[0]) ==>
          AlwaysAgrees(Next(w, steps[0], poll, asserts), steps[1..], poll, asserts))
  }

  lemma {:induction false} AgreesIffFrom(w: World, steps: seq<Step>, poll: nat, asserts: bool)
    requires Inv(w, poll)
    ensures AlwaysAgrees(w, steps, poll, asserts) <==> asserts || !SomethingExpires(w, steps, poll, asserts)
    decreases |steps|
  {
    if steps != [] && Enabled(w, steps[0]) {
      if asserts || !Expires(w, steps[0]) {
        StepKeepsInv(w, steps[0], poll, asserts);
        AgreesIffFrom(Next(w, steps[0], poll, asserts), steps[1..], poll, asserts);
      } else {
        ExpiryAgreesIff(w.table, steps[0].now, asserts);
      }
    }
  }

  /** Over every run the table and its index agree throughout if and only if the build evaluates
      assertions or no link ever expires. */
  lemma IndexAgreesIff(steps: seq<Step>, poll: nat, asserts: bool)
    ensures AlwaysAgrees(World(EMPTY, 0), steps, poll, asserts) <==>
            asserts || !SomethingExpires(World(EMPTY, 0), steps, poll, asserts)
  {
    AgreesIffFrom(World(EMPTY, 0), steps, poll, asserts);
  }

  /** A run of enabled steps, as long as the index agrees so that their effect is defined. */
  ghost predicate Runs(w: World, steps: seq<Step>, poll: nat, asserts: bool, w': World)
    decreases |steps|
  {
    if steps == [] then w == w'
    else
      && Agree(w.table) && Enabled(w, steps[0])
      && Runs(Next(w, steps[0], poll, asserts), steps[1..], poll, asserts, w')
  }

  lemma {:induction false} RunKeepsInv(w: World, steps: seq<Step>, poll: nat, asserts: bool, w': World)
    requires Inv(w, poll) && Runs(w, steps, poll, asserts, w')
    requires asserts || !SomethingExpires(w, steps, poll, asserts)
    ensures Inv(w', poll)
    decreases |steps|
  {
    if steps != [] {
      StepKeepsInv(w, steps[0], poll, asserts);
      RunKeepsInv(Next(w, steps[0], poll, asserts), steps[1..], poll, asserts, w');
    }
  }

  /** At the end of every run, of a build that evaluates assertions or one in which nothing
      expires, table and index agree, and replaying the signals gives exactly the stored links;
      no discovery or break is ever signalled twice. */
  lemma LinkTableIsConsistent(steps: seq<Step>, poll: nat, asserts: bool, w: World)
    requires Runs(World(EMPTY, 0), steps, poll, asserts, w)
    requires asserts || !SomethingExpires(World(EMPTY, 0), steps, poll, asserts)
    ensures Agree(w.table)
    ensures Truthful(w.table.signals) && Known(w.table.signals) == Stored(w.table)
  {
    RunKeepsInv(World(EMPTY, 0), steps, poll, asserts, w);
  }

  /** A link heard of at one time is still stored when the timer fires if and only if that is
      within twice the poll interval; nothing stored is overdue then. */
  lemma TimerKeepsFreshLinks(w: World, from: Port, to: Port, heard: nat, now: nat, poll: nat)
    requires Inv(w, poll) && w.clock < heard <= now && Less(from, to) && Wired(w.table, from, to)
    ensures var t := Expire(Beacon(w.table, from, to, heard + 2 * poll), now, true);
            && (forall u :: u in t.links ==> u >= now)
            && (Link(from, to) in Stored(t) <==> now <= heard + 2 * poll)
  {
    var t, through := Beacon(w.table, from, to, heard + 2 * poll), heard + 2 * poll;
    BeaconAgrees(w.table, from, to, through);
    ExpireRemovesOverdue(t, now, true);
    assert t.links[through] == Link(from, to);
    forall v | v in t.links && t.links[v] == Link(from, to)
      ensures v == through
    {
      assert Indexed(t, v);
    }
  }
}
