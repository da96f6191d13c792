/** Clients that poll the event log: what they know after every poll, over every
    interleaving of events, polls and identifiers spent elsewhere (Event.cc:121-193).  */
module EventPolling {
  import opened Basics
  import opened Events

  // ---------------------------------------------------------------- what really exists

  /** The last of the first n events that made the object appear or disappear, or -1. */
  function LastAbout(events: seq<Event>, n: nat, o: Obj): (k: int)
    requires n <= |events|
    ensures -1 <= k < n && (k >= 0 ==> About(events[k], o))
    ensures forall j :: k < j < n ==> !About(events[j], o)
  {
    if n == 0 then -1 else if About(events[n - 1], o) then n - 1 else LastAbout(events, n - 1, o)
  }

  predicate IsLive(events: seq<Event>, n: nat, o: Obj)
    requires n <= |events|
  {
    LastAbout(events, n, o) >= 0 && events[LastAbout(events, n, o)].kind == Add
  }

  function Apply(objects: set<Obj>, e: Event): set<Obj> {
    match e.kind
    case Add => objects + {e.obj}
    case Delete => objects - {e.obj}
    case Change => objects
  }

  /** The objects of the selected handlers that exist after the first n events. */
  function Live(events: seq<Event>, n: nat, mask: Word): set<Obj>
    requires n <= |events|
  {
    if n == 0 then {}
    else if Selected(events[n - 1].rest, mask) then Apply(Live(events, n - 1, mask), events[n - 1])
    else Live(events, n - 1, mask)
  }

  /** The identifiers of the Change events of one application among the first n events. */
  function ChangeIds(events: seq<Event>, n: nat, mask: Word, app: string): seq<nat>
    requires n <= |events|
  {
    if n == 0 then []
    else
      var e := events[n - 1];
      if e.kind == Change && Selected(e.rest, mask) && e.rest.name == app
      then ChangeIds(events, n - 1, mask, app) + [e.id]
      else ChangeIds(events, n - 1, mask, app)
  }

  /** Every event of an object comes from the handler the object belongs to. */
  ghost predicate Owned(events: seq<Event>, owner: Obj -> Rest) {
    forall k :: 0 <= k < |events| ==> events[k].rest == owner(events[k].obj)
  }

  lemma {:induction false} LiveIffLastIsAdd(events: seq<Event>, n: nat, mask: Word, owner: Obj -> Rest, o: Obj)
    requires n <= |events| && Owned(events, owner)
    ensures o in Live(events, n, mask) <==> IsLive(events, n, o) && Selected(owner(o), mask)
  {
    if n > 0 { LiveIffLastIsAdd(events, n - 1, mask, owner, o); }
  }

  // ---------------------------------------------------------------- what a client makes of a poll

  function Replay(held: set<Obj>, es: seq<Event>): set<Obj> {
    if es == [] then held else Apply(Replay(held, es[..|es| - 1]), es[|es| - 1])
  }

  /** The applications of an answer are replayed one after the other, in any order. */
  function ReplayApps(held: set<Obj>, result: map<string, seq<Event>>, apps: seq<string>): set<Obj>
    requires forall j :: 0 <= j < |apps| ==> apps[j] in result
  {
    if apps == [] then held
    else Replay(ReplayApps(held, result, apps[..|apps| - 1]), result[apps[|apps| - 1]])
  }

  /** The order names every application of the answer. */
  predicate Names(apps: seq<string>, result: map<string, seq<Event>>) {
    && (forall j :: 0 <= j < |apps| ==> apps[j] in result)
    && (forall app :: app in result ==> app in apps)
  }

  function HeardChanges(es: seq<Event>): seq<nat> {
    if es == [] then []
    else if es[|es| - 1].kind == Change then HeardChanges(es[..|es| - 1]) + [es[|es| - 1].id]
    else HeardChanges(es[..|es| - 1])
  }

  /** What a list of events says last about an object. */
  function Said(es: seq<Event>, o: Obj): Option<Kind> {
    if es == [] then None
    else if About(es[|es| - 1], o) then Some(es[|es| - 1].kind)
    else Said(es[..|es| - 1], o)
  }

  predicate Believes(held: set<Obj>, said: Option<Kind>, o: Obj) {
    match said
    case None => o in held
    case Some(kind) => kind == Add
  }

  lemma {:induction false} ReplayBelievesLast(held: set<Obj>, es: seq<Event>, o: Obj)
    ensures o in Replay(held, es) <==> Believes(held, Said(es, o), o)
  {
    if es != [] { ReplayBelievesLast(held, es[..|es| - 1], o); }
  }

  /** Only the list of the object's own application matters, wherever it comes. */
  lemma {:induction false} ReplayAppsBelievesOwn(
    held: set<Obj>, result: map<string, seq<Event>>, apps: seq<string>, o: Obj, own: string)
    requires forall j :: 0 <= j < |apps| ==> apps[j] in result
    requires forall app :: app in result && app != own ==> Said(result[app], o) == None
    ensures o in ReplayApps(held, result, apps) <==>
            Believes(held, if own in apps then Said(result[own], o) else None, o)
  {
    if apps != [] {
      var init, last := apps[..|apps| - 1], apps[|apps| - 1];
      ReplayAppsBelievesOwn(held, result, init, o, own);
      ReplayBelievesLast(ReplayApps(held, result, init), result[last], o);
      assert apps == init + [last];
    }
  }

  lemma {:induction false} OfAppSays(es: seq<Event>, app: string, owner: Obj -> Rest, o: Obj)
    requires Owned(es, owner)
    ensures Said(OfApp(es, app), o) == if owner(o).name == app then Said(es, o) else None
  {
    if es != [] {
      var init, e := es[..|es| - 1], es[|es| - 1];
      OfAppSays(init, app, owner, o);
      if e.rest.name == app { assert (OfApp(init, app) + [e])[..|OfApp(init, app)|] == OfApp(init, app); }
    }
  }

  /** Grouping by application and the order of the groups make no difference to the objects
      a client ends up with. */
  lemma ReplayOfGroups(
    held: set<Obj>, result: map<string, seq<Event>>, apps: seq<string>, told: seq<Event>, owner: Obj -> Rest)
    requires Groups(result, told) && Names(apps, result) && Owned(told, owner)
    ensures ReplayApps(held, result, apps) == Replay(held, told)
  {
    forall o: Obj
      ensures o in ReplayApps(held, result, apps) <==> o in Replay(held, told)
    {
      var own := owner(o).name;
      forall app: string
        ensures Said(Listed(result, app), o) == if own == app then Said(told, o) else None
      {
        OfAppSays(told, app, owner, o);
      }
      assert Said(Listed(result, own), o) == Said(told, o);
      forall app | app in result && app != own
        ensures Said(result[app], o) == None
      {
        assert Said(Listed(result, app), o) == None;
      }
      ReplayAppsBelievesOwn(held, result, apps, o, own);
      ReplayBelievesLast(held, told, o);
    }
  }

  // ---------------------------------------------------------------- the log and its brothers

  ghost predicate Ordered(events: seq<Event>, lastId: nat) {
    && (forall k :: 0 <= k < |events| ==> 0 < events[k].id <= lastId)
    && (forall j, k :: 0 <= j < k < |events| ==> events[j].id < events[k].id)
  }

  /** An Add without a brother is the last word on its object; one with a brother, and every
      Delete, is linked to an event of the other kind that says the opposite. */
  ghost predicate Paired(events: seq<Event>, k: nat)
    requires k < |events|
  {
    match events[k].kind
    case Change => true
    case Add =>
      (match events[k].brother
       case None => forall j :: k < j < |events| ==> !About(events[j], events[k].obj)
       case Some(d) =>
         && k < d < |events| && events[d].kind == Delete && events[d].obj == events[k].obj
         && events[d].brother == Some(k))
    case Delete =>
      && events[k].brother.Some? && events[k].brother.value < k
      && LastAddBefore(events, k, events[k].brother.value)
  }

  /** Position b holds the last Add before k of the object of event k. */
  predicate LastAddBefore(events: seq<Event>, k: nat, b: nat)
    requires b < k < |events|
  {
    IsAdd(events[b], events[k].obj) && forall j :: b < j < k ==> !IsAdd(events[j], events[k].obj)
  }

  ghost predicate WellPaired(events: seq<Event>) {
    forall k :: 0 <= k < |events| ==> Paired(events, k)
  }

  lemma PairedIsLinked(events: seq<Event>)
    requires WellPaired(events)
    ensures Linked(events)
  {
    forall k | 0 <= k < |events| && events[k].kind == Delete
      ensures events[k].brother.Some? && events[k].brother.value < |events|
    {
      assert Paired(events, k);
    }
  }

  /** The event may be raised: no object appears that is already there, and none disappears
      that was never there. */
  predicate Raisable(events: seq<Event>, kind: Kind, o: Obj, rest: Rest) {
    && Deletable(events, kind, o, rest)
    && (kind == Add ==> !IsLive(events, |events|, o))
  }

  lemma AppendedIsPaired(events: seq<Event>, id: nat, kind: Kind, o: Obj, rest: Rest)
    requires WellPaired(events) && Raisable(events, kind, o, rest)
    ensures WellPaired(Appended(events, id, kind, o, rest))
  {
    var events' := Appended(events, id, kind, o, rest);
    forall k | 0 <= k < |events'|
      ensures Paired(events', k)
    {
      if k < |events| {
        assert Paired(events, k);
        if events[k].kind == Delete { assert IsAdd(events'[events[k].brother.value], events[k].obj); }
      }
    }
  }

  // ---------------------------------------------------------------- one poll

  /** The last reported event about an object, or -1. */
  lemma {:induction false} ToldSays(events: seq<Event>, n: nat, mask: Word, last: nat, o: Obj) returns (k: int)
    requires Linked(events) && n <= |events|
    ensures -1 <= k < n
    ensures k >= 0 ==> About(events[k], o) && Shown(events, k, mask, last)
    ensures Said(Told(events, n, mask, last), o) == if k >= 0 then Some(events[k].kind) else None
    ensures forall j :: k < j < n && About(events[j], o) ==> !Shown(events, j, mask, last)
  {
    if n == 0 {
      k := -1;
    } else {
      k := ToldSays(events, n - 1, mask, last, o);
      if Shown(events, n - 1, mask, last) {
        SaidOneMore(Told(events, n - 1, mask, last), events[n - 1], o);
        if About(events[n - 1], o) { k := n - 1; }
      }
    }
  }

  lemma SaidOneMore(es: seq<Event>, e: Event, o: Obj)
    ensures Said(es + [e], o) == if About(e, o) then Some(e.kind) else Said(es, o)
  {
    assert (es + [e])[..|es|] == es;
  }

  /** Where a client stands: it has polled when the list had `seen` events, and holds what
      was live then; it has been told of every live object by now. */
  ghost predicate UpToDate(events: seq<Event>, seen: nat, last: nat, mask: Word, held: set<Obj>, owner: Obj -> Rest, o: Obj) {
    && seen <= |events|
    && (forall j :: seen <= j < |events| ==> events[j].id > last)
    && (o in held <==> IsLive(events, seen, o) && Selected(owner(o), mask))
    && (o in held ==> events[LastAbout(events, seen, o)].id <= last)
  }

  /** A poll brings the client's belief about one object up to date, whatever has happened
      to that object since the last poll. */
  lemma PollTellsObject(
    events: seq<Event>, lastId: nat, seen: nat, last: nat, mask: Word, held: set<Obj>, owner: Obj -> Rest, o: Obj)
    requires WellPaired(events) && Ordered(events, lastId) && Owned(events, owner)
    requires UpToDate(events, seen, last, mask, held, owner, o)
    ensures Linked(events)
    ensures o in Replay(held, Told(events, |events|, mask, last)) <==>
            IsLive(events, |events|, o) && Selected(owner(o), mask)
  {
    PairedIsLinked(events);
    var n := |events|;
    var k := ToldSays(events, n, mask, last, o);
    ReplayBelievesLast(held, Told(events, n, mask, last), o);
    var e := LastAbout(events, n, o);
    if !Selected(owner(o), mask) {
      assert k < 0;
    } else if e >= 0 {
      assert Paired(events, e);
      if k >= 0 { assert Paired(events, k); }
      var a := LastAbout(events, seen, o);
      if a >= 0 {
        assert Paired(events, a);
        if events[a].kind == Add && events[a].brother.Some? {
          assert About(events[events[a].brother.value], o);
        }
      }
    }
  }

  /** A poll tells exactly the new events of the selected handlers that say something: an Add whose
      object has not been deleted since, a Delete whose Add the client had been told of, and every
      Change. */
  lemma TellsExactlyNews(events: seq<Event>, k: nat, mask: Word, last: nat)
    requires WellPaired(events) && k < |events|
    ensures Linked(events)
    ensures var e := events[k];
            Shown(events, k, mask, last) <==>
            && e.rest.bit.Some? && e.rest.bit.value in mask && e.id > last
            && (e.kind == Add ==> forall d :: k < d < |events| && events[d].obj == e.obj ==> events[d].kind != Delete)
            && (e.kind == Delete ==> forall b :: 0 <= b < k && LastAddBefore(events, k, b) ==> events[b].id <= last)
  {
    PairedIsLinked(events);
    assert Paired(events, k);
    if events[k].kind == Add && events[k].brother == None {
      forall d | k < d < |events| && events[d].obj == events[k].obj
        ensures events[d].kind != Delete
      {
        assert !About(events[d], events[k].obj);
      }
    }
  }

  /** Every reported event is one of the list that is selected, not overlapped and new. */
  lemma {:induction false} ToldIsShown(events: seq<Event>, n: nat, mask: Word, last: nat, lastId: nat, owner: Obj -> Rest)
    requires Linked(events) && n <= |events| && Ordered(events, lastId) && Owned(events, owner)
    ensures Owned(Told(events, n, mask, last), owner)
    ensures var id := MaxId(Told(events, n, mask, last)); id == 0 || last < id <= lastId
    ensures forall k :: 0 <= k < n && Shown(events, k, mask, last) ==> events[k].id <= MaxId(Told(events, n, mask, last))
  {
    if n > 0 {
      ToldIsShown(events, n - 1, mask, last, lastId, owner);
      if Shown(events, n - 1, mask, last) {
        var told := Told(events, n - 1, mask, last);
        assert (told + [events[n - 1]])[..|told|] == told;
      }
    }
  }

  function HeardIn(events: seq<Event>, n: nat, mask: Word, last: nat, app: string): seq<nat>
    requires Linked(events) && n <= |events|
  {
    HeardChanges(OfApp(Told(events, n, mask, last), app))
  }

  lemma HeardOneMore(events: seq<Event>, n: nat, mask: Word, last: nat, app: string)
    requires Linked(events) && n < |events|
    ensures HeardIn(events, n + 1, mask, last, app) ==
            var e := events[n];
            if e.kind == Change && Selected(e.rest, mask) && e.rest.name == app && e.id > last
            then HeardIn(events, n, mask, last, app) + [e.id]
            else HeardIn(events, n, mask, last, app)
  {
  }

  /** Reported Changes of one application are exactly those that came after the cursor. */
  lemma {:induction false} ToldChanges(events: seq<Event>, seen: nat, n: nat, mask: Word, last: nat, app: string)
    requires Linked(events) && seen <= |events| && n <= |events|
    requires forall j :: seen <= j < |events| ==> events[j].id > last
    requires forall j :: 0 <= j < seen && events[j].kind == Change && Selected(events[j].rest, mask) ==> events[j].id <= last
    ensures if n < seen then HeardIn(events, n, mask, last, app) == []
            else ChangeIds(events, seen, mask, app) + HeardIn(events, n, mask, last, app) == ChangeIds(events, n, mask, app)
  {
    if n > 0 {
      ToldChanges(events, seen, n - 1, mask, last, app);
      HeardOneMore(events, n - 1, mask, last, app);
      if n > seen {
        OneMoreId(ChangeIds(events, seen, mask, app), HeardIn(events, n - 1, mask, last, app), events[n - 1].id);
      } else {
        assert HeardIn(events, n, mask, last, app) == [];
      }
    }
  }

  lemma OneMoreId(before: seq<nat>, heard: seq<nat>, id: nat)
    ensures before + (heard + [id]) == before + heard + [id]
  {
  }

  // ---------------------------------------------------------------- runs

  /** The log, the shared counter and one client: the objects it holds, its cursor and the
      Changes it has heard of one application.  `seen` is the length of the list at its last
      poll. */
  datatype World = World(events: seq<Event>, lastId: nat, held: set<Obj>, cursor: nat, heard: seq<nat>, seen: nat)

  const START := World([], 0, {}, 0, [], 0)

  /** An event is raised, another manager spends an identifier, or the client polls and gets
      an answer whose applications it replays in some order. */
  datatype Step = Raise(kind: Kind, obj: Obj) | Elsewhere | Poll(result: map<string, seq<Event>>, apps: seq<string>)

  datatype Setting = Setting(owner: Obj -> Rest, mask: Word, app: string)

  ghost predicate Enabled(cfg: Setting, w: World, step: Step) {
    match step
    case Raise(kind, o) => Raisable(w.events, kind, o, cfg.owner(o)) && w.lastId + 1 < ID_BOUND
    case Elsewhere => w.lastId + 1 < ID_BOUND
    case Poll(result, apps) =>
      Linked(w.events) && Groups(result, Told(w.events, |w.events|, cfg.mask, w.cursor)) && Names(apps, result)
  }

  ghost function Next(cfg: Setting, w: World, step: Step): World
    requires Enabled(cfg, w, step)
  {
    match step
    case Raise(kind, o) =>
      var rest := cfg.owner(o);
      w.(events := Appended(w.events, w.lastId + 1, kind, o, rest), lastId := if rest.bit.Some? then w.lastId + 1 else w.lastId)
    case Elsewhere => w.(lastId := w.lastId + 1)
    case Poll(result, apps) =>
      World(w.events, w.lastId, ReplayApps(w.held, result, apps),
            Cursor(Told(w.events, |w.events|, cfg.mask, w.cursor), w.cursor),
            w.heard + HeardChanges(Listed(result, cfg.app)), |w.events|)
  }

  ghost predicate Runs(cfg: Setting, w: World, steps: seq<Step>, w': World)
    decreases |steps|
  {
    if steps == [] then w == w'
    else Enabled(cfg, w, steps[0]) && Runs(cfg, Next(cfg, w, steps[0]), steps[1..], w')
  }

  ghost predicate Inv(cfg: Setting, w: World) {
    && WellPaired(w.events) && Ordered(w.events, w.lastId) && Owned(w.events, cfg.owner)
    && w.cursor <= w.lastId && w.seen <= |w.events|
    && (forall o :: UpToDate(w.events, w.seen, w.cursor, cfg.mask, w.held, cfg.owner, o))
    && (forall j :: 0 <= j < w.seen && w.events[j].kind == Change && Selected(w.events[j].rest, cfg.mask) ==>
          w.events[j].id <= w.cursor)
    && w.heard == ChangeIds(w.events, w.seen, cfg.mask, cfg.app)
  }

  /** The events tell the same story and more, whatever brothers have been set. */
  ghost predicate Extends(events: seq<Event>, events': seq<Event>) {
    && |events| <= |events'|
    && (forall k :: 0 <= k < |events| ==> events'[k].(brother := None) == events[k].(brother := None))
  }

  lemma {:induction false} SameStory(events: seq<Event>, events': seq<Event>, n: nat, mask: Word, app: string, o: Obj)
    requires Extends(events, events') && n <= |events|
    ensures LastAbout(events', n, o) == LastAbout(events, n, o)
    ensures ChangeIds(events', n, mask, app) == ChangeIds(events, n, mask, app)
  {
    if n > 0 {
      SameStory(events, events', n - 1, mask, app, o);
      assert events'[n - 1].(brother := None) == events[n - 1].(brother := None);
    }
  }

  lemma AppendedIsOrdered(events: seq<Event>, lastId: nat, kind: Kind, o: Obj, owner: Obj -> Rest)
    requires Deletable(events, kind, o, owner(o)) && Ordered(events, lastId) && Owned(events, owner)
    ensures var events' := Appended(events, lastId + 1, kind, o, owner(o));
            Ordered(events', lastId + 1) && Owned(events', owner)
  {
  }

  lemma AppendedExtends(events: seq<Event>, lastId: nat, kind: Kind, o: Obj, rest: Rest)
    requires Deletable(events, kind, o, rest)
    ensures var events' := Appended(events, lastId + 1, kind, o, rest);
            Extends(events, events') && forall k :: |events| <= k < |events'| ==> events'[k].id > lastId
  {
  }

  lemma LaterKeepsClient(cfg: Setting, w: World, events': seq<Event>, o: Obj)
    requires UpToDate(w.events, w.seen, w.cursor, cfg.mask, w.held, cfg.owner, o) && w.cursor <= w.lastId
    requires Extends(w.events, events') && forall k :: |w.events| <= k < |events'| ==> events'[k].id > w.lastId
    ensures UpToDate(events', w.seen, w.cursor, cfg.mask, w.held, cfg.owner, o)
  {
  }

  /** Nothing a client relies on changes when the list grows. */
  lemma LaterKeepsInv(cfg: Setting, w: World, events': seq<Event>, lastId': nat)
    requires Inv(cfg, w) && lastId' >= w.lastId
    requires Extends(w.events, events') && forall k :: |w.events| <= k < |events'| ==> events'[k].id > w.lastId
    requires WellPaired(events') && Ordered(events', lastId') && Owned(events', cfg.owner)
    ensures Inv(cfg, w.(events := events', lastId := lastId'))
  {
    SameStory(w.events, events', w.seen, cfg.mask, cfg.app, Obj(0));
    forall o: Obj
      ensures UpToDate(events', w.seen, w.cursor, cfg.mask, w.held, cfg.owner, o)
    {
      LaterKeepsClient(cfg, w, events', o);
    }
    forall j | 0 <= j < w.seen && events'[j].kind == Change && Selected(events'[j].rest, cfg.mask)
      ensures events'[j].id <= w.cursor
    {
      assert events'[j].(brother := None) == w.events[j].(brother := None);
    }
  }

  lemma RaiseKeepsInv(cfg: Setting, w: World, kind: Kind, o: Obj)
    requires Inv(cfg, w) && Enabled(cfg, w, Raise(kind, o))
    ensures Inv(cfg, Next(cfg, w, Raise(kind, o)))
  {
    var rest := cfg.owner(o);
    if rest.bit.Some? {
      var events' := AppendedLog(w.events, w.lastId, kind, o, cfg.owner);
      LaterKeepsInv(cfg, w, events', w.lastId + 1);
    } else {
      AppendedAddsOne(w.events, w.lastId + 1, kind, o, rest);
    }
  }

  /** The log after an event, by what a client needs to know of it. */
  lemma AppendedLog(events: seq<Event>, lastId: nat, kind: Kind, o: Obj, owner: Obj -> Rest) returns (events': seq<Event>)
    requires WellPaired(events) && Raisable(events, kind, o, owner(o)) && Ordered(events, lastId) && Owned(events, owner)
    ensures events' == Appended(events, lastId + 1, kind, o, owner(o))
    ensures WellPaired(events') && Ordered(events', lastId + 1) && Owned(events', owner) && Extends(events, events')
    ensures forall k :: |events| <= k < |events'| ==> events'[k].id > lastId
  {
    events' := Appended(events, lastId + 1, kind, o, owner(o));
    AppendedIsPaired(events, lastId + 1, kind, o, owner(o));
    AppendedIsOrdered(events, lastId, kind, o, owner);
    AppendedExtends(events, lastId, kind, o, owner(o));
  }

  /** After a poll the client holds exactly the objects that exist, has heard of every
      Change exactly once and in order, and its new cursor covers all of that. */
  lemma PollIsExact(cfg: Setting, w: World, result: map<string, seq<Event>>, apps: seq<string>)
    requires Inv(cfg, w) && Enabled(cfg, w, Poll(result, apps))
    ensures var w' := Next(cfg, w, Poll(result, apps));
            && Inv(cfg, w')
            && w'.held == Live(w.events, |w.events|, cfg.mask)
            && w'.heard == ChangeIds(w.events, |w.events|, cfg.mask, cfg.app)
            && w.cursor <= w'.cursor
  {
    var events, n := w.events, |w.events|;
    var told := Told(events, n, cfg.mask, w.cursor);
    var w' := Next(cfg, w, Poll(result, apps));
    ToldIsShown(events, n, cfg.mask, w.cursor, w.lastId, cfg.owner);
    ReplayOfGroups(w.held, result, apps, told, cfg.owner);
    assert UpToDate(events, w.seen, w.cursor, cfg.mask, w.held, cfg.owner, Obj(0));
    forall o: Obj
      ensures UpToDate(events, n, w'.cursor, cfg.mask, w'.held, cfg.owner, o)
      ensures o in w'.held <==> o in Live(events, n, cfg.mask)
    {
      assert UpToDate(events, w.seen, w.cursor, cfg.mask, w.held, cfg.owner, o);
      PollTellsObject(events, w.lastId, w.seen, w.cursor, cfg.mask, w.held, cfg.owner, o);
      LiveIffLastIsAdd(events, n, cfg.mask, cfg.owner, o);
      if o in w'.held { LiveIsTold(events, cfg.mask, w.cursor, cfg.owner, o); }
    }
    ToldChanges(events, w.seen, n, cfg.mask, w.cursor, cfg.app);
    forall j | 0 <= j < n && events[j].kind == Change && Selected(events[j].rest, cfg.mask)
      ensures events[j].id <= w'.cursor
    {
      assert events[j].id > w.cursor ==> Shown(events, j, cfg.mask, w.cursor);
    }
  }

  lemma LiveIsTold(events: seq<Event>, mask: Word, last: nat, owner: Obj -> Rest, o: Obj)
    requires WellPaired(events) && Linked(events) && Owned(events, owner)
    requires IsLive(events, |events|, o) && Selected(owner(o), mask)
    ensures var a := LastAbout(events, |events|, o); events[a].id <= last || Shown(events, a, mask, last)
  {
    assert Paired(events, LastAbout(events, |events|, o));
  }

  lemma {:induction false} RunKeepsInv(cfg: Setting, w: World, steps: seq<Step>, w': World)
    requires Inv(cfg, w) && Runs(cfg, w, steps, w')
    ensures Inv(cfg, w')
    decreases |steps|
  {
    if steps != [] {
      match steps[0] {
        case Raise(kind, o) => RaiseKeepsInv(cfg, w, kind, o);
        case Elsewhere =>
        case Poll(result, apps) => PollIsExact(cfg, w, result, apps);
      }
      RunKeepsInv(cfg, Next(cfg, w, steps[0]), steps[1..], w');
    }
  }

  /** Polling is lossless: whatever was raised, and whenever the client polled before, every
      answer that `Timeout` can give leaves the client with exactly the objects that exist
      and with every Change of the watched application heard once and in order. */
  lemma PollingIsLossless(cfg: Setting, steps: seq<Step>, w: World, result: map<string, seq<Event>>, apps: seq<string>)
    requires Runs(cfg, START, steps, w)
    requires Linked(w.events) ==> Groups(result, Told(w.events, |w.events|, cfg.mask, w.cursor)) && Names(apps, result)
    ensures Enabled(cfg, w, Poll(result, apps))
    ensures var w' := Next(cfg, w, Poll(result, apps));
            && w'.held == Live(w.events, |w.events|, cfg.mask)
            && w'.heard == ChangeIds(w.events, |w.events|, cfg.mask, cfg.app)
  {
    RunKeepsInv(cfg, START, steps, w);
    PairedIsLinked(w.events);
    PollIsExact(cfg, w, result, apps);
  }

  lemma AddThenDelete(events: seq<Event>, lastId: nat, o: Obj, rest: Rest)
    requires rest.bit.Some?
    ensures var added := Appended(events, lastId + 1, Add, o, rest);
            && Deletable(added, Delete, o, rest)
            && Appended(added, lastId + 2, Delete, o, rest) ==
               events + [Event(lastId + 1, Add, o, rest, Some(|events| + 1)), Event(lastId + 2, Delete, o, rest, Some(|events|))]
  {
    var added := Appended(events, lastId + 1, Add, o, rest);
    assert IsAdd(added[|events|], o);
    assert LatestAdd(added, o) == Some(|events|);
  }

  /** The condition is needed: adding and then deleting an object leaves a fresh client
      believing in it exactly when the object was there already when it was added. */
  lemma SecondAddMisleads(events: seq<Event>, lastId: nat, owner: Obj -> Rest, mask: Word, o: Obj)
    requires WellPaired(events) && Ordered(events, lastId) && Owned(events, owner)
    requires Selected(owner(o), mask)
    ensures var added := Appended(events, lastId + 1, Add, o, owner(o));
            && Deletable(added, Delete, o, owner(o))
            && var deleted := Appended(added, lastId + 2, Delete, o, owner(o));
            && !IsLive(deleted, |deleted|, o)
            && Linked(deleted)
            && (o in Replay({}, Told(deleted, |deleted|, mask, 0)) <==> IsLive(events, |events|, o))
  {
    var n := |events|;
    AddThenDelete(events, lastId, o, owner(o));
    var deleted := Appended(Appended(events, lastId + 1, Add, o, owner(o)), lastId + 2, Delete, o, owner(o));
    PairedIsLinked(events);
    assert Linked(deleted);
    var k := ToldSays(deleted, n + 2, mask, 0, o);
    ReplayBelievesLast({}, Told(deleted, n + 2, mask, 0), o);
    var e := LastAbout(events, n, o);
    if k >= 0 {
      assert k < n && Paired(events, k);
      assert e == k;
    }
    if IsLive(events, n, o) {
      assert Paired(events, e);
      assert Shown(deleted, e, mask, 0);
    }
  }
}
