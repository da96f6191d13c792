/** The event log that REST clients poll with a cursor (Event.cc).

    The list only grows; an Add and the Delete that ends it point at each other as
    "brothers", here by their positions in the list.  A poll leaves out an object that came
    and went since the cursor, which is why the log of one poll is not simply a suffix of
    the list.  The question is whether a client that replays what each poll tells it, and
    sends back the cursor it was given, always knows which objects exist.  */
module Events {
  import opened Basics

  datatype Kind = Add | Delete | Change

  datatype Obj = Obj(address: nat)

  /** A 32-bit word as the set of its bits that are 1. */
  type Word = set<nat>

  /** The handler an object belongs to: its name, and its hash, which is a power of two if
      clients can poll it and zero if they cannot (RestListener.cc:22-34). */
  datatype Rest = Rest(bit: Option<nat>, name: string)

  datatype Event = Event(id: nat, kind: Kind, obj: Obj, rest: Rest, brother: Option<nat>)

  predicate IsAdd(e: Event, o: Obj) { e.obj == o && e.kind == Add }

  /** The event makes the object appear or disappear. */
  predicate About(e: Event, o: Obj) { e.obj == o && e.kind != Change }

  predicate Selected(rest: Rest, mask: Word) { rest.bit.Some? && rest.bit.value in mask }

  // ---------------------------------------------------------------- appending

  /** `findBrother`: the last Add of the object. */
  function LatestAdd(events: seq<Event>, o: Obj): (b: Option<nat>)
    ensures b.Some? ==> b.value < |events| && IsAdd(events[b.value], o)
    ensures b.Some? ==> forall j :: b.value < j < |events| ==> !IsAdd(events[j], o)
    ensures b == None ==> forall j :: 0 <= j < |events| ==> !IsAdd(events[j], o)
  {
    if events == [] then None
    else if IsAdd(events[|events| - 1], o) then Some(|events| - 1)
    else LatestAdd(events[..|events| - 1], o)
  }

  /** Deleting an object that was never added dereferences a null brother. */
  predicate Deletable(events: seq<Event>, kind: Kind, o: Obj, rest: Rest) {
    kind == Delete && rest.bit.Some? ==> LatestAdd(events, o).Some?
  }

  function Appended(events: seq<Event>, id: nat, kind: Kind, o: Obj, rest: Rest): seq<Event>
    requires Deletable(events, kind, o, rest)
  {
    if rest.bit == None then events
    else if kind == Delete then
      var a := LatestAdd(events, o).value;
      events[a := events[a].(brother := Some(|events|))] + [Event(id, Delete, o, rest, Some(a))]
    else events + [Event(id, kind, o, rest, None)]
  }

  /** A handler without a hash has no events; otherwise there is one event more, and a Delete and
      the last Add of its object become brothers. */
  lemma AppendedAddsOne(events: seq<Event>, id: nat, kind: Kind, o: Obj, rest: Rest)
    requires Deletable(events, kind, o, rest)
    ensures var n := |events|;
            var events' := Appended(events, id, kind, o, rest);
            if rest.bit == None then events' == events
            else
              && |events'| == n + 1
              && events'[n].(brother := None) == Event(id, kind, o, rest, None)
              && (forall k :: 0 <= k < n ==> events'[k].(brother := None) == events[k].(brother := None))
              && (forall k :: 0 <= k < n && events'[k] != events[k] ==> kind == Delete)
              && (kind != Delete ==> events'[n].brother == None)
              && (kind == Delete ==>
                    exists k :: 0 <= k < n && IsAdd(events[k], o) && (forall j :: k < j < n ==> !IsAdd(events[j], o)) &&
                                events'[n].brother == Some(k) && events'[k].brother == Some(n) &&
                                forall j :: 0 <= j < n && j != k ==> events'[j] == events[j])
  {
    if rest.bit.Some? && kind == Delete {
      var k := LatestAdd(events, o).value;
      assert IsAdd(events[k], o);
    }
  }

  // ---------------------------------------------------------------- polling

  /** Every Delete has a brother in the list. */
  predicate Linked(events: seq<Event>) {
    forall k :: 0 <= k < |events| && events[k].kind == Delete ==>
      events[k].brother.Some? && events[k].brother.value < |events|
  }

  /** `checkOverlap`: the Add has been taken back since, or the Delete takes back an Add the
      client has not been told of. */
  predicate Overlaps(events: seq<Event>, k: nat, last: nat)
    requires Linked(events) && k < |events|
  {
    match events[k].kind
    case Add => events[k].brother != None
    case Delete => events[events[k].brother.value].id > last
    case Change => false
  }

  predicate Shown(events: seq<Event>, k: nat, mask: Word, last: nat)
    requires Linked(events) && k < |events|
  {
    Selected(events[k].rest, mask) && events[k].id > last && !Overlaps(events, k, last)
  }

  /** The events among the first n that a poll reports, in their order. */
  function Told(events: seq<Event>, n: nat, mask: Word, last: nat): seq<Event>
    requires Linked(events) && n <= |events|
  {
    if n == 0 then []
    else if Shown(events, n - 1, mask, last) then Told(events, n - 1, mask, last) + [events[n - 1]]
    else Told(events, n - 1, mask, last)
  }

  function OfApp(es: seq<Event>, app: string): seq<Event> {
    if es == [] then []
    else if es[|es| - 1].rest.name == app then OfApp(es[..|es| - 1], app) + [es[|es| - 1]]
    else OfApp(es[..|es| - 1], app)
  }

  function MaxId(es: seq<Event>): nat {
    if es == [] then 0
    else
      var id := MaxId(es[..|es| - 1]);
      if es[|es| - 1].id > id then es[|es| - 1].id else id
  }

  function Cursor(told: seq<Event>, last: nat): nat {
    if MaxId(told) == 0 then last else MaxId(told)
  }

  // ---------------------------------------------------------------- the classes

  const ID_BOUND: nat := 0x1_0000_0000

  /** The counter all event managers share. */
  class EventIds {
    var last: nat

    constructor ()
      ensures last == 0
    {
      last := 0;
    }

    method GetLastId() returns (id: nat)
      modifies this
      ensures id == last == (old(last) + 1) % ID_BOUND
    {
      last := (last + 1) % ID_BOUND;
      id := last;
    }
  }

  class EventManager {
    var events: seq<Event>

    constructor ()
      ensures events == []
    {
      events := [];
    }

    method FindBrother(o: Obj) returns (b: Option<nat>)
      ensures b == LatestAdd(events, o)
    {
      var k: nat := |events|;
      assert events[..k] == events;
      while k > 0
        invariant k <= |events|
        invariant LatestAdd(events, o) == LatestAdd(events[..k], o)
      {
        assert events[..k][..k - 1] == events[..k - 1];
        if events[k - 1].obj == o && events[k - 1].kind == Add {
          return Some(k - 1);
        }
        k := k - 1;
      }
      return None;
    }

    method AddToEventList(kind: Kind, o: Obj, rest: Rest, ids: EventIds)
      requires Deletable(events, kind, o, rest)
      modifies this, ids
      ensures rest.bit.Some? ==> ids.last == (old(ids.last) + 1) % ID_BOUND
      ensures rest.bit == None ==> ids.last == old(ids.last)
      ensures events == Appended(old(events), ids.last, kind, o, rest)
    {
      if rest.bit == None {
        return;
      }
      var id := ids.GetLastId();
      var event := Event(id, kind, o, rest, None);
      if kind == Delete {
        var add := FindBrother(o);
        event := event.(brother := add);
        events := events[add.value := events[add.value].(brother := Some(|events|))];
      }
      events := events + [event];
    }

    method CheckOverlap(k: nat, last: nat) returns (overlaps: bool)
      requires Linked(events) && k < |events|
      ensures overlaps == Overlaps(events, k, last)
    {
      if events[k].kind == Add {
        return events[k].brother != None;
      }
      if events[k].kind == Delete {
        return !(events[events[k].brother.value].id <= last);
      }
      return false;
    }

    /** The answer groups what is told by application; an application with nothing to tell
        is absent. */
    method Timeout(mask: Word, last: nat) returns (cursor: nat, result: map<string, seq<Event>>)
      requires Linked(events)
      ensures var told := Told(events, |events|, mask, last);
              cursor == Cursor(told, last) && Groups(result, told)
    {
      result := map[];
      cursor := 0;
      for k := 0 to |events|
        invariant cursor == MaxId(Told(events, k, mask, last))
        invariant Groups(result, Told(events, k, mask, last))
      {
        var e := events[k];
        ghost var told := Told(events, k, mask, last);
        if Selected(e.rest, mask) && e.id > last {
          var overlaps := CheckOverlap(k, last);
          if !overlaps {
            TellOneMore(result, told, e);
            result := result[e.rest.name := Listed(result, e.rest.name) + [e]];
            if e.id > cursor {
              cursor := e.id;
            }
          }
        }
      }
      if cursor == 0 {
        cursor := last;
      }
    }
  }

  function Listed(result: map<string, seq<Event>>, app: string): seq<Event> {
    if app in result then result[app] else []
  }

  ghost predicate Groups(result: map<string, seq<Event>>, told: seq<Event>) {
    && (forall app :: Listed(result, app) == OfApp(told, app))
    && (forall app :: app in result ==> result[app] != [])
  }

  lemma TellOneMore(result: map<string, seq<Event>>, told: seq<Event>, e: Event)
    requires Groups(result, told)
    ensures Groups(result[e.rest.name := Listed(result, e.rest.name) + [e]], told + [e])
    ensures MaxId(told + [e]) == if e.id > MaxId(told) then e.id else MaxId(told)
  {
    assert (told + [e])[..|told|] == told;
    var more := result[e.rest.name := Listed(result, e.rest.name) + [e]];
    forall app
      ensures Listed(more, app) == OfApp(told + [e], app)
    {
      assert Listed(result, app) == OfApp(told, app);
    }
  }
}
