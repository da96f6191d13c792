/** When the loader ends the process with "Cyclic dependencies detected" (Loader.cc:183-210).

    An application whose dependency is missing is left half initialized, and meeting a half
    initialized application is taken for a cycle.  So the alarm can be false.  What decides
    it is where the *trail* of each service leads: from an application that cannot be loaded
    to its first dependency that cannot be loaded, and so on.  */
module LoadingAlarms {
  import opened Loading

  // ---------------------------------------------------------------- what can be loaded

  /** All dependencies, direct and indirect, are registered, at most n levels deep. */
  ghost predicate LoadableIn(apps: Apps, s: string, n: nat)
    decreases n
  {
    n > 0 && s in apps && forall d :: d in apps[s].deps ==> LoadableIn(apps, d, n - 1)
  }

  ghost predicate Loadable(apps: Apps, s: string) {
    exists n :: LoadableIn(apps, s, n)
  }

  lemma {:induction false} LoadableMore(apps: Apps, s: string, n: nat, m: nat)
    requires LoadableIn(apps, s, n) && n <= m
    ensures LoadableIn(apps, s, m)
    decreases n
  {
    forall d | d in apps[s].deps
      ensures LoadableIn(apps, d, m - 1)
    {
      LoadableMore(apps, d, n - 1, m - 1);
    }
  }

  /** One bound for a whole list. */
  lemma {:induction false} AllLoadable(apps: Apps, list: seq<string>) returns (n: nat)
    requires forall d :: d in list ==> Loadable(apps, d)
    ensures forall d :: d in list ==> LoadableIn(apps, d, n)
    decreases |list|
  {
    n := 0;
    if list != [] {
      assert list[0] in list;
      var k: nat :| LoadableIn(apps, list[0], k);
      var m := AllLoadable(apps, list[1..]);
      n := k + m;
      forall d | d in list
        ensures LoadableIn(apps, d, n)
      {
        if d == list[0] { LoadableMore(apps, d, k, n); } else { LoadableMore(apps, d, m, n); }
      }
    }
  }

  lemma LoadableIffDeps(apps: Apps, s: string)
    requires s in apps
    ensures Loadable(apps, s) <==> forall d :: d in apps[s].deps ==> Loadable(apps, d)
  {
    if Loadable(apps, s) {
      var n: nat :| LoadableIn(apps, s, n);
      forall d | d in apps[s].deps
        ensures Loadable(apps, d)
      {
        assert LoadableIn(apps, d, n - 1);
      }
    }
    if forall d :: d in apps[s].deps ==> Loadable(apps, d) {
      var n := AllLoadable(apps, apps[s].deps);
      assert LoadableIn(apps, s, n + 1);
    }
  }

  ghost function Depth(apps: Apps, s: string, n: nat): (k: nat)
    requires LoadableIn(apps, s, n)
    ensures k <= n && LoadableIn(apps, s, k) && forall m: nat :: m < k ==> !LoadableIn(apps, s, m)
  {
    if LoadableIn(apps, s, n - 1) then Depth(apps, s, n - 1)
    else
      NotBelow(apps, s, n);
      n
  }

  lemma NotBelow(apps: Apps, s: string, n: nat)
    requires n > 0 && !LoadableIn(apps, s, n - 1)
    ensures forall m: nat :: m < n ==> !LoadableIn(apps, s, m)
  {
    forall m: nat | m < n
      ensures !LoadableIn(apps, s, m)
    {
      if LoadableIn(apps, s, m) { LoadableMore(apps, s, m, n - 1); }
    }
  }

  /** The applications loadable within n levels form a grounded group. */
  lemma LevelIsGrounded(apps: Apps, n: nat) returns (group: set<string>, rank: map<string, nat>)
    ensures Grounded(apps, group, rank)
    ensures forall s :: s in group <==> LoadableIn(apps, s, n)
  {
    group := set s | s in apps && LoadableIn(apps, s, n);
    rank := map s | s in group :: Depth(apps, s, n);
    forall s, d | s in group && d in apps[s].deps
      ensures d in group && rank[d] < rank[s]
    {
      var k := rank[s];
      assert LoadableIn(apps, d, k - 1);
      LoadableMore(apps, d, k - 1, n);
    }
  }

  lemma {:induction false} GroundedIsLoadable(apps: Apps, group: set<string>, rank: map<string, nat>, s: string)
    requires Grounded(apps, group, rank) && s in group
    ensures LoadableIn(apps, s, rank[s] + 1)
    decreases rank[s]
  {
    forall d | d in apps[s].deps
      ensures LoadableIn(apps, d, rank[s])
    {
      GroundedIsLoadable(apps, group, rank, d);
      LoadableMore(apps, d, rank[d] + 1, rank[s]);
    }
  }

  // ---------------------------------------------------------------- trails

  /** The position of the first entry that cannot be loaded. */
  ghost function FirstBad(apps: Apps, deps: seq<string>): (k: nat)
    requires exists d :: d in deps && !Loadable(apps, d)
    ensures k < |deps| && !Loadable(apps, deps[k]) && forall j :: 0 <= j < k ==> Loadable(apps, deps[j])
  {
    if !Loadable(apps, deps[0]) then 0 else 1 + FirstBad(apps, deps[1..])
  }

  /** The first dependency that keeps an application from being loaded. */
  ghost function Blocker(apps: Apps, s: string): (b: string)
    requires s in apps && !Loadable(apps, s)
    ensures b in apps[s].deps && !Loadable(apps, b)
  {
    LoadableIffDeps(apps, s);
    apps[s].deps[FirstBad(apps, apps[s].deps)]
  }

  /** From blocker to blocker, until one is not registered or was met before. */
  ghost function Trail(apps: Apps, s: string, seen: set<string>): (t: seq<string>)
    requires s in apps && !Loadable(apps, s) && s !in seen
    ensures t != [] && forall k :: 0 <= k < |t| ==> t[k] in apps && !Loadable(apps, t[k])
    decreases apps.Keys - seen
  {
    var b := Blocker(apps, s);
    if b in apps && b !in seen + {s} then [s] + Trail(apps, b, seen + {s}) else [s]
  }

  /** The trail runs into something met before, not into a missing application. */
  ghost predicate RunsInto(apps: Apps, s: string, seen: set<string>)
    requires s in apps && !Loadable(apps, s) && s !in seen
  {
    var t := Trail(apps, s, seen); Blocker(apps, t[|t| - 1]) in apps
  }

  /** Some service that is not on an earlier trail starts one that runs into itself or into an
      earlier one. */
  ghost predicate Alarm(apps: Apps, services: seq<string>, seen: set<string>)
    decreases |services|
  {
    services != [] &&
    var s := services[0];
    if s in apps && !Loadable(apps, s) && s !in seen then
      RunsInto(apps, s, seen) || Alarm(apps, services[1..], seen + Members(Trail(apps, s, seen)))
    else Alarm(apps, services[1..], seen)
  }

  // ---------------------------------------------------------------- the loader follows the trails

  function Halted(st: State): set<string> { set s | s in st.status && st.status[s] == Initializing }

  /** What is initialized can be loaded, what is half initialized cannot. */
  ghost predicate Settled(apps: Apps, st: State) {
    && Consistent(apps, st)
    && forall s :: s in st.status ==>
         (st.status[s] == Initialized ==> Loadable(apps, s)) && (st.status[s] == Initializing ==> !Loadable(apps, s))
  }

  lemma LoadableLoads(apps: Apps, threads: nat, st: State, s: string)
    requires Settled(apps, st) && Loadable(apps, s)
    ensures var (st', outcome) := Initialize(apps, threads, st, s);
            && outcome == Found && st'.status[s] == Initialized
            && Settled(apps, st') && Halted(st') == Halted(st)
  {
    var n: nat :| LoadableIn(apps, s, n);
    var group, rank := LevelIsGrounded(apps, n);
    GroundedLoads(apps, threads, st, s, group, rank);
  }

  /** Dependencies up to the first bad one are loaded. */
  lemma {:induction false} DepsUpToBad(apps: Apps, threads: nat, st: State, deps: seq<string>)
    returns (st': State, rest: seq<string>)
    requires Settled(apps, st) && exists d :: d in deps && !Loadable(apps, d)
    ensures Settled(apps, st') && Halted(st') == Halted(st)
    ensures rest != [] && rest[0] == deps[FirstBad(apps, deps)]
    ensures InitializeAll(apps, threads, st, deps) == InitializeAll(apps, threads, st', rest)
    decreases |deps|
  {
    if Loadable(apps, deps[0]) {
      LoadableLoads(apps, threads, st, deps[0]);
      st', rest := DepsUpToBad(apps, threads, Initialize(apps, threads, st, deps[0]).0, deps[1..]);
    } else {
      st', rest := st, deps;
    }
  }

  ghost predicate Stops(apps: Apps, s: string, st: State, r: (State, Outcome))
    requires s in apps && !Loadable(apps, s) && s !in Halted(st)
  {
    if RunsInto(apps, s, Halted(st)) then r.1 == Fatal
    else
      && r.1 == Missing && Settled(apps, r.0)
      && Halted(r.0) == Halted(st) + Members(Trail(apps, s, Halted(st)))
  }

  /** A trail is its first application and the trail from there on. */
  lemma TrailStep(apps: Apps, s: string, seen: set<string>)
    requires s in apps && !Loadable(apps, s) && s !in seen
    ensures var b := Blocker(apps, s);
            if b in apps && b !in seen + {s} then
              && RunsInto(apps, s, seen) == RunsInto(apps, b, seen + {s})
              && Members(Trail(apps, s, seen)) == {s} + Members(Trail(apps, b, seen + {s}))
            else
              RunsInto(apps, s, seen) == (b in apps) && Members(Trail(apps, s, seen)) == {s}
  {
    var b := Blocker(apps, s);
    if b in apps && b !in seen + {s} {
      var t := Trail(apps, b, seen + {s});
      assert forall x :: x in [s] + t <==> x == s || x in t;
    } else {
      assert forall x :: x in [s] <==> x == s;
    }
  }

  /** The first dependency decides when it is missing, half initialized or itself stopped. */
  lemma FirstDecides(apps: Apps, threads: nat, st: State, rest: seq<string>)
    requires Consistent(apps, st) && rest != []
    ensures var b := rest[0]; var r := InitializeAll(apps, threads, st, rest);
            && (b !in apps ==> r == (st, Missing))
            && (b in Halted(st) ==> r == (st, Fatal))
            && (Initialize(apps, threads, st, b).1 != Found ==> r == Initialize(apps, threads, st, b))
  {
  }

  lemma BeginHalts(apps: Apps, st: State, s: string)
    requires Settled(apps, st) && s in apps && !Loadable(apps, s)
    ensures Settled(apps, Begin(st, s)) && Halted(Begin(st, s)) == Halted(st) + {s}
  {
  }

  lemma BlockedIsInitializeAll(apps: Apps, threads: nat, st: State, s: string)
    requires Settled(apps, st) && s in apps && !Loadable(apps, s) && s !in Halted(st)
    requires Consistent(apps, Begin(st, s))
    requires InitializeAll(apps, threads, Begin(st, s), apps[s].deps).1 != Found
    ensures Initialize(apps, threads, st, s) == InitializeAll(apps, threads, Begin(st, s), apps[s].deps)
  {
  }

  /** An application that cannot be loaded halts everything on its trail. */
  lemma {:induction false} BlockedStops(apps: Apps, threads: nat, st: State, s: string)
    requires Settled(apps, st) && s in apps && !Loadable(apps, s) && s !in Halted(st)
    ensures Stops(apps, s, st, Initialize(apps, threads, st, s))
    decreases apps.Keys - Halted(st)
  {
    var b := Blocker(apps, s);
    LoadableIffDeps(apps, s);
    BeginHalts(apps, st, s);
    TrailStep(apps, s, Halted(st));
    var st', rest := DepsUpToBad(apps, threads, Begin(st, s), apps[s].deps);
    FirstDecides(apps, threads, st', rest);
    if b in apps && b !in Halted(st) + {s} { BlockedStops(apps, threads, st', b); }
    BlockedIsInitializeAll(apps, threads, st, s);
  }

  lemma {:induction false} StartFollowsTrails(apps: Apps, threads: nat, st: State, services: seq<string>)
    requires Settled(apps, st)
    ensures StartServices(apps, threads, st, services).1 == Fatal <==> Alarm(apps, services, Halted(st))
    decreases |services|
  {
    if services != [] {
      var s := services[0];
      var (st', outcome) := Initialize(apps, threads, st, s);
      if s in apps && Loadable(apps, s) {
        LoadableLoads(apps, threads, st, s);
      } else if s in apps && s !in Halted(st) {
        BlockedStops(apps, threads, st, s);
      }
      if outcome != Fatal { StartFollowsTrails(apps, threads, st', services[1..]); }
    }
  }

  /** For every configuration: the process is ended if and only if the trail of some service
      runs into itself or into the trail of an earlier one that the service is not on. */
  lemma FatalIffAlarm(apps: Apps, threads: nat, services: seq<string>)
    ensures StartServices(apps, threads, AllRegistered(apps), services).1 == Fatal <==> Alarm(apps, services, {})
  {
    var start := AllRegistered(apps);
    assert Halted(start) == {};
    StartFollowsTrails(apps, threads, start, services);
  }

  // ---------------------------------------------------------------- when the alarm is true

  /** A chain from a service that comes back to an application already on it. */
  predicate Lasso(apps: Apps, services: seq<string>, chain: seq<string>) {
    && |chain| > 1 && chain[0] in services && IsChain(apps, chain)
    && chain[|chain| - 1] in chain[..|chain| - 1]
  }

  ghost predicate Cyclic(apps: Apps, services: seq<string>) {
    exists chain :: Lasso(apps, services, chain)
  }

  /** Every service and every dependency is registered. */
  predicate Complete(apps: Apps, services: seq<string>) {
    && (forall s :: s in services ==> s in apps)
    && (forall s, d :: s in apps && d in apps[s].deps ==> d in apps)
  }

  /** Levels go down along a chain, so nothing loadable is on a lasso. */
  lemma {:induction false} ChainDescends(apps: Apps, chain: seq<string>, n: nat, k: nat)
    requires IsChain(apps, chain) && k < |chain| && LoadableIn(apps, chain[0], n)
    ensures k < n && LoadableIn(apps, chain[k], n - k)
    decreases k
  {
    if k > 0 {
      ChainDescends(apps, chain, n, k - 1);
      assert chain[k - 1] in apps && chain[k - 1 + 1] in apps[chain[k - 1]].deps;
    }
  }

  lemma LassoIsNotLoadable(apps: Apps, services: seq<string>, chain: seq<string>)
    requires Lasso(apps, services, chain)
    ensures !Loadable(apps, chain[0])
  {
    if Loadable(apps, chain[0]) {
      var n: nat :| LoadableIn(apps, chain[0], n);
      var last := |chain| - 1;
      var i :| 0 <= i < last && chain[i] == chain[last];
      ChainDescends(apps, chain, n, i);
      var loop := chain[i..];
      assert IsChain(apps, loop) by {
        forall k | 0 <= k < |loop| - 1
          ensures loop[k] in apps && loop[k + 1] in apps[loop[k]].deps
        {
          assert loop[k] == chain[i + k] && loop[k + 1] == chain[i + k + 1];
        }
      }
      LoopIsNotLoadable(apps, loop, n - i);
    }
  }

  lemma {:induction false} LoopIsNotLoadable(apps: Apps, loop: seq<string>, n: nat)
    requires IsCycle(apps, loop)
    ensures !LoadableIn(apps, loop[0], n)
    decreases n
  {
    if LoadableIn(apps, loop[0], n) {
      ChainDescends(apps, loop, n, |loop| - 1);
      LoopIsNotLoadable(apps, loop, n - (|loop| - 1));
    }
  }

  /** A trail that runs into itself is a lasso. */
  lemma {:induction false} TrailIsChain(apps: Apps, s: string, seen: set<string>)
    requires s in apps && !Loadable(apps, s) && s !in seen
    ensures var t := Trail(apps, s, seen); var b := Blocker(apps, t[|t| - 1]);
            && t[0] == s && IsChain(apps, t + [b])
            && (b in apps ==> b in seen || b in t)
    decreases apps.Keys - seen
  {
    var b := Blocker(apps, s);
    if b in apps && b !in seen + {s} {
      TrailIsChain(apps, b, seen + {s});
      var rest := Trail(apps, b, seen + {s});
      var end := [Blocker(apps, rest[|rest| - 1])];
      assert [s] + rest + end == [s] + (rest + end);
      ChainGrows(apps, s, rest + end);
    }
  }

  lemma ChainGrows(apps: Apps, s: string, chain: seq<string>)
    requires IsChain(apps, chain) && chain != [] && s in apps && chain[0] in apps[s].deps
    ensures IsChain(apps, [s] + chain)
  {
    var longer := [s] + chain;
    forall k | 0 <= k < |longer| - 1
      ensures longer[k] in apps && longer[k + 1] in apps[longer[k]].deps
    {
      if k > 0 { assert longer[k] == chain[k - 1] && longer[k + 1] == chain[k - 1 + 1]; }
    }
  }

  lemma RunsIntoItself(apps: Apps, services: seq<string>, s: string)
    requires s in services && s in apps && !Loadable(apps, s) && RunsInto(apps, s, {})
    ensures Cyclic(apps, services)
  {
    TrailIsChain(apps, s, {});
    var t := Trail(apps, s, {});
    var chain := t + [Blocker(apps, t[|t| - 1])];
    assert chain[..|chain| - 1] == t;
    assert Lasso(apps, services, chain);
  }

  /** With a single service the alarm is never false. */
  lemma SingleServiceIsNeverFalse(apps: Apps, threads: nat, s: string)
    requires StartServices(apps, threads, AllRegistered(apps), [s]).1 == Fatal
    ensures Cyclic(apps, [s])
  {
    FatalIffAlarm(apps, threads, [s]);
    assert [s][1..] == [];
    RunsIntoItself(apps, [s], s);
  }

  /** A list that is complete raises the alarm at its first service that cannot be loaded. */
  lemma {:induction false} CompleteAlarm(apps: Apps, services: seq<string>)
    requires Complete(apps, services)
    ensures Alarm(apps, services, {}) <==> exists s :: s in services && !Loadable(apps, s)
    ensures Alarm(apps, services, {}) ==> Cyclic(apps, services)
    decreases |services|
  {
    if services != [] {
      var s := services[0];
      assert s in services;
      if Loadable(apps, s) {
        CompleteAlarm(apps, services[1..]);
        if Alarm(apps, services, {}) {
          var chain :| Lasso(apps, services[1..], chain);
          assert Lasso(apps, services, chain);
        }
      } else {
        RunsIntoItself(apps, services, s);
      }
    }
  }

  /** If nothing is missing, the process is ended if and only if some service depends on a
      cycle; equivalently, if and only if the services are not grounded. */
  lemma FatalIffCyclic(apps: Apps, threads: nat, services: seq<string>)
    requires Complete(apps, services)
    ensures var fatal := StartServices(apps, threads, AllRegistered(apps), services).1 == Fatal;
            && (fatal <==> Cyclic(apps, services))
            && (fatal <==> !exists group, rank :: Grounded(apps, group, rank) && AllIn(services, group))
  {
    FatalIffAlarm(apps, threads, services);
    CompleteAlarm(apps, services);
    if Cyclic(apps, services) {
      var chain :| Lasso(apps, services, chain);
      LassoIsNotLoadable(apps, services, chain);
    }
    GroundedIffLoadable(apps, services);
  }

  lemma GroundedIffLoadable(apps: Apps, services: seq<string>)
    ensures (exists group, rank :: Grounded(apps, group, rank) && AllIn(services, group)) <==>
            forall s :: s in services ==> Loadable(apps, s)
  {
    if group, rank :| Grounded(apps, group, rank) && AllIn(services, group) {
      forall s | s in services
        ensures Loadable(apps, s)
      {
        GroundedIsLoadable(apps, group, rank, s);
      }
    }
    if forall s :: s in services ==> Loadable(apps, s) {
      var n := AllLoadable(apps, services);
      var group, rank := LevelIsGrounded(apps, n);
      assert AllIn(services, group);
    }
  }

  // ---------------------------------------------------------------- a false alarm

  ghost predicate Descends(apps: Apps, rank: map<string, nat>) {
    forall s, d :: s in apps && d in apps[s].deps ==> s in rank && d in rank && rank[d] < rank[s]
  }

  /** Ranks that go down with every dependency leave no room for a lasso. */
  lemma {:induction false} RankGoesDown(apps: Apps, rank: map<string, nat>, chain: seq<string>, i: nat, j: nat)
    requires Descends(apps, rank) && IsChain(apps, chain) && i < j < |chain|
    ensures chain[i] in rank && chain[j] in rank && rank[chain[j]] < rank[chain[i]]
    decreases j
  {
    assert chain[j - 1] in apps && chain[j - 1 + 1] in apps[chain[j - 1]].deps;
    if i < j - 1 { RankGoesDown(apps, rank, chain, i, j - 1); }
  }

  lemma DescendingIsAcyclic(apps: Apps, rank: map<string, nat>, services: seq<string>)
    requires Descends(apps, rank)
    ensures !Cyclic(apps, services)
  {
    forall chain
      ensures !Lasso(apps, services, chain)
    {
      if Lasso(apps, services, chain) {
        var i :| 0 <= i < |chain| - 1 && chain[i] == chain[|chain| - 1];
        RankGoesDown(apps, rank, chain, i, |chain| - 1);
      }
    }
  }

  /** The trails of "a", which needs "gone", and of "b", which needs "a". */
  lemma SecondTrailRunsIntoFirst(apps: Apps, a: string, b: string, gone: string)
    requires a != b && gone !in apps && a in apps && b in apps && apps[a].deps == [gone] && apps[b].deps == [a]
    ensures Alarm(apps, [a, b], {})
  {
    assert !Loadable(apps, gone);
    LoadableIffDeps(apps, a);
    LoadableIffDeps(apps, b);
    assert gone in apps[a].deps && a in apps[b].deps;
    assert Trail(apps, a, {}) == [a];
    var seen := {} + Members([a]);
    assert a in [a] && seen == {a};
    assert Trail(apps, b, seen) == [b];
    assert [a, b][1..] == [b];
  }

  /** The false alarm: two services, no cycle, one dependency missing. */
  lemma MissingLooksCyclic(threads: nat)
    ensures var apps := map["a" := App(["gone"], -1), "b" := App(["a"], -1)];
            && StartServices(apps, threads, AllRegistered(apps), ["a", "b"]).1 == Fatal
            && !Cyclic(apps, ["a", "b"])
  {
    var apps := map["a" := App(["gone"], -1), "b" := App(["a"], -1)];
    FatalIffAlarm(apps, threads, ["a", "b"]);
    SecondTrailRunsIntoFirst(apps, "a", "b", "gone");
    DescendingIsAcyclic(apps, map["gone" := 0, "a" := 1, "b" := 2], ["a", "b"]);
  }
}
