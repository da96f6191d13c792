/** Dependency-ordered initialization of applications (Loader.cc:107-114, 142-241). */
module Loading {

  datatype App = App(deps: seq<string>, pin: int)

  datatype Status = Registered | Initializing | Initialized

  /** `order` and `placed` are the applications initialized so far and their threads. */
  datatype State = State(status: map<string, Status>, order: seq<string>, placed: seq<nat>, lastThread: nat)

  /** The application was found, some application was not, or the process was ended because of
      what looked like a cycle. */
  datatype Outcome = Found | Missing | Fatal

  type Apps = map<string, App>

  function Waiting(st: State): set<string> {
    set s | s in st.status && st.status[s] == Registered
  }

  ghost predicate Consistent(apps: Apps, st: State) { st.status.Keys == apps.Keys }

  // ---------------------------------------------------------------- the specification

  /** The thread an application is moved to, and the next one of the round robin. */
  function Place(app: App, threads: nat, last: nat): (nat, nat) {
    if 0 <= app.pin < threads then (app.pin, last)
    else (last, if last + 1 == threads then 0 else last + 1)
  }

  function Finish(apps: Apps, threads: nat, st: State, s: string): (r: State)
    requires s in apps
    ensures Waiting(r) <= Waiting(st)
  {
    var (thread, last) := Place(apps[s], threads, st.lastThread);
    State(st.status[s := Initialized], st.order + [s], st.placed + [thread], last)
  }

  function Begin(st: State, s: string): State {
    st.(status := st.status[s := Initializing])
  }

  function Initialize(apps: Apps, threads: nat, st: State, s: string): (r: (State, Outcome))
    requires Consistent(apps, st)
    ensures Consistent(apps, r.0) && Waiting(r.0) <= Waiting(st)
    ensures r.1 == Found ==> s in apps
    decreases |Waiting(st)|, 0
  {
    if s !in st.status then (st, Missing)
    else if st.status[s] != Registered then (st, Found)
    else
      BeginWaits(st, s);
      var (st', outcome) := InitializeAll(apps, threads, Begin(st, s), apps[s].deps);
      if outcome == Found then (Finish(apps, threads, st', s), Found) else (st', outcome)
  }

  function InitializeAll(apps: Apps, threads: nat, st: State, deps: seq<string>): (r: (State, Outcome))
    requires Consistent(apps, st)
    ensures Consistent(apps, r.0) && Waiting(r.0) <= Waiting(st)
    decreases |Waiting(st)|, |deps| + 1
  {
    if deps == [] then (st, Found)
    else
      var (st', outcome) := Initialize(apps, threads, st, deps[0]);
      FewerWait(st, st');
      if outcome != Found then (st', outcome)
      else if st'.status[deps[0]] == Initializing then (st', Fatal)
      else InitializeAll(apps, threads, st', deps[1..])
  }

  lemma BeginWaits(st: State, s: string)
    requires s in st.status && st.status[s] == Registered
    ensures Waiting(Begin(st, s)) == Waiting(st) - {s} && |Waiting(Begin(st, s))| < |Waiting(st)|
  {
  }

  lemma FewerWait(st: State, st': State)
    requires Waiting(st') <= Waiting(st)
    ensures |Waiting(st')| <= |Waiting(st)|
  {
    var rest := Waiting(st) - Waiting(st');
    assert Waiting(st) == Waiting(st') + rest;
  }

  /** The services of the configuration, one after the other; one that is missing is passed
      over. */
  function StartServices(apps: Apps, threads: nat, st: State, services: seq<string>): (r: (State, Outcome))
    requires Consistent(apps, st)
    ensures Consistent(apps, r.0)
    decreases |services|
  {
    if services == [] then (st, Found)
    else
      var (st', outcome) := Initialize(apps, threads, st, services[0]);
      if outcome == Fatal then (st', Fatal) else StartServices(apps, threads, st', services[1..])
  }

  function AllRegistered(apps: Apps): (st: State)
    ensures Consistent(apps, st)
  {
    State(map s | s in apps :: Registered, [], [], 0)
  }

  // ---------------------------------------------------------------- the program

  class Loader {
    const apps: Apps
    const threads: nat
    var status: map<string, Status>
    var order: seq<string>
    var placed: seq<nat>
    var lastThread: nat

    ghost function Now(): State
      reads this
    {
      State(status, order, placed, lastThread)
    }

    constructor (apps: Apps, threads: nat)
      ensures this.apps == apps && this.threads == threads && Now() == AllRegistered(apps)
    {
      this.apps, this.threads := apps, threads;
      status := map s | s in apps :: Registered;
      order, placed, lastThread := [], [], 0;
    }

    method InitializeService(s: string) returns (outcome: Outcome)
      requires Consistent(apps, Now())
      modifies this
      ensures (Now(), outcome) == Initialize(apps, threads, old(Now()), s)
      decreases |Waiting(Now())|, 0
    {
      if s !in status {
        return Missing;
      }
      if status[s] != Registered {
        return Found;
      }
      BeginWaits(Now(), s);
      status := status[s := Initializing];
      outcome := InitializeDependencies(apps[s].deps);
      if outcome != Found {
        return;
      }
      var thread: nat;
      if 0 <= apps[s].pin < threads {
        thread := apps[s].pin;
      } else {
        thread := lastThread;
        lastThread := lastThread + 1;
        if lastThread == threads {
          lastThread := 0;
        }
      }
      order, placed := order + [s], placed + [thread];
      status := status[s := Initialized];
    }

    /** The loop over the dependencies. */
    method InitializeDependencies(deps: seq<string>) returns (outcome: Outcome)
      requires Consistent(apps, Now())
      modifies this
      ensures (Now(), outcome) == InitializeAll(apps, threads, old(Now()), deps)
      decreases |Waiting(Now())|, 1
    {
      assert deps[0..] == deps;
      for k := 0 to |deps|
        invariant Consistent(apps, Now()) && |Waiting(Now())| <= |Waiting(old(Now()))|
        invariant InitializeAll(apps, threads, Now(), deps[k..]) == InitializeAll(apps, threads, old(Now()), deps)
      {
        assert deps[k..][1..] == deps[k + 1..];
        ghost var before := Now();
        outcome := InitializeService(deps[k]);
        FewerWait(before, Now());
        if outcome != Found {
          return;
        }
        if status[deps[k]] == Initializing {
          return Fatal;
        }
      }
      return Found;
    }

    method StartAll(services: seq<string>) returns (outcome: Outcome)
      requires Consistent(apps, Now())
      modifies this
      ensures (Now(), outcome) == StartServices(apps, threads, old(Now()), services)
    {
      assert services[0..] == services;
      for k := 0 to |services|
        invariant Consistent(apps, Now())
        invariant StartServices(apps, threads, Now(), services[k..]) == StartServices(apps, threads, old(Now()), services)
      {
        assert services[k..][1..] == services[k + 1..];
        outcome := InitializeService(services[k]);
        if outcome == Fatal {
          return;
        }
      }
      return Found;
    }
  }

  // ---------------------------------------------------------------- order

  predicate DependsOnEarlier(apps: Apps, order: seq<string>, k: nat)
    requires k < |order|
  {
    order[k] in apps && forall d :: d in apps[order[k]].deps ==> d in order[..k]
  }

  predicate Fresh(order: seq<string>, k: nat)
    requires k < |order|
  {
    order[k] !in order[..k]
  }

  /** The applications come once each, behind all of their dependencies. */
  ghost predicate Ordered(apps: Apps, order: seq<string>) {
    && (forall k :: 0 <= k < |order| ==> DependsOnEarlier(apps, order, k))
    && (forall k :: 0 <= k < |order| ==> Fresh(order, k))
  }

  ghost predicate Inv(apps: Apps, st: State) {
    && Consistent(apps, st)
    && (forall s :: s in st.status ==> (st.status[s] == Initialized <==> s in st.order))
    && (forall s :: s in st.order ==> s in st.status)
    && Ordered(apps, st.order)
  }

  /** Only applications that were still registered change. */
  ghost predicate Advances(st: State, st': State) {
    && st.order <= st'.order
    && st.status.Keys == st'.status.Keys
    && forall s :: s in st.status && st.status[s] != Registered ==> st'.status[s] == st.status[s]
  }

  lemma OrderedExtends(apps: Apps, order: seq<string>, s: string)
    requires Ordered(apps, order) && s in apps && s !in order && forall d :: d in apps[s].deps ==> d in order
    ensures Ordered(apps, order + [s])
  {
    var order' := order + [s];
    forall k | 0 <= k < |order'|
      ensures DependsOnEarlier(apps, order', k) && Fresh(order', k)
    {
      assert order'[..k] == order[..k];
      if k < |order| {
        assert DependsOnEarlier(apps, order, k) && Fresh(order, k);
      } else {
        assert order[..k] == order;
      }
    }
  }

  lemma {:induction false} InitializeKeepsInv(apps: Apps, threads: nat, st: State, s: string)
    requires Inv(apps, st)
    ensures var (st', outcome) := Initialize(apps, threads, st, s);
            && Inv(apps, st') && Advances(st, st')
            && (outcome == Found ==> s in st'.status && st'.status[s] != Registered)
    decreases |Waiting(st)|, 0
  {
    if s in st.status && st.status[s] == Registered {
      BeginWaits(st, s);
      var begun := Begin(st, s);
      InitializeAllKeepsInv(apps, threads, begun, apps[s].deps);
      var (st', outcome) := InitializeAll(apps, threads, begun, apps[s].deps);
      if outcome == Found {
        assert st'.status[s] == Initializing;
        OrderedExtends(apps, st'.order, s);
      }
    }
  }

  lemma {:induction false} InitializeAllKeepsInv(apps: Apps, threads: nat, st: State, deps: seq<string>)
    requires Inv(apps, st)
    ensures var (st', outcome) := InitializeAll(apps, threads, st, deps);
            && Inv(apps, st') && Advances(st, st')
            && (outcome == Found ==> forall d :: d in deps ==> d in st'.order)
    decreases |Waiting(st)|, |deps| + 1
  {
    if deps != [] {
      InitializeKeepsInv(apps, threads, st, deps[0]);
      var (st', outcome) := Initialize(apps, threads, st, deps[0]);
      FewerWait(st, st');
      if outcome == Found && st'.status[deps[0]] != Initializing {
        InitializeAllKeepsInv(apps, threads, st', deps[1..]);
      }
    }
  }

  lemma {:induction false} StartKeepsInv(apps: Apps, threads: nat, st: State, services: seq<string>)
    requires Inv(apps, st)
    ensures var (st', _) := StartServices(apps, threads, st, services); Inv(apps, st') && Advances(st, st')
    decreases |services|
  {
    if services != [] {
      InitializeKeepsInv(apps, threads, st, services[0]);
      var (st', outcome) := Initialize(apps, threads, st, services[0]);
      if outcome != Fatal { StartKeepsInv(apps, threads, st', services[1..]); }
    }
  }

  /** Each entry is a dependency of the one before it. */
  predicate IsChain(apps: Apps, chain: seq<string>) {
    forall k :: 0 <= k < |chain| - 1 ==> chain[k] in apps && chain[k + 1] in apps[chain[k]].deps
  }

  /** Along a chain of dependencies the positions in the order go down. */
  lemma {:induction false} ChainGoesBack(apps: Apps, order: seq<string>, chain: seq<string>, at: nat) returns (end: nat)
    requires Ordered(apps, order) && IsChain(apps, chain) && chain != [] && at < |order| && order[at] == chain[0]
    ensures end <= at && order[end] == chain[|chain| - 1] && (|chain| > 1 ==> end < at)
    decreases |chain|
  {
    end := at;
    if |chain| > 1 {
      assert DependsOnEarlier(apps, order, at);
      assert chain[1] in order[..at];
      var next :| 0 <= next < at && order[next] == chain[1];
      assert IsChain(apps, chain[1..]) by {
        forall k | 0 <= k < |chain[1..]| - 1
          ensures chain[1..][k] in apps && chain[1..][k + 1] in apps[chain[1..][k]].deps
        {
          assert chain[1..][k] == chain[k + 1] && chain[1..][k + 1] == chain[k + 2];
        }
      }
      end := ChainGoesBack(apps, order, chain[1..], next);
    }
  }

  /** A chain of dependencies that ends where it began. */
  predicate IsCycle(apps: Apps, cycle: seq<string>) {
    |cycle| > 1 && cycle[0] == cycle[|cycle| - 1] && IsChain(apps, cycle)
  }

  /** Whatever the services and the dependencies: every application is initialized at most once,
      behind all its dependencies, and none that is part of a cycle is ever initialized. */
  lemma LoaderOrder(apps: Apps, threads: nat, services: seq<string>)
    ensures var order := StartServices(apps, threads, AllRegistered(apps), services).0.order;
            Ordered(apps, order) && forall cycle :: IsCycle(apps, cycle) ==> cycle[0] !in order
  {
    StartKeepsInv(apps, threads, AllRegistered(apps), services);
    var order := StartServices(apps, threads, AllRegistered(apps), services).0.order;
    forall cycle | IsCycle(apps, cycle)
      ensures cycle[0] !in order
    {
      CycleIsNotOrdered(apps, order, cycle);
    }
  }

  lemma CycleIsNotOrdered(apps: Apps, order: seq<string>, cycle: seq<string>)
    requires Ordered(apps, order) && IsCycle(apps, cycle)
    ensures cycle[0] !in order
  {
    if cycle[0] in order {
      var at :| 0 <= at < |order| && order[at] == cycle[0];
      assert Fresh(order, at);
      assert forall end :: 0 <= end < at ==> order[end] in order[..at];
      var end := ChainGoesBack(apps, order, cycle, at);
    }
  }

  // ---------------------------------------------------------------- when loading succeeds

  /** A set of applications that holds all its dependencies, without cycles: the rank goes
      down with every dependency. */
  ghost predicate Grounded(apps: Apps, group: set<string>, rank: map<string, nat>) {
    forall s :: s in group ==>
      && s in apps && s in rank
      && forall d :: d in apps[s].deps ==> d in group && d in rank && rank[d] < rank[s]
  }

  /** Nothing of the group up to that rank is half initialized. */
  ghost predicate Clean(st: State, group: set<string>, rank: map<string, nat>, bound: nat) {
    forall s :: s in group && s in rank && s in st.status && rank[s] <= bound ==> st.status[s] != Initializing
  }

  /** Only applications of the group have changed, and they are all initialized. */
  ghost predicate OnlyFinished(st: State, st': State, group: set<string>, rank: map<string, nat>, bound: nat) {
    && st.status.Keys == st'.status.Keys
    && forall s :: s in st.status && st'.status[s] != st.status[s] ==>
         s in group && s in rank && rank[s] <= bound && st'.status[s] == Initialized
  }

  lemma {:induction false} GroundedLoads(apps: Apps, threads: nat, st: State, s: string, group: set<string>, rank: map<string, nat>)
    requires Consistent(apps, st) && Grounded(apps, group, rank) && s in group && Clean(st, group, rank, rank[s])
    ensures var (st', outcome) := Initialize(apps, threads, st, s);
            outcome == Found && st'.status[s] == Initialized && OnlyFinished(st, st', group, rank, rank[s])
    decreases rank[s], 1
  {
    if st.status[s] == Registered {
      var begun := Begin(st, s);
      AllGroundedLoad(apps, threads, begun, apps[s].deps, group, rank, rank[s]);
    }
  }

  lemma {:induction false} AllGroundedLoad(
    apps: Apps, threads: nat, st: State, deps: seq<string>, group: set<string>, rank: map<string, nat>, bound: nat)
    requires Consistent(apps, st) && Grounded(apps, group, rank)
    requires forall d :: d in deps ==> d in group && rank[d] < bound
    requires bound > 0 ==> Clean(st, group, rank, bound - 1)
    ensures var (st', outcome) := InitializeAll(apps, threads, st, deps);
            outcome == Found && (if bound > 0 then OnlyFinished(st, st', group, rank, bound - 1) else st' == st)
    decreases bound, 0, |deps|
  {
    if deps != [] {
      var d := deps[0];
      assert d in deps;
      GroundedLoads(apps, threads, st, d, group, rank);
      var (st', outcome) := Initialize(apps, threads, st, d);
      AllGroundedLoad(apps, threads, st', deps[1..], group, rank, bound);
    }
  }

  function Members(order: seq<string>): set<string> { set s | s in order }

  ghost predicate AllIn(services: seq<string>, group: set<string>) {
    forall s :: s in services ==> s in group
  }

  ghost predicate NoneHalfway(st: State, group: set<string>) {
    forall s :: s in group && s in st.status ==> st.status[s] != Initializing
  }

  lemma {:induction false} GroundedStarts(
    apps: Apps, threads: nat, st: State, services: seq<string>, group: set<string>, rank: map<string, nat>)
    requires Inv(apps, st) && Grounded(apps, group, rank) && AllIn(services, group) && NoneHalfway(st, group)
    requires forall s :: s in st.order ==> s in group
    ensures var (st', outcome) := StartServices(apps, threads, st, services);
            && outcome == Found
            && (forall s :: s in services ==> s in st'.order)
            && (forall s :: s in st'.order ==> s in group)
    decreases |services|
  {
    if services != [] {
      var s := services[0];
      assert s in services;
      GroundedLoads(apps, threads, st, s, group, rank);
      InitializeKeepsInv(apps, threads, st, s);
      var (st', outcome) := Initialize(apps, threads, st, s);
      assert AllIn(services[1..], group);
      GroundedStarts(apps, threads, st', services[1..], group, rank);
      StartKeepsInv(apps, threads, st', services[1..]);
    }
  }

  /** The order itself shows that what is in it is grounded. */
  lemma OrderIsGrounded(apps: Apps, order: seq<string>) returns (rank: map<string, nat>)
    requires Ordered(apps, order)
    ensures Grounded(apps, Members(order), rank)
  {
    rank := Ranks(order);
    forall s | s in order
      ensures s in apps && s in rank
      ensures forall d :: d in apps[s].deps ==> d in order && d in rank && rank[d] < rank[s]
    {
      RankIsPosition(order, s);
      var k := rank[s];
      assert DependsOnEarlier(apps, order, k);
      forall d | d in apps[s].deps
        ensures d in order && d in rank && rank[d] < rank[s]
      {
        var j :| 0 <= j < k && order[j] == d;
        RankIsPosition(order, d);
        RankIsLeast(order, d, j);
      }
    }
  }

  /** The first position of each entry. */
  function Ranks(order: seq<string>): map<string, nat> {
    if order == [] then map[]
    else
      var ranks, s := Ranks(order[..|order| - 1]), order[|order| - 1];
      if s in ranks then ranks else ranks[s := |order| - 1]
  }

  lemma {:induction false} RankIsPosition(order: seq<string>, s: string)
    ensures s in Ranks(order) <==> s in order
    ensures s in order ==> Ranks(order)[s] < |order| && order[Ranks(order)[s]] == s
  {
    if order != [] {
      RankIsPosition(order[..|order| - 1], s);
      assert order == order[..|order| - 1] + [order[|order| - 1]];
    }
  }

  lemma {:induction false} RankIsLeast(order: seq<string>, s: string, j: nat)
    requires j < |order| && order[j] == s && s in Ranks(order)
    ensures Ranks(order)[s] <= j
  {
    var init := order[..|order| - 1];
    RankIsPosition(init, s);
    if j < |order| - 1 {
      assert init[j] == s;
      RankIsLeast(init, s, j);
    } else if s in init {
    }
  }

  /** The configured services all get initialized exactly when they and all their dependencies,
      direct and indirect, are registered and free of cycles; and then nothing but those is
      initialized. */
  lemma LoadsIffGrounded(apps: Apps, threads: nat, services: seq<string>)
    ensures var (st, outcome) := StartServices(apps, threads, AllRegistered(apps), services);
            && (outcome == Found && AllIn(services, Members(st.order)) <==>
                exists group, rank :: Grounded(apps, group, rank) && AllIn(services, group))
            && (forall group, rank :: Grounded(apps, group, rank) && AllIn(services, group) ==>
                  forall s :: s in st.order ==> s in group)
  {
    var start := AllRegistered(apps);
    var (st, outcome) := StartServices(apps, threads, start, services);
    StartKeepsInv(apps, threads, start, services);
    forall group, rank | Grounded(apps, group, rank) && AllIn(services, group)
      ensures outcome == Found && AllIn(services, Members(st.order))
      ensures forall s :: s in st.order ==> s in group
    {
      GroundedStarts(apps, threads, start, services, group, rank);
    }
    if outcome == Found && AllIn(services, Members(st.order)) {
      var rank := OrderIsGrounded(apps, st.order);
    }
  }

  lemma {:induction false} StaysClear(apps: Apps, threads: nat, st: State, s: string, group: set<string>, rank: map<string, nat>)
    requires Consistent(apps, st) && Grounded(apps, group, rank) && NoneHalfway(st, group)
    ensures NoneHalfway(Initialize(apps, threads, st, s).0, group)
    decreases |Waiting(st)|, 0
  {
    if s in st.status && st.status[s] == Registered {
      if s in group {
        GroundedLoads(apps, threads, st, s, group, rank);
      } else {
        BeginWaits(st, s);
        AllStayClear(apps, threads, Begin(st, s), apps[s].deps, group, rank);
      }
    }
  }

  lemma {:induction false} AllStayClear(
    apps: Apps, threads: nat, st: State, deps: seq<string>, group: set<string>, rank: map<string, nat>)
    requires Consistent(apps, st) && Grounded(apps, group, rank) && NoneHalfway(st, group)
    ensures NoneHalfway(InitializeAll(apps, threads, st, deps).0, group)
    decreases |Waiting(st)|, |deps| + 1
  {
    if deps != [] {
      StaysClear(apps, threads, st, deps[0], group, rank);
      var (st', outcome) := Initialize(apps, threads, st, deps[0]);
      FewerWait(st, st');
      if outcome == Found && st'.status[deps[0]] != Initializing {
        AllStayClear(apps, threads, st', deps[1..], group, rank);
      }
    }
  }

  /** A service that could be loaded alone is loaded, whatever services stand before or behind it,
      unless the process was ended. */
  lemma {:induction false} OthersDoNotMatter(
    apps: Apps, threads: nat, st: State, services: seq<string>, s: string, group: set<string>, rank: map<string, nat>)
    requires Inv(apps, st) && Grounded(apps, group, rank) && s in group && NoneHalfway(st, group)
    requires s in services && StartServices(apps, threads, st, services).1 != Fatal
    ensures s in StartServices(apps, threads, st, services).0.order
    decreases |services|
  {
    var st' := Initialize(apps, threads, st, services[0]).0;
    InitializeKeepsInv(apps, threads, st, services[0]);
    if services[0] == s {
      GroundedLoads(apps, threads, st, s, group, rank);
      StartKeepsInv(apps, threads, st', services[1..]);
    } else {
      StaysClear(apps, threads, st, services[0], group, rank);
      OthersDoNotMatter(apps, threads, st', services[1..], s, group, rank);
    }
  }

  // ---------------------------------------------------------------- order of independent applications

  /** Registered applications without dependencies, no two the same. */
  ghost predicate Leaves(apps: Apps, st: State, group: seq<string>) {
    && (forall k :: 0 <= k < |group| ==> group[k] in st.status && st.status[group[k]] == Registered)
    && (forall k :: 0 <= k < |group| ==> group[k] in apps && apps[group[k]].deps == [])
    && (forall j, k :: 0 <= j < k < |group| ==> group[j] != group[k])
  }

  lemma OneLeaf(apps: Apps, threads: nat, st: State, group: seq<string>)
    requires Consistent(apps, st) && group != [] && Leaves(apps, st, group)
    ensures var (st', outcome) := Initialize(apps, threads, st, group[0]);
            outcome == Found && st'.order == st.order + [group[0]] && st'.status[group[0]] == Initialized && Leaves(apps, st', group[1..])
  {
  }

  /** Applications that do not depend on each other are initialized in the order in which they are
      named, as dependencies and as services. */
  lemma {:induction false} NamedOrder(apps: Apps, threads: nat, st: State, group: seq<string>)
    requires Consistent(apps, st) && Leaves(apps, st, group)
    ensures InitializeAll(apps, threads, st, group).1 == StartServices(apps, threads, st, group).1 == Found
    ensures InitializeAll(apps, threads, st, group).0.order == StartServices(apps, threads, st, group).0.order == st.order + group
    decreases |group|
  {
    if group != [] {
      OneLeaf(apps, threads, st, group);
      var st' := Initialize(apps, threads, st, group[0]).0;
      NamedOrder(apps, threads, st', group[1..]);
      assert st.order + [group[0]] + group[1..] == st.order + group;
    }
  }

  // ---------------------------------------------------------------- threads

  function Unpinned(apps: Apps, threads: nat, order: seq<string>): nat {
    if order == [] then 0
    else
      var s := order[|order| - 1];
      Unpinned(apps, threads, order[..|order| - 1]) +
      if s in apps && 0 <= apps[s].pin < threads then 0 else 1
  }

  /** A pinned application runs where it is pinned to; the others go round the threads in the
      order of their initialization. */
  ghost predicate RoundRobin(apps: Apps, threads: nat, st: State)
    requires threads > 0
  {
    && |st.placed| == |st.order|
    && st.lastThread == Unpinned(apps, threads, st.order) % threads
    && forall k :: 0 <= k < |st.order| ==> PlacedAt(apps, threads, st, k)
  }

  ghost predicate PlacedAt(apps: Apps, threads: nat, st: State, k: nat)
    requires threads > 0 && k < |st.order| && k < |st.placed|
  {
    var s := st.order[k];
    st.placed[k] == if s in apps && 0 <= apps[s].pin < threads then apps[s].pin
                    else Unpinned(apps, threads, st.order[..k]) % threads
  }

  lemma NextThread(n: nat, threads: nat)
    requires threads > 0
    ensures (n + 1) % threads == if n % threads + 1 == threads then 0 else n % threads + 1
  {
    var q, r := n / threads, n % threads;
    if r + 1 == threads {
      assert n + 1 == threads * (q + 1);
      RemainderIs(n + 1, threads, q + 1, 0);
    } else {
      RemainderIs(n + 1, threads, q, r + 1);
    }
  }

  lemma RemainderIs(n: int, t: int, q: int, r: int)
    requires 0 <= r < t && n == t * q + r
    ensures n % t == r
  {
    var d := n / t - q;
    Stretch(t, d);
    assert t * d == t * (n / t) - t * q;
  }

  lemma Stretch(t: int, d: int)
    requires t > 0
    ensures d >= 1 ==> t * d >= t
    ensures d <= -1 ==> t * d <= -t
  {
  }

  lemma FinishPlaces(apps: Apps, threads: nat, st: State, s: string)
    requires threads > 0 && RoundRobin(apps, threads, st) && s in apps
    ensures RoundRobin(apps, threads, Finish(apps, threads, st, s))
  {
    var st' := Finish(apps, threads, st, s);
    assert st'.order[..|st.order|] == st.order;
    NextThread(Unpinned(apps, threads, st.order), threads);
    forall k | 0 <= k < |st'.order|
      ensures PlacedAt(apps, threads, st', k)
    {
      assert st'.order[..k] == st.order[..k];
      if k < |st.order| { assert PlacedAt(apps, threads, st, k); }
      else { assert st.order[..k] == st.order; }
    }
  }

  lemma {:induction false} InitializePlaces(apps: Apps, threads: nat, st: State, s: string)
    requires threads > 0 && Consistent(apps, st) && RoundRobin(apps, threads, st)
    ensures RoundRobin(apps, threads, Initialize(apps, threads, st, s).0)
    decreases |Waiting(st)|, 0
  {
    if s in st.status && st.status[s] == Registered {
      BeginWaits(st, s);
      var begun := Begin(st, s);
      forall k | 0 <= k < |st.order|
        ensures PlacedAt(apps, threads, begun, k)
      {
        assert PlacedAt(apps, threads, st, k);
      }
      InitializeAllPlaces(apps, threads, begun, apps[s].deps);
      var (st', outcome) := InitializeAll(apps, threads, begun, apps[s].deps);
      if outcome == Found { FinishPlaces(apps, threads, st', s); }
    }
  }

  lemma {:induction false} InitializeAllPlaces(apps: Apps, threads: nat, st: State, deps: seq<string>)
    requires threads > 0 && Consistent(apps, st) && RoundRobin(apps, threads, st)
    ensures RoundRobin(apps, threads, InitializeAll(apps, threads, st, deps).0)
    decreases |Waiting(st)|, |deps| + 1
  {
    if deps != [] {
      InitializePlaces(apps, threads, st, deps[0]);
      var (st', outcome) := Initialize(apps, threads, st, deps[0]);
      FewerWait(st, st');
      if outcome == Found && st'.status[deps[0]] != Initializing {
        InitializeAllPlaces(apps, threads, st', deps[1..]);
      }
    }
  }

  lemma {:induction false} StartIsRoundRobin(apps: Apps, threads: nat, st: State, services: seq<string>)
    requires threads > 0 && Consistent(apps, st) && RoundRobin(apps, threads, st)
    ensures RoundRobin(apps, threads, StartServices(apps, threads, st, services).0)
    decreases |services|
  {
    if services != [] {
      InitializePlaces(apps, threads, st, services[0]);
      var (st', outcome) := Initialize(apps, threads, st, services[0]);
      if outcome != Fatal { StartIsRoundRobin(apps, threads, st', services[1..]); }
    }
  }
}
