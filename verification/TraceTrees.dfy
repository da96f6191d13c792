/** The trace tree: lookup, and growth by the events of a traced run (maple/TraceTree.cc).

    The original tracer holds a vector of pointers into the tree; here an address is the
    sequence of branches taken from the root, and `Put` writes through it.  */
module TraceTrees {
  import opened Basics
  import opened Oxm

  type FlowId = nat

  datatype Node =
    | Unexplored
    | FlowNode(flow: FlowId)
    | TestNode(need: Field, positive: Node, negative: Node)
    | LoadNode(mask: Mask, cases: map<Bits, Node>)

  /** What the traced packet reports: bits it read, or a test and its answer. */
  datatype Event = LoadEvent(data: Field) | TestEvent(pred: Field, ret: bool)

  datatype Branch = Case(value: Bits) | Positive | Negative

  // ---------------------------------------------------------------- lookup

  /** The flow stored at the leaf the packet reaches, expired or not. */
  function Leaf(node: Node, p: Packet): Option<FlowId> {
    match node
    case Unexplored => None
    case FlowNode(f) => Some(f)
    case TestNode(need, pos, neg) => if p.Test(need) then Leaf(pos, p) else Leaf(neg, p)
    case LoadNode(mask, cases) =>
      var v := p.Load(mask).value;
      if v in cases then Leaf(cases[v], p) else None
  }

  /** `Lookup`: a leaf whose flow has been released gives no flow. */
  function Lookup(node: Node, p: Packet, alive: set<FlowId>): Option<FlowId> {
    var leaf := Leaf(node, p);
    if leaf.Some? && leaf.value in alive then leaf else None
  }

  function Flows(node: Node): set<FlowId> {
    match node
    case Unexplored => {}
    case FlowNode(f) => {f}
    case TestNode(_, pos, neg) => Flows(pos) + Flows(neg)
    case LoadNode(_, cases) => set v, f | v in cases && f in Flows(cases[v]) :: f
  }

  // ---------------------------------------------------------------- one event at one node

  function BranchOf(e: Event): Branch {
    match e
    case LoadEvent(data) => Case(data.value)
    case TestEvent(_, ret) => if ret then Positive else Negative
  }

  predicate HasChild(node: Node, b: Branch) {
    match b
    case Case(v) => node.LoadNode? && v in node.cases
    case Positive => node.TestNode?
    case Negative => node.TestNode?
  }

  function Child(node: Node, b: Branch): Node
    requires HasChild(node, b)
  {
    match b
    case Case(v) => node.cases[v]
    case Positive => node.positive
    case Negative => node.negative
  }

  function SetChild(node: Node, b: Branch, child: Node): (r: Node)
    requires HasChild(node, b)
    ensures HasChild(r, b) && Child(r, b) == child
  {
    match b
    case Case(v) => node.(cases := node.cases[v := child])
    case Positive => node.(positive := child)
    case Negative => node.(negative := child)
  }

  /** The node after an event is recorded at it; none when the trace is inconsistent with it. */
  function Extend(node: Node, e: Event): (r: Option<Node>)
    ensures r.Some? ==> HasChild(r.value, BranchOf(e))
  {
    match e
    case LoadEvent(data) => (
      match node
      case Unexplored => Some(LoadNode(MaskOf(data), map[data.value := Unexplored]))
      case LoadNode(mask, cases) =>
        if mask != MaskOf(data) then None
        else if data.value in cases then Some(node)
        else Some(LoadNode(mask, cases[data.value := Unexplored]))
      case _ => None)
    case TestEvent(pred, ret) => (
      match node
      case Unexplored => Some(TestNode(pred, Unexplored, Unexplored))
      case TestNode(need, _, _) => if need != pred then None else Some(node)
      case _ => None)
  }

  function Close(node: Node, flow: FlowId): Option<Node> {
    if node.Unexplored? || node.FlowNode? then Some(FlowNode(flow)) else None
  }

  // ---------------------------------------------------------------- a whole run

  /** The tree after a run's events, and its flow if the run finished. */
  function Graft(node: Node, events: seq<Event>, finish: Option<FlowId>): Option<Node>
    decreases |events|
  {
    if events == [] then
      if finish.None? then Some(node) else Close(node, finish.value)
    else
      var b := BranchOf(events[0]);
      match Extend(node, events[0])
      case None => None
      case Some(n) =>
        match Graft(Child(n, b), events[1..], finish)
        case None => None
        case Some(child) => Some(SetChild(n, b, child))
  }

  /** The packet would give the same answers. */
  predicate Follows(events: seq<Event>, p: Packet) {
    forall i :: 0 <= i < |events| ==> Answers(events[i], p)
  }

  predicate Answers(e: Event, p: Packet) {
    match e
    case LoadEvent(data) => p.Load(MaskOf(data)) == data
    case TestEvent(pred, ret) => p.Test(pred) == ret
  }

  /** Recording a run redirects exactly the packets that share its trace. */
  lemma {:induction false} GraftRedirectsFollowers(node: Node, events: seq<Event>, flow: FlowId, p: Packet)
    requires Graft(node, events, Some(flow)).Some?
    ensures Leaf(Graft(node, events, Some(flow)).value, p) ==
            if Follows(events, p) then Some(flow) else Leaf(node, p)
    decreases |events|
  {
    if events != [] {
      var e := events[0];
      var n := Extend(node, e).value;
      GraftRedirectsFollowers(Child(n, BranchOf(e)), events[1..], flow, p);
      FollowsCons(events, p);
      LoadedValueDecides(e, p);
    }
  }

  /** A run that stops before it finishes changes the answer for no packet. */
  lemma {:induction false} UnfinishedGraftIsInvisible(node: Node, events: seq<Event>, p: Packet)
    requires Graft(node, events, None).Some?
    ensures Leaf(Graft(node, events, None).value, p) == Leaf(node, p)
    decreases |events|
  {
    if events != [] {
      var n := Extend(node, events[0]).value;
      UnfinishedGraftIsInvisible(Child(n, BranchOf(events[0])), events[1..], p);
    }
  }

  lemma FollowsCons(events: seq<Event>, p: Packet)
    requires events != []
    ensures Follows(events, p) <==> Answers(events[0], p) && Follows(events[1..], p)
  {
  }

  /** For a load, having the reported value is being sent down the reported case. */
  lemma LoadedValueDecides(e: Event, p: Packet)
    ensures e.LoadEvent? ==> (Answers(e, p) <==> p.Load(MaskOf(e.data)).value == e.data.value)
  {
  }

  // ---------------------------------------------------------------- addresses

  predicate HasNode(node: Node, path: seq<Branch>)
    decreases |path|
  {
    path == [] || (HasChild(node, path[0]) && HasNode(Child(node, path[0]), path[1..]))
  }

  function At(node: Node, path: seq<Branch>): Node
    requires HasNode(node, path)
    decreases |path|
  {
    if path == [] then node else At(Child(node, path[0]), path[1..])
  }

  function Put(node: Node, path: seq<Branch>, n: Node): Node
    requires HasNode(node, path)
    decreases |path|
  {
    if path == [] then n else SetChild(node, path[0], Put(Child(node, path[0]), path[1..], n))
  }

  function PathOf(events: seq<Event>): seq<Branch> {
    seq(|events|, i requires 0 <= i < |events| => BranchOf(events[i]))
  }

  /** Growing the tree one event at a time, at the end of the path, is grafting the run. */
  lemma {:induction false} GraftOneMore(node: Node, events: seq<Event>, e: Event)
    requires Graft(node, events, None).Some?
    ensures var r := Graft(node, events, None).value; var path := PathOf(events);
            && HasNode(r, path)
            && Graft(node, events + [e], None) ==
               match Extend(At(r, path), e)
               case None => None
               case Some(n) => Some(Put(r, path, n))
    decreases |events|
  {
    var r, path := Graft(node, events, None).value, PathOf(events);
    if events == [] {
      assert events + [e] == [e];
      assert [e][1..] == [];
      if Extend(node, e).Some? {
        var n := Extend(node, e).value;
        assert SetChild(n, BranchOf(e), Child(n, BranchOf(e))) == n;
      }
    } else {
      var b := BranchOf(events[0]);
      GraftOneMore(Child(Extend(node, events[0]).value, b), events[1..], e);
      assert (events + [e])[1..] == events[1..] + [e];
      assert path[1..] == PathOf(events[1..]);
      SetChildTwice(Extend(node, events[0]).value, b);
    }
  }

  lemma {:induction false} GraftFinish(node: Node, events: seq<Event>, flow: FlowId)
    requires Graft(node, events, None).Some?
    ensures var r := Graft(node, events, None).value; var path := PathOf(events);
            && HasNode(r, path)
            && Graft(node, events, Some(flow)) ==
               match Close(At(r, path), flow)
               case None => None
               case Some(n) => Some(Put(r, path, n))
    decreases |events|
  {
    if events != [] {
      var b := BranchOf(events[0]);
      GraftFinish(Child(Extend(node, events[0]).value, b), events[1..], flow);
      assert PathOf(events)[1..] == PathOf(events[1..]);
      SetChildTwice(Extend(node, events[0]).value, b);
    }
  }

  lemma SetChildTwice(node: Node, b: Branch)
    requires HasChild(node, b)
    ensures forall c, d :: SetChild(SetChild(node, b, c), b, d) == SetChild(node, b, d)
  {
  }

  // ---------------------------------------------------------------- the mutable tree and its tracer

  class TraceTree {
    var root: Node

    constructor ()
      ensures root == Unexplored
    {
      root := Unexplored;
    }
  }

  /** The tracer of one run.  The ghost fields record the tree it started from and the
      events it has accepted.  A method that answers false stands for a thrown
      `inconsistent_trace`.  */
  class Tracer {
    const tree: TraceTree
    var path: seq<Branch>
    ghost const start: Node
    ghost var events: seq<Event>

    ghost predicate Valid()
      reads this, tree
    {
      && path == PathOf(events)
      && Graft(start, events, None) == Some(tree.root)
      && HasNode(tree.root, path)
    }

    constructor (tree: TraceTree)
      ensures this.tree == tree && start == tree.root && events == []
      ensures Valid()
    {
      this.tree := tree;
      path := [];
      start := tree.root;
      events := [];
    }

    method Load(data: Field) returns (ok: bool)
      requires Valid()
      modifies this, tree
      ensures ok <==> Graft(start, old(events) + [LoadEvent(data)], None).Some?
      ensures ok ==> Valid() && events == old(events) + [LoadEvent(data)]
    {
      GraftOneMore(start, events, LoadEvent(data));
      var here := At(tree.root, path);
      if here.Unexplored? {
        tree.root := Put(tree.root, path, LoadNode(MaskOf(data), map[data.value := Unexplored]));
      } else if here.LoadNode? {
        if here.mask != MaskOf(data) {
          return false;
        }
        if data.value !in here.cases {
          tree.root := Put(tree.root, path, here.(cases := here.cases[data.value := Unexplored]));
        } else {
          PutSame(tree.root, path);
        }
      } else {
        return false;
      }
      Advance(LoadEvent(data));
      return true;
    }

    method Test(pred: Field, ret: bool) returns (ok: bool)
      requires Valid()
      modifies this, tree
      ensures ok <==> Graft(start, old(events) + [TestEvent(pred, ret)], None).Some?
      ensures ok ==> Valid() && events == old(events) + [TestEvent(pred, ret)]
    {
      GraftOneMore(start, events, TestEvent(pred, ret));
      var here := At(tree.root, path);
      if here.Unexplored? {
        tree.root := Put(tree.root, path, TestNode(pred, Unexplored, Unexplored));
      } else if here.TestNode? {
        if here.need != pred {
          return false;
        }
        PutSame(tree.root, path);
      } else {
        return false;
      }
      Advance(TestEvent(pred, ret));
      return true;
    }

    method Advance(e: Event)
      requires Graft(start, events + [e], None) == Some(tree.root)
      requires path == PathOf(events)
      modifies this
      ensures Valid() && events == old(events) + [e]
    {
      GraftOneMore(start, events + [e], e);
      path := path + [BranchOf(e)];
      events := events + [e];
      assert path == PathOf(events);
    }

    method Finish(flow: FlowId) returns (ok: bool)
      requires Valid()
      modifies this, tree
      ensures ok <==> Graft(start, old(events), Some(flow)).Some?
      ensures ok ==> Graft(start, old(events), Some(flow)) == Some(tree.root)
      ensures events == old(events)
    {
      GraftFinish(start, events, flow);
      var here := At(tree.root, path);
      if here.Unexplored? || here.FlowNode? {
        tree.root := Put(tree.root, path, FlowNode(flow));
        return true;
      }
      return false;
    }
  }

  lemma {:induction false} PutSame(node: Node, path: seq<Branch>)
    requires HasNode(node, path)
    ensures Put(node, path, At(node, path)) == node
    decreases |path|
  {
    if path != [] {
      PutSame(Child(node, path[0]), path[1..]);
      assert SetChild(node, path[0], Child(node, path[0])) == node by {
        if path[0].Case? {
          assert node.cases[path[0].value := node.cases[path[0].value]] == node.cases;
        }
      }
    }
  }
}
