/** Policies and their traced runs (maple/Runtime.hh:36-61, api/Packet.hh:29-48).

    A policy is any deterministic program whose only inputs are the answers of its packet:
    a function from the answers so far to the next action.  A run performs at most a given
    number of actions, so a policy that never returns is covered, and so is a run that is
    cut short anywhere.  */
module Policies {
  import opened Oxm
  import opened FieldSets
  import opened TraceTrees
  import opened Tracing
  import opened Machines

  datatype Action = Do(op: PacketOp) | Decide(decision: Decision) | Throw

  type Policy = seq<Answer> -> Action

  // ---------------------------------------------------------------- runs

  /** At most n actions of the policy on a packet: what the tracer is told, and the end. */
  function RunOn<S>(impl: PacketImpl<S>, policy: Policy, h: seq<Answer>, s: S, n: nat): (seq<Event>, Outcome)
    decreases n
  {
    if n == 0 then ([], Running)
    else
      match policy(h)
      case Decide(d) => ([], Decided(d))
      case Throw => ([], Threw)
      case Do(op) =>
        var r := impl(s, op);
        var (events, outcome) := RunOn(impl, policy, h + [r.answer], r.next, n - 1);
        (r.events + events, outcome)
  }

  /** The policy on a plain packet: the reference. */
  function BareRun(policy: Policy, p: Packet, n: nat): Outcome {
    RunOn(PLAIN, policy, [], p, n).1
  }

  /** The policy on a packet under trace. */
  function TracedRun(policy: Policy, p: Packet, n: nat): (seq<Event>, Outcome) {
    RunOn(TRACED, policy, [], Traced(map[], p), n)
  }

  /** Once a run has ended, more time changes nothing. */
  lemma {:induction false} EndedRunIsFinal<S>(impl: PacketImpl<S>, policy: Policy, h: seq<Answer>, s: S, n: nat, m: nat)
    requires n <= m && !RunOn(impl, policy, h, s, n).1.Running?
    ensures RunOn(impl, policy, h, s, m) == RunOn(impl, policy, h, s, n)
    decreases n
  {
    if policy(h).Do? {
      var r := impl(s, policy(h).op);
      EndedRunIsFinal(impl, policy, h + [r.answer], r.next, n - 1, m - 1);
    }
  }

  /** Packet implementations that answer alike run every policy alike. */
  lemma {:induction false} AlikeRuns<S(!new), T(!new)>(
    a: PacketImpl<S>, b: PacketImpl<T>, alike: (S, T) -> bool, policy: Policy, h: seq<Answer>, s: S, t: T, n: nat)
    requires Alike(a, b, alike)
    requires alike(s, t)
    ensures RunOn(a, policy, h, s, n).1 == RunOn(b, policy, h, t, n).1
    decreases n
  {
    if n > 0 && policy(h).Do? {
      var op := policy(h).op;
      assert AlikeAt(a, b, alike, s, t, op);
      AlikeRuns(a, b, alike, policy, h + [a(s, op).answer], a(s, op).next, b(t, op).next, n - 1);
    }
  }

  // ---------------------------------------------------------------- the policy as a machine

  /** What the policy does next, as far as its answers and the cache tell: an operation the
      cache can answer is quiet, any other asks for exactly the bits the cache lacks. */
  function MoveOf(policy: Policy, x: View): Move {
    match policy(x.answers)
    case Decide(d) => Conclude(d)
    case Throw => Abort
    case Do(op) => MoveOfOp(op, x)
  }

  function MoveOfOp(op: PacketOp, x: View): Move {
    match op
    case Load(m) => MoveOfLoad(m, x)
    case Test(need) => MoveOfTest(need, x)
    case Modify(patch) => Quiet(Told(x, Modified, ModifyIn(x.cache, patch)))
  }

  function MoveOfLoad(m: Mask, x: View): Move {
    var unseen := UnseenMask(x.cache, m);
    if NoneSet(unseen.bits) then Quiet(Told(x, Loaded(LoadFrom(x.cache, m)), x.cache))
    else AskLoad(unseen, (data: Field) => ToldBits(x, m, data))
  }

  function ToldBits(x: View, m: Mask, data: Field): View {
    Told(x, Loaded(Complete(x.cache, m, data)), ModifyIn(x.cache, data))
  }

  /** The requested bits: those in the cache, completed by newly read ones. */
  function Complete(c: Entries, m: Mask, data: Field): Field {
    if data.t == m.t then Rewrite(LoadFrom(c, m), data) else data
  }

  function MoveOfTest(need: Field, x: View): Move {
    var rest := Widen(need, UnseenMask(x.cache, MaskOf(need)));
    if !MatchFields(LoadFrom(x.cache, MaskOf(need)), need) then Quiet(Told(x, Tested(false), x.cache))
    else if Wildcard(rest) then Quiet(Told(x, Tested(true), x.cache))
    else AskTest(rest, Told(x, Tested(true), ModifyIn(x.cache, rest)), Told(x, Tested(false), x.cache))
  }

  function Told(x: View, a: Answer, cache: Entries): View { View(x.answers + [a], cache) }

  function MachineOf(policy: Policy): Machine { x => MoveOf(policy, x) }

  lemma SilentLoad(s: Traced, original: Packet, m: Mask)
    requires InSync(s, original)
    requires NoneSet(UnseenMask(s.cache, m).bits)
    ensures s.pkt.Load(m) == LoadFrom(s.cache, m)
  {
    var read, explored := s.pkt.Load(m), LoadFrom(s.cache, m);
    forall i | 0 <= i < m.t.nbits
      ensures explored.mask[i] == m.bits[i]
      ensures m.bits[i] ==> explored.value[i] == read.value[i]
    {
      UnseenMaskBits(s.cache, m, i);
      LoadBits(s.cache, m, i);
    }
    assert explored.mask == m.bits;
    FieldExtensional(read, explored);
  }

  /** One move of a machine on a packet. */
  predicate Moves(move: Move, p: Packet, events: seq<Event>, y: View) {
    match move
    case Conclude(_) => false
    case Abort => false
    case Quiet(next) => events == [] && y == next
    case AskLoad(mask, loaded) => events == [LoadEvent(p.Load(mask))] && y == loaded(p.Load(mask))
    case AskTest(need, yes, no) =>
      events == [TestEvent(need, p.Test(need))] && y == if p.Test(need) then yes else no
  }

  lemma LoadIsMove(s: Traced, original: Packet, m: Mask, h: seq<Answer>)
    requires InSync(s, original)
    ensures var r := TracedLoad(s, m);
            Moves(MoveOfLoad(m, View(h, s.cache)), original, r.events, View(h + [r.answer], r.next.cache))
  {
    UnexploredIsOriginal(s, original, m);
    if NoneSet(UnseenMask(s.cache, m).bits) {
      SilentLoad(s, original, m);
    } else {
      LoadFromParts(s, original, m);
    }
  }

  lemma TestIsMove(s: Traced, original: Packet, need: Field, h: seq<Answer>)
    requires InSync(s, original)
    ensures var r := TracedTest(s, need);
            Moves(MoveOfTest(need, View(h, s.cache)), original, r.events, View(h + [r.answer], r.next.cache))
  {
    UnseenTestIsOriginal(s, original, need);
  }

  /** An operation on the traced packet is a move of the machine on the original packet. */
  lemma StepIsMove(s: Traced, original: Packet, op: PacketOp, h: seq<Answer>)
    requires InSync(s, original)
    ensures var r := TracedStep(s, op);
            Moves(MoveOfOp(op, View(h, s.cache)), original, r.events, View(h + [r.answer], r.next.cache))
  {
    match op
    case Load(m) => LoadIsMove(s, original, m, h);
    case Test(need) => TestIsMove(s, original, need, h);
    case Modify(_) =>
  }

  /** The traced run of a policy ends as the untraced run does. */
  lemma TracedRunIsBareRun(policy: Policy, p: Packet, n: nat)
    ensures TracedRun(policy, p, n).1 == BareRun(policy, p, n)
  {
    var alike := Mirror(p);
    TracedIsPlain(p);
    assert InSync(Traced(map[], p), p);
    AlikeRuns(TRACED, PLAIN, alike, policy, [], Traced(map[], p), p, n);
  }

  /** From a state that satisfies the invariant, the policy's next action is the machine's
      next move. */
  ghost predicate MirrorsAt<S>(impl: PacketImpl<S>, inv: S -> bool, cache: S -> Entries,
                               policy: Policy, machine: Machine, p: Packet, h: seq<Answer>, s: S) {
    inv(s) ==>
      var move := machine(View(h, cache(s)));
      match policy(h)
      case Decide(d) => move == Conclude(d)
      case Throw => move == Abort
      case Do(op) =>
        var r := impl(s, op);
        inv(r.next) && Moves(move, p, r.events, View(h + [r.answer], cache(r.next)))
  }

  lemma {:induction false} MirroredRun<S(!new)>(
    impl: PacketImpl<S>, inv: S -> bool, cache: S -> Entries, policy: Policy, machine: Machine, p: Packet,
    h: seq<Answer>, s: S, n: nat)
    requires forall h, s :: MirrorsAt(impl, inv, cache, policy, machine, p, h, s)
    requires inv(s)
    ensures RunOn(impl, policy, h, s, n) == Run(machine, View(h, cache(s)), p, n)
    decreases n
  {
    if n > 0 {
      assert MirrorsAt(impl, inv, cache, policy, machine, p, h, s);
      if policy(h).Do? {
        var r := impl(s, policy(h).op);
        MirroredRun(impl, inv, cache, policy, machine, p, h + [r.answer], r.next, n - 1);
        MoveThenRun(machine, View(h, cache(s)), p, n, r.events, View(h + [r.answer], cache(r.next)));
      }
    }
  }

  /** The traced run of a policy is a run of its machine on the original packet: the packet
      is only ever read through the trace. */
  lemma TracedRunIsMachineRun(policy: Policy, p: Packet, n: nat)
    ensures TracedRun(policy, p, n) == Run(MachineOf(policy), View([], map[]), p, n)
  {
    var inv := (s: Traced) => InSync(s, p);
    var cache := (s: Traced) => s.cache;
    forall h, s
      ensures MirrorsAt(TRACED, inv, cache, policy, MachineOf(policy), p, h, s)
    {
      if InSync(s, p) && policy(h).Do? {
        StepKeepsSync(s, p, policy(h).op);
        StepIsMove(s, p, policy(h).op, h);
      }
    }
    assert InSync(Traced(map[], p), p);
    MirroredRun(TRACED, inv, cache, policy, MachineOf(policy), p, [], Traced(map[], p), n);
  }

  lemma MoveThenRun(machine: Machine, x: View, p: Packet, n: nat, events: seq<Event>, y: View)
    requires n > 0 && Moves(machine(x), p, events, y)
    ensures Run(machine, x, p, n) == (events + Run(machine, y, p, n - 1).0, Run(machine, y, p, n - 1).1)
  {
    assert [] + Run(machine, y, p, n - 1).0 == Run(machine, y, p, n - 1).0;
  }

  lemma PolicyAsksUnseen(policy: Policy)
    ensures AsksUnseen(MachineOf(policy))
  {
    forall x: View
      ensures MoveIsUnseen(x, MachineOf(policy)(x))
    {
      if policy(x.answers).Do? { OpAsksUnseen(policy(x.answers).op, x); }
    }
  }

  lemma OpAsksUnseen(op: PacketOp, x: View)
    ensures MoveIsUnseen(x, MoveOfOp(op, x))
  {
    match op
    case Load(m) => LoadAsksUnseen(m, x);
    case Test(need) => TestAsksUnseen(need, x);
    case Modify(patch) =>
      forall t, i | Known(x.cache, t, i)
        ensures Known(ModifyIn(x.cache, patch), t, i)
      {
        ModifyKnown(x.cache, patch, t, i);
      }
  }

  lemma LoadAsksUnseen(m: Mask, x: View)
    ensures MoveIsUnseen(x, MoveOfLoad(m, x))
  {
  }

  lemma TestAsksUnseen(need: Field, x: View)
    ensures MoveIsUnseen(x, MoveOfTest(need, x))
  {
    var unseen := UnseenMask(x.cache, MaskOf(need));
    UnseenIsUntouched(x.cache, MaskOf(need));
    assert Widen(need, unseen).mask == unseen.bits;
  }

  lemma UnseenIsUntouched(c: Entries, m: Mask)
    ensures Untouched(c, UnseenMask(c, m))
  {
  }
}
