/** The traced packet (maple/TraceablePacketImpl.cc).

    It answers like the packet it wraps, keeps a cache of the bits that were explored or
    overwritten, and reports to the tracer only bits that the cache does not hold.  */
module Tracing {
  import opened Basics
  import opened Oxm
  import opened FieldSets
  import opened TraceTrees

  /** The operations a policy may perform on its packet. */
  datatype PacketOp = Load(mask: Mask) | Test(need: Field) | Modify(patch: Field)

  datatype Answer = Loaded(field: Field) | Tested(ret: bool) | Modified

  /** A packet under trace: the cache and the current state of the wrapped packet. */
  datatype Traced = Traced(cache: Entries, pkt: Packet)

  /** The result of one operation on a packet with state S, and what it told the tracer. */
  datatype Step<S> = Step(answer: Answer, events: seq<Event>, next: S)

  // ---------------------------------------------------------------- what the operations do

  function BareAnswer(op: PacketOp, p: Packet): Answer {
    match op
    case Load(m) => Loaded(p.Load(m))
    case Test(need) => Tested(p.Test(need))
    case Modify(patch) => Modified
  }

  function BareNext(op: PacketOp, p: Packet): Packet {
    if op.Modify? then p.Modify(op.patch) else p
  }

  function BareStep(p: Packet, op: PacketOp): Step<Packet> { Step(BareAnswer(op, p), [], BareNext(op, p)) }

  /** The requested bits of the packet that the cache does not hold. */
  function UnexploredPart(s: Traced, m: Mask): (f: Field)
    ensures f.t == m.t
  {
    Widen(s.pkt.Load(m), Complement(MaskOf(LoadFrom(s.cache, m))))
  }

  function TracedLoad(s: Traced, m: Mask): Step<Traced> {
    var read := s.pkt.Load(m);
    var unexplored := UnexploredPart(s, m);
    if Wildcard(unexplored) then Step(Loaded(read), [], s)
    else Step(Loaded(read), [LoadEvent(unexplored)], s.(cache := ModifyIn(s.cache, unexplored)))
  }

  function TracedTest(s: Traced, need: Field): Step<Traced> {
    var m := MaskOf(need);
    var unexplored := UnexploredPart(s, m);
    if !MatchFields(LoadFrom(s.cache, m), need) then Step(Tested(false), [], s)
    else if Wildcard(unexplored) then Step(Tested(true), [], s)
    else
      var ret := MatchFields(unexplored, need);
      var e := TestEvent(Widen(need, MaskOf(unexplored)), ret);
      Step(Tested(ret), [e], if ret then s.(cache := ModifyIn(s.cache, unexplored)) else s)
  }

  function TracedStep(s: Traced, op: PacketOp): Step<Traced> {
    match op
    case Load(m) => TracedLoad(s, m)
    case Test(need) => TracedTest(s, need)
    case Modify(patch) => Step(Modified, [], Traced(ModifyIn(s.cache, patch), s.pkt.Modify(patch)))
  }

  // ---------------------------------------------------------------- the invariant of a trace

  /** The cache holds the current value of its bits; all other bits are still the original's. */
  ghost predicate InSync(s: Traced, original: Packet) {
    forall t: OxmType, i :: 0 <= i < t.nbits ==>
      s.pkt.bit(t, i) == if Known(s.cache, t, i) then s.cache[t].value[i] else original.bit(t, i)
  }

  /** The bits of a mask that a cache does not hold, whatever the packet. */
  function UnseenMask(c: Entries, m: Mask): Mask {
    RawMask.Mask(m.t, And(m.bits, Not(LoadFrom(c, m).mask)))
  }

  lemma UnseenMaskBits(c: Entries, m: Mask, i: int)
    requires 0 <= i < m.t.nbits
    ensures UnseenMask(c, m).bits[i] <==> m.bits[i] && !Known(c, m.t, i)
  {
  }

  /** What is reported is original packet data, on bits never explored or overwritten. */
  lemma UnexploredIsOriginal(s: Traced, original: Packet, m: Mask)
    requires InSync(s, original)
    ensures MaskOf(UnexploredPart(s, m)) == UnseenMask(s.cache, m)
    ensures UnexploredPart(s, m) == original.Load(UnseenMask(s.cache, m))
    ensures Untouched(s.cache, UnseenMask(s.cache, m))
  {
    var u, unseen := UnexploredPart(s, m), UnseenMask(s.cache, m);
    var explored := LoadFrom(s.cache, m);
    assert u.mask == unseen.bits;
    forall i | 0 <= i < m.t.nbits && unseen.bits[i]
      ensures !Known(s.cache, m.t, i)
      ensures u.value[i] == original.Load(unseen).value[i]
    {
      UnseenMaskBits(s.cache, m, i);
    }
    FieldExtensional(u, original.Load(unseen));
  }

  /** The answer to a load, assembled from the cache and the unseen bits. */
  lemma LoadFromParts(s: Traced, original: Packet, m: Mask)
    requires InSync(s, original)
    ensures s.pkt.Load(m) == Rewrite(LoadFrom(s.cache, m), original.Load(UnseenMask(s.cache, m)))
  {
    var explored, data := LoadFrom(s.cache, m), original.Load(UnseenMask(s.cache, m));
    var whole := Rewrite(explored, data);
    var read := s.pkt.Load(m);
    forall i | 0 <= i < m.t.nbits
      ensures whole.mask[i] == m.bits[i]
      ensures m.bits[i] ==> whole.value[i] == read.value[i]
    {
      RewriteBits(explored, data, i);
      UnseenMaskBits(s.cache, m, i);
      LoadBits(s.cache, m, i);
    }
    assert whole.mask == m.bits;
    FieldExtensional(whole, read);
  }

  /** A test holds exactly when both its explored and its unseen half hold. */
  lemma TestFromParts(s: Traced, original: Packet, need: Field)
    requires InSync(s, original)
    ensures s.pkt.Test(need) <==>
            && MatchFields(LoadFrom(s.cache, MaskOf(need)), need)
            && original.Test(Widen(need, UnseenMask(s.cache, MaskOf(need))))
  {
    var m := MaskOf(need);
    var explored, unseen := LoadFrom(s.cache, m), Widen(need, UnseenMask(s.cache, m));
    TestIffAgrees(s.pkt, need);
    TestIffAgrees(original, unseen);
    MatchFieldsBits(explored, need);
    forall i | 0 <= i < need.t.nbits
      ensures unseen.mask[i] <==> need.mask[i] && !Known(s.cache, need.t, i)
      ensures explored.mask[i] <==> need.mask[i] && Known(s.cache, need.t, i)
      ensures unseen.mask[i] ==> unseen.value[i] == need.value[i]
      ensures explored.mask[i] ==> explored.value[i] == s.pkt.bit(need.t, i)
    {
      UnseenMaskBits(s.cache, m, i);
      LoadBits(s.cache, m, i);
    }
  }

  /** The unexplored half of a test is decided by the original packet alone. */
  lemma UnseenTestIsOriginal(s: Traced, original: Packet, need: Field)
    requires InSync(s, original)
    ensures var u := UnexploredPart(s, MaskOf(need));
            var unseen := Widen(need, UnseenMask(s.cache, MaskOf(need)));
            && Widen(need, MaskOf(u)) == unseen
            && (MatchFields(u, need) <==> original.Test(unseen))
            && (original.Test(unseen) ==> u == unseen)
            && (Wildcard(u) <==> Wildcard(unseen))
  {
    var m := MaskOf(need);
    var u, unseen := UnexploredPart(s, m), Widen(need, UnseenMask(s.cache, m));
    UnexploredIsOriginal(s, original, m);
    MatchFieldsBits(u, need);
    TestIffAgrees(original, unseen);
    assert unseen.mask == u.mask;
    if original.Test(unseen) { FieldExtensional(u, unseen); }
  }

  /** Caching what the original packet holds keeps the trace in sync. */
  lemma CachingOriginalKeepsSync(s: Traced, original: Packet, f: Field)
    requires InSync(s, original)
    requires Untouched(s.cache, MaskOf(f)) && original.Agrees(f)
    ensures InSync(s.(cache := ModifyIn(s.cache, f)), original)
  {
    var s' := s.(cache := ModifyIn(s.cache, f));
    forall t: OxmType, i | 0 <= i < t.nbits
      ensures s'.pkt.bit(t, i) == if Known(s'.cache, t, i) then s'.cache[t].value[i] else original.bit(t, i)
    {
      ModifyKnown(s.cache, f, t, i);
    }
  }

  lemma PatchingKeepsSync(s: Traced, original: Packet, patch: Field)
    requires InSync(s, original)
    ensures InSync(Traced(ModifyIn(s.cache, patch), s.pkt.Modify(patch)), original)
  {
    var s' := Traced(ModifyIn(s.cache, patch), s.pkt.Modify(patch));
    forall t: OxmType, i | 0 <= i < t.nbits
      ensures s'.pkt.bit(t, i) == if Known(s'.cache, t, i) then s'.cache[t].value[i] else original.bit(t, i)
    {
      ModifyKnown(s.cache, patch, t, i);
    }
  }

  /** The result of an operation is that of the bare packet, the cache stays in sync, and
      what is reported is a non-empty piece of the original packet that no earlier operation
      has explored or overwritten.  */
  ghost predicate Transparent(s: Traced, original: Packet, op: PacketOp, r: Step<Traced>) {
    && r.answer == BareAnswer(op, s.pkt)
    && r.next.pkt == BareNext(op, s.pkt)
    && InSync(r.next, original)
    && |r.events| <= 1
    && forall e :: e in r.events ==> Answers(e, original) && ReportsUnseenBits(e, s.cache)
  }

  lemma LoadIsTransparent(s: Traced, original: Packet, m: Mask)
    requires InSync(s, original)
    ensures Transparent(s, original, Load(m), TracedLoad(s, m))
  {
    UnexploredIsOriginal(s, original, m);
    var u := UnexploredPart(s, m);
    LoadIsTheAgreeingField(original, u);
    CachingOriginalKeepsSync(s, original, u);
  }

  lemma TestIsTransparent(s: Traced, original: Packet, need: Field)
    requires InSync(s, original)
    ensures Transparent(s, original, Test(need), TracedTest(s, need))
  {
    TestFromParts(s, original, need);
    UnseenTestIsOriginal(s, original, need);
    if Wildcard(UnexploredPart(s, MaskOf(need))) {
      TestIffAgrees(original, Widen(need, UnseenMask(s.cache, MaskOf(need))));
    } else {
      ReportedTest(s, original, need);
    }
  }

  /** A test that is reported asks about unseen bits, and a positive answer may be cached. */
  lemma ReportedTest(s: Traced, original: Packet, need: Field)
    requires InSync(s, original) && !Wildcard(UnexploredPart(s, MaskOf(need)))
    ensures var u := UnexploredPart(s, MaskOf(need)); var unseen := Widen(need, UnseenMask(s.cache, MaskOf(need)));
            && ReportsUnseenBits(TestEvent(unseen, original.Test(unseen)), s.cache)
            && InSync(s.(cache := ModifyIn(s.cache, u)), original)
  {
    var m := MaskOf(need);
    var u, unseen := UnexploredPart(s, m), Widen(need, UnseenMask(s.cache, m));
    UnseenTestIsOriginal(s, original, need);
    UnexploredIsOriginal(s, original, m);
    LoadIsTheAgreeingField(original, u);
    CachingOriginalKeepsSync(s, original, u);
    assert MaskOf(unseen) == MaskOf(u);
  }

  /** Tracing is transparent, one operation. */
  lemma StepIsTransparent(s: Traced, original: Packet, op: PacketOp)
    requires InSync(s, original)
    ensures Transparent(s, original, op, TracedStep(s, op))
  {
    match op
    case Load(m) => LoadIsTransparent(s, original, m);
    case Test(need) => TestIsTransparent(s, original, need);
    case Modify(patch) => PatchingKeepsSync(s, original, patch);
  }

  lemma StepKeepsSync(s: Traced, original: Packet, op: PacketOp)
    requires InSync(s, original)
    ensures InSync(TracedStep(s, op).next, original)
  {
    StepIsTransparent(s, original, op);
  }

  predicate ReportsUnseenBits(e: Event, c: Entries) {
    !Wildcard(FieldOf(e)) && Untouched(c, MaskOf(FieldOf(e)))
  }

  // ---------------------------------------------------------------- packets as implementations

  /** An implementation of the packet interface. */
  type PacketImpl<!S> = (S, PacketOp) -> Step<S>

  const PLAIN: PacketImpl<Packet> := (p, op) => BareStep(p, op)

  const TRACED: PacketImpl<Traced> := (s, op) => TracedStep(s, op)

  ghost predicate AlikeAt<S, T>(a: PacketImpl<S>, b: PacketImpl<T>, alike: (S, T) -> bool, s: S, t: T, op: PacketOp) {
    alike(s, t) ==> a(s, op).answer == b(t, op).answer && alike(a(s, op).next, b(t, op).next)
  }

  /** The two implementations answer alike from any alike states. */
  ghost predicate Alike<S(!new), T(!new)>(a: PacketImpl<S>, b: PacketImpl<T>, alike: (S, T) -> bool) {
    forall s, t, op :: AlikeAt(a, b, alike, s, t, op)
  }

  /** A traced packet in sync, next to the bare packet it stands for. */
  ghost function Mirror(original: Packet): (Traced, Packet) -> bool {
    (s: Traced, t: Packet) => InSync(s, original) && s.pkt == t
  }

  lemma TracedIsPlain(original: Packet)
    ensures Alike(TRACED, PLAIN, Mirror(original))
  {
    forall s, t, op
      ensures AlikeAt(TRACED, PLAIN, Mirror(original), s, t, op)
    {
      if InSync(s, original) { StepIsTransparent(s, original, op); }
    }
  }

  // ---------------------------------------------------------------- sequences of operations

  /** The packet before operation k. */
  function StateAt<S>(impl: PacketImpl<S>, ops: seq<PacketOp>, s: S, k: nat): S
    requires k <= |ops|
  {
    if k == 0 then s else impl(StateAt(impl, ops, s, k - 1), ops[k - 1]).next
  }

  function StepAt<S>(impl: PacketImpl<S>, ops: seq<PacketOp>, s: S, k: nat): Step<S>
    requires k < |ops|
  {
    impl(StateAt(impl, ops, s, k), ops[k])
  }

  lemma {:induction false} AlikeStates<S(!new), T(!new)>(
    a: PacketImpl<S>, b: PacketImpl<T>, alike: (S, T) -> bool, ops: seq<PacketOp>, s: S, t: T, k: nat)
    requires Alike(a, b, alike) && alike(s, t) && k <= |ops|
    ensures alike(StateAt(a, ops, s, k), StateAt(b, ops, t, k))
    ensures k < |ops| ==> StepAt(a, ops, s, k).answer == StepAt(b, ops, t, k).answer
    decreases k
  {
    if k > 0 {
      AlikeStates(a, b, alike, ops, s, t, k - 1);
      assert AlikeAt(a, b, alike, StateAt(a, ops, s, k - 1), StateAt(b, ops, t, k - 1), ops[k - 1]);
    }
    if k < |ops| { assert AlikeAt(a, b, alike, StateAt(a, ops, s, k), StateAt(b, ops, t, k), ops[k]); }
  }

  predicate HasBit(f: Field, t: OxmType, i: int) { t == f.t && 0 <= i < t.nbits && f.mask[i] }

  /** The operation explored the bit with a load or a positive test, or overwrote it. */
  predicate Settles(op: PacketOp, r: Step<Traced>, t: OxmType, i: int) {
    match op
    case Modify(patch) => HasBit(patch, t, i)
    case _ => exists e :: e in r.events && (e.LoadEvent? || e.ret) && HasBit(FieldOf(e), t, i)
  }

  function FieldOf(e: Event): Field { if e.LoadEvent? then e.data else e.pred }

  lemma StepRemembers(s: Traced, original: Packet, op: PacketOp, t: OxmType, i: int)
    requires InSync(s, original)
    requires Known(s.cache, t, i) || Settles(op, TracedStep(s, op), t, i)
    ensures Known(TracedStep(s, op).next.cache, t, i)
  {
    match op
    case Modify(patch) => ModifyKnown(s.cache, patch, t, i);
    case Load(m) => ModifyKnown(s.cache, UnexploredPart(s, m), t, i);
    case Test(need) =>
      ModifyKnown(s.cache, UnexploredPart(s, MaskOf(need)), t, i);
      UnseenTestIsOriginal(s, original, need);
      UnexploredIsOriginal(s, original, MaskOf(need));
  }

  /** What an operation settles, and what was known before, is known afterwards; what it reports
      was not known, and the original packet gives the reported answer. */
  ghost predicate TracesWell(impl: PacketImpl<Traced>, original: Packet, s: Traced, op: PacketOp) {
    InSync(s, original) ==>
      var r := impl(s, op);
      && InSync(r.next, original)
      && (forall t, i :: Known(s.cache, t, i) || Settles(op, r, t, i) ==> Known(r.next.cache, t, i))
      && (forall e :: e in r.events ==> Answers(e, original) && ReportsUnseenBits(e, s.cache))
  }

  lemma TracedTracesWell(original: Packet, s: Traced, op: PacketOp)
    ensures TracesWell(TRACED, original, s, op)
  {
    if InSync(s, original) {
      StepIsTransparent(s, original, op);
      forall t, i | Known(s.cache, t, i) || Settles(op, TracedStep(s, op), t, i)
        ensures Known(TracedStep(s, op).next.cache, t, i)
      {
        StepRemembers(s, original, op, t, i);
      }
    }
  }

  lemma {:induction false} SettledIsKnown(
    impl: PacketImpl<Traced>, original: Packet, ops: seq<PacketOp>, s: Traced, j: nat, k: nat, t: OxmType, i: int)
    requires forall s, op :: TracesWell(impl, original, s, op)
    requires InSync(s, original) && j < k <= |ops|
    requires Settles(ops[j], StepAt(impl, ops, s, j), t, i)
    ensures InSync(StateAt(impl, ops, s, k), original) && Known(StateAt(impl, ops, s, k).cache, t, i)
    decreases k
  {
    StaysInSync(impl, original, ops, s, k - 1);
    if j < k - 1 { SettledIsKnown(impl, original, ops, s, j, k - 1, t, i); }
    assert TracesWell(impl, original, StateAt(impl, ops, s, k - 1), ops[k - 1]);
  }

  lemma {:induction false} StaysInSync(impl: PacketImpl<Traced>, original: Packet, ops: seq<PacketOp>, s: Traced, k: nat)
    requires forall s, op :: TracesWell(impl, original, s, op)
    requires InSync(s, original) && k <= |ops|
    ensures InSync(StateAt(impl, ops, s, k), original)
    decreases k
  {
    if k > 0 {
      StaysInSync(impl, original, ops, s, k - 1);
      assert TracesWell(impl, original, StateAt(impl, ops, s, k - 1), ops[k - 1]);
    }
  }

  /** What operation k reports is a non-empty piece of the original packet, and none of it was
      explored or overwritten by an earlier operation. */
  ghost predicate ReportsNews(impl: PacketImpl<Traced>, original: Packet, ops: seq<PacketOp>, s: Traced, k: nat)
    requires k < |ops|
  {
    forall e :: e in StepAt(impl, ops, s, k).events ==>
      && Answers(e, original) && !Wildcard(FieldOf(e))
      && forall j, t, i :: 0 <= j < k && HasBit(FieldOf(e), t, i) ==> !Settles(ops[j], StepAt(impl, ops, s, j), t, i)
  }

  lemma ReportIsNews(impl: PacketImpl<Traced>, original: Packet, ops: seq<PacketOp>, s: Traced, k: nat)
    requires forall s, op :: TracesWell(impl, original, s, op)
    requires InSync(s, original) && k < |ops|
    ensures ReportsNews(impl, original, ops, s, k)
  {
    var now := StateAt(impl, ops, s, k);
    StaysInSync(impl, original, ops, s, k);
    assert TracesWell(impl, original, now, ops[k]);
    forall e, j, t, i | e in StepAt(impl, ops, s, k).events && 0 <= j < k && HasBit(FieldOf(e), t, i)
      ensures !Settles(ops[j], StepAt(impl, ops, s, j), t, i)
    {
      assert ReportsUnseenBits(e, now.cache);
      if Settles(ops[j], StepAt(impl, ops, s, j), t, i) { SettledIsKnown(impl, original, ops, s, j, k, t, i); }
    }
  }

  /** Tracing is transparent over any sequence of operations: every answer is the bare packet's,
      the cache always agrees with the current packet, which is the bare one, and only original
      bits that no earlier operation explored or overwrote are reported. */
  lemma TracingIsTransparent(ops: seq<PacketOp>, s: Traced, original: Packet, k: nat)
    requires InSync(s, original) && k <= |ops|
    ensures InSync(StateAt(TRACED, ops, s, k), original)
    ensures StateAt(TRACED, ops, s, k).pkt == StateAt(PLAIN, ops, s.pkt, k)
    ensures k < |ops| ==>
              && StepAt(TRACED, ops, s, k).answer == StepAt(PLAIN, ops, s.pkt, k).answer
              && ReportsNews(TRACED, original, ops, s, k)
  {
    TracedIsPlain(original);
    AlikeStates(TRACED, PLAIN, Mirror(original), ops, s, s.pkt, k);
    forall s, op
      ensures TracesWell(TRACED, original, s, op)
    {
      TracedTracesWell(original, s, op);
    }
    if k < |ops| { ReportIsNews(TRACED, original, ops, s, k); }
  }

  // ---------------------------------------------------------------- the mutable traced packet

  /** An answer of `None` stands for an `inconsistent_trace` thrown by the tracer. */
  class TracedPacket {
    var pkt: Packet
    const cache: FieldSet
    const tracer: Tracer
    ghost const original: Packet

    ghost function State(): Traced
      reads this, cache
    {
      Traced(cache.entries, pkt)
    }

    ghost predicate Valid()
      reads this, cache, tracer, tracer.tree
    {
      tracer.Valid() && InSync(State(), original)
    }

    constructor (pkt: Packet, tracer: Tracer)
      requires tracer.Valid()
      ensures this.tracer == tracer && original == pkt && fresh(cache)
      ensures State() == Traced(map[], pkt)
      ensures Valid()
    {
      this.pkt := pkt;
      this.tracer := tracer;
      this.original := pkt;
      cache := new FieldSet();
    }

    method Load(m: Mask) returns (r: Option<Field>)
      requires Valid()
      modifies cache, tracer, tracer.tree
      ensures var step := TracedStep(old(State()), PacketOp.Load(m));
              && (r.Some? <==> Graft(tracer.start, old(tracer.events) + step.events, None).Some?)
              && (r.Some? ==>
                    && Valid()
                    && r.value == pkt.Load(m)
                    && State() == step.next
                    && tracer.events == old(tracer.events) + step.events)
    {
      StepIsTransparent(State(), original, PacketOp.Load(m));
      var read := pkt.Load(m);
      var explored := cache.Load(m);
      var unexplored := Widen(read, Complement(MaskOf(explored)));
      if !Wildcard(unexplored) {
        var ok := tracer.Load(unexplored);
        if !ok {
          return None;
        }
        cache.Modify(unexplored);
      } else {
        assert tracer.events + [] == tracer.events;
      }
      return Some(read);
    }

    method Test(need: Field) returns (r: Option<bool>)
      requires Valid()
      modifies cache, tracer, tracer.tree
      ensures var step := TracedStep(old(State()), PacketOp.Test(need));
              && (r.Some? <==> Graft(tracer.start, old(tracer.events) + step.events, None).Some?)
              && (r.Some? ==>
                    && Valid()
                    && r.value == pkt.Test(need)
                    && State() == step.next
                    && tracer.events == old(tracer.events) + step.events)
    {
      StepIsTransparent(State(), original, PacketOp.Test(need));
      assert tracer.events + [] == tracer.events;
      var read := pkt.Load(MaskOf(need));
      var explored := cache.Load(MaskOf(need));
      var unexplored := Widen(read, Complement(MaskOf(explored)));
      if !MatchFields(explored, need) {
        return Some(false);
      }
      if Wildcard(unexplored) {
        return Some(true);
      }
      var ret := MatchFields(unexplored, need);
      var ok := tracer.Test(Widen(need, MaskOf(unexplored)), ret);
      if !ok {
        return None;
      }
      if ret {
        cache.Modify(unexplored);
      }
      return Some(ret);
    }

    method Modify(patch: Field)
      requires Valid()
      modifies this, cache
      ensures Valid()
      ensures State() == TracedStep(old(State()), PacketOp.Modify(patch)).next
    {
      StepIsTransparent(State(), original, PacketOp.Modify(patch));
      pkt := pkt.Modify(patch);
      cache.Modify(patch);
    }
  }
}
