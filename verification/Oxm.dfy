/** Masked match fields, the values they are read from, and packets
    (oxm/type.hh, oxm/field.hh, api/Packet.hh).

    A field is a pair of bit strings, a value and a mask; the bits outside the mask are
    wildcards and are kept at zero in the value.  The subset types `Mask` and `Field` carry
    the checks the original constructors make: the bit length is that of the type, and a
    type that cannot be masked has only the full and the empty mask.  */
module Oxm {

  datatype OxmType = OxmType(ns: nat, id: nat, nbits: nat, maskable: bool)

  // ---------------------------------------------------------------- bit strings

  type Bits = seq<bool>

  predicate AllSet(b: Bits) { forall i :: 0 <= i < |b| ==> b[i] }

  predicate NoneSet(b: Bits) { forall i :: 0 <= i < |b| ==> !b[i] }

  function And(a: Bits, b: Bits): Bits
    requires |a| == |b|
  {
    seq(|a|, i requires 0 <= i < |a| => a[i] && b[i])
  }

  function Or(a: Bits, b: Bits): Bits
    requires |a| == |b|
  {
    seq(|a|, i requires 0 <= i < |a| => a[i] || b[i])
  }

  function Not(a: Bits): Bits
  {
    seq(|a|, i requires 0 <= i < |a| => !a[i])
  }

  // ---------------------------------------------------------------- masks and fields

  predicate ValidMaskBits(t: OxmType, m: Bits) {
    |m| == t.nbits && (t.maskable || AllSet(m) || NoneSet(m))
  }

  datatype RawMask = Mask(t: OxmType, bits: Bits)

  type Mask = m: RawMask | ValidMaskBits(m.t, m.bits)
    witness RawMask.Mask(OxmType(0, 0, 0, false), [])

  datatype RawField = Field(t: OxmType, value: Bits, mask: Bits)

  type Field = f: RawField |
      && |f.value| == f.t.nbits
      && ValidMaskBits(f.t, f.mask)
      && (forall i :: 0 <= i < |f.value| && f.value[i] ==> f.mask[i])
    witness RawField.Field(OxmType(0, 0, 0, false), [], [])

  /** The constructor from raw bits: the value is cut down to the mask. */
  function MakeField(t: OxmType, value: Bits, mask: Bits): Field
    requires |value| == t.nbits && ValidMaskBits(t, mask)
  {
    RawField.Field(t, And(value, mask), mask)
  }

  function MaskOf(f: Field): Mask { RawMask.Mask(f.t, f.mask) }

  predicate Wildcard(f: Field) { NoneSet(f.mask) }

  function WildcardField(t: OxmType): Field {
    var none := seq(t.nbits, i => false);
    RawField.Field(t, none, none)
  }

  function Complement(m: Mask): Mask { RawMask.Mask(m.t, Not(m.bits)) }

  /** `field & mask`: forget the bits outside the mask. */
  function Widen(f: Field, m: Mask): Field
    requires f.t == m.t
  {
    MakeField(f.t, f.value, And(f.mask, m.bits))
  }

  /** `field & field`: equal on the bits that both specify. */
  predicate MatchFields(f: Field, g: Field)
    requires f.t == g.t
  {
    var m := And(f.mask, g.mask);
    MakeField(f.t, f.value, m) == MakeField(g.t, g.value, m)
  }

  /** `field >> field`: the right operand overwrites the left one. */
  function Rewrite(f: Field, patch: Field): Field
    requires f.t == patch.t
  {
    MakeField(f.t, Or(And(f.value, Not(patch.mask)), patch.value), Or(f.mask, patch.mask))
  }

  // ---------------------------------------------------------------- packets

  /** A packet gives a value to every bit of every field. */
  datatype Packet = Packet(bit: (OxmType, int) -> bool) {

    function Load(m: Mask): Field {
      MakeField(m.t, seq(m.t.nbits, i => bit(m.t, i)), m.bits)
    }

    predicate Test(need: Field) {
      MatchFields(Load(MaskOf(need)), need)
    }

    /** `value >> field` on the field of the patch's type. */
    function Modify(patch: Field): Packet {
      Packet((t, i) => if t == patch.t && 0 <= i < t.nbits && patch.mask[i] then patch.value[i] else bit(t, i))
    }

    ghost predicate Agrees(f: Field) {
      forall i :: 0 <= i < f.t.nbits && f.mask[i] ==> bit(f.t, i) == f.value[i]
    }
  }

  // ---------------------------------------------------------------- field algebra

  /** A full value satisfies a field when it has the field's bits under the mask. */
  predicate Satisfies(v: Bits, f: Field) {
    && |v| == f.t.nbits
    && forall i :: 0 <= i < |v| && f.mask[i] ==> v[i] == f.value[i]
  }

  lemma FieldExtensional(f: Field, g: Field)
    requires f.t == g.t && f.mask == g.mask
    requires forall i :: 0 <= i < f.t.nbits && f.mask[i] ==> f.value[i] == g.value[i]
    ensures f == g
  {
  }

  lemma MatchFieldsBits(f: Field, g: Field)
    requires f.t == g.t
    ensures MatchFields(f, g) <==>
            forall i :: 0 <= i < f.t.nbits && f.mask[i] && g.mask[i] ==> f.value[i] == g.value[i]
  {
    var m := And(f.mask, g.mask);
    var f', g' := MakeField(f.t, f.value, m), MakeField(g.t, g.value, m);
    if f' == g' {
      forall i | 0 <= i < f.t.nbits && f.mask[i] && g.mask[i]
        ensures f.value[i] == g.value[i]
      {
        assert f'.value[i] == g'.value[i];
      }
    } else if forall i :: 0 <= i < f.t.nbits && f.mask[i] && g.mask[i] ==> f.value[i] == g.value[i] {
      FieldExtensional(f', g');
    }
  }

  /** Two fields match exactly when some full value satisfies both of them. */
  lemma MatchIffCommonValue(f: Field, g: Field)
    requires f.t == g.t
    ensures MatchFields(f, g) <==> exists v: Bits :: Satisfies(v, f) && Satisfies(v, g)
  {
    MatchFieldsBits(f, g);
    if MatchFields(f, g) {
      var v := Or(f.value, g.value);
      forall i | 0 <= i < |v|
        ensures f.mask[i] ==> v[i] == f.value[i]
        ensures g.mask[i] ==> v[i] == g.value[i]
      {
      }
      assert Satisfies(v, f) && Satisfies(v, g);
    }
  }

  /** A rewrite is the pointwise "last writer wins" update. */
  lemma RewriteBits(f: Field, patch: Field, i: int)
    requires f.t == patch.t && 0 <= i < f.t.nbits
    ensures Rewrite(f, patch).mask[i] == (f.mask[i] || patch.mask[i])
    ensures Rewrite(f, patch).value[i] == if patch.mask[i] then patch.value[i] else f.value[i]
  {
  }

  /** Testing a packet is agreeing with it on every bit of the mask. */
  lemma TestIffAgrees(p: Packet, need: Field)
    ensures p.Test(need) <==> p.Agrees(need)
  {
    MatchFieldsBits(p.Load(MaskOf(need)), need);
  }

  /** A loaded field is the only field with the requested mask that the packet agrees with. */
  lemma LoadIsTheAgreeingField(p: Packet, f: Field)
    ensures p.Load(MaskOf(f)) == f <==> p.Agrees(f)
  {
  }
}
