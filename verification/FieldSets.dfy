/** Sets of match fields, at most one per type (oxm/field_set.hh).

    The functions on `Entries` say what each operation does to the stored map; the class
    `FieldSet` performs the updates in place.  A bit (t, i) is *known* to a set when the
    entry of type t has it under its mask.  */
module FieldSets {
  import opened Oxm

  type Entries = m: map<OxmType, Field> | forall t :: t in m ==> m[t].t == t

  predicate Known(s: Entries, t: OxmType, i: int) {
    t in s && 0 <= i < t.nbits && s[t].mask[i]
  }

  function LoadFrom(s: Entries, m: Mask): Field {
    Widen(if m.t in s then s[m.t] else WildcardField(m.t), m)
  }

  function ModifyIn(s: Entries, patch: Field): Entries {
    s[patch.t := Rewrite(if patch.t in s then s[patch.t] else patch, patch)]
  }

  function EraseFrom(s: Entries, m: Mask): Entries {
    if m.t !in s then s
    else
      var rest := Widen(s[m.t], Complement(m));
      if Wildcard(rest) then s - {m.t} else s[m.t := rest]
  }

  predicate Matches(s: Entries, p: Packet) {
    forall t :: t in s ==> p.Test(s[t])
  }

  /** "Stores only non-wildcarded fields" (oxm/field_set.hh:16). */
  predicate NoWildcards(s: Entries) {
    forall t :: t in s ==> !Wildcard(s[t])
  }

  /** No bit of the mask is known to the set. */
  predicate Untouched(s: Entries, m: Mask) {
    forall i :: 0 <= i < m.t.nbits && m.bits[i] ==> !Known(s, m.t, i)
  }

  // ---------------------------------------------------------------- the mutable class

  class FieldSet {
    var entries: Entries

    constructor ()
      ensures entries == map[]
    {
      entries := map[];
    }

    method Load(m: Mask) returns (f: Field)
      ensures f == LoadFrom(entries, m)
    {
      if m.t !in entries {
        f := Widen(WildcardField(m.t), m);
      } else {
        f := Widen(entries[m.t], m);
      }
    }

    method Modify(patch: Field)
      modifies this
      ensures entries == ModifyIn(old(entries), patch)
    {
      if patch.t !in entries {
        entries := entries[patch.t := patch];
      }
      entries := entries[patch.t := Rewrite(entries[patch.t], patch)];
    }

    method Erase(m: Mask)
      modifies this
      ensures entries == EraseFrom(old(entries), m)
    {
      if m.t !in entries {
        return;
      }
      entries := entries[m.t := Widen(entries[m.t], Complement(m))];
      if Wildcard(entries[m.t]) {
        entries := entries - {m.t};
      }
    }
  }

  // ---------------------------------------------------------------- what the operations mean

  lemma LoadBits(s: Entries, m: Mask, i: int)
    requires 0 <= i < m.t.nbits
    ensures LoadFrom(s, m).mask[i] == (m.bits[i] && Known(s, m.t, i))
    ensures LoadFrom(s, m).mask[i] ==> LoadFrom(s, m).value[i] == s[m.t].value[i]
  {
  }

  lemma ModifyKnown(s: Entries, patch: Field, t: OxmType, i: int)
    requires 0 <= i < t.nbits
    ensures Known(ModifyIn(s, patch), t, i) <==> Known(s, t, i) || (t == patch.t && patch.mask[i])
    ensures Known(ModifyIn(s, patch), t, i) ==>
              ModifyIn(s, patch)[t].value[i] ==
              if t == patch.t && patch.mask[i] then patch.value[i] else s[t].value[i]
  {
  }

  /** Erasing forgets exactly the bits of the mask, whatever was known, and leaves no entry without
      a known bit. */
  lemma EraseKnown(s: Entries, m: Mask, t: OxmType, i: int)
    requires 0 <= i < t.nbits
    ensures Known(EraseFrom(s, m), t, i) <==> Known(s, t, i) && !(t == m.t && m.bits[i])
    ensures Known(EraseFrom(s, m), t, i) ==> EraseFrom(s, m)[t].value[i] == s[t].value[i]
    ensures NoWildcards(s) ==> NoWildcards(EraseFrom(s, m))
  {
    if t == m.t && t in s {
      var rest := Widen(s[t], Complement(m));
      assert rest.mask[i] <==> s[t].mask[i] && !m.bits[i];
    }
  }

  /** The set matches a packet exactly when the packet has every known bit. */
  lemma MatchesIffKnownBits(s: Entries, p: Packet)
    ensures Matches(s, p) <==> forall t, i :: Known(s, t, i) ==> p.bit(t, i) == s[t].value[i]
  {
    forall t | t in s
      ensures p.Test(s[t]) <==> p.Agrees(s[t])
    {
      TestIffAgrees(p, s[t]);
    }
    if Matches(s, p) {
      forall t, i | Known(s, t, i)
        ensures p.bit(t, i) == s[t].value[i]
      {
        assert p.Agrees(s[t]);
      }
    }
    if forall t, i :: Known(s, t, i) ==> p.bit(t, i) == s[t].value[i] {
      forall t | t in s
        ensures p.Test(s[t])
      {
        assert forall i :: 0 <= i < t.nbits && s[t].mask[i] ==> Known(s, t, i);
        assert p.Agrees(s[t]);
      }
    }
  }

  /** Adding a field on untouched bits adds exactly one conjunct to the match. */
  lemma ModifyIsConjunction(s: Entries, f: Field, p: Packet)
    requires Untouched(s, MaskOf(f))
    ensures Matches(ModifyIn(s, f), p) <==> Matches(s, p) && p.Test(f)
  {
    var s' := ModifyIn(s, f);
    MatchesIffKnownBits(s, p);
    MatchesIffKnownBits(s', p);
    TestIffAgrees(p, f);
    if Matches(s', p) {
      forall t, i | Known(s, t, i)
        ensures p.bit(t, i) == s[t].value[i]
      {
        ModifyKnown(s, f, t, i);
      }
      forall i | 0 <= i < f.t.nbits && f.mask[i]
        ensures p.bit(f.t, i) == f.value[i]
      {
        ModifyKnown(s, f, f.t, i);
      }
    }
    if Matches(s, p) && p.Agrees(f) {
      forall t, i | Known(s', t, i)
        ensures p.bit(t, i) == s'[t].value[i]
      {
        ModifyKnown(s, f, t, i);
      }
    }
  }

  /** Modify, then erase, is the identity on untouched bits. */
  lemma ModifyThenErase(s: Entries, f: Field)
    requires NoWildcards(s) && Untouched(s, MaskOf(f))
    ensures EraseFrom(ModifyIn(s, f), MaskOf(f)) == s
  {
    var m := MaskOf(f);
    var s' := ModifyIn(s, f);
    var rest := Widen(s'[f.t], Complement(m));
    forall i | 0 <= i < f.t.nbits
      ensures rest.mask[i] == Known(s, f.t, i)
      ensures Known(s, f.t, i) ==> rest.value[i] == s[f.t].value[i]
    {
      ModifyKnown(s, f, f.t, i);
    }
    if f.t in s {
      assert rest.mask == s[f.t].mask;
      FieldExtensional(rest, s[f.t]);
    } else {
      assert Wildcard(rest);
    }
    assert EraseFrom(s', m).Keys == s.Keys;
  }

  /** ... and only on untouched bits: what the walk over the trace tree relies on. */
  lemma ModifyThenEraseIffUntouched(s: Entries, f: Field)
    requires NoWildcards(s)
    ensures EraseFrom(ModifyIn(s, f), MaskOf(f)) == s <==> Untouched(s, MaskOf(f))
  {
    if Untouched(s, MaskOf(f)) {
      ModifyThenErase(s, f);
    } else {
      var i :| 0 <= i < f.t.nbits && f.mask[i] && Known(s, f.t, i);
      assert !Known(EraseFrom(ModifyIn(s, f), MaskOf(f)), f.t, i);
    }
  }

  /** A whole sequence of patches. */
  function ModifyAll(s: Entries, patches: seq<Field>): Entries {
    if patches == [] then s
    else ModifyIn(ModifyAll(s, patches[..|patches| - 1]), patches[|patches| - 1])
  }

  /** The index of the last patch that writes the bit, or -1. */
  function LastWriter(patches: seq<Field>, t: OxmType, i: int): (w: int)
    requires 0 <= i < t.nbits
    ensures -1 <= w < |patches|
    ensures w >= 0 ==> patches[w].t == t && patches[w].mask[i]
    ensures forall j :: w < j < |patches| ==> !(patches[j].t == t && patches[j].mask[i])
  {
    var n := |patches|;
    if n == 0 then -1
    else if patches[n - 1].t == t && patches[n - 1].mask[i] then n - 1
    else LastWriter(patches[..n - 1], t, i)
  }

  /** Any sequence of modifications is last-writer-wins, bit by bit. */
  lemma {:induction false} LastWriterWins(s: Entries, patches: seq<Field>, t: OxmType, i: int)
    requires 0 <= i < t.nbits
    ensures var w := LastWriter(patches, t, i);
            var s' := ModifyAll(s, patches);
            && (Known(s', t, i) <==> w >= 0 || Known(s, t, i))
            && (Known(s', t, i) ==>
                  s'[t].value[i] == if w >= 0 then patches[w].value[i] else s[t].value[i])
  {
    if patches != [] {
      var init, last := patches[..|patches| - 1], patches[|patches| - 1];
      LastWriterWins(s, init, t, i);
      ModifyKnown(ModifyAll(s, init), last, t, i);
    }
  }
}
