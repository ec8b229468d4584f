/** Partial updates of nested structures, as generated for plain, optional and nested fields. */
module Refinement {
  import opened Wrappers

  /** A structure: plain fields, optional fields, and nested refineable structures, to any depth. */
  datatype Value = Plain(value: int) | Optional(option: Option<int>) | Struct(fields: seq<Value>)

  /** Its refinement: plain and optional fields become optional, nested ones their own refinements. */
  datatype Refinement = Leaf(option: Option<int>) | Nested(fields: seq<Refinement>)

  ghost predicate Fits(v: Value, r: Refinement) {
    match (v, r)
    case (Struct(vs), Nested(rs)) => |vs| == |rs| && forall i :: 0 <= i < |vs| ==> Fits(vs[i], rs[i])
    case (Struct(_), Leaf(_)) => false
    case (_, Leaf(_)) => true
    case (_, Nested(_)) => false
  }

  ghost predicate SameShape(r: Refinement, s: Refinement) {
    match (r, s)
    case (Nested(rs), Nested(ss)) => |rs| == |ss| && forall i :: 0 <= i < |rs| ==> SameShape(rs[i], ss[i])
    case (Leaf(_), Leaf(_)) => true
    case _ => false
  }

  function Or(a: Option<int>, b: Option<int>): Option<int> {
    if b.Some? then b else a
  }

  function Refined(v: Value, r: Refinement): (w: Value)
    requires Fits(v, r)
    ensures Fits(w, r)
    decreases v
  {
    match v
    case Plain(x) => Plain(if r.option.Some? then r.option.value else x)
    case Optional(o) => Optional(Or(o, r.option))
    case Struct(vs) => Struct(seq(|vs|, i requires 0 <= i < |vs| => Refined(vs[i], r.fields[i])))
  }

  /** A refinement refined by another of the same type. */
  function Merge(r: Refinement, s: Refinement): (t: Refinement)
    requires SameShape(r, s)
    ensures SameShape(t, s) && SameShape(t, r)
    decreases r
  {
    match r
    case Leaf(o) => Leaf(Or(o, s.option))
    case Nested(rs) =>
      SelfShape(r);
      Nested(seq(|rs|, i requires 0 <= i < |rs| => Merge(rs[i], s.fields[i])))
  }

  lemma {:induction false} SelfShape(r: Refinement)
    ensures SameShape(r, r)
  {
    if r.Nested? {
      forall i | 0 <= i < |r.fields| ensures SameShape(r.fields[i], r.fields[i]) { SelfShape(r.fields[i]); }
    }
  }

  predicate IsSupersetOf(v: Value, r: Refinement)
    requires Fits(v, r)
    decreases v
  {
    match v
    case Plain(x) => r.option.None? || x == r.option.value
    case Optional(o) => r.option.None? || o == r.option
    case Struct(vs) => forall i :: 0 <= i < |vs| ==> IsSupersetOf(vs[i], r.fields[i])
  }

  predicate CoversRefinement(s: Refinement, r: Refinement)
    requires SameShape(s, r)
    decreases s
  {
    match s
    case Leaf(o) => r.option.None? || o == r.option
    case Nested(ss) => forall i :: 0 <= i < |ss| ==> CoversRefinement(ss[i], r.fields[i])
  }

  /** The same for refinements of refinements: one covers another iff refining by it changes nothing. */
  lemma {:induction false} CoversIffUnchanged(s: Refinement, r: Refinement)
    requires SameShape(s, r)
    ensures CoversRefinement(s, r) <==> Merge(s, r) == s
    decreases s
  {
    if s.Nested? {
      forall i | 0 <= i < |s.fields| ensures CoversRefinement(s.fields[i], r.fields[i]) <==> Merge(s.fields[i], r.fields[i]) == s.fields[i] {
        CoversIffUnchanged(s.fields[i], r.fields[i]);
      }
      if Merge(s, r) == s {
        forall i | 0 <= i < |s.fields| ensures Merge(s.fields[i], r.fields[i]) == s.fields[i] {
          assert Merge(s, r).fields[i] == s.fields[i];
        }
      }
    }
  }

  /** The refinement holding what differs from `r`. */
  function Subtract(v: Value, r: Refinement): (d: Refinement)
    requires Fits(v, r)
    ensures Fits(v, d) && SameShape(d, r)
    decreases v
  {
    match v
    case Plain(x) => Leaf(if r.option == Some(x) then None else Some(x))
    case Optional(o) => Leaf(if o == r.option then None else o)
    case Struct(vs) => Nested(seq(|vs|, i requires 0 <= i < |vs| => Subtract(vs[i], r.fields[i])))
  }

  function SubtractRefinement(s: Refinement, r: Refinement): (d: Refinement)
    requires SameShape(s, r)
    ensures SameShape(d, r) && SameShape(r, d)
    decreases s
  {
    match s
    case Leaf(o) => Leaf(if o == r.option then None else o)
    case Nested(ss) => Nested(seq(|ss|, i requires 0 <= i < |ss| => SubtractRefinement(ss[i], r.fields[i])))
  }

  /** No field of `d` repeats what `r` says of it. */
  ghost predicate NothingRepeated(d: Refinement, r: Refinement)
    requires SameShape(d, r)
    decreases d
  {
    match d
    case Leaf(o) => o.None? || o != r.option
    case Nested(ds) => forall i :: 0 <= i < |ds| ==> NothingRepeated(ds[i], r.fields[i])
  }

  /** A difference says only what is new, and nothing at all iff there is nothing new. */
  lemma {:induction false} SubtractIsMinimal(v: Value, r: Refinement)
    requires Fits(v, r)
    ensures NothingRepeated(Subtract(v, r), r)
    ensures IsEmpty(Subtract(v, r)) <==> NothingNew(v, r)
    decreases v
  {
    if v.Struct? {
      forall i | 0 <= i < |v.fields|
        ensures NothingRepeated(Subtract(v.fields[i], r.fields[i]), r.fields[i])
        ensures IsEmpty(Subtract(v.fields[i], r.fields[i])) <==> NothingNew(v.fields[i], r.fields[i])
      {
        SubtractIsMinimal(v.fields[i], r.fields[i]);
      }
    }
  }

  /** Every field of `v` that has a value is present in `r` with that value. */
  ghost predicate NothingNew(v: Value, r: Refinement)
    requires Fits(v, r)
    decreases v
  {
    match v
    case Plain(x) => r.option == Some(x)
    case Optional(o) => o.None? || r.option == o
    case Struct(vs) => forall i :: 0 <= i < |vs| ==> NothingNew(vs[i], r.fields[i])
  }

  lemma {:induction false} SubtractRefinementIsMinimal(s: Refinement, r: Refinement)
    requires SameShape(s, r)
    ensures NothingRepeated(SubtractRefinement(s, r), r)
    ensures SameShape(r, s) && (IsEmpty(SubtractRefinement(s, r)) <==> CoversRefinement(r, s))
    decreases s
  {
    ShapeCommutes(s, r);
    if s.Nested? {
      forall i | 0 <= i < |s.fields|
        ensures NothingRepeated(SubtractRefinement(s.fields[i], r.fields[i]), r.fields[i])
        ensures SameShape(r.fields[i], s.fields[i])
        ensures IsEmpty(SubtractRefinement(s.fields[i], r.fields[i])) <==> CoversRefinement(r.fields[i], s.fields[i])
      {
        SubtractRefinementIsMinimal(s.fields[i], r.fields[i]);
      }
    }
  }

  predicate IsEmpty(r: Refinement) {
    match r
    case Leaf(o) => o.None?
    case Nested(rs) => forall i :: 0 <= i < |rs| ==> IsEmpty(rs[i])
  }

  lemma {:induction false} FitsMerge(v: Value, a: Refinement, b: Refinement)
    requires Fits(v, a) && Fits(v, b)
    ensures SameShape(a, b) && Fits(v, Merge(a, b))
    decreases v
  {
    if v.Struct? {
      forall i | 0 <= i < |v.fields|
        ensures SameShape(a.fields[i], b.fields[i]) && Fits(v.fields[i], Merge(a.fields[i], b.fields[i]))
      {
        FitsMerge(v.fields[i], a.fields[i], b.fields[i]);
      }
    }
  }

  /** Refining by `a` and then by `b` is refining once by `a` refined by `b`. */
  lemma {:induction false} RefineComposes(v: Value, a: Refinement, b: Refinement)
    requires Fits(v, a) && Fits(v, b)
    ensures SameShape(a, b) && Fits(v, Merge(a, b)) && Fits(Refined(v, a), b)
    ensures Refined(Refined(v, a), b) == Refined(v, Merge(a, b))
    decreases v
  {
    FitsMerge(v, a, b);
    if v.Struct? {
      forall i | 0 <= i < |v.fields|
        ensures Fits(Refined(v.fields[i], a.fields[i]), b.fields[i])
        ensures Refined(Refined(v.fields[i], a.fields[i]), b.fields[i]) == Refined(v.fields[i], Merge(a.fields[i], b.fields[i]))
      {
        RefineComposes(v.fields[i], a.fields[i], b.fields[i]);
      }
    }
  }

  /** Merging is associative, so a cascade may be folded from either end. */
  lemma {:induction false} MergeAssociates(a: Refinement, b: Refinement, c: Refinement)
    requires SameShape(a, b) && SameShape(b, c)
    ensures SameShape(a, c) && SameShape(Merge(a, b), c) && SameShape(a, Merge(b, c))
    ensures Merge(Merge(a, b), c) == Merge(a, Merge(b, c))
    decreases a
  {
    if a.Nested? {
      forall i | 0 <= i < |a.fields|
        ensures SameShape(a.fields[i], c.fields[i]) && SameShape(Merge(a.fields[i], b.fields[i]), c.fields[i])
        ensures SameShape(a.fields[i], Merge(b.fields[i], c.fields[i]))
        ensures Merge(Merge(a.fields[i], b.fields[i]), c.fields[i]) == Merge(a.fields[i], Merge(b.fields[i], c.fields[i]))
      {
        MergeAssociates(a.fields[i], b.fields[i], c.fields[i]);
      }
    }
  }

  /** Being a superset means that refining changes nothing. */
  lemma {:induction false} SupersetIffUnchanged(v: Value, r: Refinement)
    requires Fits(v, r)
    ensures IsSupersetOf(v, r) <==> Refined(v, r) == v
    decreases v
  {
    if v.Struct? {
      forall i | 0 <= i < |v.fields|
        ensures IsSupersetOf(v.fields[i], r.fields[i]) <==> Refined(v.fields[i], r.fields[i]) == v.fields[i]
      {
        SupersetIffUnchanged(v.fields[i], r.fields[i]);
      }
      if Refined(v, r) == v {
        forall i | 0 <= i < |v.fields| ensures Refined(v.fields[i], r.fields[i]) == v.fields[i] {
          assert Refined(v, r).fields[i] == v.fields[i];
        }
      }
    }
  }

  /** What is left of `s` after taking away `r`, put on top of `r`, contains all of `s`. */
  lemma SubtractRestores(s: Refinement, r: Refinement)
    requires SameShape(s, r)
    ensures var d := SubtractRefinement(s, r);
            && SameShape(r, d) && SameShape(Merge(r, d), s)
            && CoversRefinement(Merge(r, d), s) && Merge(Merge(r, d), s) == Merge(r, d)
  {
    SubtractCovers(s, r);
    CoversIffUnchanged(Merge(r, SubtractRefinement(s, r)), s);
  }

  lemma {:induction false} SubtractCovers(s: Refinement, r: Refinement)
    requires SameShape(s, r)
    ensures var d := SubtractRefinement(s, r);
            SameShape(r, d) && SameShape(Merge(r, d), s) && CoversRefinement(Merge(r, d), s)
    decreases s
  {
    if s.Nested? {
      forall i | 0 <= i < |s.fields|
        ensures var d := SubtractRefinement(s.fields[i], r.fields[i]);
                SameShape(r.fields[i], d) && SameShape(Merge(r.fields[i], d), s.fields[i]) && CoversRefinement(Merge(r.fields[i], d), s.fields[i])
      {
        SubtractCovers(s.fields[i], r.fields[i]);
      }
    }
  }

  /** No optional field is absent in `v` and present in `w`. */
  ghost predicate NothingToErase(v: Value, w: Value)
    decreases v
  {
    match (v, w)
    case (Optional(o), Optional(p)) => o.None? ==> p.None?
    case (Struct(vs), Struct(ws)) => |vs| == |ws| && forall i :: 0 <= i < |vs| ==> NothingToErase(vs[i], ws[i])
    case (Plain(_), Plain(_)) => true
    case _ => false
  }

  ghost predicate SameSchema(v: Value, w: Value) {
    match (v, w)
    case (Optional(_), Optional(_)) => true
    case (Struct(vs), Struct(ws)) => |vs| == |ws| && forall i :: 0 <= i < |vs| ==> SameSchema(vs[i], ws[i])
    case (Plain(_), Plain(_)) => true
    case _ => false
  }

  /** A difference rebuilds `v` on a base already refined by `r`, iff it need not erase an optional field. */
  lemma {:induction false} DifferenceRebuilds(base: Value, v: Value, r: Refinement)
    requires Fits(base, r) && Fits(v, r) && SameSchema(base, v)
    ensures Fits(Refined(base, r), Subtract(v, r))
    ensures Refined(Refined(base, r), Subtract(v, r)) == v <==> NothingToErase(v, Refined(base, r))
    decreases v
  {
    if v.Struct? {
      var d := Subtract(v, r);
      forall i | 0 <= i < |v.fields|
        ensures Fits(Refined(base.fields[i], r.fields[i]), Subtract(v.fields[i], r.fields[i]))
        ensures Refined(Refined(base.fields[i], r.fields[i]), Subtract(v.fields[i], r.fields[i])) == v.fields[i] <==>
                  NothingToErase(v.fields[i], Refined(base.fields[i], r.fields[i]))
      {
        DifferenceRebuilds(base.fields[i], v.fields[i], r.fields[i]);
      }
      var w := Refined(Refined(base, r), d);
      if w == v {
        forall i | 0 <= i < |v.fields| ensures NothingToErase(v.fields[i], Refined(base.fields[i], r.fields[i])) {
          assert w.fields[i] == v.fields[i];
        }
      }
    }
  }

  /** An empty refinement has no effect. */
  lemma {:induction false} EmptyHasNoEffect(v: Value, r: Refinement)
    requires Fits(v, r) && IsEmpty(r)
    ensures Refined(v, r) == v
    decreases v
  {
    if v.Struct? {
      forall i | 0 <= i < |v.fields| ensures Refined(v.fields[i], r.fields[i]) == v.fields[i] {
        EmptyHasNoEffect(v.fields[i], r.fields[i]);
      }
    }
  }

  /** A structure that every present value of `r` would change. */
  ghost function Disturbed(r: Refinement): Value {
    match r
    case Leaf(o) => Plain(if o.Some? then o.value + 1 else 0)
    case Nested(rs) => Struct(seq(|rs|, i requires 0 <= i < |rs| => Disturbed(rs[i])))
  }

  /** A non-empty refinement does have an effect on some structure it fits. */
  lemma {:induction false} NonEmptyHasEffect(r: Refinement)
    ensures Fits(Disturbed(r), r) && (!IsEmpty(r) ==> Refined(Disturbed(r), r) != Disturbed(r))
  {
    if r.Nested? {
      forall i | 0 <= i < |r.fields|
        ensures Fits(Disturbed(r.fields[i]), r.fields[i])
        ensures !IsEmpty(r.fields[i]) ==> Refined(Disturbed(r.fields[i]), r.fields[i]) != Disturbed(r.fields[i])
      {
        NonEmptyHasEffect(r.fields[i]);
      }
      if !IsEmpty(r) {
        var i :| 0 <= i < |r.fields| && !IsEmpty(r.fields[i]);
        assert Refined(Disturbed(r), r).fields[i] != Disturbed(r).fields[i];
      }
    }
  }

  lemma {:induction false} ShapeCommutes(r: Refinement, s: Refinement)
    requires SameShape(r, s)
    ensures SameShape(s, r)
    decreases r
  {
    if r.Nested? {
      forall i | 0 <= i < |r.fields| ensures SameShape(s.fields[i], r.fields[i]) { ShapeCommutes(r.fields[i], s.fields[i]); }
    }
  }

  lemma {:induction false} ShapeTransits(r: Refinement, s: Refinement, t: Refinement)
    requires SameShape(r, s) && SameShape(s, t)
    ensures SameShape(r, t)
    decreases r
  {
    if r.Nested? {
      forall i | 0 <= i < |r.fields| ensures SameShape(r.fields[i], t.fields[i]) {
        ShapeTransits(r.fields[i], s.fields[i], t.fields[i]);
      }
    }
  }

  lemma {:induction false} FitsShape(v: Value, r: Refinement, s: Refinement)
    requires Fits(v, r) && SameShape(r, s)
    ensures Fits(v, s)
    decreases v
  {
    if v.Struct? {
      forall i | 0 <= i < |v.fields| ensures Fits(v.fields[i], s.fields[i]) { FitsShape(v.fields[i], r.fields[i], s.fields[i]); }
    }
  }

  /** The base slot is filled, and all refinements are of its type. */
  ghost predicate Uniform(slots: seq<Option<Refinement>>) {
    && |slots| > 0 && slots[0].Some?
    && forall i :: 0 <= i < |slots| && slots[i].Some? ==> SameShape(slots[0].value, slots[i].value)
  }

  /** The slots merged from the first to the last, empty ones skipped. */
  ghost function MergeSlots(slots: seq<Option<Refinement>>): (r: Refinement)
    requires Uniform(slots)
    ensures SameShape(slots[0].value, r)
  {
    var n := |slots| - 1;
    if n == 0 then slots[0].value
    else
      var rest := MergeSlots(slots[..n]);
      if slots[n].None? then rest
      else
        ShapeCommutes(slots[0].value, rest);
        ShapeTransits(rest, slots[0].value, slots[n].value);
        ShapeCommutes(Merge(rest, slots[n].value), rest);
        ShapeTransits(slots[0].value, rest, Merge(rest, slots[n].value));
        Merge(rest, slots[n].value)
  }

  /** The value refined by each filled slot in turn. */
  ghost function RefinedByEach(v: Value, slots: seq<Option<Refinement>>): (w: Value)
    requires slots != [] ==> Uniform(slots) && Fits(v, slots[0].value)
    ensures slots != [] ==> Fits(w, slots[0].value)
  {
    if slots == [] then v
    else
      var n := |slots| - 1;
      var w := RefinedByEach(v, slots[..n]);
      if slots[n].None? then w
      else
        FitsShape(w, slots[0].value, slots[n].value);
        ShapeCommutes(slots[0].value, slots[n].value);
        FitsShape(Refined(w, slots[n].value), slots[n].value, slots[0].value);
        Refined(w, slots[n].value)
  }

  /** Refining once by the merged cascade is refining by each filled slot in order, for any number of slots. */
  lemma {:induction false} CascadeRefinesInOrder(v: Value, slots: seq<Option<Refinement>>)
    requires Uniform(slots) && Fits(v, slots[0].value)
    ensures Fits(v, MergeSlots(slots)) && Refined(v, MergeSlots(slots)) == RefinedByEach(v, slots)
    decreases |slots|
  {
    FitsShape(v, slots[0].value, MergeSlots(slots));
    var n := |slots| - 1;
    if n == 0 {
      assert slots[..0] == [];
      assert RefinedByEach(v, slots[..0]) == v;
    } else {
      CascadeRefinesInOrder(v, slots[..n]);
      if slots[n].Some? {
        FitsShape(v, slots[0].value, slots[n].value);
        RefineComposes(v, MergeSlots(slots[..n]), slots[n].value);
      }
    }
  }

  /** Of a single field, the last filled slot that says anything of it decides; earlier ones and empty ones do not matter. */
  lemma {:induction false} LastSlotDecides(slots: seq<Option<Refinement>>, k: nat)
    requires Uniform(slots) && slots[0].value.Leaf? && k < |slots|
    requires slots[k].Some? && slots[k].value.Leaf? && slots[k].value.option.Some?
    requires forall j :: k < j < |slots| && slots[j].Some? ==> slots[j].value == Leaf(None)
    ensures MergeSlots(slots) == slots[k].value
    decreases |slots|
  {
    var n := |slots| - 1;
    if n > k {
      LastSlotDecides(slots[..n], k);
    }
  }

  class Cascade {
    var slots: seq<Option<Refinement>>

    ghost predicate Valid()
      reads this
    {
      Uniform(slots)
    }

    constructor (base: Refinement)
      ensures Valid() && slots == [Some(base)]
    {
      slots := [Some(base)];
      new;
      SelfShape(base);
    }

    method Reserve() returns (slot: nat)
      requires Valid()
      modifies this
      ensures Valid() && slots == old(slots) + [None] && slot == |old(slots)|
    {
      slots := slots + [None];
      slot := |slots| - 1;
    }

    /** A slot other than the base may be emptied; the base may only be replaced. */
    method Set(slot: nat, refinement: Option<Refinement>)
      requires Valid() && slot < |slots|
      requires refinement.Some? ==> SameShape(slots[0].value, refinement.value)
      modifies this
      ensures slots == old(slots)[slot := refinement]
      ensures Valid() <==> slot != 0 || refinement.Some?
    {
      if slot == 0 && refinement.Some? {
        forall i | 0 <= i < |slots| && slots[i].Some? ensures SameShape(refinement.value, slots[i].value) {
          ShapeCommutes(slots[0].value, refinement.value);
          ShapeTransits(refinement.value, slots[0].value, slots[i].value);
        }
        SelfShape(refinement.value);
      }
      slots := slots[slot := refinement];
    }

    method Merged() returns (merged: Refinement)
      requires Valid()
      ensures merged == MergeSlots(slots)
    {
      merged := slots[0].value;
      for i := 1 to |slots|
        invariant Uniform(slots[..i]) && merged == MergeSlots(slots[..i])
      {
        assert slots[..i + 1][..i] == slots[..i];
        if slots[i].Some? {
          ShapeCommutes(slots[0].value, merged);
          ShapeTransits(merged, slots[0].value, slots[i].value);
          merged := Merge(merged, slots[i].value);
        }
      }
      assert slots[..|slots|] == slots;
    }

    /** The default value with the whole cascade applied. */
    method FromCascade(initial: Value) returns (v: Value)
      requires Valid() && Fits(initial, slots[0].value)
      ensures v == RefinedByEach(initial, slots)
    {
      CascadeRefinesInOrder(initial, slots);
      var merged := Merged();
      v := Refined(initial, merged);
    }
  }
}
