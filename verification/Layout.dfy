/** Laying out a schema: the field order, and each field's slot, bit and index. */
module Layout {
  import opened Bytes
  import opened Row

  // A field before layout: what is chosen for it, and what is persisted of it.
  datatype Spec = Spec(id: nat, kind: Kind, width: nat, uns: bool)

  function SpecOf(f: Field): (r: Spec) { Spec(f.id, f.kind, f.width, f.uns) }

  predicate ValidSpec(f: Spec) { ValidField(Field(f.id, f.kind, f.width, f.uns, 0, 0)) }

  // Bools, then ints by width, then reals, then strings; ties by id.
  predicate Before(a: Spec, b: Spec)
  {
    if a.kind != b.kind then KindRank(a.kind) < KindRank(b.kind) else if a.width != b.width then a.width < b.width
      else a.id < b.id
  }

  predicate Ordered(fs: seq<Spec>) { forall i, j :: 0 <= i < j < |fs| ==> Before(fs[i], fs[j]) }

  predicate DistinctSpecs(fs: seq<Spec>) { forall i, j :: 0 <= i < j < |fs| ==> fs[i].id != fs[j].id }

  function Insert(fs: seq<Spec>, f: Spec): (r: seq<Spec>)
    ensures |r| == |fs| + 1
  {
    if fs == [] || Before(fs[|fs| - 1], f) then fs + [f] else Insert(fs[..|fs| - 1], f) + [fs[|fs| - 1]]
  }

  function Sort(fs: seq<Spec>): (r: seq<Spec>)
    ensures |r| == |fs|
  {
    if fs == [] then [] else Insert(Sort(fs[..|fs| - 1]), fs[|fs| - 1])
  }

  lemma {:induction false} InsertMember(fs: seq<Spec>, f: Spec, x: Spec)
    ensures x in Insert(fs, f) <==> x in fs || x == f
    decreases |fs|
  {
    if fs != [] {
      assert fs == fs[..|fs| - 1] + [fs[|fs| - 1]];
      if !Before(fs[|fs| - 1], f) { InsertMember(fs[..|fs| - 1], f, x); }
    }
  }

  lemma BeforeTrans(a: Spec, b: Spec, c: Spec)
    ensures Before(a, b) && Before(b, c) ==> Before(a, c)
    ensures a.id != b.id ==> Before(a, b) || Before(b, a)
  {
  }

  lemma {:induction false} InsertOrdered(fs: seq<Spec>, f: Spec)
    requires Ordered(fs) && forall x :: x in fs ==> x.id != f.id
    ensures Ordered(Insert(fs, f))
    decreases |fs|
  {
    hide Before;
    if fs == [] {
    } else {
      var n := |fs| - 1;
      BeforeTrans(fs[n], f, f);
      if Before(fs[n], f) {
        forall i | 0 <= i < |fs| ensures Before(fs[i], f) { BeforeTrans(fs[i], fs[n], f); }
      } else {
        InsertOrdered(fs[..n], f);
        var r := Insert(fs[..n], f);
        forall i | 0 <= i < |r| ensures Before(r[i], fs[n]) {
          InsertMember(fs[..n], f, r[i]);
          if r[i] in fs[..n] { var j :| 0 <= j < n && fs[j] == r[i]; }
        }
      }
    }
  }

  // The layout order is a permutation, sorted.
  // Booleans, integers, reals, strings; of a kind, the narrower first; of a width, by id.
  predicate NotAfter(a: Spec, b: Spec)
  {
    && (b.kind.KBool? ==> a.kind.KBool?) && (b.kind.KInt? ==> a.kind.KBool? || a.kind.KInt?)
    && (b.kind.KReal? ==> !a.kind.KString?)
    && (a.kind == b.kind ==> a.width < b.width || (a.width == b.width && a.id < b.id))
  }

  lemma {:induction false} SortSorts(fs: seq<Spec>)
    requires DistinctSpecs(fs)
    ensures Ordered(Sort(fs)) && forall x :: x in Sort(fs) <==> x in fs
    decreases |fs|
  {
    if fs != [] {
      hide Before;
      var n := |fs| - 1;
      SortSorts(fs[..n]);
      InsertOrdered(Sort(fs[..n]), fs[n]);
      forall x ensures x in Sort(fs) <==> x in fs {
        InsertMember(Sort(fs[..n]), fs[n], x);
        assert fs == fs[..n] + [fs[n]];
      }
    }
  }

  lemma SortedAs(fs: seq<Spec>, i: nat, j: nat)
    requires DistinctSpecs(fs) && i < j < |Sort(fs)|
    ensures NotAfter(Sort(fs)[i], Sort(fs)[j])
  {
    hide Sort;
    SortSorts(fs);
    assert Before(Sort(fs)[i], Sort(fs)[j]);
  }

  lemma InsertLast(fs: seq<Spec>, f: Spec)
    requires fs == [] || Before(fs[|fs| - 1], f)
    ensures Insert(fs, f) == fs + [f]
  {
  }

  // Fields already in layout order stay where they are, and only those.
  lemma {:induction false} SortFixed(fs: seq<Spec>)
    requires DistinctSpecs(fs)
    ensures Sort(fs) == fs <==> Ordered(fs)
    decreases |fs|
  {
    hide Before;
    if Ordered(fs) && fs != [] {
      var n := |fs| - 1;
      SortFixed(fs[..n]);
      InsertLast(fs[..n], fs[n]);
      assert fs == fs[..n] + [fs[n]];
    } else {
      SortSorts(fs);
    }
  }

  // ---------------------------------------------------------------- slots and bits

  function SpecsOf(fs: seq<Field>): (r: seq<Spec>)
    ensures |r| == |fs| && forall i :: 0 <= i < |fs| ==> r[i] == SpecOf(fs[i])
  {
    seq(|fs|, i requires 0 <= i < |fs| => SpecOf(fs[i]))
  }

  function Bools(fs: seq<Spec>, n: nat): (r: nat)
    requires n <= |fs|
    ensures r <= n
  {
    if n == 0 then 0 else Bools(fs, n - 1) + if fs[n - 1].kind == KBool then 1 else 0
  }

  method CountBools(fs: seq<Spec>) returns (n: nat)
    ensures n == Bools(fs, |fs|)
  {
    n := 0;
    for i := 0 to |fs|
      invariant n == Bools(fs, i)
    {
      if fs[i].kind == KBool { n := n + 1; }
    }
  }

  lemma {:induction false} BoolsSame(fs: seq<Field>, specs: seq<Spec>, n: nat)
    requires n <= |fs| <= |specs| && forall i :: 0 <= i < n ==> SpecOf(fs[i]) == specs[i]
    ensures BoolsBefore(fs, n) == Bools(specs, n)
    decreases n
  {
    if n > 0 { BoolsSame(fs, specs, n - 1); }
  }

  // Growing the field list does not move the slots already assigned.
  lemma {:induction false} PrefixKept(fs: seq<Field>, f: Field, base: nat, i: nat)
    requires i <= |fs|
    ensures SlotOff(fs + [f], base, i) == SlotOff(fs, base, i) && BoolsBefore(fs + [f], i) == BoolsBefore(fs, i)
    decreases i
  {
    if i > 0 { PrefixKept(fs, f, base, i - 1); }
  }

  ghost predicate PlacedAt(fs: seq<Field>, boolBytes: nat, i: nat)
    requires i < |fs|
  {
    (Numeric(fs[i]) ==> fs[i].off == SlotOff(fs, boolBytes, i)) &&
      (fs[i].kind == KBool ==> fs[i].boolBit == BoolsBefore(fs, i))
  }

  ghost predicate Placed(fs: seq<Field>, specs: seq<Spec>, boolBytes: nat)
  {
    && |fs| <= |specs| && (forall i :: 0 <= i < |fs| ==> SpecOf(fs[i]) == specs[i])
    && forall i: nat {:trigger PlacedAt(fs, boolBytes, i)} :: i < |fs| ==> PlacedAt(fs, boolBytes, i)
  }

  lemma PlacedSnoc(fs: seq<Field>, specs: seq<Spec>, boolBytes: nat, f: Field)
    requires Placed(fs, specs, boolBytes) && |fs| < |specs| && SpecOf(f) == specs[|fs|]
    requires (Numeric(f) ==> f.off == SlotOff(fs, boolBytes, |fs|))
    requires (f.kind == KBool ==> f.boolBit == BoolsBefore(fs, |fs|))
    ensures Placed(fs + [f], specs, boolBytes)
    ensures SlotOff(fs + [f], boolBytes, |fs| + 1) == SlotOff(fs, boolBytes, |fs|) + if Numeric(f) then f.width else 0
    ensures BoolsBefore(fs + [f], |fs| + 1) == BoolsBefore(fs, |fs|) + if f.kind == KBool then 1 else 0
  {
    PrefixKept(fs, f, boolBytes, |fs|);
    forall i: nat | i < |fs + [f]| ensures PlacedAt(fs + [f], boolBytes, i) {
      if i < |fs| {
        assert PlacedAt(fs, boolBytes, i);
        PrefixKept(fs, f, boolBytes, i);
      }
    }
  }

  // Order the fields, then hand out slots behind the bool bitset, bits within it, and escape bits.
  method LayoutSchema(specs: seq<Spec>) returns (s: Schema)
    requires DistinctSpecs(specs) && forall i :: 0 <= i < |specs| ==> ValidSpec(specs[i])
    ensures ValidSchema(s) && SpecsOf(s.fields) == Sort(specs)
  {
    hide Sort, Before, SlotOff, BoolsBefore, Bools, PlacedAt;
    var fs := Sort(specs);
    SortSorts(specs);
    SortDistinct(specs);
    var nBool := CountBools(fs);
    var boolBytes := BitBytes(nBool);
    var fields: seq<Field> := [];
    var byId: map<nat, nat> := map[];
    var off, bit := boolBytes, 0;
    NothingPlaced(boolBytes, fs);
    for i := 0 to |fs|
      invariant |fields| == i && Placed(fields, fs, boolBytes)
      invariant off == SlotOff(fields, boolBytes, i) && bit == BoolsBefore(fields, i)
      invariant forall j :: 0 <= j < i ==> fs[j].id in byId && byId[fs[j].id] == j
      invariant forall id :: id in byId ==> byId[id] < i && fs[byId[id]].id == id
    {
      var f := fs[i];
      var placed := Field(f.id, f.kind, f.width, f.uns, if f.kind == KBool then bit else 0, if f.kind == KInt ||
        f.kind == KReal then off else 0);
      PlacedSnoc(fields, fs, boolBytes, placed);
      if f.kind == KBool { bit := bit + 1; }
      if f.kind == KInt || f.kind == KReal { off := off + f.width; }
      byId := byId[f.id := i];
      fields := fields + [placed];
    }
    s := Schema(fields, byId, boolBytes, off, BitBytes(|fs|));
    BoolsSame(fields, fs, |fields|);
    forall i: nat | i < |s.fields| ensures FieldOK(s, i) {
      assert fs[i] in specs;
      PlacedField(fields, boolBytes, fs, i);
    }
  }

  lemma NothingPlaced(boolBytes: nat, fs: seq<Spec>)
    ensures Placed([], fs, boolBytes) && SlotOff([], boolBytes, 0) == boolBytes && BoolsBefore([], 0) == 0
  {
  }

  lemma PlacedField(fields: seq<Field>, boolBytes: nat, fs: seq<Spec>, i: nat)
    requires Placed(fields, fs, boolBytes) && i < |fields|
    ensures SpecOf(fields[i]) == fs[i]
    ensures (Numeric(fields[i]) ==> fields[i].off == SlotOff(fields, boolBytes, i)) &&
      (fields[i].kind == KBool ==> fields[i].boolBit == BoolsBefore(fields, i))
  {
    assert PlacedAt(fields, boolBytes, i);
  }

  lemma SortDistinct(specs: seq<Spec>)
    requires DistinctSpecs(specs)
    ensures DistinctSpecs(Sort(specs))
  {
    hide Sort;
    var fs := Sort(specs);
    SortSorts(specs);
    forall i, j | 0 <= i < j < |fs| ensures fs[i].id != fs[j].id {
      assert fs[i] in specs && fs[j] in specs;
      assert Before(fs[i], fs[j]);
    }
  }
}
