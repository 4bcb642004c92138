/** Conjunctions of scalar numeric comparisons, and the zone maps that rule blocks out. */
module Preds {
  import opened Bytes
  import opened Wire
  import opened AdSchema
  import opened Row
  import opened Values
  import opened Floats

  datatype Test = Test(op: Op, val: F64)

  // One field's combined test: the conjunction of every comparison on it.
  datatype Pred = Pred(id: nat, tests: seq<Test>)

  predicate Eval(tests: seq<Test>, v: F64)
  {
    tests == [] || (Compare(tests[0].op, v, tests[0].val) && Eval(tests[1..], v))
  }

  lemma {:induction false} EvalAll(tests: seq<Test>, v: F64)
    ensures Eval(tests, v) <==> forall t :: 0 <= t < |tests| ==> Compare(tests[t].op, v, tests[t].val)
  {
    if tests != [] {
      EvalAll(tests[1..], v);
      assert forall t :: 1 <= t < |tests| ==> tests[t] == tests[1..][t - 1];
      if forall t :: 0 <= t < |tests| ==> Compare(tests[t].op, v, tests[t].val) {
        assert forall t :: 0 <= t < |tests[1..]| ==> tests[1..][t] == tests[t + 1];
      }
    }
  }

  // A record satisfies a field's predicate: the attribute is a number and every comparison is true.
  predicate Holds(p: Pred, ad: seq<Entry>)
  {
    AttrVal(ad, p.id).Some? && Eval(p.tests, FOf(AttrVal(ad, p.id).value))
  }

  predicate HoldsAll(preds: seq<Pred>, ad: seq<Entry>)
  {
    preds == [] || (Holds(preds[0], ad) && HoldsAll(preds[1..], ad))
  }

  lemma {:induction false} HoldsAllIff(preds: seq<Pred>, ad: seq<Entry>)
    ensures HoldsAll(preds, ad) <==> forall i :: 0 <= i < |preds| ==> Holds(preds[i], ad)
  {
    hide Holds;
    if preds != [] {
      HoldsAllIff(preds[1..], ad);
      assert forall t :: 1 <= t < |preds| ==> preds[t] == preds[1..][t - 1];
      if forall t :: 0 <= t < |preds| ==> Holds(preds[t], ad) {
        assert forall t :: 0 <= t < |preds[1..]| ==> preds[1..][t] == preds[t + 1];
      }
    }
  }

  lemma {:induction false} HoldsAllSnoc(preds: seq<Pred>, p: Pred, ad: seq<Entry>)
    ensures HoldsAll(preds + [p], ad) <==> HoldsAll(preds, ad) && Holds(p, ad)
  {
    hide Holds;
    if preds == [] {
      assert preds + [p] == [p] && [p][1..] == [];
    } else {
      assert (preds + [p])[1..] == preds[1..] + [p];
      HoldsAllSnoc(preds[1..], p, ad);
    }
  }

  // ---------------------------------------------------------------- zones

  datatype Zone = Zone(min: F64, max: F64, escaped: bool)

  predicate ZoneMayMatch(z: Zone, t: Test)
  {
    match t.op
    case OEq => Le(z.min, t.val) && Le(t.val, z.max)
    case OLt => Lt(z.min, t.val)
    case OLe => Le(z.min, t.val)
    case OGt => Lt(t.val, z.max)
    case OGe => Le(t.val, z.max)
    case ONe => true
  }

  predicate AnyExcluded(z: Zone, tests: seq<Test>)
  {
    tests != [] && (!ZoneMayMatch(z, tests[0]) || AnyExcluded(z, tests[1..]))
  }

  // A value the zone covers: within its bounds, or NaN, which no ordering bounds.
  predicate Covers(z: Zone, v: F64) { v.NaN? || (Le(z.min, v) && Le(v, z.max)) }

  lemma TestExcluded(z: Zone, t: Test, v: F64)
    requires Covers(z, v) && !ZoneMayMatch(z, t)
    ensures !Compare(t.op, v, t.val)
  {
  }

  // A zone rules a test out exactly when no value between its bounds satisfies it; inequality it never rules out.
  lemma ZoneTight(z: Zone, t: Test)
    requires Le(z.min, z.max) && t.op != ONe
    ensures ZoneMayMatch(z, t) <==> exists v :: Covers(z, v) && Compare(t.op, v, t.val)
  {
    if ZoneMayMatch(z, t) {
      var v := if t.op == OEq then t.val else if t.op == OLt || t.op == OLe then z.min else z.max;
      assert Covers(z, v) && Compare(t.op, v, t.val);
    } else {
      forall v | Covers(z, v) ensures !Compare(t.op, v, t.val) { TestExcluded(z, t, v); }
    }
  }

  // Membership in a list of values: ruled out exactly when no value the zone covers equals any of them.
  method ZoneMayMatchIn(z: Zone, vals: seq<F64>) returns (may: bool)
    ensures may <==> exists v, i :: 0 <= i < |vals| && Covers(z, v) && Compare(OEq, v, vals[i])
  {
    for i := 0 to |vals|
      invariant forall v, j :: 0 <= j < i && Covers(z, v) ==> !Compare(OEq, v, vals[j])
    {
      if ZoneMayMatch(z, Test(OEq, vals[i])) {
        assert Covers(z, vals[i]) && Compare(OEq, vals[i], vals[i]);
        return true;
      }
      forall v | Covers(z, v) ensures !Compare(OEq, v, vals[i]) { TestExcluded(z, Test(OEq, vals[i]), v); }
    }
    may := false;
  }

  // A zone that excludes some test excludes every value it covers.
  lemma {:induction false} ZoneExcludes(z: Zone, tests: seq<Test>, v: F64)
    requires Covers(z, v) && AnyExcluded(z, tests)
    ensures !Eval(tests, v)
  {
    if !ZoneMayMatch(z, tests[0]) {
      TestExcluded(z, tests[0], v);
    } else {
      ZoneExcludes(z, tests[1..], v);
    }
  }

  // A block may be skipped for a field only on an exact zone that excludes a test.
  predicate MayMatch(zones: map<nat, Zone>, i: nat, tests: seq<Test>)
  {
    i !in zones || zones[i].escaped || !AnyExcluded(zones[i], tests)
  }

  // Field i's zone is exact: marked escaped when any record's value is not in the column, its bounds
  // otherwise cover every column value, and each bound is the initial one or some record's value.
  ghost predicate ZoneExact(z: Zone, s: Schema, ads: seq<seq<Entry>>, i: nat)
    requires i < |s.fields|
  {
    && (ads != [] ==> (z.escaped <==> exists k :: 0 <= k < |ads| && SlotLit(s, ads[k], i).None?))
    && (!z.escaped ==> forall k :: 0 <= k < |ads| ==> InZone(z, s, ads[k], i))
    && (!z.escaped ==> z.min == PosInf || exists k :: 0 <= k < |ads| && IsValue(s, ads[k], i, z.min))
    && (!z.escaped ==> z.max == NegInf || exists k :: 0 <= k < |ads| && IsValue(s, ads[k], i, z.max))
  }

  predicate IsValue(s: Schema, ad: seq<Entry>, i: nat, v: F64)
    requires i < |s.fields|
  {
    SlotLit(s, ad, i).Some? && NodeVal(Lit(SlotLit(s, ad, i).value)).Some? &&
      FOf(NodeVal(Lit(SlotLit(s, ad, i).value)).value) == v
  }

  predicate InZone(z: Zone, s: Schema, ad: seq<Entry>, i: nat)
    requires i < |s.fields|
  {
    SlotLit(s, ad, i).Some? && NodeVal(Lit(SlotLit(s, ad, i).value)).Some? &&
      Covers(z, FOf(NodeVal(Lit(SlotLit(s, ad, i).value)).value))
  }

  ghost predicate ZonesExact(zones: map<nat, Zone>, s: Schema, ads: seq<seq<Entry>>)
  {
    forall i: nat {:trigger zones[i]} ::
      i in zones ==> i < |s.fields| && Numeric(s.fields[i]) && ZoneExact(zones[i], s, ads, i)
  }

  lemma {:induction false} AnyExcludedExactly(z: Zone, tests: seq<Test>)
    ensures AnyExcluded(z, tests) <==> exists q :: 0 <= q < |tests| && !ZoneMayMatch(z, tests[q])
    decreases |tests|
  {
    hide ZoneMayMatch;
    if tests != [] {
      AnyExcludedExactly(z, tests[1..]);
      if q :| 0 <= q < |tests| && !ZoneMayMatch(z, tests[q]) {
        if q > 0 { assert tests[1..][q - 1] == tests[q]; }
      }
    }
  }

  // A block is passed over on a field exactly where it has a zone without escapes that rules out a comparison.
  lemma PassedOverExactly(zones: map<nat, Zone>, i: nat, tests: seq<Test>)
    ensures !MayMatch(zones, i, tests) <==>
      i in zones && !zones[i].escaped && exists q :: 0 <= q < |tests| && !ZoneMayMatch(zones[i], tests[q])
  {
    hide ZoneMayMatch, AnyExcluded;
    if i in zones { AnyExcludedExactly(zones[i], tests); }
  }

  // Pruning is sound: a block ruled out on a field holds no record satisfying that field's predicate.
  lemma PruneSound(zones: map<nat, Zone>, s: Schema, ads: seq<seq<Entry>>, i: nat, p: Pred, k: nat)
    requires ValidSchema(s) && ZonesExact(zones, s, ads) && i < |s.fields| && s.fields[i].id == p.id
    requires k < |ads| && !MayMatch(zones, i, p.tests)
    ensures !Holds(p, ads[k])
  {
    hide Covers, AnyExcluded, Eval, ValidSchema;
    var z := zones[i];
    assert InZone(z, s, ads[k], i);
    ZoneExcludes(z, p.tests, FOf(NodeVal(Lit(SlotLit(s, ads[k], i).value)).value));
  }

  // ---------------------------------------------------------------- from probes to per-field predicates

  // One `Attr OP literal` conjunct.
  datatype Probe = Probe(id: nat, test: Test)

  predicate ProbeHolds(q: Probe, ad: seq<Entry>)
  {
    AttrVal(ad, q.id).Some? && Compare(q.test.op, FOf(AttrVal(ad, q.id).value), q.test.val)
  }

  ghost predicate AllProbesHold(qs: seq<Probe>, ad: seq<Entry>) { forall i :: 0 <= i < |qs| ==> ProbeHolds(qs[i], ad) }

  function IndexOf(preds: seq<Pred>, id: nat): (r: Option<nat>)
    ensures r.Some? ==> r.value < |preds| && preds[r.value].id == id
    ensures r.None? ==> forall i :: 0 <= i < |preds| ==> preds[i].id != id
  {
    if preds == [] then None
    else if preds[|preds| - 1].id == id then Some(|preds| - 1)
    else IndexOf(preds[..|preds| - 1], id)
  }

  ghost predicate DistinctFields(preds: seq<Pred>)
  {
    forall i, j :: 0 <= i < j < |preds| ==> preds[i].id != preds[j].id
  }

  lemma EvalSnoc(tests: seq<Test>, t: Test, v: F64)
    ensures Eval(tests + [t], v) <==> Eval(tests, v) && Compare(t.op, v, t.val)
  {
    hide Compare;
    EvalAll(tests, v);
    EvalAll(tests + [t], v);
    if Eval(tests + [t], v) {
      assert forall i :: 0 <= i < |tests| ==> (tests + [t])[i] == tests[i];
      assert (tests + [t])[|tests|] == t;
    }
  }

  function WithProbe(preds: seq<Pred>, q: Probe): (r: seq<Pred>)
  {
    match IndexOf(preds, q.id)
    case Some(j) => preds[j := Pred(q.id, preds[j].tests + [q.test])]
    case None => preds + [Pred(q.id, [q.test])]
  }

  lemma {:induction false} HoldsAllUpdate(preds: seq<Pred>, j: nat, p: Pred, ad: seq<Entry>, c: bool)
    requires j < |preds| && (Holds(p, ad) <==> Holds(preds[j], ad) && c)
    ensures HoldsAll(preds[j := p], ad) <==> HoldsAll(preds, ad) && c
  {
    hide Holds;
    if j > 0 {
      HoldsAllUpdate(preds[1..], j - 1, p, ad, c);
      assert preds[j := p][1..] == preds[1..][j - 1 := p];
    } else {
      assert preds[j := p][1..] == preds[1..];
    }
  }

  lemma ProbeAlone(q: Probe, ad: seq<Entry>)
    ensures Holds(Pred(q.id, [q.test]), ad) <==> ProbeHolds(q, ad)
  {
    hide Compare, AttrVal;
    if AttrVal(ad, q.id).Some? {
      EvalSnoc([], q.test, FOf(AttrVal(ad, q.id).value));
      assert [] + [q.test] == [q.test];
    }
  }

  // Adding a probe adds exactly its conjunct.
  lemma AddProbe(preds: seq<Pred>, q: Probe, ad: seq<Entry>)
    ensures HoldsAll(WithProbe(preds, q), ad) <==> HoldsAll(preds, ad) && ProbeHolds(q, ad)
  {
    hide HoldsAll, AttrVal, Compare, Eval;
    var at := IndexOf(preds, q.id);
    if at.Some? {
      var j := at.value;
      if AttrVal(ad, q.id).Some? { EvalSnoc(preds[j].tests, q.test, FOf(AttrVal(ad, q.id).value)); }
      HoldsAllUpdate(preds, j, Pred(q.id, preds[j].tests + [q.test]), ad, ProbeHolds(q, ad));
    } else {
      ProbeAlone(q, ad);
      HoldsAllSnoc(preds, Pred(q.id, [q.test]), ad);
    }
  }

  // Regrouping probes by field: one predicate per distinct field, in order of first appearance, that
  // together say exactly what the probes say; refused unless the probes are all a native query says and every
  // attribute is a numeric field.
  method PredsOnFields(s: Schema, qs: seq<Probe>, native: bool, exact: bool) returns (preds: seq<Pred>, ok: bool)
    requires ValidSchema(s)
    ensures ok <==> native && exact && qs != [] && forall i :: 0 <= i < |qs| ==> NumericId(s, qs[i].id)
    ensures ok ==> DistinctFields(preds) && forall j :: 0 <= j < |preds| ==> NumericId(s, preds[j].id)
    ensures ok ==> forall ad :: HoldsAll(preds, ad) <==> AllProbesHold(qs, ad)
  {
    hide HoldsAll, AllProbesHold;
    preds := [];
    if !native || !exact { return [], false; }
    var i := 0;
    forall ad ensures HoldsAll(preds, ad) <==> AllProbesHold(qs[..0], ad) { NoProbes(ad); }
    while i < |qs|
      invariant 0 <= i <= |qs|
      invariant forall j :: 0 <= j < i ==> NumericId(s, qs[j].id)
      invariant DistinctFields(preds) && forall j :: 0 <= j < |preds| ==> NumericId(s, preds[j].id)
      invariant i > 0 ==> preds != []
      invariant forall ad :: HoldsAll(preds, ad) <==> AllProbesHold(qs[..i], ad)
    {
      var q := qs[i];
      if !NumericId(s, q.id) {
        return [], false;
      }
      var at := IndexOf(preds, q.id);
      ghost var was := preds;
      match at {
        case Some(j) => preds := preds[j := Pred(q.id, preds[j].tests + [q.test])];
        case None => preds := preds + [Pred(q.id, [q.test])];
      }
      forall ad ensures HoldsAll(preds, ad) <==> AllProbesHold(qs[..i + 1], ad) {
        AddProbe(was, q, ad);
        ProbesSnoc(qs, i, ad);
      }
      i := i + 1;
    }
    assert qs[..|qs|] == qs;
    ok := qs != [];
  }

  lemma NoProbes(ad: seq<Entry>)
    ensures HoldsAll([], ad) && AllProbesHold([], ad)
  {
  }

  lemma ProbesSnoc(qs: seq<Probe>, i: nat, ad: seq<Entry>)
    requires i < |qs|
    ensures AllProbesHold(qs[..i + 1], ad) <==> AllProbesHold(qs[..i], ad) && ProbeHolds(qs[i], ad)
  {
    hide ProbeHolds;
    assert qs[..i + 1] == qs[..i] + [qs[i]];
    if AllProbesHold(qs[..i + 1], ad) {
      assert qs[..i + 1][i] == qs[i];
      forall j | 0 <= j < i ensures ProbeHolds(qs[..i][j], ad) { assert qs[..i][j] == qs[..i + 1][j]; }
    }
  }

  predicate NumericId(s: Schema, id: nat)
  {
    id in s.byId && s.byId[id] < |s.fields| && Numeric(s.fields[s.byId[id]])
  }

  // ---------------------------------------------------------------- computing zones

  // The value of an in-slot numeric field, read from the row.
  method RowSlotVal(s: Schema, ghost key: nat -> nat, ghost ad: seq<Entry>, rec: seq<byte>, i: nat) returns (v: F64)
    requires ValidSchema(s) && ValidAd(ad) && RowOf(s, key, ad, rec) && i < |s.fields| && Numeric(s.fields[i])
    requires SlotLit(s, ad, i).Some?
    ensures IsValue(s, ad, i, v)
  {
    hide SlotOff, BoolsBefore, SlotLit, ReadInt, GetLE, ColdEntries;
    var f := s.fields[i];
    assert FieldOK(s, i) && SlotHolds(s, ad, rec[s.escBytes..PrefixLen(s)], i);
    SlotInside(s, i);
    var src := rec[s.escBytes..PrefixLen(s)][f.off..];
    assert src[..f.width] == SlotBytes(s, rec[s.escBytes..PrefixLen(s)], i);
    SlotLitValid(s, ad, i);
    StoredLit(s, ad, i);
    SlotValExact(f, SlotLit(s, ad, i).value);
    var raw := ReadIntLE(src, f.width, f.uns);
    RawBits(src[..f.width]);
    v := if f.kind == KReal then OfBits(raw % TWO64) else OfInt(raw);
  }

  // The 64-bit pattern of a signed read is the bytes' own pattern.
  lemma RawBits(b: seq<byte>)
    ensures |b| == 8 ==> ReadInt(b, false) % TWO64 == GetLE(b)
  {
    hide GetLE;
    if |b| == 8 {
      GetLEBound(b);
      Pow256Widths();
    }
  }

  ghost predicate ZoneSoFar(z: Zone, s: Schema, ads: seq<seq<Entry>>, i: nat, m: nat)
    requires i < |s.fields| && m <= |ads|
  {
    && !z.min.NaN? && !z.max.NaN?
    && (z.escaped <==> exists k :: 0 <= k < m && SlotLit(s, ads[k], i).None?)
    && (forall k :: 0 <= k < m && SlotLit(s, ads[k], i).Some? ==> InZone(z, s, ads[k], i))
    && (z.min == PosInf || exists k :: 0 <= k < m && IsValue(s, ads[k], i, z.min))
    && (z.max == NegInf || exists k :: 0 <= k < m && IsValue(s, ads[k], i, z.max))
  }

  function Widen(z: Zone, v: F64): (z': Zone)
    requires !z.min.NaN? && !z.max.NaN?
    ensures !z'.min.NaN? && !z'.max.NaN?
    ensures Covers(z', v)
    ensures forall u :: Covers(z, u) ==> Covers(z', u)
    ensures z'.escaped == z.escaped && (z'.min == z.min || z'.min == v) && (z'.max == z.max || z'.max == v)
  {
    var z1 := if Lt(v, z.min) then z.(min := v) else z;
    if Lt(z.max, v) then z1.(max := v) else z1
  }

  lemma ZoneStep(z: Zone, s: Schema, ads: seq<seq<Entry>>, i: nat, m: nat, v: F64)
    requires i < |s.fields| && m < |ads| && ZoneSoFar(z, s, ads, i, m)
    ensures SlotLit(s, ads[m], i).None? ==> ZoneSoFar(z.(escaped := true), s, ads, i, m + 1)
    ensures IsValue(s, ads[m], i, v) ==> ZoneSoFar(Widen(z, v), s, ads, i, m + 1)
  {
    hide SlotLit, FOf, NodeVal;
    if IsValue(s, ads[m], i, v) {
      var z' := Widen(z, v);
      forall k | 0 <= k < m + 1 && SlotLit(s, ads[k], i).Some? ensures InZone(z', s, ads[k], i) {
        if k < m { assert InZone(z, s, ads[k], i); }
      }
    }
  }

  // One field's range over the rows being encoded, and whether any record escaped it.
  method FieldZone(s: Schema, ghost key: nat -> nat, ghost ads: seq<seq<Entry>>, recs: seq<seq<byte>>, i: nat)
    returns (z: Zone)
    requires ValidSchema(s) && RowsOf(s, key, ads, recs) && i < |s.fields| && Numeric(s.fields[i])
    ensures ZoneExact(z, s, ads, i)
  {
    hide SlotLit, Covers, ColdEntries, ValidSchema, FOf, NodeVal, ZoneSoFar, Widen;
    z := Zone(PosInf, NegInf, false);
    assert ZoneSoFar(z, s, ads, i, 0) by { EmptyZone(s, ads, i); }
    var n := 0;
    var k := 0;
    while k < |recs|
      invariant 0 <= k <= |recs|
      invariant ZoneSoFar(z, s, ads, i, k)
      invariant n > 0 || k == 0 || z.escaped
    {
      var r := recs[k];
      assert RowOf(s, key, ads[k], r) && ValidAd(ads[k]);
      assert HasBit(r[..s.escBytes], i) <==> SlotLit(s, ads[k], i).None?;
      if HasBit(r[..s.escBytes], i) {
        ZoneStep(z, s, ads, i, k, NaN);
        z := z.(escaped := true);
      } else {
        var v := RowSlotVal(s, key, ads[k], r, i);
        ZoneStep(z, s, ads, i, k, v);
        ZoneBounds(z, s, ads, i, k);
        z := Widen(z, v);
        n := n + 1;
      }
      k := k + 1;
    }
    ZoneDone(z, s, ads, i);
    if n == 0 {
      z := Zone(NegInf, PosInf, true);
    }
  }

  lemma EmptyZone(s: Schema, ads: seq<seq<Entry>>, i: nat)
    requires i < |s.fields|
    ensures ZoneSoFar(Zone(PosInf, NegInf, false), s, ads, i, 0)
  {
  }

  lemma ZoneBounds(z: Zone, s: Schema, ads: seq<seq<Entry>>, i: nat, m: nat)
    requires i < |s.fields| && m <= |ads| && ZoneSoFar(z, s, ads, i, m)
    ensures !z.min.NaN? && !z.max.NaN?
  {
  }

  lemma ZoneDone(z: Zone, s: Schema, ads: seq<seq<Entry>>, i: nat)
    requires i < |s.fields| && ZoneSoFar(z, s, ads, i, |ads|)
    ensures ZoneExact(z, s, ads, i)
    ensures z.escaped || ads == [] ==> ZoneExact(Zone(NegInf, PosInf, true), s, ads, i)
  {
    hide SlotLit, FOf, NodeVal;
  }

  // Every numeric field's zone; none for an empty block.
  method NumericZones(s: Schema, ghost key: nat -> nat, ghost ads: seq<seq<Entry>>, recs: seq<seq<byte>>)
    returns (zones: map<nat, Zone>)
    requires ValidSchema(s) && RowsOf(s, key, ads, recs)
    ensures ZonesExact(zones, s, ads) && forall i ::
      i in zones <==> recs != [] && 0 <= i < |s.fields| && Numeric(s.fields[i])
  {
    hide ZoneExact, RowsOf, ValidSchema;
    zones := map[];
    if recs == [] { return; }
    for i := 0 to |s.fields|
      invariant ZonesExact(zones, s, ads) && forall j :: j in zones <==> 0 <= j < i && Numeric(s.fields[j])
    {
      if Numeric(s.fields[i]) {
        var z := FieldZone(s, key, ads, recs, i);
        zones := zones[i := z];
      }
    }
  }
}
