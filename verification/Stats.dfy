/** Aggregates over the records a conjunction matches: the accumulator, the columnar scan with the aggregated
    column's own predicates fused into the value pass, and the row walk beside it. */
module Stats {
  import opened Bytes
  import opened Wire
  import opened Row
  import opened Values
  import opened Floats
  import opened Preds
  import opened Scan
  import opened Folds

  // ---------------------------------------------------------------- the accumulator

  // SUM both ways, which kinds took part, and the range; floating-point addition is a parameter.
  datatype NumStats = NumStats(n: nat, sum: F64, intSum: int, anyReal: bool, anyBool: bool, min: F64, max: F64)

  const EMPTY := NumStats(0, Fin(0.0), 0, false, false, PosInf, NegInf)

  type FloatAdd = (F64, F64) -> F64

  function Add(fadd: FloatAdd, s: NumStats, v: ColVal): (r: NumStats)
  {
    var f := FOf(v);
    NumStats(s.n + 1, fadd(s.sum, f),
      match v { case CInt(i) => Wrap64(s.intSum + i) case CBool(b) => Wrap64(s.intSum + if b then 1
        else 0) case CReal(_) => s.intSum },
      s.anyReal || v.CReal?, s.anyBool || v.CBool?,
      if Lt(f, s.min) then f else s.min, if Lt(s.max, f) then f else s.max)
  }

  function Result(s: NumStats): (r: NumStats) { if s.n == 0 then s.(min := Fin(0.0), max := Fin(0.0)) else s }

  // One matching ad: a number is added, anything else contributes nothing.
  function StatsStep(fadd: FloatAdd, agg: nat, s: NumStats, ad: seq<Entry>): (r: NumStats)
  {
    match AttrVal(ad, agg) case Some(v) => Add(fadd, s, v) case None => s
  }

  function Step(fadd: FloatAdd, agg: nat): (f: (NumStats, seq<Entry>) -> NumStats)
  {
    (s, ad) => StatsStep(fadd, agg, s, ad)
  }

  // ---------------------------------------------------------------- what the accumulated numbers mean

  function IntPart(v: ColVal): (i: int)
  {
    match v case CInt(i) => i case CBool(b) => if b then 1 else 0 case CReal(_) => 0
  }

  function IntTotal(ads: seq<seq<Entry>>, agg: nat): (t: int)
  {
    if ads == [] then 0
    else IntTotal(ads[..|ads| - 1], agg) + match AttrVal(ads[|ads| - 1], agg) case Some(v) => IntPart(v) case None => 0
  }

  // The numbers among the ads' values, in order.
  function FloatsOf(ads: seq<seq<Entry>>, agg: nat): (fs: seq<F64>)
  {
    if ads == [] then []
    else
      var most := FloatsOf(ads[..|ads| - 1], agg);
      match AttrVal(ads[|ads| - 1], agg) case Some(v) => most + [FOf(v)] case None => most
  }

  // Added up from zero, left to right.
  function FloatSum(fadd: FloatAdd, fs: seq<F64>): (t: F64)
  {
    if fs == [] then Fin(0.0) else fadd(FloatSum(fadd, fs[..|fs| - 1]), fs[|fs| - 1])
  }

  function RealTotal(fs: seq<F64>): (t: real)
  {
    if fs == [] then 0.0 else RealTotal(fs[..|fs| - 1]) + if fs[|fs| - 1].Fin? then fs[|fs| - 1].r else 0.0
  }

  // Every value is finite and no addition rounds.
  ghost predicate AddsExactly(fadd: FloatAdd, fs: seq<F64>)
  {
    forall i {:trigger fs[i]} :: 0 <= i < |fs| ==>
      fs[i].Fin? && fadd(Fin(RealTotal(fs[..i])), fs[i]) == Fin(RealTotal(fs[..i]) + fs[i].r)
  }

  lemma AddsPrefix(fadd: FloatAdd, fs: seq<F64>)
    requires AddsExactly(fadd, fs) && fs != []
    ensures AddsExactly(fadd, fs[..|fs| - 1])
  {
    hide RealTotal;
    var a := fs[..|fs| - 1];
    forall i | 0 <= i < |a| ensures a[i].Fin? && fadd(Fin(RealTotal(a[..i])), a[i]) == Fin(RealTotal(a[..i]) + a[i].r) {
      assert a[i] == fs[i] && a[..i] == fs[..i];
    }
  }

  // Then the sum is the real total.
  lemma {:induction false} ExactSum(fadd: FloatAdd, fs: seq<F64>)
    requires AddsExactly(fadd, fs)
    ensures FloatSum(fadd, fs) == Fin(RealTotal(fs))
    decreases |fs|
  {
    if fs != [] {
      var n := |fs| - 1;
      AddsPrefix(fadd, fs);
      ExactSum(fadd, fs[..n]);
      assert fs[n].Fin?;
    }
  }

  lemma WrapAdd(a: int, b: int)
    ensures Wrap64(Wrap64(a) + b) == Wrap64(a + b)
  {
    var w := Wrap64(a);
    assert (w - a) % TWO64 == 0;
    assert (w + b) % TWO64 == (a + b) % TWO64 by {
      var q := (w - a) / TWO64;
      assert w + b == (a + b) + q * TWO64;
      ModShift(a + b, q);
    }
  }

  lemma ModShift(a: int, q: int)
    ensures (a + q * TWO64) % TWO64 == a % TWO64
  {
  }

  // The value of an ad's aggregated attribute, as a float.
  ghost predicate HasValue(ad: seq<Entry>, agg: nat, f: F64)
  {
    AttrVal(ad, agg).Some? && f == FOf(AttrVal(ad, agg).value)
  }

  // Min and Max bound every comparable value and, unless nothing comparable was seen, are themselves values.
  ghost predicate Bounds(s: NumStats, ads: seq<seq<Entry>>, agg: nat)
  {
    && !s.min.NaN? && !s.max.NaN?
    && (forall k, f :: 0 <= k < |ads| && HasValue(ads[k], agg, f) && !f.NaN? ==> Le(s.min, f) && Le(f, s.max))
    && (s.min == PosInf || exists k :: 0 <= k < |ads| && HasValue(ads[k], agg, s.min))
    && (s.max == NegInf || exists k :: 0 <= k < |ads| && HasValue(ads[k], agg, s.max))
  }

  // The ads whose aggregated attribute is a number.
  function Numbered(ads: seq<seq<Entry>>, agg: nat): (r: set<nat>)
  {
    set k: nat | k < |ads| && AttrVal(ads[k], agg).Some?
  }

  // How many numbers were added, and whether a real or a boolean was among them.
  ghost predicate Tallied(s: NumStats, ads: seq<seq<Entry>>, agg: nat)
  {
    && s.n == |Numbered(ads, agg)|
    && (s.anyReal <==> exists k :: 0 <= k < |ads| && IsReal(ads[k], agg)) &&
       (s.anyBool <==> exists k :: 0 <= k < |ads| && IsBool(ads[k], agg))
  }

  predicate IsReal(ad: seq<Entry>, agg: nat) { AttrVal(ad, agg).Some? && AttrVal(ad, agg).value.CReal? }

  predicate IsBool(ad: seq<Entry>, agg: nat) { AttrVal(ad, agg).Some? && AttrVal(ad, agg).value.CBool? }

  // The count and the kinds are those of the ads' numbers, Sum is their floating-point sum in scan order, IntSum their
  // exact integer total modulo 2^64, and the range is exact.
  lemma {:induction false} StatsMean(fadd: FloatAdd, ads: seq<seq<Entry>>, agg: nat)
    ensures var s := Fold(Step(fadd, agg), EMPTY, ads);
      && Tallied(s, ads, agg) && s.sum == FloatSum(fadd, FloatsOf(ads, agg))
      && s.intSum == Wrap64(IntTotal(ads, agg)) && Bounds(s, ads, agg)
    decreases |ads|
  {
    if ads == [] {
      assert Numbered(ads, agg) == {};
    } else {
      hide Bounds, Tallied, StatsStep, IntTotal, Wrap64, FloatSum, FloatsOf;
      var n := |ads| - 1;
      TallyStep(fadd, Fold(Step(fadd, agg), EMPTY, ads[..n]), ads, agg);
      StatsMean(fadd, ads[..n], agg);
      SumStep(fadd, Fold(Step(fadd, agg), EMPTY, ads[..n]), ads, agg);
      FloatStep(fadd, Fold(Step(fadd, agg), EMPTY, ads[..n]), ads, agg);
      BoundsStep(fadd, Fold(Step(fadd, agg), EMPTY, ads[..n]), ads, agg);
    }
  }

  lemma TallyStep(fadd: FloatAdd, s: NumStats, ads: seq<seq<Entry>>, agg: nat)
    requires ads != []
    ensures Tallied(s, ads[..|ads| - 1], agg) ==> Tallied(StatsStep(fadd, agg, s, ads[|ads| - 1]), ads, agg)
  {
    hide Wrap64, FOf, IsReal, IsBool, Numbered, AttrVal;
    var n := |ads| - 1;
    NumberedStep(ads, agg);
    assert forall k :: 0 <= k < n ==> ads[..n][k] == ads[k];
    assert (exists k :: 0 <= k < |ads| && IsReal(ads[k], agg)) <==>
      IsReal(ads[n], agg) || exists k :: 0 <= k < n && IsReal(ads[..n][k], agg);
    assert (exists k :: 0 <= k < |ads| && IsBool(ads[k], agg)) <==>
      IsBool(ads[n], agg) || exists k :: 0 <= k < n && IsBool(ads[..n][k], agg);
    KindAdded(fadd, s, ads[n], agg);
  }

  lemma KindAdded(fadd: FloatAdd, s: NumStats, ad: seq<Entry>, agg: nat)
    ensures var r := StatsStep(fadd, agg, s, ad);
      && r.n == s.n + (if AttrVal(ad, agg).Some? then 1 else 0)
      && (r.anyReal <==> s.anyReal || IsReal(ad, agg)) && (r.anyBool <==> s.anyBool || IsBool(ad, agg))
  {
    hide AttrVal, FOf, Wrap64;
  }

  lemma NumberedStep(ads: seq<seq<Entry>>, agg: nat)
    requires ads != []
    ensures |Numbered(ads, agg)| == |Numbered(ads[..|ads| - 1], agg)| + if AttrVal(ads[|ads| - 1], agg).Some? then
      1 else 0
  {
    hide AttrVal;
    var n := |ads| - 1;
    var was := Numbered(ads[..n], agg);
    assert forall k :: 0 <= k < n ==> ads[..n][k] == ads[k];
    assert Numbered(ads, agg) == if AttrVal(ads[n], agg).Some? then was + {n} else was;
  }

  lemma SumStep(fadd: FloatAdd, s: NumStats, ads: seq<seq<Entry>>, agg: nat)
    requires ads != [] && s.intSum == Wrap64(IntTotal(ads[..|ads| - 1], agg))
    ensures StatsStep(fadd, agg, s, ads[|ads| - 1]).intSum == Wrap64(IntTotal(ads, agg))
  {
    hide AttrVal, FOf, Wrap64;
    var n := |ads| - 1;
    if AttrVal(ads[n], agg).Some? { WrapAdd(IntTotal(ads[..n], agg), IntPart(AttrVal(ads[n], agg).value)); }
  }

  lemma FloatStep(fadd: FloatAdd, s: NumStats, ads: seq<seq<Entry>>, agg: nat)
    requires ads != [] && s.sum == FloatSum(fadd, FloatsOf(ads[..|ads| - 1], agg))
    ensures StatsStep(fadd, agg, s, ads[|ads| - 1]).sum == FloatSum(fadd, FloatsOf(ads, agg))
  {
    hide AttrVal, FOf, Wrap64;
    var n := |ads| - 1;
    var fs := FloatsOf(ads[..n], agg);
    if AttrVal(ads[n], agg).Some? { assert (fs + [FOf(AttrVal(ads[n], agg).value)])[..|fs|] == fs; }
  }

  // What is reported: of no numbers, zeros throughout; otherwise the least and the greatest that compare.
  lemma ReportMeans(fadd: FloatAdd, ads: seq<seq<Entry>>, agg: nat)
    ensures var s := Result(Fold(Step(fadd, agg), EMPTY, ads));
      && Tallied(s, ads, agg) && s.sum == FloatSum(fadd, FloatsOf(ads, agg)) && s.intSum == Wrap64(IntTotal(ads, agg))
      && (if Numbered(ads, agg) == {} then s.min == s.max == s.sum == Fin(0.0) && s.intSum == 0
          else Bounds(s, ads, agg))
  {
    hide Bounds, Fold, Numbered, FloatSum, FloatsOf, IntTotal, Wrap64, IsReal, IsBool;
    StatsMean(fadd, ads, agg);
    if Numbered(ads, agg) == {} { NoNumbers(fadd, ads, agg); }
  }

  lemma {:induction false} NoNumbers(fadd: FloatAdd, ads: seq<seq<Entry>>, agg: nat)
    requires Numbered(ads, agg) == {}
    ensures FloatSum(fadd, FloatsOf(ads, agg)) == Fin(0.0) && Wrap64(IntTotal(ads, agg)) == 0
    ensures FloatsOf(ads, agg) == [] && IntTotal(ads, agg) == 0
    decreases |ads|
  {
    hide AttrVal;
    if ads != [] {
      var n := |ads| - 1;
      NumberedStep(ads, agg);
      NoNumbers(fadd, ads[..n], agg);
    }
  }

  lemma BoundsStep(fadd: FloatAdd, s: NumStats, ads: seq<seq<Entry>>, agg: nat)
    requires ads != [] && Bounds(s, ads[..|ads| - 1], agg)
    ensures Bounds(StatsStep(fadd, agg, s, ads[|ads| - 1]), ads, agg)
  {
    hide AttrVal, FOf, Wrap64;
    var n := |ads| - 1;
    var r := StatsStep(fadd, agg, s, ads[n]);
    forall k, f | 0 <= k < |ads| && HasValue(ads[k], agg, f) && !f.NaN? ensures Le(r.min, f) && Le(f, r.max) {
      if k < n { assert HasValue(ads[..n][k], agg, f); }
    }
    if k :| 0 <= k < n && HasValue(ads[..n][k], agg, s.min) { assert HasValue(ads[k], agg, s.min); }
    if k :| 0 <= k < n && HasValue(ads[..n][k], agg, s.max) { assert HasValue(ads[k], agg, s.max); }
    if AttrVal(ads[n], agg).Some? { assert HasValue(ads[n], agg, FOf(AttrVal(ads[n], agg).value)); }
  }

  // ---------------------------------------------------------------- predicates on the aggregated column

  function Pick(preds: seq<Pred>, agg: nat, self: bool): (r: seq<Pred>)
  {
    if preds == [] then []
    else if (preds[|preds| - 1].id == agg) == self then Pick(preds[..|preds| - 1], agg, self) + [preds[|preds| - 1]]
    else Pick(preds[..|preds| - 1], agg, self)
  }

  function PickIdxs(preds: seq<Pred>, idxs: seq<nat>, agg: nat): (r: seq<nat>)
    requires |idxs| == |preds|
  {
    if preds == [] then []
    else if preds[|preds| - 1].id != agg then
      PickIdxs(preds[..|preds| - 1], idxs[..|preds| - 1], agg) + [idxs[|preds| - 1]]
    else PickIdxs(preds[..|preds| - 1], idxs[..|preds| - 1], agg)
  }

  predicate SelfOK(self: seq<Pred>, v: F64) { forall i :: 0 <= i < |self| ==> Eval(self[i].tests, v) }

  lemma {:induction false} PickResolved(s: Schema, preds: seq<Pred>, idxs: seq<nat>, agg: nat)
    requires Resolved(s, preds, idxs)
    ensures Resolved(s, Pick(preds, agg, false), PickIdxs(preds, idxs, agg))
    decreases |preds|
  {
    if preds != [] {
      var n := |preds| - 1;
      assert Resolved(s, preds[..n], idxs[..n]);
      PickResolved(s, preds[..n], idxs[..n], agg);
    }
  }

  // Narrowing on the other columns and testing the value where it is read accept the same records.
  lemma {:induction false} FusedPreds(preds: seq<Pred>, agg: nat, ad: seq<Entry>)
    ensures AttrVal(ad, agg).Some? ==>
      (HoldsAll(preds, ad) <==>
        HoldsAll(Pick(preds, agg, false), ad) && SelfOK(Pick(preds, agg, true), FOf(AttrVal(ad, agg).value)))
    ensures HoldsAll(preds, ad) ==> HoldsAll(Pick(preds, agg, false), ad)
    decreases |preds|
  {
    hide Eval, AttrVal, FOf;
    if preds != [] {
      var n := |preds| - 1;
      var p := preds[n];
      FusedPreds(preds[..n], agg, ad);
      assert preds == preds[..n] + [p];
      HoldsAllSnoc(preds[..n], p, ad);
      if p.id == agg {
        SelfSnoc(Pick(preds[..n], agg, true), p, ad, agg);
      } else {
        HoldsAllSnoc(Pick(preds[..n], agg, false), p, ad);
      }
    }
  }

  lemma SelfSnoc(self: seq<Pred>, p: Pred, ad: seq<Entry>, agg: nat)
    requires p.id == agg
    ensures AttrVal(ad, agg).Some? ==>
      (SelfOK(self + [p], FOf(AttrVal(ad, agg).value)) <==> SelfOK(self, FOf(AttrVal(ad, agg).value)) && Holds(p, ad))
  {
    hide Eval, AttrVal, FOf;
    if AttrVal(ad, agg).Some? {
      var v := FOf(AttrVal(ad, agg).value);
      if SelfOK(self + [p], v) {
        assert (self + [p])[|self|] == p;
        forall i | 0 <= i < |self| ensures Eval(self[i].tests, v) { assert (self + [p])[i] == self[i]; }
      }
    }
  }

  // What one record adds, whichever side of the fusion its predicates are on.
  lemma FusedStep(fadd: FloatAdd, agg: nat, preds: seq<Pred>, acc: NumStats, r: Rec, s0: nat)
    ensures Fold(Step(fadd, agg), acc, MatchAds([r], s0, preds)) ==
      if Matches(r, s0, Pick(preds, agg, false)) && AttrVal(r.ad, agg).Some? &&
        SelfOK(Pick(preds, agg, true), FOf(AttrVal(r.ad, agg).value))
      then Add(fadd, acc, AttrVal(r.ad, agg).value) else acc
  {
    hide HoldsAll, SelfOK, FOf, AttrVal, Pick, Add, Visible;
    FusedPreds(preds, agg, r.ad);
    MatchOne(r, s0, preds);
    FoldOne(Step(fadd, agg), acc, r.ad);
  }

  // ---------------------------------------------------------------- the columnar scan

  // A column read of a record is the value it is shown with.
  lemma ColumnReads(sb: ScanBlock, cs: ColSeg, rs: seq<Rec>, i: nat, k: nat)
    requires RunFor(sb, cs, rs) && i < |cs.schema.fields| && Numeric(cs.schema.fields[i]) && k < |rs|
    ensures ColumnVal(sb.blk, i, cs.schema.fields[i].id, k) == AttrVal(ShownRecs(cs, rs)[k].ad, cs.schema.fields[i].id)
  {
    hide BlockFor, ColumnVal, ZonesExact, BaseRow, SegOK, AttrVal, ShownAd;
    ColumnShown(sb.blk, cs.key, Bases(cs, rs), i, k);
  }

  // Field i of the segment's schema is the numeric attribute id.
  ghost predicate FieldOf(cs: ColSeg, i: nat, id: nat)
  {
    i < |cs.schema.fields| && Numeric(cs.schema.fields[i]) && cs.schema.fields[i].id == id
  }

  // One more record of a block: what its column and the aggregated column's own predicates make of it.
  lemma TakeRecord(sb: ScanBlock, cs: ColSeg, rs: seq<Rec>, k: nat, s0: nat, aggIdx: nat, agg: nat, preds: seq<Pred>,
                   fadd: FloatAdd, acc0: NumStats)
    requires RunFor(sb, cs, rs) && FieldOf(cs, aggIdx, agg) && k < |rs|
    ensures aggIdx < |sb.blk.schema.fields|
    ensures var hs := ShownRecs(cs, rs); var was := Fold(Step(fadd, agg), acc0,
      MatchAds(hs[..k], s0, preds)); var v := ColumnVal(sb.blk, aggIdx, agg, k);
      Fold(Step(fadd, agg), acc0, MatchAds(hs[..k + 1], s0, preds)) ==
      if Matches(hs[k], s0, Pick(preds, agg, false)) && v.Some? && SelfOK(Pick(preds, agg, true), FOf(v.value)) then
        Add(fadd, was, v.value) else was
  {
    hide BlockFor, SegOK, Pick, Fold, MatchAds, SelfOK, Add, ColumnVal, FOf, HoldsAll, ZonesExact, Step, AttrVal,
      ShownRec, BaseRow;
    ColumnReads(sb, cs, rs, aggIdx, k);
    var hs := ShownRecs(cs, rs);
    FusedStep(fadd, agg, preds, Fold(Step(fadd, agg), acc0, MatchAds(hs[..k], s0, preds)), hs[k], s0);
    NextRecord(fadd, agg, acc0, hs, k, s0, preds);
  }

  // One fused pass: visibility, value, and the aggregated column's own predicate.
  method StatsFused(sb: ScanBlock, cs: ColSeg, w: Window, base: nat, s0: nat, aggIdx: nat, agg: nat, preds: seq<Pred>,
                    fadd: FloatAdd, acc0: NumStats)
    returns (acc: NumStats)
    requires InWindow(sb, cs, w, base) && FieldOf(cs, aggIdx, agg)
    requires Pick(preds, agg, false) == []
    ensures acc == Fold(Step(fadd, agg), acc0, MatchAds(ShownRun(sb, cs, w, base), s0, preds))
  {
    hide RunFor, Pick, Fold, MatchAds, SelfOK, Add, ColumnVal, FOf, HoldsAll, Step, Visible, ShownRec;
    var n := sb.blk.n;
    ghost var rs, hs := BlockRun(sb, cs, w, base), ShownRun(sb, cs, w, base);
    var self := Pick(preds, agg, true);
    acc := acc0;
    assert hs[..0] == [];
    FoldStart(fadd, agg, acc0, s0, preds);
    var k := 0;
    while k < n
      invariant 0 <= k <= n && acc == Fold(Step(fadd, agg), acc0, MatchAds(hs[..k], s0, preds))
    {
      TakeRecord(sb, cs, rs, k, s0, aggIdx, agg, preds, fadd, acc0);
      NoProbes(hs[k].ad);
      SeenAlike(cs, rs[k], s0);
      assert rs[k] == w.arena[cs.offs[base + k]];
      if Visible(w.arena[cs.offs[base + k]], s0) {
        var v := ColumnVal(sb.blk, aggIdx, agg, k);
        if v.Some? && SelfOK(self, FOf(v.value)) { acc := Add(fadd, acc, v.value); }
      }
      k := k + 1;
    }
    assert hs[..n] == hs;
  }

  // Narrow on the other columns first, then read the aggregated one for the survivors only.
  method StatsNarrowed(sb: ScanBlock, cs: ColSeg, w: Window, base: nat, s0: nat, aggIdx: nat, agg: nat,
                       preds: seq<Pred>, otherIdxs: seq<nat>, keep: array<bool>, scratch: array<int>, fadd: FloatAdd,
                       acc0: NumStats)
    returns (acc: NumStats)
    requires InWindow(sb, cs, w, base) && FieldOf(cs, aggIdx, agg)
    requires Resolved(cs.schema, Pick(preds, agg, false), otherIdxs)
    requires sb.blk.n <= keep.Length && sb.blk.n <= scratch.Length
    modifies keep, scratch
    ensures acc == Fold(Step(fadd, agg), acc0, MatchAds(ShownRun(sb, cs, w, base), s0, preds))
  {
    hide RunFor, Pick, Fold, MatchAds, SelfOK, Add, ColumnVal, FOf, Step, Matches, Resolved, CountTrue, ShownRec;
    var n := sb.blk.n;
    ghost var rs, hs := BlockRun(sb, cs, w, base), ShownRun(sb, cs, w, base);
    var self, other := Pick(preds, agg, true), Pick(preds, agg, false);
    var live := NarrowBlock(sb, cs, w, base, s0, otherIdxs, other, keep, scratch);
    acc := acc0;
    if live == 0 {
      NoneLive(keep[..n]);
      forall k | 0 <= k < n ensures !Matches(hs[k], s0, preds) {
        assert keep[..n][k] == keep[k];
        FewerMatch(hs[k], s0, preds, agg);
      }
      MatchNone(hs, s0, preds);
      FoldStart(fadd, agg, acc0, s0, preds);
      MatchNone([], s0, preds);
      return;
    }
    assert hs[..0] == [];
    FoldStart(fadd, agg, acc0, s0, preds);
    var k := 0;
    while k < n
      invariant 0 <= k <= n && acc == Fold(Step(fadd, agg), acc0, MatchAds(hs[..k], s0, preds))
      invariant forall i :: 0 <= i < n ==> keep[i] == Matches(hs[i], s0, other)
    {
      TakeRecord(sb, cs, rs, k, s0, aggIdx, agg, preds, fadd, acc0);
      if keep[k] {
        var v := ColumnVal(sb.blk, aggIdx, agg, k);
        if v.Some? && SelfOK(self, FOf(v.value)) { acc := Add(fadd, acc, v.value); }
      }
      k := k + 1;
    }
    assert hs[..n] == hs;
  }

  lemma FewerMatch(r: Rec, s0: nat, preds: seq<Pred>, agg: nat)
    ensures Matches(r, s0, preds) ==> Matches(r, s0, Pick(preds, agg, false))
  {
    hide HoldsAll, Pick, AttrVal, SelfOK, FOf;
    FusedPreds(preds, agg, r.ad);
  }

  lemma NoneLive(keep: seq<bool>)
    requires CountTrue(keep) == 0
    ensures forall k :: 0 <= k < |keep| ==> !keep[k]
  {
  }

  lemma FoldStart(fadd: FloatAdd, agg: nat, acc: NumStats, s0: nat, preds: seq<Pred>)
    ensures Fold(Step(fadd, agg), acc, MatchAds([], s0, preds)) == acc
  {
  }

  lemma NextRecord(fadd: FloatAdd, agg: nat, acc: NumStats, rs: seq<Rec>, k: nat, s0: nat, preds: seq<Pred>)
    requires k < |rs|
    ensures Fold(Step(fadd, agg), acc, MatchAds(rs[..k + 1], s0, preds)) ==
      Fold(Step(fadd, agg), Fold(Step(fadd, agg), acc, MatchAds(rs[..k], s0, preds)), MatchAds([rs[k]], s0, preds))
  {
    assert rs[..k + 1] == rs[..k] + [rs[k]];
    MatchConcat(rs[..k], [rs[k]], s0, preds);
    FoldConcat(Step(fadd, agg), acc, MatchAds(rs[..k], s0, preds), MatchAds([rs[k]], s0, preds));
  }

  // Visible records one by one, testing the predicated attributes and accumulating the aggregated one.
  method BruteStats(w: Window, s0: nat, agg: nat, preds: seq<Pred>, fadd: FloatAdd, acc0: NumStats)
    returns (acc: NumStats)
    ensures acc == Fold(Step(fadd, agg), acc0, MatchAds(Records(w), s0, preds))
  {
    hide Walk, HoldsAll, Visible, MatchAds, Fold, SelfOK, FOf, Add, Pick, AttrVal;
    acc := acc0;
    var self, other := Pick(preds, agg, true), Pick(preds, agg, false);
    var off := 0;
    while off < w.used && off in w.arena && w.arena[off].len > 0
      invariant Fold(Step(fadd, agg), acc, MatchAds(RecsAt(w.arena, Walk(w, off)), s0, preds)) ==
        Fold(Step(fadd, agg), acc0, MatchAds(Records(w), s0, preds))
      decreases w.used - off
    {
      var r := w.arena[off];
      WalkMatch(w, off, s0, preds);
      ghost var rest := MatchAds(RecsAt(w.arena, Walk(w, off + r.len)), s0, preds);
      FusedStep(fadd, agg, preds, acc, r, s0);
      MatchOne(r, s0, preds);
      FoldConcat(Step(fadd, agg), acc, if !r.marker && Matches(r, s0, preds) then [r.ad] else [], rest);
      FoldOne(Step(fadd, agg), acc, r.ad);
      if !r.marker && Visible(r, s0) {
        var ok := TestAd(r.ad, other);
        if ok {
          var v := AttrVal(r.ad, agg);
          if v.Some? && SelfOK(self, FOf(v.value)) { acc := Add(fadd, acc, v.value); }
        }
      }
      off := off + r.len;
    }
    WalkMatch(w, off, s0, preds);
    FoldStart(fadd, agg, acc, s0, preds);
    MatchNone([], s0, preds);
  }

  method StatsBlock(sb: ScanBlock, cs: ColSeg, w: Window, base: nat, s0: nat, aggIdx: nat, agg: nat, preds: seq<Pred>,
                    idxs: seq<nat>, otherIdxs: seq<nat>, keep: array<bool>, scratch: array<int>, fadd: FloatAdd,
                    acc0: NumStats)
    returns (acc: NumStats)
    requires InWindow(sb, cs, w, base) && FieldOf(cs, aggIdx, agg)
    requires Resolved(cs.schema, preds, idxs) && Resolved(cs.schema, Pick(preds, agg, false), otherIdxs)
    requires sb.blk.n <= keep.Length && sb.blk.n <= scratch.Length
    modifies keep, scratch
    ensures acc == Fold(Step(fadd, agg), acc0, MatchAds(ShownRun(sb, cs, w, base), s0, preds))
  {
    hide RunFor, MatchAds, Fold, Resolved, FieldOf, Pick, Matches, Step, ShownRec;
    IdxCount(cs.schema, preds, idxs);
    var may := BlockMayMatch(sb, idxs, preds);
    if !may {
      SkippedRun(sb, cs, w, base, idxs, preds, s0);
      MatchNone(ShownRun(sb, cs, w, base), s0, preds);
      MatchNone([], s0, preds);
      FoldStart(fadd, agg, acc0, s0, preds);
      acc := acc0;
    } else if |Pick(preds, agg, false)| == 0 {
      acc := StatsFused(sb, cs, w, base, s0, aggIdx, agg, preds, fadd, acc0);
    } else {
      acc := StatsNarrowed(sb, cs, w, base, s0, aggIdx, agg, preds, otherIdxs, keep, scratch, fadd, acc0);
    }
  }

  // Every block of a sealed segment; a block ruled out by any predicate holds nothing to add.
  method StatsSegment(w: Window, s0: nat, aggIdx: nat, agg: nat, preds: seq<Pred>, idxs: seq<nat>, fadd: FloatAdd,
                      acc0: NumStats)
    returns (acc: NumStats)
    requires w.col.Some? && WindowOK(w) && Resolved(w.col.value.schema, preds, idxs)
    requires FieldOf(w.col.value, aggIdx, agg)
    ensures acc == Fold(Step(fadd, agg), acc0, MatchAds(ShownRecs(w.col.value, Records(w)), s0, preds))
  {
    hide RunFor, MatchAds, Fold, Walk, RecsAt, SegOK, Resolved, Pick, PickIdxs, InWindow, BlockRun, ShownRun, ShownRecs;
    var cs := w.col.value;
    ghost var rs := Records(w);
    ghost var hs := ShownRecs(cs, rs);
    acc := acc0;
    var base: nat := 0;
    var keep := new bool[0];
    var scratch := new int[0];
    var i := 0;
    PickResolved(cs.schema, preds, idxs, agg);
    assert hs[..0] == [];
    FoldStart(fadd, agg, acc0, s0, preds);
    IdxCount(cs.schema, preds, idxs);
    var otherIdxs := PickIdxs(preds, idxs, agg);
    while i < |cs.blocks|
      invariant 0 <= i <= |cs.blocks| && base <= |rs| && keep.Length == scratch.Length
      invariant fresh(keep) && fresh(scratch)
      invariant BlocksFrom(cs, rs, i, base)
      invariant acc == Fold(Step(fadd, agg), acc0, MatchAds(hs[..base], s0, preds))
    {
      var sb := cs.blocks[i];
      var n := sb.blk.n;
      NextBlock(w, i, base);
      assert hs[..base + n] == hs[..base] + hs[base..base + n];
      MatchConcat(hs[..base], hs[base..base + n], s0, preds);
      FoldConcat(Step(fadd, agg), acc0, MatchAds(hs[..base], s0, preds), MatchAds(hs[base..base + n], s0, preds));
      if keep.Length < n {
        keep := new bool[n](_ => false);
        scratch := new int[n](_ => 0);
      }
      acc := StatsBlock(sb, cs, w, base, s0, aggIdx, agg, preds, idxs, otherIdxs, keep, scratch, fadd, acc);
      base := base + n;
      i := i + 1;
    }
    assert hs[..base] == hs;
  }

  lemma IdxCount(s: Schema, preds: seq<Pred>, idxs: seq<nat>)
    requires Resolved(s, preds, idxs)
    ensures |idxs| == |preds|
  {
  }

  // A segment whose schema lacks a field involved, and an unsealed window, fall back to the row walk.
  method StatsWindows(wins: seq<Window>, s0: nat, agg: nat, preds: seq<Pred>, fadd: FloatAdd, acc0: NumStats)
    returns (acc: NumStats)
    requires forall i :: 0 <= i < |wins| ==> WindowOK(wins[i])
    ensures acc == Fold(Step(fadd, agg), acc0, WindowsMatch(ShownWins(wins, [agg] + PredIds(preds)), s0, preds))
  {
    hide WindowOK, Records, MatchAds, Fold, Resolved, ShownWindow, ShownRecs;
    ghost var ids := [agg] + PredIds(preds);
    ghost var hs := ShownWins(wins, ids);
    acc := acc0;
    FoldOne(Step(fadd, agg), acc0, []);
    for i := 0 to |wins|
      invariant acc == Fold(Step(fadd, agg), acc0, WindowsMatch(hs[..i], s0, preds))
    {
      var w := wins[i];
      assert hs[..i + 1][..i] == hs[..i];
      FoldConcat(Step(fadd, agg), acc0, WindowsMatch(hs[..i], s0, preds), MatchAds(Records(hs[i]), s0, preds));
      ShownRecords(w, ids);
      var idxs: seq<nat>, resolved := [], false;
      if w.col.Some? {
        WindowSchema(w);
        if NumericId(w.col.value.schema, agg) {
          AggField(w.col.value.schema, agg);
          idxs, resolved := ResolveFields(w.col.value.schema, preds);
        }
      }
      AggShows(w, agg, preds);
      if !resolved {
        acc := BruteStats(w, s0, agg, preds, fadd, acc);
      } else {
        acc := StatsSegment(w, s0, w.col.value.schema.byId[agg], agg, preds, idxs, fadd, acc);
      }
    }
    assert hs[..|wins|] == hs;
  }

  lemma AggShows(w: Window, agg: nat, preds: seq<Pred>)
    ensures Shows(w, [agg] + PredIds(preds)) <==> w.col.Some? && NumericId(w.col.value.schema, agg) && forall j ::
      0 <= j < |preds| ==> NumericId(w.col.value.schema, preds[j].id)
  {
    hide NumericId;
    var ids := [agg] + PredIds(preds);
    assert ids[0] == agg && forall j :: 0 <= j < |preds| ==> ids[j + 1] == preds[j].id;
  }

  lemma AggField(s: Schema, agg: nat)
    requires ValidSchema(s) && NumericId(s, agg)
    ensures s.byId[agg] < |s.fields| && Numeric(s.fields[s.byId[agg]]) && s.fields[s.byId[agg]].id == agg
  {
    IdAt(s, agg);
  }

  lemma StepReads(fadd: FloatAdd, agg: nat, ids: seq<nat>)
    requires ids != [] && ids[0] == agg
    ensures Reads(Step(fadd, agg), ids)
  {
    hide AttrVal, Add;
    forall acc, x, y | forall j :: 0 <= j < |ids| ==> AttrVal(x, ids[j]) == AttrVal(y, ids[j])
      ensures Step(fadd, agg)(acc, x) == Step(fadd, agg)(acc, y)
    {
      assert AttrVal(x, ids[0]) == AttrVal(y, ids[0]);
    }
  }

  // The columnar aggregate is the fold, in scan order, over the matching visible records as the columns show them.
  // Where every field involved is read as it is, that is the fold over the matching visible records.
  method ScanStatsMulti(shards: seq<Shard>, agg: nat, preds: seq<Pred>, fadd: FloatAdd) returns (r: NumStats)
    requires forall i, j :: 0 <= i < |shards| && 0 <= j < |shards[i].wins| ==> WindowOK(shards[i].wins[j])
    ensures r == Result(Fold(Step(fadd, agg), EMPTY, ShardsMatch(ShownShards(shards, [agg] + PredIds(preds)), preds)))
    ensures (forall i, j ::
      0 <= i < |shards| && 0 <= j < |shards[i].wins| ==> IdsRead(shards[i].wins[j], [agg] + PredIds(preds))) ==>
      r == Result(Fold(Step(fadd, agg), EMPTY, ShardsMatch(shards, preds)))
  {
    hide WindowOK, IdsRead, WindowsMatch, Fold, Step;
    ghost var ids := [agg] + PredIds(preds);
    ghost var hs := ShownShards(shards, ids);
    var acc := EMPTY;
    FoldOne(Step(fadd, agg), EMPTY, []);
    for i := 0 to |shards|
      invariant acc == Fold(Step(fadd, agg), EMPTY, ShardsMatch(hs[..i], preds))
    {
      assert hs[..i + 1][..i] == hs[..i];
      FoldConcat(Step(fadd, agg), EMPTY, ShardsMatch(hs[..i], preds), WindowsMatch(hs[i].wins, hs[i].snapshot, preds));
      acc := StatsWindows(shards[i].wins, shards[i].snapshot, agg, preds, fadd, acc);
    }
    assert hs[..|shards|] == hs;
    r := Result(acc);
    if forall i, j :: 0 <= i < |shards| && 0 <= j < |shards[i].wins| ==> IdsRead(shards[i].wins[j], ids) {
      PredsCovered(agg, preds);
      ShardsSame(shards, preds, ids);
      StepReads(fadd, agg, ids);
      FoldSame(Step(fadd, agg), EMPTY, ShardsMatch(hs, preds), ShardsMatch(shards, preds), ids);
    }
  }

  lemma PredsCovered(agg: nat, preds: seq<Pred>)
    ensures Covered(preds, [agg] + PredIds(preds))
  {
    forall j | 0 <= j < |preds|
      ensures preds[j].id in [agg] + PredIds(preds)
    {
      assert PredIds(preds)[j] == preds[j].id;
    }
  }
}
