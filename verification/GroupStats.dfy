/** GROUP BY over a numeric column: the columnar scan, the row walk beside it, and what the groups mean. */
module GroupStats {
  import opened Bytes
  import opened Wire
  import opened Row
  import opened Values
  import opened Preds
  import opened Scan
  import opened Folds
  import opened Stats

  // ---------------------------------------------------------------- accumulating groups

  // One group: its record count and one accumulator per aggregate column.
  datatype GroupAcc = GroupAcc(n: nat, stats: seq<NumStats>)

  // Keyed by the group column's raw value and kind; None once some record's group cannot be formed.
  type Acc = Option<map<ColVal, GroupAcc>>

  predicate Groupable(v: Option<ColVal>) { v.Some? && !v.value.CBool? }

  function NewAcc(n: nat): (g: GroupAcc)
    ensures g.n == 0 && |g.stats| == n && forall i :: 0 <= i < n ==> g.stats[i] == EMPTY
  {
    GroupAcc(0, seq(n, i => EMPTY))
  }

  function At(m: map<ColVal, GroupAcc>, v: ColVal, n: nat): (g: GroupAcc) { if v in m then m[v] else NewAcc(n) }

  // An absent or non-numeric aggregate contributes nothing, but the record still counts in its group.
  function Bump(fadd: FloatAdd, aggs: seq<nat>, g: GroupAcc, ad: seq<Entry>): (r: GroupAcc)
    ensures r.n == g.n + 1 && |r.stats| == |g.stats|
    ensures forall i ::
      0 <= i < |g.stats| ==> r.stats[i] == if i < |aggs| then StatsStep(fadd, aggs[i], g.stats[i], ad) else g.stats[i]
  {
    GroupAcc(g.n + 1,
      seq(|g.stats|, i requires 0 <= i < |g.stats| => if i < |aggs| then StatsStep(fadd, aggs[i], g.stats[i], ad)
        else g.stats[i]))
  }

  function GroupStep(fadd: FloatAdd, gid: nat, aggs: seq<nat>, acc: Acc, ad: seq<Entry>): (r: Acc)
  {
    if acc.None? || !Groupable(AttrVal(ad, gid)) then None
    else
      var v := AttrVal(ad, gid).value;
      Some(acc.value[v := Bump(fadd, aggs, At(acc.value, v, |aggs|), ad)])
  }

  function GStep(fadd: FloatAdd, gid: nat, aggs: seq<nat>): (f: (Acc, seq<Entry>) -> Acc)
  {
    (a, ad) => GroupStep(fadd, gid, aggs, a, ad)
  }

  // ---------------------------------------------------------------- what the groups mean

  function KeyAds(ads: seq<seq<Entry>>, gid: nat, v: ColVal): (r: seq<seq<Entry>>)
  {
    if ads == [] then []
    else if AttrVal(ads[|ads| - 1], gid) == Some(v) then KeyAds(ads[..|ads| - 1], gid, v) + [ads[|ads| - 1]]
    else KeyAds(ads[..|ads| - 1], gid, v)
  }

  // The scan gives up exactly when some matching record's group value is not an int or a real.
  lemma {:induction false} DeclinesExactly(fadd: FloatAdd, gid: nat, aggs: seq<nat>, ads: seq<seq<Entry>>)
    ensures Fold(GStep(fadd, gid, aggs), Some(map[]), ads).None? <==>
      exists k :: 0 <= k < |ads| && !IntOrReal(ads[k], gid)
    decreases |ads|
  {
    hide AttrVal, IntOrReal;
    if ads != [] {
      var n := |ads| - 1;
      DeclinesExactly(fadd, gid, aggs, ads[..n]);
      GroupableExactly(ads[n], gid);
      if k :| 0 <= k < n && !IntOrReal(ads[..n][k], gid) { assert !IntOrReal(ads[k], gid); }
      if k :| 0 <= k < |ads| && !IntOrReal(ads[k], gid) {
        if k < n { assert !IntOrReal(ads[..n][k], gid); }
      }
    }
  }

  // The ad has the attribute, as an integer or a real.
  predicate IntOrReal(ad: seq<Entry>, gid: nat)
  {
    match Lookup(ad, gid) case Some(Lit(l)) => l.LInt? || l.LReal? case _ => false
  }

  lemma GroupableExactly(ad: seq<Entry>, gid: nat)
    ensures Groupable(AttrVal(ad, gid)) <==> IntOrReal(ad, gid)
  {
    hide Lookup;
  }

  // Each group is the fold over the records that carry its value, and there is a group for exactly those
  // values some record carries.
  lemma {:induction false} GroupsExactly(fadd: FloatAdd, gid: nat, aggs: seq<nat>, ads: seq<seq<Entry>>, v: ColVal)
    requires Fold(GStep(fadd, gid, aggs), Some(map[]), ads).Some?
    ensures var m := Fold(GStep(fadd, gid, aggs), Some(map[]), ads).value; var mine := KeyAds(ads, gid, v);
      && (v in m <==> mine != [])
      && At(m, v, |aggs|).n == |mine| && |At(m, v, |aggs|).stats| == |aggs|
      && forall i :: 0 <= i < |aggs| ==> At(m, v, |aggs|).stats[i] == Fold(Step(fadd, aggs[i]), EMPTY, mine)
    decreases |ads|
  {
    hide AttrVal, StatsStep;
    if ads != [] {
      var n := |ads| - 1;
      GroupsExactly(fadd, gid, aggs, ads[..n], v);
      var mine := KeyAds(ads, gid, v);
      if AttrVal(ads[n], gid) == Some(v) {
        var was := KeyAds(ads[..n], gid, v);
        assert mine[..|mine| - 1] == was && mine[|mine| - 1] == ads[n];
      }
    }
  }

  ghost function Total(m: map<ColVal, GroupAcc>): nat
  {
    if m == map[] then 0 else
      var v :| v in m;
      m[v].n + Total(m - {v})
  }

  lemma {:induction false} TotalWithout(m: map<ColVal, GroupAcc>, v: ColVal)
    requires v in m
    ensures Total(m) == m[v].n + Total(m - {v})
    decreases |m|
  {
    var u :| u in m && Total(m) == m[u].n + Total(m - {u});
    if u != v {
      Shrinks(m, u);
      Shrinks(m, v);
      TotalWithout(m - {u}, v);
      TotalWithout(m - {v}, u);
      assert m - {u} - {v} == m - {v} - {u};
    }
  }

  lemma Shrinks(m: map<ColVal, GroupAcc>, v: ColVal)
    requires v in m
    ensures |m - {v}| < |m|
  {
    assert (m - {v}).Keys == m.Keys - {v};
  }

  lemma TotalBump(m: map<ColVal, GroupAcc>, v: ColVal, g: GroupAcc)
    requires g.n == (if v in m then m[v].n else 0) + 1
    ensures Total(m[v := g]) == Total(m) + 1
  {
    hide Total;
    TotalWithout(m[v := g], v);
    if v in m {
      TotalWithout(m, v);
      assert m[v := g] - {v} == m - {v};
    } else {
      assert m[v := g] - {v} == m;
    }
  }

  // The groups' counts sum to the number of matching records.
  lemma {:induction false} CountsSum(fadd: FloatAdd, gid: nat, aggs: seq<nat>, ads: seq<seq<Entry>>)
    requires Fold(GStep(fadd, gid, aggs), Some(map[]), ads).Some?
    ensures Total(Fold(GStep(fadd, gid, aggs), Some(map[]), ads).value) == |ads|
    decreases |ads|
  {
    hide AttrVal, Bump;
    if ads == [] {
    } else {
      var n := |ads| - 1;
      CountsSum(fadd, gid, aggs, ads[..n]);
      var m := Fold(GStep(fadd, gid, aggs), Some(map[]), ads[..n]).value;
      var v := AttrVal(ads[n], gid).value;
      TotalBump(m, v, Bump(fadd, aggs, At(m, v, |aggs|), ads[n]));
    }
  }

  lemma {:induction false} DeclinedStays(fadd: FloatAdd, gid: nat, aggs: seq<nat>, ads: seq<seq<Entry>>)
    ensures Fold(GStep(fadd, gid, aggs), None, ads).None?
    decreases |ads|
  {
    if ads != [] { DeclinedStays(fadd, gid, aggs, ads[..|ads| - 1]); }
  }

  // ---------------------------------------------------------------- the columnar scan

  ghost predicate AccOK(acc: Acc, n: nat) { acc.Some? ==> forall v :: v in acc.value ==> |acc.value[v].stats| == n }

  // Every aggregate column is a numeric field of the schema.
  ghost predicate AggsOK(s: Schema, aggs: seq<nat>, aggIdxs: seq<nat>)
  {
    |aggIdxs| == |aggs| && forall i ::
      0 <= i < |aggs| ==> aggIdxs[i] < |s.fields| && Numeric(s.fields[aggIdxs[i]]) && s.fields[aggIdxs[i]].id == aggs[i]
  }

  // Read each aggregate column of one record into its group.
  method BumpColumns(sb: ScanBlock, cs: ColSeg, ghost rs: seq<Rec>, aggs: seq<nat>, aggIdxs: seq<nat>, k: nat,
                     g: GroupAcc, fadd: FloatAdd)
    returns (r: GroupAcc)
    requires RunFor(sb, cs, rs) && AggsOK(cs.schema, aggs, aggIdxs) && k < |rs| && |g.stats| == |aggs|
    ensures r == Bump(fadd, aggs, g, ShownRecs(cs, rs)[k].ad)
  {
    hide RunFor, ColumnVal, AttrVal, Add, ShownRec;
    ghost var ad := ShownRecs(cs, rs)[k].ad;
    var stats := g.stats;
    for i := 0 to |aggs|
      invariant |stats| == |aggs|
      invariant forall j ::
        0 <= j < |aggs| ==> stats[j] == if j < i then StatsStep(fadd, aggs[j], g.stats[j], ad) else g.stats[j]
    {
      ColumnReads(sb, cs, rs, aggIdxs[i], k);
      BlockFields(sb, cs, rs);
      var v := ColumnVal(sb.blk, aggIdxs[i], aggs[i], k);
      if v.Some? { stats := stats[i := Add(fadd, stats[i], v.value)]; }
    }
    r := GroupAcc(g.n + 1, stats);
    assert r.stats == Bump(fadd, aggs, g, ad).stats;
  }

  lemma BlockFields(sb: ScanBlock, cs: ColSeg, rs: seq<Rec>)
    requires RunFor(sb, cs, rs)
    ensures sb.blk.schema == cs.schema && sb.blk.n == |rs|
  {
    hide BlockFor, ZonesExact, SegOK, BaseRow;
  }

  // Narrow, then read the group column and each aggregate column for the survivors.
  method GroupSurvivors(sb: ScanBlock, cs: ColSeg, w: Window, base: nat, s0: nat, gIdx: nat, gid: nat,
                        aggIdxs: seq<nat>, aggs: seq<nat>, preds: seq<Pred>, idxs: seq<nat>, keep: array<bool>,
                        scratch: array<int>, fadd: FloatAdd, acc0: map<ColVal, GroupAcc>)
    returns (acc: Acc)
    requires InWindow(sb, cs, w, base) && FieldOf(cs, gIdx, gid) && Resolved(cs.schema, preds, idxs)
    requires AggsOK(cs.schema, aggs, aggIdxs) && AccOK(Some(acc0), |aggs|)
    requires sb.blk.n <= keep.Length && sb.blk.n <= scratch.Length
    modifies keep, scratch
    ensures acc == Fold(GStep(fadd, gid, aggs), Some(acc0), MatchAds(ShownRun(sb, cs, w, base), s0, preds)) &&
      AccOK(acc, |aggs|)
  {
    hide RunFor, Fold, MatchAds, ColumnVal, AttrVal, Matches, Resolved, CountTrue, GroupStep, AggsOK, ShownRec;
    var n := sb.blk.n;
    ghost var rs, hs := BlockRun(sb, cs, w, base), ShownRun(sb, cs, w, base);
    var live := NarrowBlock(sb, cs, w, base, s0, idxs, preds, keep, scratch);
    var m := acc0;
    FoldNothing(fadd, gid, aggs, Some(acc0), s0, preds);
    if live == 0 {
      NoneLive(keep[..n]);
      forall k | 0 <= k < n ensures !Matches(hs[k], s0, preds) { assert keep[..n][k] == keep[k]; }
      MatchNone(hs, s0, preds);
      MatchNone([], s0, preds);
      return Some(m);
    }
    assert hs[..0] == [];
    var k := 0;
    while k < n
      invariant 0 <= k <= n && AccOK(Some(m), |aggs|)
      invariant Some(m) == Fold(GStep(fadd, gid, aggs), Some(acc0), MatchAds(hs[..k], s0, preds))
      invariant forall i :: 0 <= i < n ==> keep[i] == Matches(hs[i], s0, preds)
    {
      NextGrouped(fadd, gid, aggs, Some(acc0), hs, k, s0, preds);
      if keep[k] {
        ColumnReads(sb, cs, rs, gIdx, k);
        BlockFields(sb, cs, rs);
        var v := ColumnVal(sb.blk, gIdx, gid, k);
        StepOne(fadd, gid, aggs, m, hs[k].ad);
        if !Groupable(v) {
          GroupedRest(fadd, gid, aggs, Some(acc0), hs, k + 1, s0, preds);
          return None;
        }
        var g := At(m, v.value, |aggs|);
        var g' := BumpColumns(sb, cs, rs, aggs, aggIdxs, k, g, fadd);
        m := m[v.value := g'];
      }
      k := k + 1;
    }
    assert hs[..n] == hs;
    acc := Some(m);
  }

  lemma FoldNothing(fadd: FloatAdd, gid: nat, aggs: seq<nat>, acc: Acc, s0: nat, preds: seq<Pred>)
    ensures Fold(GStep(fadd, gid, aggs), acc, MatchAds([], s0, preds)) == acc
  {
  }

  lemma StepOne(fadd: FloatAdd, gid: nat, aggs: seq<nat>, m: map<ColVal, GroupAcc>, ad: seq<Entry>)
    ensures GroupStep(fadd, gid, aggs, Some(m), ad) ==
      if Groupable(AttrVal(ad, gid)) then
        Some(m[AttrVal(ad, gid).value := Bump(fadd, aggs, At(m, AttrVal(ad, gid).value, |aggs|), ad)]) else None
  {
    hide AttrVal, Bump;
  }

  lemma NextGrouped(fadd: FloatAdd, gid: nat, aggs: seq<nat>, acc: Acc, rs: seq<Rec>, k: nat, s0: nat, preds: seq<Pred>)
    requires k < |rs|
    ensures var was := Fold(GStep(fadd, gid, aggs), acc, MatchAds(rs[..k], s0, preds));
      Fold(GStep(fadd, gid, aggs), acc, MatchAds(rs[..k + 1], s0, preds)) ==
      if Matches(rs[k], s0, preds) then GroupStep(fadd, gid, aggs, was, rs[k].ad) else was
  {
    hide Matches, GroupStep;
    var step, head := GStep(fadd, gid, aggs), MatchAds(rs[..k], s0, preds);
    assert rs[..k + 1] == rs[..k] + [rs[k]];
    MatchConcat(rs[..k], [rs[k]], s0, preds);
    MatchOne(rs[k], s0, preds);
    FoldConcat(step, acc, head, MatchAds([rs[k]], s0, preds));
    FoldOne(step, Fold(step, acc, head), rs[k].ad);
  }

  // Once declined, the rest of the records do not matter.
  lemma GroupedRest(fadd: FloatAdd, gid: nat, aggs: seq<nat>, acc: Acc, rs: seq<Rec>, k: nat, s0: nat, preds: seq<Pred>)
    requires k <= |rs| && Fold(GStep(fadd, gid, aggs), acc, MatchAds(rs[..k], s0, preds)).None?
    ensures Fold(GStep(fadd, gid, aggs), acc, MatchAds(rs, s0, preds)).None?
  {
    hide GStep, Matches;
    assert rs == rs[..k] + rs[k..];
    MatchConcat(rs[..k], rs[k..], s0, preds);
    FoldConcat(GStep(fadd, gid, aggs), acc, MatchAds(rs[..k], s0, preds), MatchAds(rs[k..], s0, preds));
    DeclinedStays(fadd, gid, aggs, MatchAds(rs[k..], s0, preds));
  }

  // The row walk: the same give-up condition, for the same reason.
  method BruteGroupStats(w: Window, s0: nat, gid: nat, aggs: seq<nat>, preds: seq<Pred>, fadd: FloatAdd,
                         acc0: map<ColVal, GroupAcc>)
    returns (acc: Acc)
    requires AccOK(Some(acc0), |aggs|)
    ensures acc == Fold(GStep(fadd, gid, aggs), Some(acc0), MatchAds(Records(w), s0, preds)) && AccOK(acc, |aggs|)
  {
    hide Walk, HoldsAll, Visible, MatchAds, Fold, AttrVal, GroupStep;
    var m := acc0;
    var step := GStep(fadd, gid, aggs);
    var off := 0;
    while off < w.used && off in w.arena && w.arena[off].len > 0
      invariant AccOK(Some(m), |aggs|)
      invariant Fold(step, Some(m), MatchAds(RecsAt(w.arena, Walk(w, off)), s0, preds)) ==
        Fold(step, Some(acc0), MatchAds(Records(w), s0, preds))
      decreases w.used - off
    {
      var r := w.arena[off];
      WalkMatch(w, off, s0, preds);
      ghost var rest := MatchAds(RecsAt(w.arena, Walk(w, off + r.len)), s0, preds);
      FoldConcat(step, Some(m), if !r.marker && Matches(r, s0, preds) then [r.ad] else [], rest);
      FoldOne(step, Some(m), r.ad);
      if !r.marker && Visible(r, s0) {
        var ok := TestAd(r.ad, preds);
        if ok {
          var v := AttrVal(r.ad, gid);
          StepOne(fadd, gid, aggs, m, r.ad);
          if !Groupable(v) {
            DeclinedStays(fadd, gid, aggs, rest);
            return None;
          }
          m := m[v.value := Bump(fadd, aggs, At(m, v.value, |aggs|), r.ad)];
        }
      }
      off := off + r.len;
    }
    WalkMatch(w, off, s0, preds);
    FoldNothing(fadd, gid, aggs, Some(m), s0, preds);
    MatchNone([], s0, preds);
    acc := Some(m);
  }

  // Only the predicate columns can rule a block out; the group and aggregate values are the answer.
  method GroupBlockScan(sb: ScanBlock, cs: ColSeg, w: Window, base: nat, s0: nat, gIdx: nat, gid: nat,
                        aggIdxs: seq<nat>, aggs: seq<nat>, preds: seq<Pred>, idxs: seq<nat>, keep: array<bool>,
                        scratch: array<int>, fadd: FloatAdd, acc0: map<ColVal, GroupAcc>)
    returns (acc: Acc)
    requires InWindow(sb, cs, w, base) && FieldOf(cs, gIdx, gid) && Resolved(cs.schema, preds, idxs)
    requires AggsOK(cs.schema, aggs, aggIdxs) && AccOK(Some(acc0), |aggs|)
    requires sb.blk.n <= keep.Length && sb.blk.n <= scratch.Length
    modifies keep, scratch
    ensures acc == Fold(GStep(fadd, gid, aggs), Some(acc0), MatchAds(ShownRun(sb, cs, w, base), s0, preds)) &&
      AccOK(acc, |aggs|)
  {
    hide RunFor, Fold, MatchAds, Matches, Resolved, GStep, AggsOK, ShownRec, FieldOf;
    IdxCount(cs.schema, preds, idxs);
    var may := BlockMayMatch(sb, idxs, preds);
    if !may {
      SkippedRun(sb, cs, w, base, idxs, preds, s0);
      NothingTaken(fadd, gid, aggs, Some(acc0), ShownRun(sb, cs, w, base), s0, preds);
      return Some(acc0);
    }
    acc := GroupSurvivors(sb, cs, w, base, s0, gIdx, gid, aggIdxs, aggs, preds, idxs, keep, scratch, fadd, acc0);
  }

  method GroupSegment(w: Window, s0: nat, gIdx: nat, gid: nat, aggIdxs: seq<nat>, aggs: seq<nat>, preds: seq<Pred>,
                      idxs: seq<nat>, fadd: FloatAdd, acc0: map<ColVal, GroupAcc>)
    returns (acc: Acc)
    requires w.col.Some? && WindowOK(w) && Resolved(w.col.value.schema, preds, idxs) && AccOK(Some(acc0), |aggs|)
    requires AggsOK(w.col.value.schema, aggs, aggIdxs) && FieldOf(w.col.value, gIdx, gid)
    ensures acc == Fold(GStep(fadd, gid, aggs), Some(acc0), MatchAds(ShownRecs(w.col.value, Records(w)), s0, preds)) &&
      AccOK(acc, |aggs|)
  {
    hide RunFor, MatchAds, Fold, Walk, RecsAt, SegOK, Resolved, AggsOK, GStep, Matches, InWindow, BlockRun, ShownRun,
      ShownRecs;
    var cs := w.col.value;
    ghost var rs := Records(w);
    ghost var hs := ShownRecs(cs, rs);
    acc := Some(acc0);
    var base: nat := 0;
    var keep := new bool[0];
    var scratch := new int[0];
    var i := 0;
    assert hs[..0] == [];
    FoldNothing(fadd, gid, aggs, acc, s0, preds);
    IdxCount(cs.schema, preds, idxs);
    while i < |cs.blocks|
      invariant 0 <= i <= |cs.blocks| && base <= |rs| && keep.Length == scratch.Length
      invariant fresh(keep) && fresh(scratch)
      invariant BlocksFrom(cs, rs, i, base)
      invariant acc.Some? && acc == Fold(GStep(fadd, gid, aggs), Some(acc0), MatchAds(hs[..base], s0, preds)) &&
        AccOK(acc, |aggs|)
    {
      var sb := cs.blocks[i];
      var n := sb.blk.n;
      NextBlock(w, i, base);
      BlockTaken(fadd, gid, aggs, Some(acc0), hs, base, n, s0, preds);
      if keep.Length < n {
        keep := new bool[n](_ => false);
        scratch := new int[n](_ => 0);
      }
      acc := GroupBlockScan(sb, cs, w, base, s0, gIdx, gid, aggIdxs, aggs, preds, idxs, keep, scratch, fadd, acc.value);
      if acc.None? {
        GroupedRest(fadd, gid, aggs, Some(acc0), hs, base + n, s0, preds);
        return;
      }
      base := base + n;
      i := i + 1;
    }
    assert hs[..base] == hs;
  }

  lemma BlockTaken(fadd: FloatAdd, gid: nat, aggs: seq<nat>, acc: Acc, rs: seq<Rec>, base: nat, n: nat, s0: nat,
                   preds: seq<Pred>)
    requires base + n <= |rs|
    ensures Fold(GStep(fadd, gid, aggs), acc, MatchAds(rs[..base + n], s0, preds)) ==
      Fold(GStep(fadd, gid, aggs), Fold(GStep(fadd, gid, aggs), acc, MatchAds(rs[..base], s0, preds)),
        MatchAds(rs[base..base + n], s0, preds))
  {
    hide GStep, Matches;
    assert rs[..base + n] == rs[..base] + rs[base..base + n];
    MatchConcat(rs[..base], rs[base..base + n], s0, preds);
    FoldConcat(GStep(fadd, gid, aggs), acc, MatchAds(rs[..base], s0, preds), MatchAds(rs[base..base + n], s0, preds));
  }

  lemma NothingTaken(fadd: FloatAdd, gid: nat, aggs: seq<nat>, acc: Acc, rs: seq<Rec>, s0: nat, preds: seq<Pred>)
    requires forall k :: 0 <= k < |rs| ==> !Matches(rs[k], s0, preds)
    ensures Fold(GStep(fadd, gid, aggs), acc, MatchAds(rs, s0, preds)) == acc
  {
    hide Matches;
    MatchNone(rs, s0, preds);
    MatchNone([], s0, preds);
    FoldNothing(fadd, gid, aggs, acc, s0, preds);
  }

  method ResolveAggs(s: Schema, aggs: seq<nat>) returns (idxs: seq<nat>, ok: bool)
    requires ValidSchema(s)
    ensures ok ==> AggsOK(s, aggs, idxs)
    ensures ok <==> forall i :: 0 <= i < |aggs| ==> NumericId(s, aggs[i])
  {
    hide ValidSchema;
    idxs := [];
    for i := 0 to |aggs|
      invariant AggsOK(s, aggs[..i], idxs) && forall j :: 0 <= j < i ==> NumericId(s, aggs[j])
    {
      if !NumericId(s, aggs[i]) { return [], false; }
      AggField(s, aggs[i]);
      idxs := idxs + [s.byId[aggs[i]]];
    }
    assert aggs[..|aggs|] == aggs;
    ok := true;
  }

  // The attributes a grouped scan reads.
  function GroupIds(gid: nat, aggs: seq<nat>, preds: seq<Pred>): (ids: seq<nat>) { [gid] + aggs + PredIds(preds) }

  method GroupWindows(wins: seq<Window>, s0: nat, gid: nat, aggs: seq<nat>, preds: seq<Pred>, fadd: FloatAdd,
                      acc0: map<ColVal, GroupAcc>)
    returns (acc: Acc)
    requires (forall i :: 0 <= i < |wins| ==> WindowOK(wins[i])) && AccOK(Some(acc0), |aggs|)
    ensures acc ==
      Fold(GStep(fadd, gid, aggs), Some(acc0), WindowsMatch(ShownWins(wins, GroupIds(gid, aggs, preds)), s0, preds)) &&
        AccOK(acc, |aggs|)
  {
    hide WindowOK, ShownWindow, ShownRecs, Records, MatchAds, Fold, Resolved, AggsOK, GStep;
    ghost var ids := GroupIds(gid, aggs, preds);
    ghost var hs := ShownWins(wins, ids);
    acc := Some(acc0);
    FoldOne(GStep(fadd, gid, aggs), acc, []);
    for i := 0 to |wins|
      invariant acc.Some? && acc == Fold(GStep(fadd, gid, aggs), Some(acc0), WindowsMatch(hs[..i], s0, preds)) &&
        AccOK(acc, |aggs|)
    {
      var w := wins[i];
      assert hs[..i + 1][..i] == hs[..i];
      FoldConcat(GStep(fadd, gid, aggs), Some(acc0), WindowsMatch(hs[..i], s0, preds),
        MatchAds(Records(hs[i]), s0, preds));
      ShownRecords(w, ids);
      var idxs: seq<nat>, aggIdxs: seq<nat>, resolved := [], [], false;
      if w.col.Some? {
        WindowSchema(w);
        if NumericId(w.col.value.schema, gid) {
          AggField(w.col.value.schema, gid);
          idxs, resolved := ResolveFields(w.col.value.schema, preds);
          if resolved { aggIdxs, resolved := ResolveAggs(w.col.value.schema, aggs); }
        }
      }
      GroupShows(w, gid, aggs, preds);
      if !resolved {
        acc := BruteGroupStats(w, s0, gid, aggs, preds, fadd, acc.value);
      } else {
        acc := GroupSegment(w, s0, w.col.value.schema.byId[gid], gid, aggIdxs, aggs, preds, idxs, fadd, acc.value);
      }
      if acc.None? {
        WindowsRest(fadd, gid, aggs, Some(acc0), hs, i + 1, s0, preds);
        return;
      }
    }
    assert hs[..|wins|] == hs;
  }

  lemma GroupShows(w: Window, gid: nat, aggs: seq<nat>, preds: seq<Pred>)
    ensures Shows(w, GroupIds(gid, aggs, preds)) <==>
      && w.col.Some? && NumericId(w.col.value.schema, gid) &&
         (forall j :: 0 <= j < |preds| ==> NumericId(w.col.value.schema, preds[j].id))
      && forall j :: 0 <= j < |aggs| ==> NumericId(w.col.value.schema, aggs[j])
  {
    hide NumericId;
    var ids, n := GroupIds(gid, aggs, preds), |aggs|;
    if w.col.Some? {
      var s := w.col.value.schema;
      if Shows(w, ids) {
        assert NumericId(s, ids[0]);
        forall j | 0 <= j < |preds| ensures NumericId(s, preds[j].id) { assert ids[1 + n + j] == preds[j].id; }
        forall j | 0 <= j < n ensures NumericId(s, aggs[j]) { assert ids[1 + j] == aggs[j]; }
      }
      if NumericId(s, gid) && (forall j :: 0 <= j < |preds| ==> NumericId(s, preds[j].id)) && forall j ::
        0 <= j < n ==> NumericId(s, aggs[j]) {
        forall i | 0 <= i < |ids| ensures NumericId(s, ids[i]) {
          if 1 <= i <= n { assert ids[i] == aggs[i - 1]; }
          if n < i { assert ids[i] == preds[i - 1 - n].id; }
        }
      }
    }
  }

  lemma {:induction false} WindowsRest(fadd: FloatAdd, gid: nat, aggs: seq<nat>, acc: Acc, wins: seq<Window>, i: nat,
                                       s0: nat, preds: seq<Pred>)
    requires i <= |wins| && Fold(GStep(fadd, gid, aggs), acc, WindowsMatch(wins[..i], s0, preds)).None?
    ensures Fold(GStep(fadd, gid, aggs), acc, WindowsMatch(wins, s0, preds)).None?
    decreases |wins|
  {
    hide GStep, MatchAds, Fold, Records;
    if i == |wins| {
      assert wins[..i] == wins;
    } else {
      var n := |wins| - 1;
      assert wins[..n][..i] == wins[..i];
      WindowsRest(fadd, gid, aggs, acc, wins[..n], i, s0, preds);
      FoldConcat(GStep(fadd, gid, aggs), acc, WindowsMatch(wins[..n], s0, preds),
        MatchAds(Records(wins[n]), s0, preds));
      DeclinedStays(fadd, gid, aggs, MatchAds(Records(wins[n]), s0, preds));
    }
  }

  // The grouped columnar scan: the fold over the matching records as the columns show them, or declined exactly when
  // it is. Where every field involved is read as it is, that is the fold over the matching records.
  method ScanGroupStats(shards: seq<Shard>, gid: nat, aggs: seq<nat>, preds: seq<Pred>, fadd: FloatAdd)
    returns (acc: Acc)
    requires forall i, j :: 0 <= i < |shards| && 0 <= j < |shards[i].wins| ==> WindowOK(shards[i].wins[j])
    ensures acc ==
      Fold(GStep(fadd, gid, aggs), Some(map[]), ShardsMatch(ShownShards(shards, GroupIds(gid, aggs, preds)), preds))
    ensures (forall i, j ::
      0 <= i < |shards| && 0 <= j < |shards[i].wins| ==> IdsRead(shards[i].wins[j], GroupIds(gid, aggs, preds))) ==>
      acc == Fold(GStep(fadd, gid, aggs), Some(map[]), ShardsMatch(shards, preds))
  {
    ShownGroups(shards, gid, aggs, preds, fadd);
    acc := GroupShards(shards, gid, aggs, preds, fadd);
  }

  // The groups of the records as shown and of the records agree where every field involved is read as it is.
  lemma ShownGroups(shards: seq<Shard>, gid: nat, aggs: seq<nat>, preds: seq<Pred>, fadd: FloatAdd)
    requires forall i, j :: 0 <= i < |shards| && 0 <= j < |shards[i].wins| ==> WindowOK(shards[i].wins[j])
    ensures (forall i, j ::
      0 <= i < |shards| && 0 <= j < |shards[i].wins| ==> IdsRead(shards[i].wins[j], GroupIds(gid, aggs, preds))) ==>
      Fold(GStep(fadd, gid, aggs), Some(map[]), ShardsMatch(ShownShards(shards, GroupIds(gid, aggs, preds)), preds)) ==
      Fold(GStep(fadd, gid, aggs), Some(map[]), ShardsMatch(shards, preds))
  {
    hide WindowOK, IdsRead, ShardsMatch, Fold, GStep, GroupIds;
    var ids := GroupIds(gid, aggs, preds);
    if forall i, j :: 0 <= i < |shards| && 0 <= j < |shards[i].wins| ==> IdsRead(shards[i].wins[j], ids) {
      GroupCovered(gid, aggs, preds);
      ShardsSame(shards, preds, ids);
      GroupStepReads(fadd, gid, aggs, preds);
      FoldSame(GStep(fadd, gid, aggs), Some(map[]), ShardsMatch(ShownShards(shards, ids), preds),
        ShardsMatch(shards, preds), ids);
    }
  }

  lemma GroupCovered(gid: nat, aggs: seq<nat>, preds: seq<Pred>)
    ensures Covered(preds, GroupIds(gid, aggs, preds))
  {
    var ids := GroupIds(gid, aggs, preds);
    forall j | 0 <= j < |preds| ensures preds[j].id in ids { assert ids[1 + |aggs| + j] == preds[j].id; }
  }

  lemma GroupStepReads(fadd: FloatAdd, gid: nat, aggs: seq<nat>, preds: seq<Pred>)
    ensures Reads(GStep(fadd, gid, aggs), GroupIds(gid, aggs, preds))
  {
    hide AttrVal;
    var ids := GroupIds(gid, aggs, preds);
    forall acc, x, y | forall j :: 0 <= j < |ids| ==> AttrVal(x, ids[j]) == AttrVal(y, ids[j])
      ensures GStep(fadd, gid, aggs)(acc, x) == GStep(fadd, gid, aggs)(acc, y)
    {
      assert ids[0] == gid && AttrVal(x, ids[0]) == AttrVal(y, ids[0]);
      forall i | 0 <= i < |aggs| ensures AttrVal(x, aggs[i]) == AttrVal(y, aggs[i]) { assert ids[i + 1] == aggs[i]; }
      if acc.Some? && Groupable(AttrVal(x, gid)) {
        BumpAlike(fadd, aggs, At(acc.value, AttrVal(x, gid).value, |aggs|), x, y);
      }
    }
  }

  lemma BumpAlike(fadd: FloatAdd, aggs: seq<nat>, g: GroupAcc, x: seq<Entry>, y: seq<Entry>)
    requires forall i :: 0 <= i < |aggs| ==> AttrVal(x, aggs[i]) == AttrVal(y, aggs[i])
    ensures Bump(fadd, aggs, g, x) == Bump(fadd, aggs, g, y)
  {
    hide AttrVal, Add;
    assert Bump(fadd, aggs, g, x).stats == Bump(fadd, aggs, g, y).stats;
  }

  method GroupShards(shards: seq<Shard>, gid: nat, aggs: seq<nat>, preds: seq<Pred>, fadd: FloatAdd) returns (acc: Acc)
    requires forall i, j :: 0 <= i < |shards| && 0 <= j < |shards[i].wins| ==> WindowOK(shards[i].wins[j])
    ensures acc ==
      Fold(GStep(fadd, gid, aggs), Some(map[]), ShardsMatch(ShownShards(shards, GroupIds(gid, aggs, preds)), preds))
  {
    hide WindowOK, WindowsMatch, Fold, GStep, GroupIds;
    ghost var hs := ShownShards(shards, GroupIds(gid, aggs, preds));
    acc := Some(map[]);
    FoldOne(GStep(fadd, gid, aggs), acc, []);
    for i := 0 to |shards|
      invariant acc.Some? && acc == Fold(GStep(fadd, gid, aggs), Some(map[]), ShardsMatch(hs[..i], preds)) &&
        AccOK(acc, |aggs|)
    {
      assert hs[..i + 1][..i] == hs[..i];
      FoldConcat(GStep(fadd, gid, aggs), Some(map[]), ShardsMatch(hs[..i], preds),
        WindowsMatch(hs[i].wins, hs[i].snapshot, preds));
      acc := GroupWindows(shards[i].wins, shards[i].snapshot, gid, aggs, preds, fadd, acc.value);
      if acc.None? {
        ShardsRest(fadd, gid, aggs, hs, i + 1, preds);
        return;
      }
    }
    assert hs[..|shards|] == hs;
  }

  lemma {:induction false} ShardsRest(fadd: FloatAdd, gid: nat, aggs: seq<nat>, shards: seq<Shard>, i: nat,
                                      preds: seq<Pred>)
    requires i <= |shards| && Fold(GStep(fadd, gid, aggs), Some(map[]), ShardsMatch(shards[..i], preds)).None?
    ensures Fold(GStep(fadd, gid, aggs), Some(map[]), ShardsMatch(shards, preds)).None?
    decreases |shards|
  {
    hide GStep, WindowsMatch, Fold;
    if i == |shards| {
      assert shards[..i] == shards;
    } else {
      var n := |shards| - 1;
      assert shards[..n][..i] == shards[..i];
      ShardsRest(fadd, gid, aggs, shards[..n], i, preds);
      var last := WindowsMatch(shards[n].wins, shards[n].snapshot, preds);
      FoldConcat(GStep(fadd, gid, aggs), Some(map[]), ShardsMatch(shards[..n], preds), last);
      DeclinedStays(fadd, gid, aggs, last);
    }
  }

  // The groups' counts sum to what the count scan returns for the same predicates.
  lemma CountsAgree(shards: seq<Shard>, gid: nat, aggs: seq<nat>, preds: seq<Pred>, fadd: FloatAdd)
    requires Fold(GStep(fadd, gid, aggs), Some(map[]), ShardsMatch(shards, preds)).Some?
    ensures Total(Fold(GStep(fadd, gid, aggs), Some(map[]), ShardsMatch(shards, preds)).value) ==
      RowCount(shards, preds)
  {
    hide GStep, Fold, ShardsMatch, RowCount, Total;
    CountsSum(fadd, gid, aggs, ShardsMatch(shards, preds));
    ShardsMatchCount(shards, preds);
  }
}
