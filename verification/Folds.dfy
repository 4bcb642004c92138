/** Folding a step over the records a scan matches: what every aggregate scan computes. */
module Folds {
  import opened Wire
  import opened Values
  import opened Preds
  import opened Scan

  // The ads of the records a snapshot sees and every predicate accepts, in scan order.
  function MatchAds(rs: seq<Rec>, s0: nat, preds: seq<Pred>): (ads: seq<seq<Entry>>)
  {
    if rs == [] then []
    else if Matches(rs[|rs| - 1], s0, preds) then MatchAds(rs[..|rs| - 1], s0, preds) + [rs[|rs| - 1].ad]
    else MatchAds(rs[..|rs| - 1], s0, preds)
  }

  function WindowsMatch(wins: seq<Window>, s0: nat, preds: seq<Pred>): (ads: seq<seq<Entry>>)
  {
    if wins == [] then []
      else WindowsMatch(wins[..|wins| - 1], s0, preds) + MatchAds(Records(wins[|wins| - 1]), s0, preds)
  }

  function ShardsMatch(shards: seq<Shard>, preds: seq<Pred>): (ads: seq<seq<Entry>>)
  {
    if shards == [] then []
    else
      ShardsMatch(shards[..|shards| - 1], preds) +
        WindowsMatch(shards[|shards| - 1].wins, shards[|shards| - 1].snapshot, preds)
  }

  function Fold<A>(step: (A, seq<Entry>) -> A, acc: A, ads: seq<seq<Entry>>): (r: A)
  {
    if ads == [] then acc else step(Fold(step, acc, ads[..|ads| - 1]), ads[|ads| - 1])
  }

  lemma {:induction false} FoldConcat<A>(step: (A, seq<Entry>) -> A, acc: A, a: seq<seq<Entry>>, b: seq<seq<Entry>>)
    ensures Fold(step, acc, a + b) == Fold(step, Fold(step, acc, a), b)
    decreases |b|
  {
    if b == [] {
      assert a + b == a;
    } else {
      var n := |b| - 1;
      FoldConcat(step, acc, a, b[..n]);
      assert (a + b)[..|a + b| - 1] == a + b[..n];
    }
  }

  lemma FoldOne<A>(step: (A, seq<Entry>) -> A, acc: A, ad: seq<Entry>)
    ensures Fold(step, acc, [ad]) == step(acc, ad) && Fold(step, acc, []) == acc
  {
    assert [ad][..0] == [];
  }

  lemma {:induction false} MatchConcat(a: seq<Rec>, b: seq<Rec>, s0: nat, preds: seq<Pred>)
    ensures MatchAds(a + b, s0, preds) == MatchAds(a, s0, preds) + MatchAds(b, s0, preds)
    decreases |b|
  {
    hide Matches;
    if b == [] {
      assert a + b == a;
    } else {
      var n := |b| - 1;
      MatchConcat(a, b[..n], s0, preds);
      assert (a + b)[..|a + b| - 1] == a + b[..n];
    }
  }

  lemma MatchOne(r: Rec, s0: nat, preds: seq<Pred>)
    ensures MatchAds([r], s0, preds) == (if Matches(r, s0, preds) then [r.ad] else [])
    ensures MatchAds([], s0, preds) == []
  {
    hide Matches;
    assert [r][..0] == [];
  }

  lemma {:induction false} MatchNone(rs: seq<Rec>, s0: nat, preds: seq<Pred>)
    requires forall i :: 0 <= i < |rs| ==> !Matches(rs[i], s0, preds)
    ensures MatchAds(rs, s0, preds) == []
  {
    hide Matches;
    if rs != [] { MatchNone(rs[..|rs| - 1], s0, preds); }
  }

  // The matching ads are as many as the count scan says.
  lemma {:induction false} MatchCount(rs: seq<Rec>, s0: nat, preds: seq<Pred>)
    ensures |MatchAds(rs, s0, preds)| == CountMatching(rs, s0, preds)
    decreases |rs|
  {
    hide Matches;
    if rs != [] { MatchCount(rs[..|rs| - 1], s0, preds); }
  }

  lemma {:induction false} WindowsMatchCount(wins: seq<Window>, s0: nat, preds: seq<Pred>)
    ensures |WindowsMatch(wins, s0, preds)| == WindowsCount(wins, s0, preds)
    decreases |wins|
  {
    hide MatchAds, CountMatching, Records;
    if wins != [] {
      WindowsMatchCount(wins[..|wins| - 1], s0, preds);
      MatchCount(Records(wins[|wins| - 1]), s0, preds);
    }
  }

  lemma {:induction false} ShardsMatchCount(shards: seq<Shard>, preds: seq<Pred>)
    ensures |ShardsMatch(shards, preds)| == RowCount(shards, preds)
    decreases |shards|
  {
    hide WindowsMatch, WindowsCount;
    if shards != [] {
      ShardsMatchCount(shards[..|shards| - 1], preds);
      WindowsMatchCount(shards[|shards| - 1].wins, shards[|shards| - 1].snapshot, preds);
    }
  }

  // The row walk takes one record at a time.
  lemma WalkMatch(w: Window, off: nat, s0: nat, preds: seq<Pred>)
    ensures MatchAds(RecsAt(w.arena, Walk(w, off)), s0, preds) ==
      if off < w.used && off in w.arena && w.arena[off].len > 0 then
        (if !w.arena[off].marker && Matches(w.arena[off], s0, preds) then [w.arena[off].ad] else [])
        + MatchAds(RecsAt(w.arena, Walk(w, off + w.arena[off].len)), s0, preds)
      else []
  {
    hide Matches, MatchAds, Walk, RecsAt;
    if off < w.used && off in w.arena && w.arena[off].len > 0 {
      WalkStep(w, off);
      var r := w.arena[off];
      var rest := RecsAt(w.arena, Walk(w, off + r.len));
      if r.marker {
        assert [] + rest == rest;
        assert [] + MatchAds(rest, s0, preds) == MatchAds(rest, s0, preds);
      } else {
        MatchConcat([r], rest, s0, preds);
        MatchOne(r, s0, preds);
      }
    } else {
      WalkEnd(w, off);
      MatchNone([], s0, preds);
    }
  }

  lemma WalkEnd(w: Window, off: nat)
    requires !(off < w.used && off in w.arena && w.arena[off].len > 0)
    ensures RecsAt(w.arena, Walk(w, off)) == []
  {
  }

  // ---------------------------------------------------------------- records shown as they are

  // Ads alike in these attributes.
  ghost predicate SameVals(a: seq<seq<Entry>>, b: seq<seq<Entry>>, ids: seq<nat>)
  {
    |a| == |b| && forall k, j :: 0 <= k < |a| && 0 <= j < |ids| ==> AttrVal(a[k], ids[j]) == AttrVal(b[k], ids[j])
  }

  lemma SameConcat(a: seq<seq<Entry>>, b: seq<seq<Entry>>, c: seq<seq<Entry>>, d: seq<seq<Entry>>, ids: seq<nat>)
    requires SameVals(a, b, ids) && SameVals(c, d, ids)
    ensures SameVals(a + c, b + d, ids)
  {
    hide AttrVal;
  }

  // Every one of these attributes, the predicates' among them, is read as it is.
  ghost predicate IdsRead(w: Window, ids: seq<nat>) { forall j :: 0 <= j < |ids| ==> WindowReads(w, ids[j]) }

  predicate Covered(preds: seq<Pred>, ids: seq<nat>) { forall j :: 0 <= j < |preds| ==> preds[j].id in ids }

  lemma {:induction false} MatchSame(cs: ColSeg, rs: seq<Rec>, all: seq<Rec>, s0: nat, preds: seq<Pred>, ids: seq<nat>)
    requires SegOK(cs) && RecsOK(cs, all) && rs <= all && Covered(preds, ids)
    requires forall j :: 0 <= j < |ids| ==> FieldOfId(cs, all, ids[j])
    ensures SameVals(MatchAds(ShownRecs(cs, rs), s0, preds), MatchAds(rs, s0, preds), ids)
    decreases |rs|
  {
    hide SegOK, RecsOK, AttrVal, FieldOfId, ShownRec, ShownRecs, Matches, MatchAds, SameVals;
    if rs == [] {
      NoneShown(cs, s0, preds);
      SameNone(ids);
    } else {
      var n, hs := |rs| - 1, ShownRecs(cs, rs);
      ShownSlice(cs, rs, 0, n);
      assert rs[0..n] == rs[..n] && hs[0..n] == hs[..n];
      MatchSame(cs, rs[..n], all, s0, preds, ids);
      assert rs[n] == all[n] && hs == hs[..n] + [hs[n]] && rs == rs[..n] + [rs[n]];
      forall j | 0 <= j < |preds| ensures FieldOfId(cs, all, preds[j].id) { assert preds[j].id in ids; }
      MatchAlike(cs, all, n, s0, preds);
      OneSame(cs, all, n, s0, preds, ids);
      MatchConcat(hs[..n], [hs[n]], s0, preds);
      MatchConcat(rs[..n], [rs[n]], s0, preds);
      SameConcat(MatchAds(hs[..n], s0, preds), MatchAds(rs[..n], s0, preds), MatchAds([hs[n]], s0, preds),
        MatchAds([rs[n]], s0, preds), ids);
    }
  }

  lemma NoneShown(cs: ColSeg, s0: nat, preds: seq<Pred>)
    ensures MatchAds(ShownRecs(cs, []), s0, preds) == [] && MatchAds([], s0, preds) == []
  {
  }

  lemma OneSame(cs: ColSeg, all: seq<Rec>, n: nat, s0: nat, preds: seq<Pred>, ids: seq<nat>)
    requires SegOK(cs) && RecsOK(cs, all) && n < |all| && (forall j :: 0 <= j < |ids| ==> FieldOfId(cs, all, ids[j]))
    requires Matches(ShownRec(cs, all[n]), s0, preds) == Matches(all[n], s0, preds)
    ensures SameVals(MatchAds([ShownRec(cs, all[n])], s0, preds), MatchAds([all[n]], s0, preds), ids)
  {
    hide SegOK, RecsOK, AttrVal, FieldOfId, ShownRec, Matches, MatchAds;
    MatchOne(ShownRec(cs, all[n]), s0, preds);
    MatchOne(all[n], s0, preds);
    forall j | 0 <= j < |ids|
      ensures AttrVal(ShownRec(cs, all[n]).ad, ids[j]) == AttrVal(all[n].ad, ids[j])
    {
      ShownById(cs, all, ids[j], n);
    }
  }

  lemma WindowSame(w: Window, s0: nat, preds: seq<Pred>, ids: seq<nat>)
    requires WindowOK(w) && IdsRead(w, ids) && Covered(preds, ids)
    ensures SameVals(MatchAds(Records(ShownWindow(w, ids)), s0, preds), MatchAds(Records(w), s0, preds), ids)
  {
    hide Records, MatchAds, ShownWindow, FieldReads, SegOK, RecsOK, ShownRecs, BlocksFrom, AttrVal;
    ShownRecords(w, ids);
    if Shows(w, ids) {
      var cs, rs := w.col.value, Records(w);
      WindowRecsOK(w);
      forall j | 0 <= j < |ids|
        ensures FieldOfId(cs, rs, ids[j])
      {
        assert NumericId(cs.schema, ids[j]) && WindowReads(w, ids[j]);
      }
      MatchSame(cs, rs, rs, s0, preds, ids);
    }
  }

  lemma {:induction false} WindowsSame(wins: seq<Window>, s0: nat, preds: seq<Pred>, ids: seq<nat>)
    requires Covered(preds, ids) && forall i :: 0 <= i < |wins| ==> WindowOK(wins[i]) && IdsRead(wins[i], ids)
    ensures SameVals(WindowsMatch(ShownWins(wins, ids), s0, preds), WindowsMatch(wins, s0, preds), ids)
    decreases |wins|
  {
    hide WindowOK, IdsRead, Records, MatchAds, ShownWindow, SameVals, Covered;
    if wins == [] {
      SameNone(ids);
    } else {
      var n, hs := |wins| - 1, ShownWins(wins, ids);
      WindowsSame(wins[..n], s0, preds, ids);
      assert hs[..n] == ShownWins(wins[..n], ids);
      WindowSame(wins[n], s0, preds, ids);
      SameConcat(WindowsMatch(hs[..n], s0, preds), WindowsMatch(wins[..n], s0, preds),
        MatchAds(Records(hs[n]), s0, preds), MatchAds(Records(wins[n]), s0, preds), ids);
    }
  }

  lemma SameNone(ids: seq<nat>)
    ensures SameVals([], [], ids)
  {
  }

  // Where every attribute involved is read as it is, the records matched as shown are the records matched.
  lemma {:induction false} ShardsSame(shards: seq<Shard>, preds: seq<Pred>, ids: seq<nat>)
    requires Covered(preds, ids)
    requires forall i, j ::
      0 <= i < |shards| && 0 <= j < |shards[i].wins| ==> WindowOK(shards[i].wins[j]) && IdsRead(shards[i].wins[j], ids)
    ensures SameVals(ShardsMatch(ShownShards(shards, ids), preds), ShardsMatch(shards, preds), ids)
    decreases |shards|
  {
    hide WindowOK, IdsRead, WindowsMatch, SameVals, Covered;
    if shards == [] {
      SameNone(ids);
    } else {
      var n, hs := |shards| - 1, ShownShards(shards, ids);
      ShardsSame(shards[..n], preds, ids);
      assert hs[..n] == ShownShards(shards[..n], ids);
      WindowsSame(shards[n].wins, shards[n].snapshot, preds, ids);
      SameConcat(ShardsMatch(hs[..n], preds), ShardsMatch(shards[..n], preds),
                 WindowsMatch(hs[n].wins, hs[n].snapshot, preds),
                   WindowsMatch(shards[n].wins, shards[n].snapshot, preds), ids);
    }
  }

  // A step that looks at these attributes only cannot tell them apart.
  ghost predicate Reads<A(!new)>(step: (A, seq<Entry>) -> A, ids: seq<nat>)
  {
    forall acc, x, y ::
      (forall j :: 0 <= j < |ids| ==> AttrVal(x, ids[j]) == AttrVal(y, ids[j])) ==> step(acc, x) == step(acc, y)
  }

  lemma {:induction false} FoldSame<A(!new)>(step: (A, seq<Entry>) -> A, acc: A, a: seq<seq<Entry>>, b: seq<seq<Entry>>,
                                      ids: seq<nat>)
    requires Reads(step, ids) && SameVals(a, b, ids)
    ensures Fold(step, acc, a) == Fold(step, acc, b)
    decreases |a|
  {
    hide AttrVal;
    if a != [] { FoldSame(step, acc, a[..|a| - 1], b[..|b| - 1], ids); }
  }
}
