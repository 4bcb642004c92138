/** From sampled ads to group schemas: candidates, their ranking, the widening, and the recount of each group. */
module Derive {
  import opened Wire
  import opened Groups
  import opened MergePolicy
  import opened GroupSchema

  // ---------------------------------------------------------------- ranking the candidates

  // The candidates best first, each with its own slice.
  method RankCands(cands: seq<Cand>, ghost samples: seq<seq<Entry>>) returns (r: seq<Cand>)
    requires CandsOK(samples, cands)
    ensures CandsOK(samples, r) && AsWide(r) == GroupSchema.Rank(AsWide(cands)) && RankedDown(AsWide(r))
    ensures forall c :: c in r <==> c in cands
  {
    hide CandOK, RankedDown, GroupSchema.Rank;
    var wide := AsWide(cands);
    var ranked := GroupSchema.Rank(wide);
    RankRanks(wide);
    assert WideIds(wide) == IdsOf(cands);
    r := [];
    for i := 0 to |ranked|
      invariant |r| == i && (forall j :: 0 <= j < i ==> r[j] in cands && Wide(r[j].ids, r[j].pat) == ranked[j])
    {
      assert ranked[i] in wide;
      var c := FindCand(cands, ranked[i]);
      r := r + [c];
    }
    assert AsWide(r) == ranked;
    SameCands(samples, cands, r, ranked);
  }

  method FindCand(cands: seq<Cand>, w: Wide) returns (c: Cand)
    requires w in AsWide(cands)
    ensures c in cands && Wide(c.ids, c.pat) == w
  {
    ghost var j :| 0 <= j < |cands| && AsWide(cands)[j] == w;
    for i := 0 to |cands|
      invariant forall x :: 0 <= x < i ==> Wide(cands[x].ids, cands[x].pat) != w
    {
      if cands[i].ids == w.ids && cands[i].pat == w.pat { return cands[i]; }
    }
    assert false;
  }

  lemma SameCands(samples: seq<seq<Entry>>, cands: seq<Cand>, r: seq<Cand>, ranked: seq<Wide>)
    requires CandsOK(samples, cands) && AsWide(r) == ranked && Apart(WideIds(ranked))
    requires (forall j :: 0 <= j < |r| ==> r[j] in cands)
    requires forall x :: x in ranked <==> x in AsWide(cands)
    ensures CandsOK(samples, r) && forall c :: c in r <==> c in cands
  {
    hide Pattern;
    assert IdsOf(r) == WideIds(ranked);
    forall c | c in cands ensures c in r {
      var w := Wide(c.ids, c.pat);
      var i :| 0 <= i < |cands| && cands[i] == c;
      assert AsWide(cands)[i] == w;
      assert w in AsWide(cands);
      var j :| 0 <= j < |ranked| && ranked[j] == w;
      var k :| 0 <= k < |cands| && cands[k] == r[j];
      OneOwner(samples, cands, i, k);
    }
  }

  // Two candidates with the same ids are one.
  lemma OneOwner(samples: seq<seq<Entry>>, cands: seq<Cand>, i: nat, k: nat)
    requires CandsOK(samples, cands) && i < |cands| && k < |cands| && cands[i].ids == cands[k].ids
    ensures i == k
  {
    hide Pattern;
    assert CandOK(samples, cands[i]);
    var own := IdsOf(cands);
    assert cands[i].ids[0] in own[i] && cands[i].ids[0] in own[k];
  }

  // ---------------------------------------------------------------- the recount

  // How many ads hold every member, some but not all, and none.
  datatype Derived = Derived(ids: seq<nat>, whole: nat, partial: nat, none: nat)

  lemma HaveStates(ad: seq<Entry>, ids: seq<nat>)
    requires DistinctIds(ad) && Increasing(ids) && ids != []
    ensures Have(ad, IdSet(ids)) == |ids| <==> forall id :: id in ids ==> HasAttr(ad, id)
    ensures Have(ad, IdSet(ids)) == 0 <==> forall id :: id in ids ==> !HasAttr(ad, id)
  {
    hide HasAttr, Have;
    var members := IdSet(ids);
    var got := Present(ad, members);
    HaveIsPresent(ad, members);
    IdSetSize(ids);
    if |got| == |ids| {
      SubsetFull(got, members);
      forall id | id in ids ensures HasAttr(ad, id) { assert id in got; }
    }
    if forall id :: id in ids ==> HasAttr(ad, id) { assert got == members; }
    if |got| == 0 {
      forall id | id in ids ensures !HasAttr(ad, id) { assert id !in got; }
    }
    if forall id :: id in ids ==> !HasAttr(ad, id) { assert got == {}; }
  }

  method CountMembers(ad: seq<Entry>, members: set<nat>) returns (n: nat)
    ensures n == Have(ad, members)
  {
    n := 0;
    for i := 0 to |ad|
      invariant n == Have(ad[..i], members)
    {
      assert ad[..i + 1][..i] == ad[..i];
      if ad[i].id in members { n := n + 1; }
    }
    assert ad[..|ad|] == ad;
  }

  // The ads before n holding all of the ids, and those holding some.
  ghost function AllTo(samples: seq<seq<Entry>>, ids: seq<nat>, n: nat): set<nat>
  {
    set i | i in HoldAll(samples, ids) && i < n
  }

  ghost function SomeTo(samples: seq<seq<Entry>>, ids: seq<nat>, n: nat): set<nat>
  {
    set i | i in HoldSome(samples, ids) && i < n
  }

  lemma TallyStep(samples: seq<seq<Entry>>, ids: seq<nat>, n: nat)
    requires n < |samples| && DistinctIds(samples[n]) && Increasing(ids) && ids != []
    ensures var have := Have(samples[n], IdSet(ids));
      && |AllTo(samples, ids, n + 1)| == |AllTo(samples, ids, n)| + (if have == |ids| then 1 else 0)
      && |SomeTo(samples, ids, n + 1)| == |SomeTo(samples, ids, n)| + (if have == 0 then 0 else 1)
  {
    hide HasAttr, Have;
    HaveStates(samples[n], ids);
    assert AllTo(samples, ids, n + 1) == if n in HoldAll(samples, ids) then AllTo(samples, ids, n) + {n}
      else AllTo(samples, ids, n);
    assert SomeTo(samples, ids, n + 1) == if n in HoldSome(samples, ids) then SomeTo(samples, ids, n) + {n}
      else SomeTo(samples, ids, n);
  }

  // The three counts are the holders of all members, the partial holders, and the rest.
  method Tally(samples: seq<seq<Entry>>, ids: seq<nat>) returns (d: Derived)
    requires ids != [] && Increasing(ids) && forall i :: 0 <= i < |samples| ==> DistinctIds(samples[i])
    ensures d.ids == ids && d.whole == |HoldAll(samples, ids)| && d.partial == Partial(samples, ids) &&
      d.whole + d.partial + d.none == |samples|
  {
    hide Have, HoldAll, HoldSome;
    var whole, partial, none := 0, 0, 0;
    for n := 0 to |samples|
      invariant whole == |AllTo(samples, ids, n)| && whole + partial == |SomeTo(samples, ids, n)| &&
        whole + partial + none == n
    {
      var have := CountMembers(samples[n], IdSet(ids));
      TallyStep(samples, ids, n);
      if have == 0 { none := none + 1; } else if have == |ids| { whole := whole + 1; } else { partial := partial + 1; }
    }
    d := Derived(ids, whole, partial, none);
    TallyMeans(samples, ids);
  }

  lemma TallyMeans(samples: seq<seq<Entry>>, ids: seq<nat>)
    requires ids != []
    ensures AllTo(samples, ids, |samples|) == HoldAll(samples, ids) &&
      SomeTo(samples, ids, |samples|) == HoldSome(samples, ids)
    ensures Partial(samples, ids) == |HoldSome(samples, ids)| - |HoldAll(samples, ids)|
  {
    hide HasAttr;
    assert AllTo(samples, ids, |samples|) == HoldAll(samples, ids);
    assert SomeTo(samples, ids, |samples|) == HoldSome(samples, ids);
    assert ids[0] in ids;
    assert HoldAll(samples, ids) <= HoldSome(samples, ids);
  }

  // ---------------------------------------------------------------- the whole derivation

  function DerivedIds(out: seq<Derived>): (r: seq<seq<nat>>)
    ensures |r| == |out| && forall g :: 0 <= g < |out| ==> r[g] == out[g].ids
  {
    seq(|out|, g requires 0 <= g < |out| => out[g].ids)
  }

  ghost predicate AllUndisturbed(cands: seq<Cand>, absorbed: seq<seq<nat>>)
    requires |absorbed| == |cands|
  {
    forall j :: 0 <= j < |cands| ==> Undisturbed(cands[j].ids, cands[j].cap, absorbed[j])
  }

  // Group schemas from a sample: at most k groups of attributes that occur and the base schema lacks, each with
  // its true counts; disjoint when a widening is adopted, and otherwise when no candidate's slice was
  // disturbed, which with room for every candidate and every member storable is the only way.
  method DeriveGroupSchemas(samples: seq<seq<Entry>>, base: set<nat>, k: nat, minJaccard: real, maxPartial: real,
                            storable: nat -> bool, growCap: nat -> nat)
    returns (out: seq<Derived>, adopted: bool, ghost cands: seq<Cand>, ghost absorbed: seq<seq<nat>>)
    requires (forall i :: 0 <= i < |samples| ==> DistinctIds(samples[i]))
    requires forall n: nat {:trigger growCap(n)} :: growCap(n) >= n
    ensures samples == [] || k == 0 ==> out == []
    ensures |out| <= k && |absorbed| == |cands|
    ensures samples != [] && k > 0 ==> CandsOK(samples, cands) && RankedDown(AsWide(cands)) && forall id ::
      Somewhere(IdsOf(cands), id) <==> id !in base && Pattern(samples, id) != {}
    ensures samples != [] && k > 0 ==>
      var lim := Limits(|samples|, minJaccard,
        maxPartial); var wide := GroupSchema.Rank(WidenedTo(cands, lim, |cands|).out);
      && absorbed == (if minJaccard > 0.0 then WidenedTo(cands, lim, |cands|).absorbed else seq(|cands|, j => []))
      && (adopted <==> minJaccard > 0.0 && wide != [] && TopCells(wide, k) > TopCells(AsWide(cands), k))
    ensures forall g, id :: 0 <= g < |out| && id in out[g].ids ==> id !in base && Pattern(samples, id) != {}
    ensures forall g ::
      0 <= g < |out| ==>
        out[g].ids != [] && out[g].whole == |HoldAll(samples, out[g].ids)| &&
          out[g].partial == Partial(samples, out[g].ids)
    ensures adopted || AllUndisturbed(cands, absorbed) ==> Apart(DerivedIds(out))
    ensures adopted ==> forall g ::
      0 <= g < |out| ==> out[g].partial == 0 || out[g].partial as real <= maxPartial * |samples| as real
    ensures !adopted && AllUndisturbed(cands, absorbed) ==> forall g :: 0 <= g < |out| ==> out[g].partial == 0
    ensures !adopted && |cands| <= k && (forall id :: id !in base && Pattern(samples, id) != {} ==> storable(id)) ==>
      (Apart(DerivedIds(out)) <==> AllUndisturbed(cands, absorbed))
  {
    hide Pattern, HoldAll, Partial, Apart, CandsOK, Undisturbed, DistinctIds, WidenedTo, GroupSchema.Rank, TopCells,
      KeptLists, After, RankedDown, Increasing, Somewhere;
    out, adopted, cands, absorbed := [], false, [], [];
    if |samples| == 0 || k == 0 {
      ApartNone();
      return;
    }
    var exact := ExactCandidates(samples, base, growCap);
    var ranked := RankCands(exact, samples);
    cands := ranked;
    SameSomewhere(exact, ranked);
    var groups, shifted;
    groups, adopted, shifted := DeriveGroups(ranked, k, Limits(|samples|, minJaccard, maxPartial), storable, samples);
    absorbed := shifted;
    out := Recount(samples, groups);
  }

  method Recount(samples: seq<seq<Entry>>, groups: seq<seq<nat>>) returns (out: seq<Derived>)
    requires forall i :: 0 <= i < |samples| ==> DistinctIds(samples[i])
    requires forall g :: 0 <= g < |groups| ==> groups[g] != [] && Increasing(groups[g])
    ensures DerivedIds(out) == groups
    ensures forall g ::
      0 <= g < |out| ==>
        out[g].ids == groups[g] && out[g].whole == |HoldAll(samples, groups[g])| &&
          out[g].partial == Partial(samples, groups[g])
  {
    hide HoldAll, Partial, DistinctIds, Increasing;
    out := [];
    for g := 0 to |groups|
      invariant |out| == g
      invariant forall h ::
        0 <= h < g ==>
          out[h].ids == groups[h] && out[h].whole == |HoldAll(samples, groups[h])| &&
            out[h].partial == Partial(samples, groups[h])
    {
      var d := Tally(samples, groups[g]);
      out := out + [d];
    }
    assert DerivedIds(out) == groups;
  }

  lemma ApartNone()
    ensures Apart(DerivedIds([]))
  {
  }

  lemma SameSomewhere(a: seq<Cand>, b: seq<Cand>)
    requires forall c :: c in a <==> c in b
    ensures forall id :: Somewhere(IdsOf(a), id) <==> Somewhere(IdsOf(b), id)
  {
    forall id ensures Somewhere(IdsOf(a), id) <==> Somewhere(IdsOf(b), id) {
      if i :| 0 <= i < |a| && id in IdsOf(a)[i] {
        assert a[i] in a;
        var j :| 0 <= j < |b| && b[j] == a[i];
        assert id in IdsOf(b)[j];
      }
      if j :| 0 <= j < |b| && id in IdsOf(b)[j] {
        assert b[j] in b;
        var i :| 0 <= i < |a| && a[i] == b[j];
        assert id in IdsOf(a)[i];
      }
    }
  }

  // ---------------------------------------------------------------- a sample it goes wrong on

  function SpoiledSample(x: Node): (samples: seq<seq<Entry>>)
  {
    [[Entry(1, x), Entry(5, x), Entry(7, x), Entry(9, x)], [Entry(5, x), Entry(7, x), Entry(9, x)]]
  }

  function SpoiledCands(): (cands: seq<Cand>) { [Cand([5, 7, 9], 4, {0, 1}), Cand([1], 1, {0})] }

  lemma SpoiledPattern(x: Node, id: nat)
    ensures Pattern(SpoiledSample(x), id) == if id == 5 || id == 7 || id == 9 then {0, 1} else if id == 1 then {0}
      else {}
  {
    var s := SpoiledSample(x);
    assert HasAttr(s[0], id) <==> id == 1 || id == 5 || id == 7 || id == 9 by {
      assert s[0][0].id == 1 && s[0][1].id == 5 && s[0][2].id == 7 && s[0][3].id == 9;
    }
    assert HasAttr(s[1], id) <==> id == 5 || id == 7 || id == 9 by {
      assert s[1][0].id == 5 && s[1][1].id == 7 && s[1][2].id == 9;
    }
  }

  lemma SpoiledCandsOK(x: Node)
    ensures CandsOK(SpoiledSample(x), SpoiledCands())
  {
    hide Pattern;
    var c := SpoiledCands();
    forall i | 0 <= i < |c| ensures CandOK(SpoiledSample(x), c[i]) {
      forall id | id in c[i].ids ensures Pattern(SpoiledSample(x), id) == c[i].pat { SpoiledPattern(x, id); }
    }
  }

  // The first candidate absorbs the second into its own slice.
  lemma SpoiledWidening()
    ensures var w := WidenedTo(SpoiledCands(), Limits(2, 0.5, 0.5), 2);
      w.absorbed == [[1], []] && w.out == [Wide([1, 5, 7, 9], {0})]
  {
    hide SortIds;
    var c, lim := SpoiledCands(), Limits(2, 0.5, 0.5);
    var start := WidenedTo(c, lim, 0);
    assert start.used == [false, false] && start.absorbed == [[], []];
    var used := start.used[0 := true];
    assert used == [true, false];
    SpoiledGrowth(used);
    var one := WidenedTo(c, lim, 1);
    assert one == Widened(c, lim, start, 0);
    SpoiledCandidate();
    assert one.used[1] by { assert Joins(c, 0, used, lim, 1); }
    assert start.out + [Wide([1, 5, 7, 9], {0})] == [Wide([1, 5, 7, 9], {0})];
    assert start.absorbed[0 := [1]] == [[1], []];
    assert WidenedTo(c, lim, 2) == Widened(c, lim, one, 1);
  }

  lemma SpoiledGrowth(used: seq<bool>)
    requires used == [true, false]
    ensures var g := GrownTo(SpoiledCands(), 0, used, Limits(2, 0.5, 0.5), 2); g.ids == [1] && g.inter == {0}
    ensures TakesIn(SpoiledCands()[0], GrownTo(SpoiledCands(), 0, used, Limits(2, 0.5, 0.5), 1), SpoiledCands()[1],
      Limits(2, 0.5, 0.5))
  {
    var all: set<nat>, one: set<nat> := {0, 1}, {0};
    assert all + one == all && all * one == one && |all| == 2 && |one| == 1;
    assert GrownTo(SpoiledCands(), 0, used, Limits(2, 0.5, 0.5), 1) == Growth([], all, all);
    assert Jaccard(all, one) == 0.5;
    assert [] + [1] == [1];
  }

  // Two sampled ads, one with 1, 5, 7 and 9, one with 5, 7 and 9: the widening absorbs 1 in place, covers four
  // cells against seven and is not adopted, and the groups derived share an attribute, one of them held in part.
  method SpoiledRun(x: Node) returns (groups: seq<seq<nat>>)
    ensures groups == [[1, 5, 7], [1]] && !Apart(groups) && Partial(SpoiledSample(x), groups[0]) == 1
  {
    hide CandsOK, Partial, WidenedTo, AfterAppend, Increasing, Undisturbed, GroupSchema.Rank, KeptLists;
    SpoiledCandsOK(x);
    var adopted, absorbed;
    groups, adopted,
      absorbed := DeriveGroups(SpoiledCands(), 2, Limits(2, 0.5, 0.5), (id: nat) => true, SpoiledSample(x));
    SpoiledWidening();
    SpoiledCells();
    assert !adopted && absorbed == [[1], []];
    SpoiledFallback();
    assert groups == [[1, 5, 7], [1]];
    assert !Apart(groups) by { assert 1 in groups[0] && 1 in groups[1]; }
    SpoiledPartial(x);
  }

  lemma SpoiledCells()
    ensures GroupSchema.Rank([Wide([1, 5, 7, 9], {0})]) == [Wide([1, 5, 7, 9], {0})]
    ensures TopCells([Wide([1, 5, 7, 9], {0})], 2) == 4 && TopCells(AsWide(SpoiledCands()), 2) == 7
  {
    var w := [Wide([1, 5, 7, 9], {0})];
    assert w[..0] == [] && w[1..] == [];
    assert GroupSchema.Rank(w) == RankInsert([], w[0]);
    var c := AsWide(SpoiledCands());
    assert c == [Wide([5, 7, 9], {0, 1}), Wide([1], {0})];
    assert c[1..] == [Wide([1], {0})] && c[1..][1..] == [];
    assert Cells(c[0]) == 6 && Cells(c[1]) == 1 && Cells(w[0]) == 4;
  }

  lemma SpoiledFallback()
    ensures KeptLists(UpTo(After(SpoiledCands(), [[1], []]), 2), (id: nat) => true) == [[1, 5, 7], [1]]
  {
    hide AfterAppend, KeptLists;
    SpoiledCandidate();
    NothingAbsorbed([1], 1);
    var lists := After(SpoiledCands(), [[1], []]);
    assert lists == [[1, 5, 7], [1]];
    KeptListsAll(lists, (id: nat) => true);
  }

  lemma SpoiledPartial(x: Node)
    ensures Partial(SpoiledSample(x), [1, 5, 7]) == 1
  {
    hide HasAttr;
    var s, ids := SpoiledSample(x), [1, 5, 7];
    SpoiledPattern(x, 1);
    SpoiledPattern(x, 5);
    SpoiledPattern(x, 7);
    assert 0 in Pattern(s, 1) && 1 !in Pattern(s, 1) && 0 in Pattern(s, 5) && 1 in Pattern(s, 5) &&
      0 in Pattern(s, 7) && 1 in Pattern(s, 7);
    assert 1 in ids && 5 in ids;
    assert HoldSome(s, ids) == {0, 1} && HoldAll(s, ids) == {0};
    assert HoldSome(s, ids) - HoldAll(s, ids) == {1};
  }
}
