/** A columnar-native segment in the next process: the tables its reads go through there, with the segment's dictionary
    and without one, and when splicing and projecting are right under them. */
module NativeReopen {
  import opened Bytes
  import opened Wire
  import opened Row
  import opened ColBlock
  import opened Values
  import opened Groups
  import opened GroupReads
  import opened Native
  import opened Reload
  import opened Scan
  import opened DictBlock
  import opened Restore
  import opened Reopened
  import opened GroupReopen
  import opened Splice
  import opened Project
  import opened ProjectReads

  // ---------------------------------------------------------------- the tables

  // A load whose names, from the payload or the dictionary, are those of every attribute with a number.
  ghost predicate Loaded(o: Opened, cs: ColSeg, dss: seq<StrDicts>, ids: seq<nat>, nameOf: nat -> seq<byte>,
                         intern: seq<byte> -> nat, known: nat -> bool)
  {
    && OpenedAs(o, cs, dss, ids, nameOf, intern) && SegOK(cs) && KnowsAll(known, cs.schema, cs.named)
    && Renumbers(Renumber(nameOf, intern), known) && Listed(ids, cs.named, nameOf)
    && forall id: nat {:trigger cs.named(id)} :: cs.named(id) ==> id in ids
  }

  // With a dictionary, its names lead to the numbers in base and group blocks alike, which are the record's keys.
  ghost function DictKeys(o: Opened, cs: ColSeg, re: nat -> nat): (ks: Keys)
  {
    Keys(KeyAfter(cs.key, cs.named, re), NamedAfter(cs.named, re), cur => Translate(o.toStored, cur),
      cur => Translate(o.toStored, cur), x => x, KeyAfter(cs.key, cs.named, re), true)
  }

  // Without one the payload's names reach the base blocks alone, and the record's keys are the reader's own.
  ghost function GlobalKeys(o: Opened, cs: ColSeg, re: nat -> nat): (ks: Keys)
  {
    Keys(KeyAfter(cs.key, cs.named, re), NamedAfter(cs.named, re), cur => Translate(o.toStored, cur), cur => cur,
      x => Translate(o.toCurrent, x), cur => cur, false)
  }

  lemma {:induction false} CurrentLead(ids: seq<nat>, key: nat -> nat, nameOf: nat -> seq<byte>,
                                       intern: seq<byte> -> nat, id: nat)
    requires id in ids
    requires forall a :: 0 <= a < |ids| ==> nameOf(ids[a]) != [] && (key(ids[a]) == key(id) ==> ids[a] == id)
    ensures CurrentOf(ColdNames(ids, key, nameOf), intern, key(id)) == intern(nameOf(id))
    decreases |ids|
  {
    var n := |ids| - 1;
    var names := ColdNames(ids, key, nameOf);
    assert names[..n] == ColdNames(ids[..n], key, nameOf) && ids == ids[..n] + [ids[n]];
    if ids[n] != id { CurrentLead(ids[..n], key, nameOf, intern, id); }
  }

  lemma {:induction false} StoredMisses(ids: seq<nat>, key: nat -> nat, nameOf: nat -> seq<byte>,
                                        intern: seq<byte> -> nat, cur: nat)
    requires forall a :: 0 <= a < |ids| ==> intern(nameOf(ids[a])) != cur
    ensures StoredOf(ColdNames(ids, key, nameOf), intern, cur) == cur
    decreases |ids|
  {
    if ids != [] {
      var n := |ids| - 1;
      assert ColdNames(ids, key, nameOf)[..n] == ColdNames(ids[..n], key, nameOf);
      StoredMisses(ids[..n], key, nameOf, intern, cur);
    }
  }

  // An attribute with a number is translated to it, and its number back; any other id is left as it is.
  lemma TablesAfter(o: Opened, cs: ColSeg, dss: seq<StrDicts>, ids: seq<nat>, nameOf: nat -> seq<byte>,
                    intern: seq<byte> -> nat, known: nat -> bool, z: nat)
    requires Loaded(o, cs, dss, ids, nameOf, intern, known)
    ensures var re := Renumber(nameOf, intern);
      var key', named' := KeyAfter(cs.key, cs.named, re), NamedAfter(cs.named, re);
      && (named'(z) ==> Translate(o.toStored, z) == key'(z) && Translate(o.toCurrent, key'(z)) == z)
      && (!named'(z) ==> Translate(o.toStored, z) == z)
  {
    hide StoredOf, CurrentOf, Translate, KeyAfter, SameLayout, OrderKept, ValidSchema, Disjoint, Renumbers;
    var re := Renumber(nameOf, intern);
    if y: nat :| cs.named(y) && re(y) == z {
      KeptKey(cs.key, cs.named, known, re, y);
      assert known(y);
      NamesReach(ids, cs.key, cs.named, known, nameOf, intern, y);
      CurrentLead(ids, cs.key, nameOf, intern, y);
    } else {
      forall a | 0 <= a < |ids| ensures intern(nameOf(ids[a])) != z { assert re(ids[a]) != z; }
      StoredMisses(ids, cs.key, nameOf, intern, z);
    }
  }

  lemma DictLoadTables(o: Opened, cs: ColSeg, dss: seq<StrDicts>, ids: seq<nat>, nameOf: nat -> seq<byte>,
                       intern: seq<byte> -> nat, known: nat -> bool)
    requires Loaded(o, cs, dss, ids, nameOf, intern, known)
    ensures TablesOK(DictKeys(o, cs, Renumber(nameOf, intern)))
    ensures DictTables(DictKeys(o, cs, Renumber(nameOf, intern)))
  {
    hide OpenedAs, Translate, KeyAfter, NamedAfter, Disjoint, Renumbers, ValidSchema;
    var re := Renumber(nameOf, intern);
    KeysAfter(cs.key, cs.named, known, re);
    forall z: nat | NamedAfter(cs.named, re)(z) ensures Translate(o.toStored, z) == KeyAfter(cs.key, cs.named, re)(z) {
      TablesAfter(o, cs, dss, ids, nameOf, intern, known, z);
    }
  }

  lemma GlobalLoadTables(o: Opened, cs: ColSeg, dss: seq<StrDicts>, ids: seq<nat>, nameOf: nat -> seq<byte>,
                         intern: seq<byte> -> nat, known: nat -> bool)
    requires Loaded(o, cs, dss, ids, nameOf, intern, known)
    ensures TablesOK(GlobalKeys(o, cs, Renumber(nameOf, intern)))
    ensures DictTables(GlobalKeys(o, cs, Renumber(nameOf, intern)))
  {
    hide OpenedAs, Translate, KeyAfter, NamedAfter, Disjoint, Renumbers, ValidSchema;
    var re := Renumber(nameOf, intern);
    KeysAfter(cs.key, cs.named, known, re);
    forall z: nat | NamedAfter(cs.named, re)(z)
      ensures Translate(o.toCurrent, KeyAfter(cs.key, cs.named, re)(z)) == z
    {
      TablesAfter(o, cs, dss, ids, nameOf, intern, known, z);
    }
  }

  // ---------------------------------------------------------------- the columns

  // A record of the segment: known in full, and numbered where a tail holds it.
  ghost predicate Recorded(cs: ColSeg, known: nat -> bool, ad: seq<Entry>)
  {
    && ValidAd(ad) && AdKnown(known, ad) && TailNamed(cs.schema, cs.named, BaseAd(cs.groups, ad))
    && forall gi {:trigger cs.groups[gi]} ::
       0 <= gi < |cs.groups| ==> RowKnown(cs.groups[gi], cs.named, known, Half(ad, true))
  }

  function SelAfter(gb: GroupBlock, s: Schema): (r: GroupBlock)
  {
    if gb.blk.None? then gb else gb.(blk := Some(gb.blk.value.(schema := s)))
  }

  // The same columns under the next process's schemas.
  ghost predicate Reseats(cn: ColNative, cn': ColNative, cs: ColSeg, s': Schema)
  {
    && cn.groups == cs.groups && |cn'.groups| == |cn.groups| && |cn'.blocks| == |cn.blocks| && |cn'.sel| == |cn.sel|
    && (forall bi {:trigger cn.blocks[bi]} {:trigger cn'.blocks[bi]} :: 0 <= bi < |cn.blocks| ==>
          cn.blocks[bi].schema == cs.schema && cn'.blocks[bi] == cn.blocks[bi].(schema := s'))
    && |cn.sel| == |cn.groups|
    && (forall gi {:trigger cn.sel[gi]} {:trigger cn'.sel[gi]} :: 0 <= gi < |cn.sel| ==>
          |cn.sel[gi]| == |cn'.sel[gi]| == |cn.blocks| && forall bi {:trigger cn'.sel[gi][bi]} ::
            0 <= bi < |cn.blocks| ==> cn'.sel[gi][bi] == SelAfter(cn.sel[gi][bi], cn'.groups[gi].schema))
  }

  lemma {:induction false} StartAfter(bs: seq<Block>, bs': seq<Block>, s': Schema, i: nat)
    requires |bs'| == |bs| && i <= |bs|
    requires forall bi {:trigger bs'[bi]} :: 0 <= bi < |bs| ==> bs'[bi] == bs[bi].(schema := s')
    ensures Start(bs', i) == Start(bs, i)
  {
    if i > 0 { StartAfter(bs, bs', s', i - 1); }
  }

  // The row is some record's part in the columns.
  ghost predicate IsHalf(row: seq<Entry>, ads: seq<seq<Entry>>)
  {
    exists i {:trigger ads[i]} :: 0 <= i < |ads| && row == Half(ads[i], true)
  }

  ghost predicate HalvesOf(run: seq<seq<Entry>>, ads: seq<seq<Entry>>)
  {
    forall k {:trigger run[k]} :: 0 <= k < |run| ==> IsHalf(run[k], ads)
  }

  lemma HalfAt(run: seq<seq<Entry>>, ads: seq<seq<Entry>>, k: nat) returns (i: nat)
    requires HalvesOf(run, ads) && k < |run|
    ensures i < |ads| && run[k] == Half(ads[i], true)
  {
    hide Half;
    var row := run[k];
    assert IsHalf(row, ads);
    i :| i < |ads| && row == Half(ads[i], true);
  }

  lemma HalvesFrom(run: seq<seq<Entry>>, ads: seq<seq<Entry>>, lo: nat)
    requires lo + |run| <= |ads| && forall k {:trigger run[k]} :: 0 <= k < |run| ==> run[k] == Half(ads[lo + k], true)
    ensures HalvesOf(run, ads)
  {
    hide Half, IsHalf;
    forall k | 0 <= k < |run| ensures IsHalf(run[k], ads) { HalfIs(run[k], ads, lo + k); }
  }

  lemma HalfIs(row: seq<Entry>, ads: seq<seq<Entry>>, i: nat)
    requires i < |ads| && row == Half(ads[i], true)
    ensures IsHalf(row, ads)
  {
    hide Half;
    assert ads[i] == ads[i];
  }

  lemma RunHalves(cn: ColNative, ads: seq<seq<Entry>>, bi: nat)
    requires bi < |cn.blocks| && Start(cn.blocks, bi + 1) <= |ads|
    ensures HalvesOf(Run(cn, ads, bi), ads)
  {
    hide Half, Start, HalvesOf;
    StartMono(cn.blocks, bi, bi + 1);
    HalvesFrom(Run(cn, ads, bi), ads, Start(cn.blocks, bi));
  }

  lemma RunReopens(cn: ColNative, cn': ColNative, cs: ColSeg, s': Schema, re: nat -> nat, ads: seq<seq<Entry>>, bi: nat)
    requires Reseats(cn, cn', cs, s') && bi < |cn.blocks| && Start(cn.blocks, bi + 1) <= |ads|
    ensures Start(cn'.blocks, bi + 1) == Start(cn.blocks, bi + 1)
    ensures Run(cn', RelabelAds(re, ads), bi) == RelabelAds(re, Run(cn, ads, bi))
  {
    hide Half, RekeyAd, Start;
    StartAfter(cn.blocks, cn'.blocks, s', bi);
    StartAfter(cn.blocks, cn'.blocks, s', bi + 1);
    StartMono(cn.blocks, bi, bi + 1);
    var lo := Start(cn.blocks, bi);
    var run, run' := Run(cn, ads, bi), Run(cn', RelabelAds(re, ads), bi);
    forall k | 0 <= k < |run| ensures run'[k] == RelabelAds(re, run)[k] {
      HalfRekeyed(re, ads[lo + k], true);
      assert run[k] == Half(ads[lo + k], true);
    }
  }

  // A half of the record, under the new numbers, has its base row there.
  lemma HalfAfter(o: Opened, cs: ColSeg, groups': seq<Group>, known: nat -> bool, re: nat -> nat, ad: seq<Entry>)
    requires SegRenumbers(cs, groups', known, re) && AdKnown(known, ad)
    ensures var h := Half(ad, true);
      Without(RekeyAd(re, h), SkipSet(groups', RekeyAd(re, h))) == RekeyAd(re, BaseAd(cs.groups, ad))
  {
    hide Half, Without, SkipSet, RekeyAd, Renumbers, GroupsAfter, GroupsKnown, KeyAfter, NamedAfter, AdKnown, KnowsAll;
    HalfRekeyed(re, ad, true);
    BaseAfter(o, cs.(native := true), groups', known, re, ad);
  }

  lemma BlocksReopen(o: Opened, cs: ColSeg, groups': seq<Group>, known: nat -> bool, re: nat -> nat, b: Block,
                     ads: seq<seq<Entry>>, run: seq<seq<Entry>>)
    requires SegRenumbers(cs, groups', known, re) && ValidSchema(cs.schema) && ValidSchema(o.schema)
    requires SameLayout(cs.schema, o.schema, re) && b.schema == cs.schema
    requires BlockFor(b, cs.key, BaseAds(cs.groups, run))
    requires forall k {:trigger ads[k]} :: 0 <= k < |ads| ==> Recorded(cs, known, ads[k])
    requires HalvesOf(run, ads)
    ensures BlockFor(b.(schema := o.schema), KeyAfter(cs.key, cs.named, re), BaseAds(groups', RelabelAds(re, run)))
  {
    hide Half, Without, SkipSet, RekeyAd, Renumbers, GroupsAfter, GroupsKnown, KeyAfter, NamedAfter, AdKnown, KnowsAll,
      BlockFor, SameLayout, ValidSchema, RelabelOK, TailNamed, ValidAd, RowKnown, HalvesOf;
    var bases, key' := BaseAds(cs.groups, run), KeyAfter(cs.key, cs.named, re);
    forall k | 0 <= k < |run|
      ensures RelabelOK(cs.schema, re, cs.key, key', bases[k])
      ensures BaseAds(groups', RelabelAds(re, run))[k] == RelabelAds(re, bases)[k]
    {
      var i := HalfAt(run, ads, k);
      assert Recorded(cs, known, ads[i]);
      RowRelabels(cs.schema, cs.key, cs.named, known, re, bases[k]);
      HalfAfter(o, cs, groups', known, re, ads[i]);
    }
    BlockReloads(b, o.schema, re, cs.key, key', bases);
    assert BaseAds(groups', RelabelAds(re, run)) == RelabelAds(re, bases);
  }

  // The segment's columns in the process that wrote them and in the next.
  ghost predicate CarriedOver(cn: ColNative, cn': ColNative, o: Opened, cs: ColSeg, known: nat -> bool, re: nat -> nat,
                              ads: seq<seq<Entry>>)
  {
    && NativeFor(cn, cs.key, ads) && Reseats(cn, cn', cs, o.schema) && SegRenumbers(cs, cn'.groups, known, re)
    && ValidSchema(cs.schema) && ValidSchema(o.schema) && SameLayout(cs.schema, o.schema, re) && ValidGroups(cn'.groups)
    && (forall gi {:trigger cs.groups[gi]} ::
          0 <= gi < |cs.groups| ==> SameLayout(cs.groups[gi].schema, cn'.groups[gi].schema, re))
    && forall k {:trigger ads[k]} :: 0 <= k < |ads| ==> Recorded(cs, known, ads[k])
  }

  // Reopened, the segment's columns are those of the same records under the new numbers.
  lemma NativeAfter(cn: ColNative, cn': ColNative, o: Opened, cs: ColSeg, known: nat -> bool, re: nat -> nat,
                    ads: seq<seq<Entry>>)
    requires CarriedOver(cn, cn', o, cs, known, re, ads)
    ensures NativeFor(cn', KeyAfter(cs.key, cs.named, re), RelabelAds(re, ads))
  {
    hide Half, RekeyAd, Renumbers, KeyAfter, AdKnown, SameLayout, ValidSchema, BlockFor, GroupBlockFor, Run, Start,
      ValidAd, TailNamed, BaseAd, RowKnown, SelAfter, HalvesOf;
    var ads', key' := RelabelAds(re, ads), KeyAfter(cs.key, cs.named, re);
    StartAfter(cn.blocks, cn'.blocks, o.schema, |cn.blocks|);
    forall k | 0 <= k < |ads'| ensures ValidAd(ads'[k]) {
      assert Recorded(cs, known, ads[k]);
      RenumberedValid(known, re, ads[k]);
    }
    forall bi | 0 <= bi < |cn'.blocks| ensures RunOK(cn', key', ads', bi) {
      assert cn.blocks[bi].schema == cs.schema && RunOK(cn, cs.key, ads, bi);
      RunReopens(cn, cn', cs, o.schema, re, ads, bi);
      RunHalves(cn, ads, bi);
      var run := Run(cn, ads, bi);
      BlocksReopen(o, cs, cn'.groups, known, re, cn.blocks[bi], ads, run);
      forall gi | 0 <= gi < |cn'.groups|
        ensures GroupBlockFor(cn'.sel[gi][bi], cn'.groups[gi], key', RelabelAds(re, run))
      {
        SelReopen(cn, cn', o, cs, known, re, ads, run, gi, bi);
      }
    }
  }

  lemma SelReopen(cn: ColNative, cn': ColNative, o: Opened, cs: ColSeg, known: nat -> bool, re: nat -> nat,
                  ads: seq<seq<Entry>>, run: seq<seq<Entry>>, gi: nat, bi: nat)
    requires Reseats(cn, cn', cs, o.schema) && SegRenumbers(cs, cn'.groups, known, re)
    requires ValidGroups(cn.groups) && ValidGroups(cn'.groups) && gi < |cn.groups| && bi < |cn.blocks|
    requires SameLayout(cn.groups[gi].schema, cn'.groups[gi].schema, re)
    requires forall k {:trigger ads[k]} :: 0 <= k < |ads| ==> Recorded(cs, known, ads[k])
    requires HalvesOf(run, ads)
    requires GroupBlockFor(cn.sel[gi][bi], cn.groups[gi], cs.key, run)
    ensures GroupBlockFor(cn'.sel[gi][bi], cn'.groups[gi], KeyAfter(cs.key, cs.named, re), RelabelAds(re, run))
  {
    hide Half, RekeyAd, Renumbers, KeyAfter, AdKnown, SameLayout, ValidSchema, BlockFor, GroupBlockFor, Start, ValidAd,
      TailNamed, BaseAd, RowKnown, HalvesOf;
    var g, g' := cn.groups[gi], cn'.groups[gi];
    forall k | 0 <= k < |run| ensures RowKnown(g, cs.named, known, run[k]) {
      var i := HalfAt(run, ads, k);
      assert Recorded(cs, known, ads[i]) && cs.groups[gi] == g;
    }
    assert ValidGroup(g) && ValidGroup(g');
    GroupMembersKnown(cs, cn'.groups, known, re, gi);
    SelectionAfter(cn.sel[gi][bi], g, g', cs.key, cs.named, known, re, run);
    assert cn'.sel[gi][bi] == SelAfter(cn.sel[gi][bi], g'.schema);
  }

  lemma RenumberedValid(known: nat -> bool, re: nat -> nat, ad: seq<Entry>)
    requires ValidAd(ad) && AdKnown(known, ad) && Renumbers(re, known)
    ensures ValidAd(RekeyAd(re, ad))
  {
    forall i | 0 <= i < |ad| ensures ValidEntry(RekeyAd(re, ad)[i]) { assert ValidEntry(ad[i]) && known(ad[i].id); }
    forall i, j | 0 <= i < j < |ad| ensures re(ad[i].id) != re(ad[j].id) { assert known(ad[i].id) && known(ad[j].id); }
  }

  // Each of them is a record the tables are right or wrong for.
  lemma RecordedHoldable(o: Opened, cs: ColSeg, groups': seq<Group>, known: nat -> bool, re: nat -> nat, ks: Keys,
                         ad: seq<Entry>)
    requires SegRenumbers(cs, groups', known, re) && Recorded(cs, known, ad)
    requires ValidGroups(cs.groups) && ValidGroups(groups')
    requires ValidSchema(cs.schema) && ValidSchema(o.schema) && SameLayout(cs.schema, o.schema, re)
    requires forall gi {:trigger cs.groups[gi]} :: 0 <= gi < |cs.groups| ==>
      SameLayout(cs.groups[gi].schema, groups'[gi].schema, re)
    requires ks.key == KeyAfter(cs.key, cs.named, re) && ks.named == NamedAfter(cs.named, re)
    requires ks.dict ==> AllNamed(cs.named, ad)
    ensures Holdable(ks, o.schema, groups', RekeyAd(re, ad))
  {
    hide Half, RekeyAd, Renumbers, KeyAfter, NamedAfter, SameLayout, ValidSchema, ValidAd, TailNamed, BaseAd, Whole,
      Without, SkipSet, RowKnown, AdKnown;
    var ad', h := RekeyAd(re, ad), Half(ad, true);
    RenumberedValid(known, re, ad);
    HalfRekeyed(re, ad, true);
    HalfAfter(o, cs, groups', known, re, ad);
    assert BaseAd(groups', ad') == RekeyAd(re, BaseAd(cs.groups, ad)) by { BaseIs(groups', ad'); }
    TailRelabels(cs.schema, o.schema, cs.key, cs.named, known, re, BaseAd(cs.groups, ad));
    forall gi | 0 <= gi < |groups'| && Whole(Half(ad', true), groups'[gi])
      ensures TailNamed(groups'[gi].schema, ks.named, Half(ad', true))
    {
      GroupTailAfter(cs, groups', known, re, gi, h);
    }
    if ks.dict { NamesAfter(cs, known, re, ad); }
  }

  lemma BaseIs(groups: seq<Group>, ad: seq<Entry>)
    ensures BaseAd(groups, ad) == Without(Half(ad, true), SkipSet(groups, Half(ad, true)))
  {
  }

  lemma GroupTailAfter(cs: ColSeg, groups': seq<Group>, known: nat -> bool, re: nat -> nat, gi: nat, h: seq<Entry>)
    requires SegRenumbers(cs, groups', known, re) && ValidGroups(cs.groups) && ValidGroups(groups') && gi < |groups'|
    requires SameLayout(cs.groups[gi].schema, groups'[gi].schema, re) && RowKnown(cs.groups[gi], cs.named, known, h)
    requires Whole(RekeyAd(re, h), groups'[gi])
    ensures TailNamed(groups'[gi].schema, NamedAfter(cs.named, re), RekeyAd(re, h))
  {
    hide RekeyAd, Renumbers, NamedAfter, SameLayout, ValidSchema, TailNamed, Whole, AdKnown;
    var g, g' := cs.groups[gi], groups'[gi];
    GroupMembersKnown(cs, groups', known, re, gi);
    WholeAfter(known, re, h, g, g');
    assert ValidGroup(g) && ValidGroup(g');
    TailRelabels(g.schema, g'.schema, cs.key, cs.named, known, re, h);
  }

  lemma NamesAfter(cs: ColSeg, known: nat -> bool, re: nat -> nat, ad: seq<Entry>)
    requires AllNamed(cs.named, ad)
    ensures AllNamed(NamedAfter(cs.named, re), RekeyAd(re, ad))
  {
    forall j | 0 <= j < |ad| ensures NamedAfter(cs.named, re)(re(ad[j].id)) { assert cs.named(ad[j].id); }
  }

  // ---------------------------------------------------------------- splicing

  // Loaded with its dictionary, in this process or the next, a segment gives back every record whole.
  lemma DictSplices(o: Opened, cs: ColSeg, dss: seq<StrDicts>, ids: seq<nat>, nameOf: nat -> seq<byte>,
                    intern: seq<byte> -> nat, known: nat -> bool, groups': seq<Group>, ad: seq<Entry>, es: seq<Entry>)
    requires Loaded(o, cs, dss, ids, nameOf, intern, known) && ValidGroups(groups')
    requires var ks := DictKeys(o, cs, Renumber(nameOf, intern));
      Holdable(ks, o.schema, groups', ad) && Spliced(ks, groups', ad, es)
    ensures Rejoined(DictKeys(o, cs, Renumber(nameOf, intern)).out, ad, es)
  {
    hide OpenedAs, Translate, KeyAfter, NamedAfter, Disjoint, Renumbers, ValidSchema, Holdable, Spliced, Rejoined,
      TablesOK, Loaded, ValidGroups;
    var ks := DictKeys(o, cs, Renumber(nameOf, intern));
    DictLoadTables(o, cs, dss, ids, nameOf, intern, known);
    assert GroupsKeyed(ks, groups', None);
    SpliceExactly(ks, o.schema, groups');
  }

  // A record stripped into the columns by one process comes back whole, under the keys it had, in the next.
  method SpliceReopened(cn': ColNative, ks: Keys, remnant: seq<Entry>, k: nat, ghost cn: ColNative, ghost o: Opened,
                        ghost cs: ColSeg, ghost dss: seq<StrDicts>, ghost ids: seq<nat>, ghost nameOf: nat -> seq<byte>,
                        ghost intern: seq<byte> -> nat, ghost known: nat -> bool, ghost ads: seq<seq<Entry>>)
    returns (r: Option<seq<Entry>>)
    requires Loaded(o, cs, dss, ids, nameOf, intern, known) && k < |ads| && AllNamed(cs.named, ads[k])
    requires CarriedOver(cn, cn', o, cs, known, Renumber(nameOf, intern), ads)
    requires ks == DictKeys(o, cs, Renumber(nameOf, intern)) && remnant == Half(RekeyAd(cs.key, ads[k]), false)
    ensures r.Some? && Rejoined(cs.key, ads[k], r.value)
  {
    hide OpenedAs, KeyAfter, NamedAfter, Renumbers, ValidSchema, Holdable, Spliced, TablesOK, NativeFor, SameLayout,
      RecordOK, Half, RekeyAd, Recorded, Reseats, SegRenumbers, SegOK, KnowsAll, Listed, Translate, ValidGroups,
      AllNamed, DictKeys, Answer, GroupsFound;
    ghost var re := Renumber(nameOf, intern);
    ghost var ad' := RekeyAd(re, ads[k]);
    NativeAfter(cn, cn', o, cs, known, re, ads);
    KeysOfDict(o, cs, re, ks);
    RecordHeld(cn, cn', o, cs, known, re, ks, ads, k);
    DictLoadTables(o, cs, dss, ids, nameOf, intern, known);
    HeldOK(ks, o.schema, cn'.groups, ad');
    OneSchema(cn, cn', cs, o.schema);
    KeysKept(cs, known, re, ads[k]);
    r := SpliceInto(cn', ks, remnant, k, RelabelAds(re, ads));
    DictSplices(o, cs, dss, ids, nameOf, intern, known, cn'.groups, ad', r.value);
  }

  lemma KeysOfDict(o: Opened, cs: ColSeg, re: nat -> nat, ks: Keys)
    requires ks == DictKeys(o, cs, re)
    ensures ks.key == ks.out == KeyAfter(cs.key, cs.named, re) && ks.named == NamedAfter(cs.named, re) && ks.dict
  {
  }

  lemma RecordHeld(cn: ColNative, cn': ColNative, o: Opened, cs: ColSeg, known: nat -> bool, re: nat -> nat, ks: Keys,
                   ads: seq<seq<Entry>>, k: nat)
    requires CarriedOver(cn, cn', o, cs, known, re, ads) && k < |ads| && AllNamed(cs.named, ads[k])
    requires ks.key == KeyAfter(cs.key, cs.named, re) && ks.named == NamedAfter(cs.named, re)
    ensures Holdable(ks, o.schema, cn'.groups, RekeyAd(re, ads[k]))
  {
    hide Holdable, Recorded, RunOK, Start, SegRenumbers, ValidSchema, SameLayout, AllNamed, KeyAfter, NamedAfter;
    assert Recorded(cs, known, ads[k]);
    RecordedHoldable(o, cs, cn'.groups, known, re, ks, ads[k]);
  }

  lemma OneSchema(cn: ColNative, cn': ColNative, cs: ColSeg, s': Schema)
    requires Reseats(cn, cn', cs, s')
    ensures forall bi :: 0 <= bi < |cn'.blocks| ==> cn'.blocks[bi].schema == s'
  {
  }

  // The dictionary's number of an attribute is what it was.
  lemma KeysKept(cs: ColSeg, known: nat -> bool, re: nat -> nat, ad: seq<Entry>)
    requires Renumbers(re, known) && KnowsAll(known, cs.schema, cs.named) && AllNamed(cs.named, ad)
    ensures RekeyAd(KeyAfter(cs.key, cs.named, re), RekeyAd(re, ad)) == RekeyAd(cs.key, ad)
  {
    hide KeyAfter, Renumbers;
    forall i | 0 <= i < |ad| ensures KeyAfter(cs.key, cs.named, re)(re(ad[i].id)) == cs.key(ad[i].id) {
      KeptKey(cs.key, cs.named, known, re, ad[i].id);
    }
  }

  // Every group attribute with a number has kept the id it was numbered by.
  ghost predicate MembersKept(cs: ColSeg, re: nat -> nat)
  {
    forall gi, y {:trigger y in cs.groups[gi].ids} :: 0 <= gi < |cs.groups| && y in cs.groups[gi].ids && cs.named(y) ==>
      re(y) == cs.key(y)
  }

  lemma MembersKeyed(o: Opened, cs: ColSeg, groups': seq<Group>, known: nat -> bool, re: nat -> nat)
    requires SegRenumbers(cs, groups', known, re)
    ensures GroupsKeyed(GlobalKeys(o, cs, re), groups', None) <==> MembersKept(cs, re)
  {
    hide Renumbers, KeyAfter, Translate;
    var ks := GlobalKeys(o, cs, re);
    if MembersKept(cs, re) {
      forall gi, z | 0 <= gi < |groups'| && z in groups'[gi].ids && ks.named(z) ensures ks.key(z) == z {
        var y :| y in cs.groups[gi].ids && re(y) == z;
        MemberNamed(cs, known, re, y);
      }
    }
    if GroupsKeyed(ks, groups', None) {
      forall gi, y | 0 <= gi < |cs.groups| && y in cs.groups[gi].ids && cs.named(y) ensures re(y) == cs.key(y) {
        KeptKey(cs.key, cs.named, known, re, y);
        assert IdsAfter(cs.groups[gi].ids, groups'[gi].ids, re);
        assert re(y) in groups'[gi].ids && KeyedIn(ks, groups'[gi], re(y));
      }
    }
  }

  lemma MemberNamed(cs: ColSeg, known: nat -> bool, re: nat -> nat, y: nat)
    requires KnowsAll(known, cs.schema, cs.named) && Renumbers(re, known) && known(y) && NamedAfter(cs.named, re)(re(y))
    ensures cs.named(y) && KeyAfter(cs.key, cs.named, re)(re(y)) == cs.key(y)
  {
    hide KeyAfter;
    var x: nat :| cs.named(x) && re(x) == re(y);
    assert known(x);
    KeptKey(cs.key, cs.named, known, re, x);
  }

  // Without a dictionary every record comes back whole if and only if the next process gives each group attribute that
  // has a number the id it had when the segment was written.
  lemma GlobalSplicesExactly(o: Opened, cs: ColSeg, dss: seq<StrDicts>, ids: seq<nat>, nameOf: nat -> seq<byte>,
                             intern: seq<byte> -> nat, known: nat -> bool, groups': seq<Group>)
    requires Loaded(o, cs, dss, ids, nameOf, intern, known) && ValidGroups(groups')
    requires SegRenumbers(cs, groups', known, Renumber(nameOf, intern))
    ensures var re := Renumber(nameOf, intern); var ks := GlobalKeys(o, cs, re);
      MembersKept(cs, re) <==> forall ad, es {:trigger Spliced(ks, groups', ad, es)} ::
        Holdable(ks, o.schema, groups', ad) && Spliced(ks, groups', ad, es) ==> Rejoined(ks.out, ad, es)
  {
    hide Holdable, Spliced, Rejoined, TablesOK, Loaded, ValidGroups, SegRenumbers, GlobalKeys, MembersKept, GroupsKeyed;
    var re := Renumber(nameOf, intern);
    GlobalLoadTables(o, cs, dss, ids, nameOf, intern, known);
    MembersKeyed(o, cs, groups', known, re);
    SpliceExactly(GlobalKeys(o, cs, re), o.schema, groups');
  }

  // In the process that wrote it every name leads back to its own id, so a globally numbered segment is whole there.
  lemma FreshSplices(o: Opened, cs: ColSeg, dss: seq<StrDicts>, ids: seq<nat>, nameOf: nat -> seq<byte>,
                     intern: seq<byte> -> nat, known: nat -> bool, groups': seq<Group>, ad: seq<Entry>, es: seq<Entry>)
    requires Loaded(o, cs, dss, ids, nameOf, intern, known) && ValidGroups(groups')
    requires SegRenumbers(cs, groups', known, Renumber(nameOf, intern))
    requires forall y: nat {:trigger cs.named(y)} :: cs.named(y) ==> intern(nameOf(y)) == y && cs.key(y) == y
    requires var ks := GlobalKeys(o, cs, Renumber(nameOf, intern));
      Holdable(ks, o.schema, groups', ad) && Spliced(ks, groups', ad, es)
    ensures Rejoined(GlobalKeys(o, cs, Renumber(nameOf, intern)).out, ad, es)
  {
    hide Holdable, Spliced, Rejoined, Loaded, ValidGroups, SegRenumbers, GlobalKeys;
    assert MembersKept(cs, Renumber(nameOf, intern));
    GlobalSplicesExactly(o, cs, dss, ids, nameOf, intern, known, groups');
  }

  // A record with the whole group, one member in no slot: the attribute does not come back.
  lemma GlobalGroupLost(o: Opened, cs: ColSeg, dss: seq<StrDicts>, ids: seq<nat>, nameOf: nat -> seq<byte>,
                        intern: seq<byte> -> nat, known: nat -> bool, groups': seq<Group>, gi: nat, y: nat)
    returns (fi: nat)
    requires Loaded(o, cs, dss, ids, nameOf, intern, known) && ValidGroups(groups')
    requires SegRenumbers(cs, groups', known, Renumber(nameOf, intern))
    requires gi < |cs.groups| && y in cs.groups[gi].ids && cs.named(y) && intern(nameOf(y)) != cs.key(y)
    ensures gi < |groups'| && fi < |groups'[gi].schema.fields|
    ensures var ks, ad := GlobalKeys(o, cs, Renumber(nameOf, intern)), FitAd(groups'[gi], fi);
      var es := GroupValsAs(groups', ks.key, ks.inGroup, ks.out, ad, None, |groups'|);
      && Holdable(ks, o.schema, groups', ad) && Spliced(ks, groups', ad, es)
      && Entry(intern(nameOf(y)), Lit(LUndef)) in ad && Entry(intern(nameOf(y)), Lit(LUndef)) !in es
  {
    hide OpenedAs, Translate, KeyAfter, Disjoint, Renumbers, ValidSchema, Holdable, Spliced, TablesOK, FitAd,
      GroupValsAs, RekeyAd;
    var re := Renumber(nameOf, intern);
    var ks := GlobalKeys(o, cs, re);
    GlobalLoadTables(o, cs, dss, ids, nameOf, intern, known);
    assert IdsAfter(cs.groups[gi].ids, groups'[gi].ids, re);
    KeptKey(cs.key, cs.named, known, re, y);
    assert ValidGroup(groups'[gi]);
    IdAt(groups'[gi].schema, re(y));
    fi := groups'[gi].schema.byId[re(y)];
    FitLost(ks, o.schema, groups', gi, fi);
    assert FitAd(groups'[gi], fi)[fi] == Entry(re(y), Lit(LUndef));
  }

  // ---------------------------------------------------------------- projecting

  // No attribute that reaches a base tail is stored under the number id.
  ghost predicate Unheld(ks: Keys, groups: seq<Group>, id: nat)
  {
    forall z: nat {:trigger ks.named(z)} :: ks.named(z) && ks.key(z) == id ==> Sole(groups, z)
  }

  lemma BaseKept(ks: Keys, groups: seq<Group>, id: nat)
    requires KeyedBy(ks.key, ks.named) && ks.stored(id) == if ks.named(id) then ks.key(id) else id
    ensures ReadsBase(ks, groups, id) <==> ks.named(id) || Unheld(ks, groups, id)
  {
    hide Sole;
  }

  // A wanted attribute the dictionary names, or whose id is past its numbers or a group's sole member's.
  ghost predicate DictApart(d: seq<seq<byte>>, intern: seq<byte> -> nat, groups: seq<Group>, id: nat)
  {
    (exists l :: 0 <= l < |d| && intern(d[l]) == id) || (id < |d| ==> Sole(groups, intern(d[id])))
  }

  lemma DictNumbers(o: Opened, cs: ColSeg, dss: seq<StrDicts>, ids: seq<nat>, nameOf: nat -> seq<byte>,
                    intern: seq<byte> -> nat, known: nat -> bool, d: seq<seq<byte>>, x: nat)
    requires Loaded(o, cs, dss, ids, nameOf, intern, known) && DictOf(d, ids, cs.key, nameOf)
    ensures var ks := DictKeys(o, cs, Renumber(nameOf, intern));
      && (ks.named(x) <==> exists l :: 0 <= l < |d| && intern(d[l]) == x)
      && (x < |d| ==> ks.named(intern(d[x])) && ks.key(intern(d[x])) == x)
      && forall z: nat {:trigger ks.named(z)} :: ks.named(z) && ks.key(z) == x ==> x < |d| && z == intern(d[x])
  {
    hide OpenedAs, Translate, KeyAfter, SegOK, Renumbers;
    var re := Renumber(nameOf, intern);
    var ks := DictKeys(o, cs, re);
    if ks.named(x) {
      var y: nat :| cs.named(y) && re(y) == x;
      var l :| 0 <= l < |ids| && ids[l] == y;
      assert intern(d[l]) == x;
    }
    if l :| 0 <= l < |d| && intern(d[l]) == x { assert cs.named(ids[l]) && re(ids[l]) == x; }
    if x < |d| { KeptKey(cs.key, cs.named, known, re, ids[x]); }
    forall z: nat | ks.named(z) && ks.key(z) == x ensures x < |d| && z == intern(d[x]) {
      var y: nat :| cs.named(y) && re(y) == z;
      KeptKey(cs.key, cs.named, known, re, y);
      var l :| 0 <= l < |ids| && ids[l] == y;
      assert cs.key(ids[l]) == l;
    }
  }

  // With a dictionary a projection that is not declined is right on every record if and only if no wanted attribute it
  // does not name has an id that is another's number.
  lemma DictProjectsExactly(o: Opened, cs: ColSeg, dss: seq<StrDicts>, ids: seq<nat>, nameOf: nat -> seq<byte>,
                            intern: seq<byte> -> nat, known: nat -> bool, groups': seq<Group>, d: seq<seq<byte>>,
                            inline: bool, want: seq<nat>)
    requires Loaded(o, cs, dss, ids, nameOf, intern, known) && DictOf(d, ids, cs.key, nameOf) && ValidGroups(groups')
    requires NoneTwice(want) && !Declines(DictKeys(o, cs, Renumber(nameOf, intern)), o.schema, want)
    ensures var ks := DictKeys(o, cs, Renumber(nameOf, intern));
      (forall id :: id in want ==> DictApart(d, intern, groups', id)) <==>
        forall ad {:trigger Holdable(ks, o.schema, groups', ad)} :: Holdable(ks, o.schema, groups', ad) ==>
          Gives(ks, o.schema, groups', ad, inline, want)
  {
    hide OpenedAs, Holdable, Gives, ValidGroups, KeyAfter, NamedAfter, Translate, Declines, Sole, Renumbers, DictOf,
      ReadsBase, KeyedBy, ValidSchema, Disjoint;
    var re := Renumber(nameOf, intern);
    var ks := DictKeys(o, cs, re);
    DictLoadTables(o, cs, dss, ids, nameOf, intern, known);
    assert GroupsKeyed(ks, groups', IdsOf(want));
    forall id | id in want ensures ReadsBase(ks, groups', id) <==> DictApart(d, intern, groups', id) {
      TablesAfter(o, cs, dss, ids, nameOf, intern, known, id);
      BaseKept(ks, groups', id);
      DictNumbers(o, cs, dss, ids, nameOf, intern, known, d, id);
    }
    hide TablesOK, DictApart, Loaded, DictTables;
    assert ValidSchema(o.schema) by { OpenedSchema(o, cs, dss, ids, nameOf, intern); }
    ProjectExactly(ks, o.schema, groups', inline, want);
  }

  lemma OpenedSchema(o: Opened, cs: ColSeg, dss: seq<StrDicts>, ids: seq<nat>, nameOf: nat -> seq<byte>,
                     intern: seq<byte> -> nat)
    requires OpenedAs(o, cs, dss, ids, nameOf, intern)
    ensures ValidSchema(o.schema)
  {
  }

  // A wanted attribute the dictionary does not name, whose id is another's number: a record of the other comes back
  // with the other's value under the other's key.
  lemma DictGivesAnother(o: Opened, cs: ColSeg, dss: seq<StrDicts>, ids: seq<nat>, nameOf: nat -> seq<byte>,
                         intern: seq<byte> -> nat, known: nat -> bool, groups': seq<Group>, d: seq<seq<byte>>,
                         inline: bool, want: seq<nat>, id: nat)
    requires Loaded(o, cs, dss, ids, nameOf, intern, known) && DictOf(d, ids, cs.key, nameOf) && ValidGroups(groups')
    requires NoneTwice(want) && !Declines(DictKeys(o, cs, Renumber(nameOf, intern)), o.schema, want)
    requires id in want && id < |d| && !DictApart(d, intern, groups', id)
    ensures var ks, ad := DictKeys(o, cs, Renumber(nameOf, intern)), [Entry(intern(d[id]), Lit(LUndef))];
      && Holdable(ks, o.schema, groups', ad) && !Gives(ks, o.schema, groups', ad, inline, want)
      && Entry(id, Lit(LUndef)) in ProjectedAs(ks, o.schema, groups', ad, inline, want)
  {
    hide OpenedAs, Holdable, Gives, ValidGroups, KeyAfter, NamedAfter, Translate, Declines, Sole, Renumbers, DictOf,
      KeyedBy, ValidSchema, Disjoint, ProjectedAs;
    var ks := DictKeys(o, cs, Renumber(nameOf, intern));
    DictLoadTables(o, cs, dss, ids, nameOf, intern, known);
    TablesAfter(o, cs, dss, ids, nameOf, intern, known, id);
    DictNumbers(o, cs, dss, ids, nameOf, intern, known, d, id);
    hide TablesOK, Loaded;
    OpenedSchema(o, cs, dss, ids, nameOf, intern);
    AnotherGiven(ks, o.schema, groups', inline, want, id, intern(d[id]));
  }

  ghost predicate InGroups(groups: seq<Group>, id: nat) { exists gi :: 0 <= gi < |groups| && id in groups[gi].ids }

  // Without one: a wanted attribute the payload's names lead to has, if a group's, kept its id; any other's id is the
  // number of none that reaches a base tail.
  ghost predicate GlobalApart(ks: Keys, groups: seq<Group>, id: nat)
  {
    if ks.named(id) then InGroups(groups, id) ==> ks.key(id) == id
    else Unheld(ks, groups, id)
  }

  lemma GlobalProjectsExactly(o: Opened, cs: ColSeg, dss: seq<StrDicts>, ids: seq<nat>, nameOf: nat -> seq<byte>,
                              intern: seq<byte> -> nat, known: nat -> bool, groups': seq<Group>, inline: bool,
                              want: seq<nat>)
    requires Loaded(o, cs, dss, ids, nameOf, intern, known) && ValidGroups(groups') && NoneTwice(want)
    ensures var ks := GlobalKeys(o, cs, Renumber(nameOf, intern));
      (forall id :: id in want ==> GlobalApart(ks, groups', id)) <==>
        forall ad {:trigger Holdable(ks, o.schema, groups', ad)} :: Holdable(ks, o.schema, groups', ad) ==>
          Gives(ks, o.schema, groups', ad, inline, want)
  {
    hide OpenedAs, Holdable, Gives, ValidGroups, KeyAfter, NamedAfter, Translate, Sole, Renumbers, ReadsBase, KeyedBy,
      ValidSchema, Disjoint, Unheld;
    var re := Renumber(nameOf, intern);
    var ks := GlobalKeys(o, cs, re);
    GlobalLoadTables(o, cs, dss, ids, nameOf, intern, known);
    forall id | id in want ensures ReadsBase(ks, groups', id) <==> ks.named(id) || Unheld(ks, groups', id) {
      TablesAfter(o, cs, dss, ids, nameOf, intern, known, id);
      BaseKept(ks, groups', id);
    }
    WantedMembers(ks, groups', want);
    hide TablesOK, Loaded, DictTables, GroupsKeyed;
    OpenedSchema(o, cs, dss, ids, nameOf, intern);
    ProjectExactly(ks, o.schema, groups', inline, want);
  }

  lemma WantedMembers(ks: Keys, groups: seq<Group>, want: seq<nat>)
    requires !ks.dict && forall id: nat :: ks.inGroup(id) == id
    ensures GroupsKeyed(ks, groups, IdsOf(want)) <==>
      forall id {:trigger ks.named(id)} :: id in want && ks.named(id) && InGroups(groups, id) ==> ks.key(id) == id
  {
    if GroupsKeyed(ks, groups, IdsOf(want)) {
      forall id | id in want && ks.named(id) && InGroups(groups, id)
        ensures ks.key(id) == id
      {
        var gi :| 0 <= gi < |groups| && id in groups[gi].ids;
        assert KeyedIn(ks, groups[gi], id);
      }
    }
  }

  // A wanted attribute no name leads to, whose id is what another was stored under: a record of the other comes back
  // with the other's value under the wanted attribute's key.
  lemma GlobalGivesAnother(o: Opened, cs: ColSeg, dss: seq<StrDicts>, ids: seq<nat>, nameOf: nat -> seq<byte>,
                           intern: seq<byte> -> nat, known: nat -> bool, groups': seq<Group>, inline: bool,
                           want: seq<nat>, id: nat, y: nat)
    requires Loaded(o, cs, dss, ids, nameOf, intern, known) && ValidGroups(groups') && NoneTwice(want) && id in want
    requires !NamedAfter(cs.named, Renumber(nameOf, intern))(id)
    requires cs.named(y) && cs.key(y) == id && !Sole(groups', intern(nameOf(y)))
    ensures var ks, ad := GlobalKeys(o, cs, Renumber(nameOf, intern)), [Entry(intern(nameOf(y)), Lit(LUndef))];
      && Holdable(ks, o.schema, groups', ad) && !Gives(ks, o.schema, groups', ad, inline, want)
      && Entry(id, Lit(LUndef)) in ProjectedAs(ks, o.schema, groups', ad, inline, want)
  {
    hide OpenedAs, Holdable, Gives, ValidGroups, KeyAfter, NamedAfter, Translate, Sole, Renumbers, KeyedBy, ValidSchema,
      Disjoint, ProjectedAs;
    var re := Renumber(nameOf, intern);
    var ks := GlobalKeys(o, cs, re);
    GlobalLoadTables(o, cs, dss, ids, nameOf, intern, known);
    TablesAfter(o, cs, dss, ids, nameOf, intern, known, id);
    KeptKey(cs.key, cs.named, known, re, y);
    hide TablesOK, Loaded;
    OpenedSchema(o, cs, dss, ids, nameOf, intern);
    AnotherGiven(ks, o.schema, groups', inline, want, id, re(y));
  }
}
