/** Rewriting a sealed segment into columnar-native form: columns from one pass, remnants from the other. */
module NativeBuild {
  import opened Bytes
  import opened Wire
  import opened Row
  import opened ColBlock
  import opened Values
  import opened Groups
  import opened Native
  import opened Scan
  import opened RowGroups

  // Selections arrive block by block; a group keeps its own list.
  function Column(gblocks: seq<seq<GroupBlock>>, gi: nat): (r: seq<GroupBlock>)
    requires forall bi :: 0 <= bi < |gblocks| ==> gi < |gblocks[bi]|
    ensures |r| == |gblocks| && forall bi :: 0 <= bi < |r| ==> r[bi] == gblocks[bi][gi]
  {
    seq(|gblocks|, bi requires 0 <= bi < |gblocks| => gblocks[bi][gi])
  }

  function Selections(gblocks: seq<seq<GroupBlock>>, groups: nat): (r: seq<seq<GroupBlock>>)
    requires forall bi :: 0 <= bi < |gblocks| ==> |gblocks[bi]| == groups
    ensures |r| == groups && forall gi :: 0 <= gi < groups ==> |r[gi]| == |gblocks|
    ensures forall gi, bi :: 0 <= gi < groups && 0 <= bi < |gblocks| ==> r[gi][bi] == gblocks[bi][gi]
  {
    seq(groups, gi requires 0 <= gi < groups => Column(gblocks, gi))
  }

  function BlocksOf(sbs: seq<ScanBlock>): (r: seq<Block>)
    ensures |r| == |sbs| && forall i :: 0 <= i < |r| ==> r[i] == sbs[i].blk
  {
    seq(|sbs|, i requires 0 <= i < |sbs| => sbs[i].blk)
  }

  // The blocks' record numbering is the runs', laid end to end.
  lemma {:induction false} StartOfRun(cn: ColNative, ads: seq<seq<Entry>>, runs: seq<seq<seq<Entry>>>, bi: nat)
    requires |cn.blocks| == |runs| && bi <= |runs| && Flat(runs) == ColumnAds(ads)
    requires forall i :: 0 <= i < |runs| ==> cn.blocks[i].n == |runs[i]|
    ensures Start(cn.blocks, bi) == |Flat(runs[..bi])|
    decreases bi
  {
    if bi > 0 {
      StartOfRun(cn, ads, runs, bi - 1);
      FlatPrefix(runs, bi - 1);
    }
  }

  lemma RunOfBlock(cn: ColNative, ads: seq<seq<Entry>>, runs: seq<seq<seq<Entry>>>, bi: nat)
    requires |cn.blocks| == |runs| && bi < |runs| && Flat(runs) == ColumnAds(ads)
    requires forall i :: 0 <= i < |runs| ==> cn.blocks[i].n == |runs[i]|
    ensures Start(cn.blocks, bi + 1) <= |ads| && Run(cn, ads, bi) == runs[bi]
  {
    hide Flat, Start, Half;
    StartOfRun(cn, ads, runs, bi);
    StartOfRun(cn, ads, runs, bi + 1);
    FlatPrefix(runs, bi);
    var lo, hi := Start(cn.blocks, bi), Start(cn.blocks, bi + 1);
    var all, f := ColumnAds(ads), Flat(runs[..bi + 1]);
    assert f == all[..hi];
    assert f[lo..] == runs[bi];
    assert all[..hi][lo..] == all[lo..hi];
  }

  // What the builder sealed is what a columnar-native read opens.
  lemma BuiltNative(cn: ColNative, sbs: seq<ScanBlock>, gblocks: seq<seq<GroupBlock>>, s: Schema, key: nat -> nat,
                    g: Grouping, runs: seq<seq<seq<Entry>>>, ads: seq<seq<Entry>>)
    requires ValidGroups(cn.groups) && forall k :: 0 <= k < |ads| ==> ValidAd(ads[k])
    requires Cut(sbs, gblocks, s, cn.groups, key, g, runs) && Flat(runs) == ColumnAds(ads) && cn.blocks == BlocksOf(sbs)
    requires |cn.sel| == |cn.groups| && (forall gi :: 0 <= gi < |cn.groups| ==> |cn.sel[gi]| == |cn.blocks|)
    requires forall gi, bi ::
      0 <= gi < |cn.groups| && 0 <= bi < |gblocks| && gi < |gblocks[bi]| ==> cn.sel[gi][bi] == gblocks[bi][gi]
    ensures NativeFor(cn, key, ads)
  {
    hide ValidGroups, ValidAd, Sealed, Run, Start, Flat, BlockFor, GroupBlockFor;
    forall i | 0 <= i < |runs|
      ensures cn.blocks[i].n == |runs[i]|
    {
      SealedBlock(sbs[i], s, cn.groups, key, g, runs[i]);
    }
    StartOfRun(cn, ads, runs, |runs|);
    assert runs[..|runs|] == runs;
    forall bi | 0 <= bi < |cn.blocks| ensures RunOK(cn, key, ads, bi) {
      RunOfBlock(cn, ads, runs, bi);
      BlockOfSealed(sbs[bi], s, cn.groups, key, g, runs[bi]);
      forall gi | 0 <= gi < |cn.groups| ensures GroupBlockFor(cn.sel[gi][bi], cn.groups[gi], key, runs[bi]) {
        assert Selected(gblocks[bi], cn.groups, key, runs[bi]);
      }
    }
  }

  lemma BlockOfSealed(sb: ScanBlock, s: Schema, groups: seq<Group>, key: nat -> nat, g: Grouping, run: seq<seq<Entry>>)
    requires Sealed(sb, s, groups, key, g, run)
    ensures BlockFor(sb.blk, key, BaseAds(groups, run))
  {
    hide BlockFor;
  }

  // Pass one builds the columns over the literal half of every record; pass two keeps the other half.
  method ColumnarizeSegment(w: Window, s: Schema, hot: set<nat>, groups: seq<Group>, g: Grouping, ks: Keys)
    returns (cn: Option<ColNative>, rems: seq<seq<Entry>>, offs: seq<nat>)
    requires ValidSchema(s) && KeyedBy(ks.key, ks.named) && ValidGroups(groups) && Readable(w, ad => ad, ks.named)
    ensures offs == Walk(w, 0) && (cn.None? <==> offs == [])
    ensures cn.Some? ==> cn.value.groups == groups && NativeFor(cn.value, ks.key, AdsOf(Records(w)))
    ensures cn.Some? ==> |rems| == |offs| && forall k ::
      0 <= k < |rems| ==> rems[k] == Half(RekeyAd(ks.out, Records(w)[k].ad), false)
  {
    hide ValidSchema, Walk, BuiltAs, Half, RekeyAd, NativeFor, Readable, Cut;
    HalfReadable(w, ks.named);
    assert forall i :: 0 <= i < |groups| ==> ValidGroup(groups[i]);
    hide ValidGroups;
    var columns := (ad: seq<Entry>) => Half(ad, true);
    var sbs, gblocks;
    ghost var runs;
    sbs, gblocks, offs, runs := Build(w, s, hot, groups, g, ks.key, ks.named, columns);
    rems := [];
    if offs == [] { return None, [], offs; }
    ghost var rs := Records(w);
    assert Interned(columns, rs) == ColumnAds(AdsOf(rs));
    CutShape(sbs, gblocks, s, groups, ks.key, g, runs, ColumnAds(AdsOf(rs)));
    var sel := if groups == [] then [] else Selections(gblocks, |groups|);
    var native := ColNative(BlocksOf(sbs), groups, sel);
    AdsReadable(w, ks.named);
    BuiltNative(native, sbs, gblocks, s, ks.key, g, runs, AdsOf(rs));
    for k := 0 to |offs|
      invariant |rems| == k && forall i :: 0 <= i < k ==> rems[i] == Half(RekeyAd(ks.out, rs[i].ad), false)
    {
      var rem := StripSchemaAttrs(RekeyAd(ks.out, w.arena[offs[k]].ad));
      rems := rems + [rem];
    }
    cn := Some(native);
  }

  lemma CutShape(sbs: seq<ScanBlock>, gblocks: seq<seq<GroupBlock>>, s: Schema, groups: seq<Group>, key: nat -> nat,
                 g: Grouping, runs: seq<seq<seq<Entry>>>, ads: seq<seq<Entry>>)
    requires BuiltAs(sbs, gblocks, s, groups, key, g, runs, ads) && ads != []
    ensures Cut(sbs, gblocks, s, groups, key, g, runs) && Flat(runs) == ads
    ensures |gblocks| == (if groups == [] then 0 else |sbs|) && forall bi ::
      0 <= bi < |gblocks| ==> |gblocks[bi]| == |groups|
  {
    hide Sealed, GroupBlockFor;
  }

  lemma HalfReadable(w: Window, named: nat -> bool)
    requires Readable(w, ad => ad, named)
    ensures Readable(w, ad => Half(ad, true), named)
  {
    hide Half, ValidAd;
    forall o | o in w.arena && !w.arena[o].marker
      ensures ValidAd(Half(w.arena[o].ad, true)) && AllNamed(named, Half(w.arena[o].ad, true))
    {
      var ad := w.arena[o].ad;
      var half := Half(ad, true);
      HalfValid(ad, true);
      forall i | 0 <= i < |half| ensures named(half[i].id) {
        HalfMember(ad, true, half[i]);
        var j :| 0 <= j < |ad| && ad[j] == half[i];
      }
    }
  }

  lemma AdsReadable(w: Window, named: nat -> bool)
    requires Readable(w, ad => ad, named)
    ensures forall k :: 0 <= k < |AdsOf(Records(w))| ==> ValidAd(AdsOf(Records(w))[k])
  {
    hide ValidAd;
    WalkData(w, 0);
  }
}
