/** Cutting a segment's records into row-group blocks: the seal policy, and the builder that walks an arena
    and produces blocks, zones and group selections cut at the same points. */
module RowGroups {
  import opened Bytes
  import opened Wire
  import opened Row
  import opened ColBlock
  import opened Values
  import opened Fields
  import opened Preds
  import opened Groups
  import opened Escapes
  import opened Native
  import opened Scan
  import opened Presence

  const COL_GROUP_ALIGN: nat := 8
  const COL_GROUP_MAX_ROWS: nat := 8192

  // ---------------------------------------------------------------- the seal policy

  // A byte budget (none when not positive) and a row cap (the default when not positive).
  datatype Grouping = Grouping(targetBytes: int, maxRows: int)

  function Cap(g: Grouping): (n: nat)
    ensures n > 0
  {
    if g.maxRows <= 0 then COL_GROUP_MAX_ROWS else g.maxRows
  }

  predicate Full(g: Grouping, rows: nat, bytes: nat)
  {
    rows >= Cap(g) || (g.targetBytes > 0 && bytes >= g.targetBytes)
  }

  // How many rows to seal now, and their bytes: all of them, or the last aligned prefix when the byte
  // budget was passed and that prefix is not a runt.
  function SealAt(g: Grouping, rows: nat, bytes: nat, alignedRows: nat, alignedBytes: nat): (r: (nat, nat))
  {
    if g.targetBytes <= 0 || bytes <= g.targetBytes then (rows, bytes)
    else if alignedRows == 0 || alignedRows >= rows then (rows, bytes)
    else if alignedBytes < g.targetBytes / 2 then (rows, bytes)
    else (alignedRows, alignedBytes)
  }

  function Size(recs: seq<seq<byte>>): (n: nat)
  {
    if recs == [] then 0 else Size(recs[..|recs| - 1]) + |recs[|recs| - 1]|
  }

  lemma {:induction false} SizeSplit(recs: seq<seq<byte>>, k: nat)
    requires k <= |recs|
    ensures Size(recs) == Size(recs[..k]) + Size(recs[k..])
    decreases |recs|
  {
    if k == |recs| {
      assert recs[..k] == recs;
    } else {
      var n := |recs| - 1;
      SizeSplit(recs[..n], k);
      assert recs[..n][..k] == recs[..k] && recs[..n][k..] == recs[k..][..n - k];
    }
  }

  lemma SizeSnoc(recs: seq<seq<byte>>, r: seq<byte>)
    ensures Size(recs + [r]) == Size(recs) + |r|
  {
    assert (recs + [r])[..|recs|] == recs;
  }

  function LastTwo(recs: seq<seq<byte>>): (r: seq<seq<byte>>) { recs[if |recs| < 2 then 0 else |recs| - 2..] }

  // A sealed block keeps the row cap, and passes the byte budget by less than its last two records.
  predicate WithinBudget(g: Grouping, recs: seq<seq<byte>>)
  {
    |recs| <= Cap(g) && (g.targetBytes > 0 ==> Size(recs) < g.targetBytes + Size(LastTwo(recs)))
  }

  // A block sealed before the end is no runt: it is at the row cap, or holds half the byte budget.
  predicate NoRunt(g: Grouping, recs: seq<seq<byte>>)
  {
    |recs| == Cap(g) || (g.targetBytes > 0 && Size(recs) >= g.targetBytes / 2)
  }

  // The group being filled: under budget, or a carry that only its last record takes past it.
  predicate Pending(g: Grouping, recs: seq<seq<byte>>, alignedRows: nat)
  {
    && |recs| < Cap(g) && alignedRows <= |recs| && alignedRows % COL_GROUP_ALIGN == 0
    && (g.targetBytes > 0 ==>
          Size(recs) < g.targetBytes
          || (recs != [] && Size(recs[..|recs| - 1]) < g.targetBytes && (alignedRows == 0 || alignedRows == |recs|)))
  }

  lemma PendingWithin(g: Grouping, recs: seq<seq<byte>>, alignedRows: nat)
    requires Pending(g, recs, alignedRows)
    ensures WithinBudget(g, recs)
  {
    if recs != [] {
      var k := if |recs| < 2 then 0 else |recs| - 2;
      SizeSplit(recs, k);
      SizeSplit(recs[..|recs| - 1], k);
      assert recs[..|recs| - 1][..k] == recs[..k];
    }
  }

  // A group is sealed whole unless it is over the budget and the rows up to the last boundary are fewer and already
  // half of it; then those are.
  lemma SealAtExactly(g: Grouping, rows: nat, bytes: nat, alignedRows: nat, alignedBytes: nat)
    ensures var s := SealAt(g, rows, bytes, alignedRows, alignedBytes);
      var back := 0 < g.targetBytes < bytes && 0 < alignedRows < rows && g.targetBytes / 2 <= alignedBytes;
      s == if back then (alignedRows, alignedBytes) else (rows, bytes)
  {
  }

  // Sealing keeps every record, the block stays within budget, and what is carried is a pending group.
  lemma SealKeeps(g: Grouping, was: seq<seq<byte>>, r: seq<byte>, alignedBefore: nat, alignedRows: nat)
    requires Pending(g, was, alignedBefore)
    requires var recs := was + [r];
      alignedRows == if |recs| % COL_GROUP_ALIGN == 0 then |recs| else alignedBefore
    ensures var recs := was + [r]; var seal := SealAt(g, |recs|, Size(recs), alignedRows, Size(recs[..alignedRows])).0;
      && 0 < seal <= |recs| && (seal == |recs| || seal % COL_GROUP_ALIGN == 0)
      && SealAt(g, |recs|, Size(recs), alignedRows, Size(recs[..alignedRows])).1 == Size(recs[..seal])
      && WithinBudget(g, recs[..seal])
      && Pending(g, recs[seal..], if |recs| - seal > 0 && (|recs| - seal) % COL_GROUP_ALIGN == 0 then
         |recs| - seal else 0)
    ensures !Full(g, |was| + 1, Size(was + [r])) ==> Pending(g, was + [r], alignedRows)
    ensures var recs := was + [r];
      Full(g, |was| + 1, Size(was + [r])) ==>
        NoRunt(g, recs[..SealAt(g, |recs|, Size(recs), alignedRows, Size(recs[..alignedRows])).0])
  {
    hide Size, LastTwo;
    var recs := was + [r];
    SizeSnoc(was, r);
    var seal := SealAt(g, |recs|, Size(recs), alignedRows, Size(recs[..alignedRows])).0;
    assert recs[..|recs|] == recs && recs[|recs|..] == [];
    assert Size([]) == 0 by { SizeEmpty(); }
    if seal == |recs| {
      SealAll(g, was, r, alignedBefore);
    } else {
      assert recs[..seal] == was[..seal];
      CarryKept(g, was, r, seal);
      if Size(was) < g.targetBytes {
        SealPrefix(g, was, seal);
      } else {
        assert was[..seal] == was;
        PendingWithin(g, was, alignedBefore);
      }
    }
  }

  lemma SizeEmpty()
    ensures Size([]) == 0
  {
  }

  lemma SealAll(g: Grouping, was: seq<seq<byte>>, r: seq<byte>, a: nat)
    requires Pending(g, was, a)
    ensures WithinBudget(g, was + [r])
  {
    var recs := was + [r];
    var k := if |recs| < 2 then 0 else |recs| - 2;
    SizeSplit(recs, k);
    if was != [] {
      assert recs[..k] == was[..|was| - 1];
      SizeSnoc(was[..|was| - 1], was[|was| - 1]);
      assert was[..|was| - 1] + [was[|was| - 1]] == was;
    } else {
      assert recs[..k] == [];
    }
  }

  lemma SealPrefix(g: Grouping, was: seq<seq<byte>>, seal: nat)
    requires seal <= |was| <= Cap(g) && g.targetBytes > 0 && Size(was) < g.targetBytes
    ensures WithinBudget(g, was[..seal])
  {
    SizeSplit(was, seal);
  }

  // The records past the seal point: all but the last were under budget already.
  lemma CarryKept(g: Grouping, was: seq<seq<byte>>, r: seq<byte>, seal: nat)
    requires |was| < Cap(g) && 0 < seal <= |was| && g.targetBytes > 0 && (Size(was) < g.targetBytes || seal == |was|)
    ensures var c := (was + [r])[seal..];
      Pending(g, c, if |c| > 0 && |c| % COL_GROUP_ALIGN == 0 then |c| else 0)
  {
    var c := (was + [r])[seal..];
    assert c == was[seal..] + [r];
    assert c[..|c| - 1] == was[seal..];
    SizeSplit(was, seal);
  }

  // ---------------------------------------------------------------- sealing one run of records

  // Tail ids to fields, derived from the schema once: the fields the dictionary numbers.
  method ColdToField(s: Schema, key: nat -> nat, named: nat -> bool) returns (m: map<nat, nat>)
    requires ValidSchema(s) && KeyedBy(key, named)
    ensures ColdMap(s, key, named, m)
  {
    hide ValidSchema;
    m := map[];
    for i := 0 to |s.fields|
      invariant forall j: nat {:trigger s.fields[j]} ::
        j < i && named(s.fields[j].id) ==> key(s.fields[j].id) in m && m[key(s.fields[j].id)] == j
      invariant forall c :: c in m ==> m[c] < i && named(s.fields[m[c]].id) && key(s.fields[m[c]].id) == c
    {
      if named(s.fields[i].id) {
        forall j: nat | j < i ensures s.fields[j].id != s.fields[i].id { FieldAt(s, j); FieldAt(s, i); }
        m := m[key(s.fields[i].id) := i];
      }
    }
  }

  lemma BaseNamed(s: Schema, named: nat -> bool, groups: seq<Group>, run: seq<seq<Entry>>)
    requires Encodable(named, run)
    ensures forall k :: 0 <= k < |run| ==> TailNamed(s, named, BaseAds(groups, run)[k])
  {
    hide ValidAd, Without, SkipSet, InSlot;
    forall k | 0 <= k < |run| ensures TailNamed(s, named, BaseAds(groups, run)[k]) {
      assert ValidAd(run[k]) && AllNamed(named, run[k]);
      WithoutValid(named, run[k], SkipSet(groups, run[k]));
    }
  }

  ghost predicate Encodable(named: nat -> bool, ads: seq<seq<Entry>>)
  {
    forall k {:trigger ads[k]} :: 0 <= k < |ads| ==> ValidAd(ads[k]) && AllNamed(named, ads[k])
  }

  lemma ColdValid(s: Schema, key: nat -> nat, named: nat -> bool, ad: seq<Entry>)
    requires ValidEntries(ad) && KeyedBy(key, named) && AllNamed(named, ad)
    ensures ValidEntries(ColdEntries(s, key, ad))
  {
    hide ColdEntries, InSlot;
    var c := ColdEntries(s, key, ad);
    forall i | 0 <= i < |c| ensures ValidEntry(c[i]) {
      ColdMember(s, key, ad, c[i]);
      var j :| 0 <= j < |ad| && c[i] == Entry(key(ad[j].id), ad[j].node);
      assert ValidEntry(ad[j]) && named(ad[j].id);
    }
  }

  lemma WithoutValid(named: nat -> bool, ad: seq<Entry>, skip: set<nat>)
    requires ValidAd(ad) && AllNamed(named, ad)
    ensures ValidAd(Without(ad, skip)) && AllNamed(named, Without(ad, skip))
  {
    hide Without;
    var b := Without(ad, skip);
    WithoutDistinct(ad, skip);
    forall i | 0 <= i < |b| ensures ValidEntry(b[i]) && named(b[i].id) {
      WithoutMember(ad, skip, b[i]);
      var j :| 0 <= j < |ad| && ad[j] == b[i];
    }
  }

  // The base block of a run: its rows without wholly held groups, exact zones, and the budget kept.
  ghost predicate Sealed(sb: ScanBlock, s: Schema, groups: seq<Group>, key: nat -> nat, g: Grouping,
                         run: seq<seq<Entry>>)
  {
    && ScanBlockFor(sb, s, key, BaseAds(groups, run)) && EscExact(sb.esc, s, BaseAds(groups, run))
    && exists recs :: BlockOf(sb.blk, recs) && RowsOf(s, key, BaseAds(groups, run), recs) && WithinBudget(g, recs)
  }

  ghost predicate PolicySealed(sb: ScanBlock, s: Schema, groups: seq<Group>, key: nat -> nat, g: Grouping,
                               run: seq<seq<Entry>>)
  {
    exists recs :: BlockOf(sb.blk, recs) && RowsOf(s, key, BaseAds(groups, run), recs) && NoRunt(g, recs)
  }

  // The first n blocks were sealed by the policy, not by the end of the segment.
  ghost predicate NoRunts(blocks: seq<ScanBlock>, s: Schema, groups: seq<Group>, key: nat -> nat, g: Grouping,
                          runs: seq<seq<seq<Entry>>>, n: nat)
  {
    n <= |blocks| && n <= |runs| && forall bi: nat {:trigger runs[bi]} ::
      bi < n ==> PolicySealed(blocks[bi], s, groups, key, g, runs[bi])
  }

  lemma NoRuntsSnoc(blocks: seq<ScanBlock>, s: Schema, groups: seq<Group>, key: nat -> nat, g: Grouping,
                    runs: seq<seq<seq<Entry>>>, sb: ScanBlock, run: seq<seq<Entry>>)
    requires |blocks| == |runs| && NoRunts(blocks, s, groups, key, g, runs, |runs|)
    ensures NoRunts(blocks + [sb], s, groups, key, g, runs + [run], |runs|)
    ensures PolicySealed(sb, s, groups, key, g, run) ==>
      NoRunts(blocks + [sb], s, groups, key, g, runs + [run], |runs| + 1)
  {
    hide PolicySealed;
  }

  // One selection a group, over the same records.
  ghost predicate Selected(gbs: seq<GroupBlock>, groups: seq<Group>, key: nat -> nat, run: seq<seq<Entry>>)
  {
    |gbs| == |groups| && forall gi :: 0 <= gi < |groups| ==> GroupBlockFor(gbs[gi], groups[gi], key, run)
  }

  method SealBlock(s: Schema, hot: set<nat>, ghost groups: seq<Group>, ghost key: nat -> nat, ghost named: nat -> bool,
                   coldToField: map<nat, nat>, ghost g: Grouping, recs: seq<seq<byte>>, ghost run: seq<seq<Entry>>)
    returns (sb: ScanBlock)
    requires ValidSchema(s) && KeyedBy(key, named) && ColdMap(s, key, named, coldToField) && Encodable(named, run)
    requires RowsOf(s, key, BaseAds(groups, run), recs) && WithinBudget(g, recs)
    ensures Sealed(sb, s, groups, key, g, run) && BlockOf(sb.blk, recs)
  {
    hide RowsOf, BlockOf, ValidSchema, ZonesExact, WithinBudget, BaseAds, Shaped, ColdMap, Encodable, EscExact, KeyedBy,
      TailNamed;
    ghost var bases := BaseAds(groups, run);
    RowsShaped(s, key, bases, recs);
    RowsCount(s, key, bases, recs);
    var b := EncodeColumnarBlock(s, recs, hot);
    BlockCount(b, recs);
    var zones := NumericZones(s, key, bases, recs);
    BaseNamed(s, named, groups, run);
    var esc := ClassifyEscapes(s, key, named, coldToField, recs, bases);
    sb := ScanBlock(b, zones, esc);
  }

  method BuildGroupBlocks(groups: seq<Group>, key: nat -> nat, ghost named: nat -> bool, run: seq<seq<Entry>>)
    returns (gbs: seq<GroupBlock>)
    requires (forall i :: 0 <= i < |groups| ==> ValidGroup(groups[i])) && KeyedBy(key, named) && Encodable(named, run)
    ensures Selected(gbs, groups, key, run)
  {
    hide ValidGroup, GroupBlockFor, ValidAd, KeyedBy;
    gbs := [];
    for gi := 0 to |groups|
      invariant |gbs| == gi && forall i :: 0 <= i < gi ==> GroupBlockFor(gbs[i], groups[i], key, run)
    {
      forall k | 0 <= k < |run| ensures ValidAd(run[k]) && ValidEntries(ColdEntries(groups[gi].schema, key, run[k])) {
        AdEntries(run[k]);
        ColdValid(groups[gi].schema, key, named, run[k]);
      }
      var gb := BuildGroupBlock(groups[gi], key, run);
      gbs := gbs + [gb];
    }
  }

  lemma AdEntries(ad: seq<Entry>)
    requires ValidAd(ad)
    ensures ValidEntries(ad) && DistinctIds(ad)
  {
  }

  // ---------------------------------------------------------------- the builder

  function Flat(runs: seq<seq<seq<Entry>>>): (ads: seq<seq<Entry>>)
  {
    if runs == [] then [] else Flat(runs[..|runs| - 1]) + runs[|runs| - 1]
  }

  ghost predicate Cut(blocks: seq<ScanBlock>, gblocks: seq<seq<GroupBlock>>, s: Schema, groups: seq<Group>,
                      key: nat -> nat, g: Grouping, runs: seq<seq<seq<Entry>>>)
  {
    && |blocks| == |runs| &&
       (forall bi :: 0 <= bi < |runs| ==> runs[bi] != [] && Sealed(blocks[bi], s, groups, key, g, runs[bi]))
    && |gblocks| == (if groups == [] then 0 else |runs|)
    && forall bi :: 0 <= bi < |gblocks| ==> Selected(gblocks[bi], groups, key, runs[bi])
  }

  // The pending group: its rows, the ads they came from, its bytes, and its extent at the last boundary.
  datatype Building = Building(blocks: seq<ScanBlock>, gblocks: seq<seq<GroupBlock>>, recs: seq<seq<byte>>,
                               iws: seq<seq<Entry>>, groupBytes: nat, alignedRows: nat, alignedBytes: nat)

  ghost predicate BuildingOK(b: Building, s: Schema, groups: seq<Group>, key: nat -> nat, named: nat -> bool,
                             g: Grouping, runs: seq<seq<seq<Entry>>>, ads: seq<seq<Entry>>)
  {
    && Flat(runs) + b.iws == ads && Cut(b.blocks, b.gblocks, s, groups, key, g, runs) &&
       NoRunts(b.blocks, s, groups, key, g, runs, |runs|)
    && RowsOf(s, key, BaseAds(groups, b.iws), b.recs) && Encodable(named, b.iws)
    && Pending(g, b.recs, b.alignedRows) && b.groupBytes == Size(b.recs) &&
       b.alignedBytes == Size(b.recs[..b.alignedRows])
  }

  lemma CutSnoc(blocks: seq<ScanBlock>, gblocks: seq<seq<GroupBlock>>, s: Schema, groups: seq<Group>, key: nat -> nat,
                g: Grouping, runs: seq<seq<seq<Entry>>>, sb: ScanBlock, gbs: seq<GroupBlock>, run: seq<seq<Entry>>)
    requires Cut(blocks, gblocks, s, groups, key, g, runs) && run != [] && Sealed(sb, s, groups, key, g, run)
    requires Selected(gbs, groups, key, run)
    ensures Cut(blocks + [sb], if groups == [] then gblocks else gblocks + [gbs], s, groups, key, g, runs + [run])
    ensures Flat(runs + [run]) == Flat(runs) + run
  {
    hide Sealed, Selected;
    assert (runs + [run])[..|runs|] == runs;
  }

  // A pending group that has just taken a record, before the policy looks at it.
  ghost predicate Filled(b: Building, s: Schema, groups: seq<Group>, key: nat -> nat, named: nat -> bool,
                         runs: seq<seq<seq<Entry>>>, ads: seq<seq<Entry>>, g: Grouping)
  {
    && Flat(runs) + b.iws == ads && Cut(b.blocks, b.gblocks, s, groups, key, g, runs) &&
       NoRunts(b.blocks, s, groups, key, g, runs, |runs|)
    && RowsOf(s, key, BaseAds(groups, b.iws), b.recs) && Encodable(named, b.iws)
    && b.groupBytes == Size(b.recs) && b.alignedRows <= |b.recs| && b.alignedBytes == Size(b.recs[..b.alignedRows])
  }

  // What sealing this group now may rely on.
  ghost predicate Sealable(g: Grouping, b: Building)
  {
    var (seal, bytes) := SealAt(g, |b.recs|, b.groupBytes, b.alignedRows, b.alignedBytes);
    && 0 < seal <= |b.recs| && bytes == Size(b.recs[..seal]) && WithinBudget(g, b.recs[..seal]) &&
       NoRunt(g, b.recs[..seal])
    && Pending(g, b.recs[seal..], if |b.recs| - seal > 0 && (|b.recs| - seal) % COL_GROUP_ALIGN == 0 then
       |b.recs| - seal else 0)
  }

  // Seal a block, cut the group selections at the same point, and carry what lies past it.
  method SealGroup(b: Building, s: Schema, hot: set<nat>, groups: seq<Group>, key: nat -> nat, ghost named: nat -> bool,
                   cold: map<nat, nat>, g: Grouping, ghost runs: seq<seq<seq<Entry>>>, ghost ads: seq<seq<Entry>>)
    returns (b': Building, ghost runs': seq<seq<seq<Entry>>>)
    requires ValidSchema(s) && KeyedBy(key, named) && ColdMap(s, key, named, cold)
    requires (forall i :: 0 <= i < |groups| ==> ValidGroup(groups[i]))
    requires Filled(b, s, groups, key, named, runs, ads, g) && Sealable(g, b)
    ensures BuildingOK(b', s, groups, key, named, g, runs', ads)
  {
    hide Cut, Size, RowsOf, Pending, SealAt, ValidGroup, ValidSchema, WithinBudget, Encodable, Flat, BaseAds, Sealed,
      Selected, ColdMap, NoRunts, NoRunt, BlockOf;
    CutLengths(b.blocks, b.gblocks, s, groups, key, g, runs);
    var (seal, sealBytes) := SealAt(g, |b.recs|, b.groupBytes, b.alignedRows, b.alignedBytes);
    var recs, iws := b.recs, b.iws;
    RowsCount(s, key, BaseAds(groups, iws), recs);
    assert |BaseAds(groups, iws)| == |iws|;
    RowsSplit(s, key, groups, iws, recs, seal);
    EncodableSplit(named, iws, seal);
    var sb := SealBlock(s, hot, groups, key, named, cold, g, recs[..seal], iws[..seal]);
    var gbs := BuildGroupBlocks(groups, key, named, iws[..seal]);
    CutSnoc(b.blocks, b.gblocks, s, groups, key, g, runs, sb, gbs, iws[..seal]);
    NoRuntsSnoc(b.blocks, s, groups, key, g, runs, sb, iws[..seal]);
    runs' := runs + [iws[..seal]];
    Reassoc(Flat(runs), iws, seal);
    SizeSplit(recs, seal);
    var n, carried := |recs| - seal, b.groupBytes - sealBytes;
    var a := if n > 0 && n % COL_GROUP_ALIGN == 0 then (n, carried) else (0, 0);
    AlignedCarry(recs[seal..], a.0, a.1);
    b' := Building(b.blocks + [sb], if groups == [] then b.gblocks else b.gblocks + [gbs], recs[seal..], iws[seal..],
      carried, a.0, a.1);
  }

  lemma CutLengths(blocks: seq<ScanBlock>, gblocks: seq<seq<GroupBlock>>, s: Schema, groups: seq<Group>,
                   key: nat -> nat, g: Grouping, runs: seq<seq<seq<Entry>>>)
    requires Cut(blocks, gblocks, s, groups, key, g, runs)
    ensures |blocks| == |runs|
  {
  }

  lemma Reassoc(a: seq<seq<Entry>>, iws: seq<seq<Entry>>, k: nat)
    requires k <= |iws|
    ensures a + iws == a + iws[..k] + iws[k..]
  {
  }

  // Take one record; seal when the policy says so.
  method AddRecord(b: Building, s: Schema, hot: set<nat>, groups: seq<Group>, key: nat -> nat, ghost named: nat -> bool,
                   cold: map<nat, nat>, g: Grouping, ad: seq<Entry>, ghost runs: seq<seq<seq<Entry>>>,
                   ghost ads: seq<seq<Entry>>)
    returns (b': Building, ghost runs': seq<seq<seq<Entry>>>)
    requires ValidSchema(s) && KeyedBy(key, named) && ColdMap(s, key, named, cold)
    requires (forall i :: 0 <= i < |groups| ==> ValidGroup(groups[i])) && ValidAd(ad) && AllNamed(named, ad)
    requires BuildingOK(b, s, groups, key, named, g, runs, ads)
    ensures BuildingOK(b', s, groups, key, named, g, runs', ads + [ad])
  {
    hide Cut, Size, RowsOf, Pending, SealAt, Full, ValidGroup, ValidSchema, ValidAd, WithinBudget, Encodable, AllNamed,
      Flat, BaseAds, SkipSet, Without, RowOf, ColdMap, NoRunts, NoRunt;
    AdEntries(ad);
    var skip := GroupSkipSet(groups, ad);
    var rec := EncodeExcept(s, ad, skip, key);
    RowAdded(s, key, named, groups, b.iws, b.recs, ad, rec);
    EncodableSnoc(named, b.iws, ad);
    var recs := b.recs + [rec];
    var bytes := b.groupBytes + |rec|;
    SizeSnoc(b.recs, rec);
    PendingShape(g, b.recs, b.alignedRows);
    assert recs[..b.alignedRows] == b.recs[..b.alignedRows] && recs[..|recs|] == recs;
    var aligned := if |recs| % COL_GROUP_ALIGN == 0 then (|recs|, bytes) else (b.alignedRows, b.alignedBytes);
    SealKeeps(g, b.recs, rec, b.alignedRows, aligned.0);
    assert Flat(runs) + (b.iws + [ad]) == ads + [ad];
    b' := b.(recs := recs, iws := b.iws + [ad], groupBytes := bytes, alignedRows := aligned.0,
      alignedBytes := aligned.1);
    runs' := runs;
    if Full(g, |recs|, bytes) {
      b', runs' := SealGroup(b', s, hot, groups, key, named, cold, g, runs, ads + [ad]);
    }
  }

  lemma PendingShape(g: Grouping, recs: seq<seq<byte>>, a: nat)
    requires Pending(g, recs, a)
    ensures a <= |recs|
  {
  }

  lemma AlignedCarry(c: seq<seq<byte>>, rows: nat, bytes: nat)
    requires (rows == 0 && bytes == 0) || (rows == |c| && bytes == Size(c))
    ensures rows <= |c| && bytes == Size(c[..rows])
  {
    assert c[..|c|] == c;
  }

  lemma RowAdded(s: Schema, key: nat -> nat, named: nat -> bool, groups: seq<Group>, iws: seq<seq<Entry>>,
                 recs: seq<seq<byte>>, ad: seq<Entry>, rec: seq<byte>)
    requires RowsOf(s, key, BaseAds(groups, iws), recs) && ValidAd(ad) && KeyedBy(key, named) && AllNamed(named, ad)
    requires RowOf(s, key, Without(ad, SkipSet(groups, ad)), rec)
    ensures RowsOf(s, key, BaseAds(groups, iws + [ad]), recs + [rec])
  {
    hide RowOf, ColdEntries, Without, SkipSet, ValidAd, ValidEntries;
    WithoutValid(named, ad, SkipSet(groups, ad));
    AdEntries(Without(ad, SkipSet(groups, ad)));
    ColdValid(s, key, named, Without(ad, SkipSet(groups, ad)));
    assert BaseAds(groups, iws + [ad]) == BaseAds(groups, iws) + [Without(ad, SkipSet(groups, ad))];
  }

  lemma RowsSplit(s: Schema, key: nat -> nat, groups: seq<Group>, iws: seq<seq<Entry>>, recs: seq<seq<byte>>, k: nat)
    requires RowsOf(s, key, BaseAds(groups, iws), recs) && k <= |iws| && k <= |recs|
    ensures RowsOf(s, key, BaseAds(groups, iws[..k]), recs[..k]) && RowsOf(s, key, BaseAds(groups, iws[k..]), recs[k..])
  {
    hide RowOf, ColdEntries, Without, SkipSet, ValidAd, ValidEntries;
  }

  lemma EncodableSnoc(named: nat -> bool, iws: seq<seq<Entry>>, ad: seq<Entry>)
    requires Encodable(named, iws) && ValidAd(ad) && AllNamed(named, ad)
    ensures Encodable(named, iws + [ad])
  {
  }

  lemma EncodableSplit(named: nat -> bool, iws: seq<seq<Entry>>, k: nat)
    requires Encodable(named, iws) && k <= |iws|
    ensures Encodable(named, iws[..k]) && Encodable(named, iws[k..])
  {
  }

  // What the builder reads from each record: the whole ad, or the half a columnar rewrite moves.
  function Interned(f: seq<Entry> -> seq<Entry>, rs: seq<Rec>): (ads: seq<seq<Entry>>)
    ensures |ads| == |rs| && forall k :: 0 <= k < |rs| ==> ads[k] == f(rs[k].ad)
  {
    seq(|rs|, k requires 0 <= k < |rs| => f(rs[k].ad))
  }

  ghost predicate Readable(w: Window, f: seq<Entry> -> seq<Entry>, named: nat -> bool)
  {
    forall o :: o in w.arena && !w.arena[o].marker ==> ValidAd(f(w.arena[o].ad)) && AllNamed(named, f(w.arena[o].ad))
  }

  // Every record once and in order, in blocks that keep the policy; a segment without records still gets
  // one empty block, and no selections.
  ghost predicate BuiltAs(blocks: seq<ScanBlock>, gblocks: seq<seq<GroupBlock>>, s: Schema, groups: seq<Group>,
                          key: nat -> nat, g: Grouping, runs: seq<seq<seq<Entry>>>, ads: seq<seq<Entry>>)
  {
    && Flat(runs) == ads && |blocks| == |runs| > 0
    && (forall bi :: 0 <= bi < |runs| ==> Sealed(blocks[bi], s, groups, key, g, runs[bi]))
    && (ads == [] ==> |blocks| == 1 && gblocks == [])
    && (ads != [] ==> Cut(blocks, gblocks, s, groups, key, g, runs)) &&
       NoRunts(blocks, s, groups, key, g, runs, |runs| - 1)
  }

  method Build(w: Window, s: Schema, hot: set<nat>, groups: seq<Group>, g: Grouping, key: nat -> nat,
               named: nat -> bool, toInterned: seq<Entry> -> seq<Entry>)
    returns (blocks: seq<ScanBlock>, gblocks: seq<seq<GroupBlock>>, offs: seq<nat>, ghost runs: seq<seq<seq<Entry>>>)
    requires ValidSchema(s) && KeyedBy(key, named) && (forall i :: 0 <= i < |groups| ==> ValidGroup(groups[i]))
    requires Readable(w, toInterned, named)
    ensures offs == Walk(w, 0)
    ensures BuiltAs(blocks, gblocks, s, groups, key, g, runs, Interned(toInterned, Records(w)))
  {
    hide BuildingOK, ValidGroup, ValidSchema, ValidAd, AllNamed, Interned, RecsAt, Walk, BuiltAs, Readable, ColdMap,
      KeyedBy;
    var cold := ColdToField(s, key, named);
    var b := Building([], [], [], [], 0, 0, 0);
    runs := [];
    offs := [];
    var off: nat := 0;
    ghost var ads: seq<seq<Entry>> := [];
    BuildingStart(s, groups, key, named, g);
    InternedNone(toInterned, w.arena);
    assert [] + Walk(w, 0) == Walk(w, 0);
    while off < w.used && off in w.arena && w.arena[off].len > 0
      invariant offs + Walk(w, off) == Walk(w, 0) && forall i :: 0 <= i < |offs| ==> offs[i] in w.arena
      invariant ads == Interned(toInterned, RecsAt(w.arena, offs))
      invariant BuildingOK(b, s, groups, key, named, g, runs, ads)
      decreases w.used - off
    {
      var r := w.arena[off];
      WalkTaken(w, offs, off);
      if !r.marker {
        ReadableAt(w, toInterned, named, off);
        b, runs := AddRecord(b, s, hot, groups, key, named, cold, g, toInterned(r.ad), runs, ads);
        InternedSnoc(toInterned, w.arena, offs, off);
        offs, ads := offs + [off], ads + [toInterned(r.ad)];
      }
      off := off + r.len;
    }
    WalkOver(w, offs, off);
    blocks, gblocks, runs := FinishBuild(b, s, hot, groups, key, named, cold, g, runs, ads);
  }

  lemma WalkTaken(w: Window, offs: seq<nat>, off: nat)
    requires off < w.used && off in w.arena && w.arena[off].len > 0
    ensures offs + Walk(w, off) == (if w.arena[off].marker then offs else offs + [off]) +
      Walk(w, off + w.arena[off].len)
  {
    hide Walk;
    var rest := Walk(w, off + w.arena[off].len);
    assert Walk(w, off) == (if w.arena[off].marker then [] else [off]) + rest by { WalkAhead(w, off); }
    if w.arena[off].marker { assert [] + rest == rest; } else { assert offs + ([off] + rest) == offs + [off] + rest; }
  }

  lemma WalkAhead(w: Window, off: nat)
    requires off < w.used && off in w.arena && w.arena[off].len > 0
    ensures Walk(w, off) == (if w.arena[off].marker then [] else [off]) + Walk(w, off + w.arena[off].len)
  {
  }

  lemma WalkOver(w: Window, offs: seq<nat>, off: nat)
    requires !(off < w.used && off in w.arena && w.arena[off].len > 0)
    ensures offs + Walk(w, off) == offs
  {
    assert offs + [] == offs;
  }

  lemma ReadableAt(w: Window, f: seq<Entry> -> seq<Entry>, named: nat -> bool, o: nat)
    requires Readable(w, f, named) && o in w.arena && !w.arena[o].marker
    ensures ValidAd(f(w.arena[o].ad)) && AllNamed(named, f(w.arena[o].ad))
  {
    hide ValidAd, AllNamed;
  }

  lemma InternedNone(f: seq<Entry> -> seq<Entry>, arena: map<nat, Rec>)
    ensures Interned(f, RecsAt(arena, [])) == []
  {
  }

  lemma InternedSnoc(f: seq<Entry> -> seq<Entry>, arena: map<nat, Rec>, offs: seq<nat>, off: nat)
    requires (forall i :: 0 <= i < |offs| ==> offs[i] in arena) && off in arena
    ensures Interned(f, RecsAt(arena, offs + [off])) == Interned(f, RecsAt(arena, offs)) + [f(arena[off].ad)]
  {
  }

  lemma BuildingStart(s: Schema, groups: seq<Group>, key: nat -> nat, named: nat -> bool, g: Grouping)
    ensures BuildingOK(Building([], [], [], [], 0, 0, 0), s, groups, key, named, g, [], [])
  {
    hide Sealed, Selected, RowOf, ColdEntries, SkipSet, Without;
  }

  // The short final group, and the empty block of an empty segment.
  method FinishBuild(b: Building, s: Schema, hot: set<nat>, groups: seq<Group>, key: nat -> nat,
                     ghost named: nat -> bool, cold: map<nat, nat>, g: Grouping, ghost runs: seq<seq<seq<Entry>>>,
                     ghost ads: seq<seq<Entry>>)
    returns (blocks: seq<ScanBlock>, gblocks: seq<seq<GroupBlock>>, ghost runs': seq<seq<seq<Entry>>>)
    requires ValidSchema(s) && KeyedBy(key, named) && ColdMap(s, key, named, cold)
    requires (forall i :: 0 <= i < |groups| ==> ValidGroup(groups[i]))
    requires BuildingOK(b, s, groups, key, named, g, runs, ads)
    ensures BuiltAs(blocks, gblocks, s, groups, key, g, runs', ads)
  {
    hide RowsOf, Pending, ValidGroup, ValidSchema, WithinBudget, Encodable, BaseAds, Sealed, Selected, Size, ColdMap,
      NoRunt, PolicySealed, BlockOf;
    blocks, gblocks, runs' := b.blocks, b.gblocks, runs;
    RowsCount(s, key, BaseAds(groups, b.iws), b.recs);
    PendingWithin(g, b.recs, b.alignedRows);
    if |b.recs| > 0 {
      var sb := SealBlock(s, hot, groups, key, named, cold, g, b.recs, b.iws);
      var gbs := BuildGroupBlocks(groups, key, named, b.iws);
      CutSnoc(blocks, gblocks, s, groups, key, g, runs, sb, gbs, b.iws);
      NoRuntsSnoc(blocks, s, groups, key, g, runs, sb, b.iws);
      blocks := blocks + [sb];
      if groups != [] { gblocks := gblocks + [gbs]; }
      runs' := runs + [b.iws];
      assert ads != [];
    } else {
      assert Flat(runs) + [] == Flat(runs);
    }
    if |blocks| == 0 {
      var sb := SealBlock(s, hot, groups, key, named, cold, g, b.recs, b.iws);
      blocks, runs' := [sb], [b.iws];
      assert Flat([b.iws]) == [] by { assert [b.iws][..0] == []; }
    } else {
      FlatSome(runs');
    }
  }

  lemma FlatSome(runs: seq<seq<seq<Entry>>>)
    requires runs != [] && runs[|runs| - 1] != []
    ensures Flat(runs) != []
  {
  }

  // ---------------------------------------------------------------- what the scans rely on

  // The runs, laid end to end, are what the block walk steps through.
  lemma {:induction false} RunsCover(cs: ColSeg, g: Grouping, rs: seq<Rec>, runs: seq<seq<seq<Entry>>>, i: nat,
                                     base: nat)
    requires |cs.blocks| == |runs| && i <= |runs| && base <= |rs| && SegOK(cs) && RecsOK(cs, rs)
    requires Flat(runs[..i]) == HeldAds(cs, rs[..base]) && Flat(runs) == HeldAds(cs, rs)
    requires forall bi :: 0 <= bi < |runs| ==> Sealed(cs.blocks[bi], cs.schema, cs.groups, cs.key, g, runs[bi])
    ensures BlocksFrom(cs, rs, i, base)
    decreases |runs| - i
  {
    hide Sealed, ScanBlockFor, Flat, SegOK, Held, TailNamed, BaseRow;
    if i == |runs| {
      assert runs[..i] == runs;
      assert |HeldAds(cs, rs[..base])| == base;
    } else {
      SealedBlock(cs.blocks[i], cs.schema, cs.groups, cs.key, g, runs[i]);
      NextRun(cs, rs, runs, i, base);
      HeldBases(cs, rs[base..base + cs.blocks[i].blk.n]);
      RunsCover(cs, g, rs, runs, i + 1, base + cs.blocks[i].blk.n);
    }
  }

  lemma HeldBases(cs: ColSeg, rs: seq<Rec>)
    ensures BaseAds(cs.groups, HeldAds(cs, rs)) == Bases(cs, rs)
  {
    hide Without, SkipSet, Held;
  }

  lemma SealedBlock(sb: ScanBlock, s: Schema, groups: seq<Group>, key: nat -> nat, g: Grouping, run: seq<seq<Entry>>)
    requires Sealed(sb, s, groups, key, g, run)
    ensures ScanBlockFor(sb, s, key, BaseAds(groups, run)) && sb.blk.n == |run|
  {
  }

  lemma NextRun(cs: ColSeg, rs: seq<Rec>, runs: seq<seq<seq<Entry>>>, i: nat, base: nat)
    requires i < |runs| && base <= |rs| && Flat(runs[..i]) == HeldAds(cs, rs[..base]) && Flat(runs) == HeldAds(cs, rs)
    ensures base + |runs[i]| <= |rs| && HeldAds(cs, rs[base..base + |runs[i]|]) == runs[i]
    ensures Flat(runs[..i + 1]) == HeldAds(cs, rs[..base + |runs[i]|])
  {
    hide Flat, Held;
    var n := |runs[i]|;
    FlatPrefix(runs, i);
    var f := Flat(runs[..i + 1]);
    assert |f| == base + n && f == HeldAds(cs, rs)[..base + n];
    assert f[base..] == runs[i];
    assert HeldAds(cs, rs[base..base + n]) == HeldAds(cs, rs)[base..base + n];
    assert HeldAds(cs, rs[..base + n]) == HeldAds(cs, rs)[..base + n];
  }

  lemma {:induction false} FlatPrefix(runs: seq<seq<seq<Entry>>>, i: nat)
    requires i < |runs|
    ensures Flat(runs[..i + 1]) == Flat(runs[..i]) + runs[i] && Flat(runs[..i + 1]) <= Flat(runs)
    decreases |runs|
  {
    assert runs[..i + 1][..i] == runs[..i];
    if i + 1 == |runs| {
      assert runs[..i + 1] == runs;
    } else {
      var n := |runs| - 1;
      FlatPrefix(runs[..n], i);
      assert runs[..n][..i + 1] == runs[..i + 1];
    }
  }

  // A segment's columns as built, from whole records or from their literal halves, describe its window: every
  // scan over it may rely on them.
  lemma BuiltWindow(w: Window, cs: ColSeg, gblocks: seq<seq<GroupBlock>>, g: Grouping, runs: seq<seq<seq<Entry>>>)
    requires ValidSchema(cs.schema) && Disjoint(cs.schema, cs.groups) && KeyedBy(cs.key, cs.named)
    requires cs.offs == Walk(w, 0) && Readable(w, ad => ad, cs.named)
    requires BuiltAs(cs.blocks, gblocks, cs.schema, cs.groups, cs.key, g, runs,
      Interned(ad => Held(cs, ad), Records(w)))
    ensures WindowOK(w.(col := Some(cs)))
  {
    hide Sealed, BlocksFrom, Cut, Disjoint, ValidSchema, Walk, Held, NoRunts, KeyedBy;
    var rs := Records(w);
    WalkSame(w, w.(col := Some(cs)), 0);
    assert rs[..0] == [] && runs[..0] == [];
    assert Flat([]) == [] && HeldAds(cs, []) == [];
    assert Interned(ad => Held(cs, ad), rs) == HeldAds(cs, rs);
    ReadableRecs(w, cs);
    RunsCover(cs, g, rs, runs, 0, 0);
  }

  // A freshly built segment's translation finds every field of the schema where its tails have it, and its classes
  // answer for a field the dictionary does not number: counting by presence needs nothing more.
  lemma BuiltSees(w: Window, cs: ColSeg, gblocks: seq<seq<GroupBlock>>, g: Grouping, runs: seq<seq<seq<Entry>>>,
                  id: nat)
    requires ValidSchema(cs.schema) && KeyedBy(cs.key, cs.named)
    requires forall id: nat {:trigger cs.stored(id)} :: cs.stored(id) == FreshStored(cs.schema, cs.key, id)
    requires BuiltAs(cs.blocks, gblocks, cs.schema, cs.groups, cs.key, g, runs,
      Interned(ad => Held(cs, ad), Records(w)))
    ensures WindowSees(w.(col := Some(cs)), id)
  {
    hide ScanBlockFor, KeyedBy, ValidSchema, Held, Cut, NoRunts, BaseAds, FieldExact, Flat;
    if id in cs.schema.byId {
      IdAt(cs.schema, id);
      forall b | 0 <= b < |cs.blocks| ensures FieldSeen(cs, cs.blocks[b].esc.cls != [], id) {
        assert Sealed(cs.blocks[b], cs.schema, cs.groups, cs.key, g, runs[b]);
      }
    }
  }

  lemma ReadableRecs(w: Window, cs: ColSeg)
    requires Readable(w, ad => ad, cs.named)
    ensures RecsOK(cs, Records(w))
  {
    hide Walk, BaseRow, ValidAd, AllNamed;
    WalkData(w, 0);
    forall k: nat | k < |Records(w)|
      ensures DistinctIds(Records(w)[k].ad) && TailNamed(cs.schema, cs.named, BaseRow(cs, Records(w)[k].ad))
    {
      ReadableAt(w, ad => ad, cs.named, Walk(w, 0)[k]);
      AdEntries(Records(w)[k].ad);
      NamedBase(cs, Records(w)[k].ad);
    }
  }

  lemma NamedBase(cs: ColSeg, ad: seq<Entry>)
    requires AllNamed(cs.named, ad)
    ensures TailNamed(cs.schema, cs.named, BaseRow(cs, ad))
  {
    hide Half, Without, SkipSet, InSlot;
    var h, b := Held(cs, ad), BaseRow(cs, ad);
    forall j | 0 <= j < |b| ensures cs.named(b[j].id) {
      WithoutMember(h, SkipSet(cs.groups, h), b[j]);
      if cs.native { HalfMember(ad, true, b[j]); }
      var i :| 0 <= i < |ad| && ad[i] == b[j];
    }
  }

  lemma {:induction false} WalkData(w: Window, off: nat)
    ensures forall i :: 0 <= i < |Walk(w, off)| ==> !w.arena[Walk(w, off)[i]].marker
    decreases w.used - off
  {
    if off < w.used && off in w.arena && w.arena[off].len > 0 { WalkData(w, off + w.arena[off].len); }
  }

  lemma {:induction false} WalkSame(w: Window, w': Window, off: nat)
    requires w.arena == w'.arena && w.used == w'.used
    ensures Walk(w, off) == Walk(w', off)
    decreases w.used - off
  {
    if off < w.used && off in w.arena && w.arena[off].len > 0 { WalkSame(w, w', off + w.arena[off].len); }
  }
}
