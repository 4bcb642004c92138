/** The columnar count: zone skip, visibility pass, one narrowing pass per predicated column, and the
    row walk it must agree with. */
module Scan {
  import opened Bytes
  import opened Wire
  import opened AdSchema
  import opened Row
  import opened ColBlock
  import opened Values
  import opened Floats
  import opened Preds
  import opened Groups
  import opened Escapes
  import opened Native

  // ---------------------------------------------------------------- storage and snapshots

  // An arena record: its MVCC interval, its ad, its length; a marker carries no ad.
  datatype Rec = Rec(marker: bool, born: nat, superseded: nat, ad: seq<Entry>, len: nat)

  datatype ScanBlock = ScanBlock(blk: Block, zones: map<nat, Zone>, esc: EscInfo)

  // A sealed segment's columns: its row groups in record order, each record's arena offset, the groups whose
  // whole members left the base rows, whether the columns hold only the literal half of each record, the key
  // its cold tails are written under, the attributes that have one, and the translation its readers apply.
  datatype ColSeg = ColSeg(schema: Schema, blocks: seq<ScanBlock>, offs: seq<nat>, groups: seq<Group>, native: bool,
                           key: nat -> nat, named: nat -> bool, stored: nat -> nat)

  datatype Window = Window(arena: map<nat, Rec>, used: nat, col: Option<ColSeg>)

  datatype Shard = Shard(snapshot: nat, wins: seq<Window>)

  predicate Visible(r: Rec, s0: nat) { r.born <= s0 < r.superseded }

  // The data records of an arena, in append order from an offset on.
  function Walk(w: Window, off: nat): (offs: seq<nat>)
    ensures forall i :: 0 <= i < |offs| ==> offs[i] in w.arena
    decreases w.used - off
  {
    if off < w.used && off in w.arena && w.arena[off].len > 0 then
      (if w.arena[off].marker then [] else [off]) + Walk(w, off + w.arena[off].len)
    else []
  }

  function RecsAt(arena: map<nat, Rec>, offs: seq<nat>): (rs: seq<Rec>)
    requires forall i :: 0 <= i < |offs| ==> offs[i] in arena
    ensures |rs| == |offs| && forall i :: 0 <= i < |rs| ==> rs[i] == arena[offs[i]]
  {
    seq(|offs|, i requires 0 <= i < |offs| => arena[offs[i]])
  }

  function Records(w: Window): (rs: seq<Rec>) { RecsAt(w.arena, Walk(w, 0)) }

  function AdsOf(rs: seq<Rec>): (ads: seq<seq<Entry>>)
    ensures |ads| == |rs| && forall i :: 0 <= i < |rs| ==> ads[i] == rs[i].ad
  {
    seq(|rs|, i requires 0 <= i < |rs| => rs[i].ad)
  }

  // ---------------------------------------------------------------- what a segment's columns hold

  function Held(cs: ColSeg, ad: seq<Entry>): (r: seq<Entry>) { if cs.native then Half(ad, true) else ad }

  // What the base rows hold of a record: its part in the columns, without wholly held groups.
  function BaseRow(cs: ColSeg, ad: seq<Entry>): (r: seq<Entry>)
  {
    Without(Held(cs, ad), SkipSet(cs.groups, Held(cs, ad)))
  }

  function HeldAds(cs: ColSeg, rs: seq<Rec>): (ads: seq<seq<Entry>>)
    ensures |ads| == |rs| && forall i :: 0 <= i < |rs| ==> ads[i] == Held(cs, rs[i].ad)
  {
    seq(|rs|, i requires 0 <= i < |rs| => Held(cs, rs[i].ad))
  }

  function Bases(cs: ColSeg, rs: seq<Rec>): (ads: seq<seq<Entry>>)
    ensures |ads| == |rs| && forall i :: 0 <= i < |rs| ==> ads[i] == BaseRow(cs, rs[i].ad)
  {
    seq(|rs|, i requires 0 <= i < |rs| => BaseRow(cs, rs[i].ad))
  }

  // The block holds the rows of these ads under the segment's schema, with exact zones and escape classes.
  ghost predicate ScanBlockFor(sb: ScanBlock, s: Schema, key: nat -> nat, ads: seq<seq<Entry>>)
  {
    && sb.blk.schema == s && sb.blk.n == |ads| && BlockFor(sb.blk, key, ads)
    && ZonesExact(sb.zones, s, ads) && EscFor(sb.esc, s, ads)
  }

  ghost predicate SegOK(cs: ColSeg)
  {
    ValidSchema(cs.schema) && Disjoint(cs.schema, cs.groups) && KeyedBy(cs.key, cs.named)
  }

  // Whatever a record keeps in its tail, the segment's dictionary numbers.
  ghost predicate RecsOK(cs: ColSeg, rs: seq<Rec>)
  {
    forall k: nat {:trigger rs[k]} ::
      k < |rs| ==> DistinctIds(rs[k].ad) && TailNamed(cs.schema, cs.named, BaseRow(cs, rs[k].ad))
  }

  // A block of the segment holds this run of its records.
  ghost predicate RunFor(sb: ScanBlock, cs: ColSeg, rs: seq<Rec>)
  {
    SegOK(cs) && RecsOK(cs, rs) && ScanBlockFor(sb, cs.schema, cs.key, Bases(cs, rs))
  }

  // Blocks i.. hold the records from base on.
  ghost predicate BlocksFrom(cs: ColSeg, rs: seq<Rec>, i: nat, base: nat)
    requires i <= |cs.blocks|
    decreases |cs.blocks| - i
  {
    if i == |cs.blocks| then base == |rs|
    else
      var n := cs.blocks[i].blk.n;
      base + n <= |rs| && RunFor(cs.blocks[i], cs, rs[base..base + n]) && BlocksFrom(cs, rs, i + 1, base + n)
  }

  // A window whose columns, if it has any, describe its records.
  ghost predicate WindowOK(w: Window)
  {
    w.col.Some? ==> SegOK(w.col.value) && w.col.value.offs == Walk(w, 0) && BlocksFrom(w.col.value, Records(w), 0, 0)
  }

  // The numeric reader sees field i of these records as they are: the tails number it by its own id, or have no
  // number for it and do not give its id to another attribute, or it reads each of these records all the same.
  ghost predicate FieldReads(cs: ColSeg, rs: seq<Rec>, i: nat)
  {
    i < |cs.schema.fields| ==>
      || ReadsUnder(cs.key, cs.named, cs.schema.fields[i].id, cs.schema.fields[i].id)
      || forall k: nat {:trigger rs[k]} :: k < |rs| ==> RecordReads(cs, rs[k].ad, i)
  }

  // The value is in its slot, or the record has no number for the field and its tail has none under the field's id.
  ghost predicate RecordReads(cs: ColSeg, ad: seq<Entry>, i: nat)
    requires i < |cs.schema.fields|
  {
    var base, id := BaseRow(cs, ad), cs.schema.fields[i].id;
    SlotLit(cs.schema, base, i).Some? || (AttrVal(ad, id).None? && EscapedVal(cs.schema, cs.key, base, id).None?)
  }

  ghost predicate WindowReads(w: Window, id: nat)
  {
    w.col.Some? && id in w.col.value.schema.byId ==> FieldReads(w.col.value, Records(w), w.col.value.schema.byId[id])
  }

  ghost predicate PredsRead(w: Window, preds: seq<Pred>)
  {
    forall j :: 0 <= j < |preds| ==> WindowReads(w, preds[j].id)
  }

  // The base row has the number the ad has for every attribute of the schema: a group does not take it, and an
  // expression left in the record is no number.
  lemma BaseValue(cs: ColSeg, ad: seq<Entry>, id: nat)
    requires SegOK(cs) && DistinctIds(ad) && id in cs.schema.byId
    ensures AttrVal(BaseRow(cs, ad), id) == AttrVal(ad, id)
  {
    hide Without, Lookup, Whole, Half, ValidSchema;
    var h := Held(cs, ad);
    assert id !in SkipSet(cs.groups, h);
    LookupWithout(h, SkipSet(cs.groups, h), id);
    LookupHalf(ad, id);
  }

  // ---------------------------------------------------------------- what the columns show

  // A record as the segment's columns show it to the numeric readers.
  function ShownRec(cs: ColSeg, r: Rec): (h: Rec) { r.(ad := ShownAd(cs.schema, cs.key, BaseRow(cs, r.ad), 0)) }

  function ShownRecs(cs: ColSeg, rs: seq<Rec>): (hs: seq<Rec>)
    ensures |hs| == |rs| && forall k :: 0 <= k < |rs| ==> hs[k] == ShownRec(cs, rs[k])
  {
    seq(|rs|, k requires 0 <= k < |rs| => ShownRec(cs, rs[k]))
  }

  lemma ShownSlice(cs: ColSeg, rs: seq<Rec>, a: nat, b: nat)
    requires a <= b <= |rs|
    ensures ShownRecs(cs, rs)[a..b] == ShownRecs(cs, rs[a..b])
  {
    hide ShownRec;
  }

  // A field read as it is has the record's own value.
  lemma ShownValue(cs: ColSeg, rs: seq<Rec>, i: nat, k: nat)
    requires SegOK(cs) && RecsOK(cs, rs) && FieldReads(cs, rs, i) && i < |cs.schema.fields| && k < |rs|
    ensures AttrVal(ShownRec(cs, rs[k]).ad, cs.schema.fields[i].id) == AttrVal(rs[k].ad, cs.schema.fields[i].id)
  {
    hide BaseRow, Lookup, ShownAd, SlotLit, ValidSchema, Disjoint, KeyedBy, TailNamed, ColdEntries, ReadsUnder;
    var id, base := cs.schema.fields[i].id, BaseRow(cs, rs[k].ad);
    SegField(cs, i);
    BaseDistinct(cs, rs[k].ad);
    BaseValue(cs, rs[k].ad, id);
    if RecordReads(cs, rs[k].ad, i) {
      ShownLookup(cs.schema, cs.key, base, 0, i);
      if SlotLit(cs.schema, base, i).Some? { ShownAgrees(cs.schema, cs.key, base, i); }
    } else {
      assert ReadsUnder(cs.key, cs.named, id, id) by { assert rs[k] == rs[k]; }
      ReadApart(cs.schema, cs.key, cs.named, base, id);
      ShownAgrees(cs.schema, cs.key, base, i);
    }
  }

  lemma ReadApart(s: Schema, key: nat -> nat, named: nat -> bool, ad: seq<Entry>, id: nat)
    requires KeyedBy(key, named) && TailNamed(s, named, ad) && ReadsUnder(key, named, id, id)
    ensures key(id) == id && TailApart(s, key, ad, id)
  {
    hide InSlot;
  }

  lemma BaseDistinct(cs: ColSeg, ad: seq<Entry>)
    requires DistinctIds(ad)
    ensures DistinctIds(BaseRow(cs, ad))
  {
    hide Half, SkipSet;
    if cs.native { HalfDistinct(ad, true); }
    WithoutDistinct(Held(cs, ad), SkipSet(cs.groups, Held(cs, ad)));
  }

  // The columns answer for these attributes: all are numeric fields of the segment's schema.
  predicate Shows(w: Window, ids: seq<nat>)
  {
    w.col.Some? && forall i :: 0 <= i < |ids| ==> NumericId(w.col.value.schema, ids[i])
  }

  // A window as the scans see it: through its columns where they answer, and record by record elsewhere.
  function ShownWindow(w: Window, ids: seq<nat>): (h: Window)
  {
    if Shows(w, ids) then w.(arena := map o | o in w.arena :: ShownRec(w.col.value, w.arena[o])) else w
  }

  // It has the same records in the same places.
  lemma ShownPlace(w: Window, ids: seq<nat>, off: nat)
    ensures var h := ShownWindow(w, ids);
      && h.used == w.used && (off in h.arena <==> off in w.arena)
      && (off in w.arena ==> h.arena[off].len == w.arena[off].len && h.arena[off].marker == w.arena[off].marker)
  {
  }

  lemma {:induction false} ShownWalk(w: Window, ids: seq<nat>, off: nat)
    ensures Walk(ShownWindow(w, ids), off) == Walk(w, off)
    decreases w.used - off
  {
    hide ShownWindow;
    ShownPlace(w, ids, off);
    if off < w.used && off in w.arena && w.arena[off].len > 0 { ShownWalk(w, ids, off + w.arena[off].len); }
  }

  lemma ShownRecords(w: Window, ids: seq<nat>)
    ensures Records(ShownWindow(w, ids)) == if Shows(w, ids) then ShownRecs(w.col.value, Records(w)) else Records(w)
  {
    hide Walk, ShownRec;
    ShownWalk(w, ids, 0);
  }

  function ShownWins(wins: seq<Window>, ids: seq<nat>): (hs: seq<Window>)
    ensures |hs| == |wins| && forall i :: 0 <= i < |wins| ==> hs[i] == ShownWindow(wins[i], ids)
  {
    seq(|wins|, i requires 0 <= i < |wins| => ShownWindow(wins[i], ids))
  }

  function ShownShards(shards: seq<Shard>, ids: seq<nat>): (hs: seq<Shard>)
    ensures |hs| == |shards| && forall i ::
      0 <= i < |shards| ==> hs[i] == Shard(shards[i].snapshot, ShownWins(shards[i].wins, ids))
  {
    seq(|shards|, i requires 0 <= i < |shards| => Shard(shards[i].snapshot, ShownWins(shards[i].wins, ids)))
  }

  function PredIds(preds: seq<Pred>): (ids: seq<nat>)
    ensures |ids| == |preds| && forall j :: 0 <= j < |preds| ==> ids[j] == preds[j].id
  {
    seq(|preds|, j requires 0 <= j < |preds| => preds[j].id)
  }

  // ---------------------------------------------------------------- what is being counted

  predicate Matches(r: Rec, s0: nat, preds: seq<Pred>) { Visible(r, s0) && HoldsAll(preds, r.ad) }

  function CountMatching(rs: seq<Rec>, s0: nat, preds: seq<Pred>): (n: nat)
    ensures n <= |rs|
  {
    if rs == [] then 0
    else CountMatching(rs[..|rs| - 1], s0, preds) + if Matches(rs[|rs| - 1], s0, preds) then 1 else 0
  }

  lemma {:induction false} CountConcat(a: seq<Rec>, b: seq<Rec>, s0: nat, preds: seq<Pred>)
    ensures CountMatching(a + b, s0, preds) == CountMatching(a, s0, preds) + CountMatching(b, s0, preds)
    decreases |b|
  {
    hide Matches;
    if b == [] {
      assert a + b == a;
    } else {
      var n := |b| - 1;
      CountConcat(a, b[..n], s0, preds);
      assert (a + b)[..|a + b| - 1] == a + b[..n];
    }
  }

  lemma {:induction false} CountNone(rs: seq<Rec>, s0: nat, preds: seq<Pred>)
    requires forall i :: 0 <= i < |rs| ==> !Matches(rs[i], s0, preds)
    ensures CountMatching(rs, s0, preds) == 0
  {
    hide Matches;
    if rs != [] { CountNone(rs[..|rs| - 1], s0, preds); }
  }

  function WindowsCount(wins: seq<Window>, s0: nat, preds: seq<Pred>): (n: nat)
  {
    if wins == [] then 0
    else WindowsCount(wins[..|wins| - 1], s0, preds) + CountMatching(Records(wins[|wins| - 1]), s0, preds)
  }

  // The row-walk count of the whole collection.
  function RowCount(shards: seq<Shard>, preds: seq<Pred>): (n: nat)
  {
    if shards == [] then 0
    else
      RowCount(shards[..|shards| - 1], preds) +
        WindowsCount(shards[|shards| - 1].wins, shards[|shards| - 1].snapshot, preds)
  }

  // ---------------------------------------------------------------- the row walk

  lemma WalkStep(w: Window, off: nat)
    requires off < w.used && off in w.arena && w.arena[off].len > 0
    ensures RecsAt(w.arena, Walk(w, off)) ==
      (if w.arena[off].marker then [] else [w.arena[off]]) + RecsAt(w.arena, Walk(w, off + w.arena[off].len))
  {
    var head: seq<nat> := if w.arena[off].marker then [] else [off];
    var tail := Walk(w, off + w.arena[off].len);
    assert Walk(w, off) == head + tail;
    assert RecsAt(w.arena, head + tail) == RecsAt(w.arena, head) + RecsAt(w.arena, tail);
  }

  // Test the predicated attributes of one ad, stopping at the first that fails.
  method TestAd(ad: seq<Entry>, preds: seq<Pred>) returns (ok: bool)
    ensures ok == HoldsAll(preds, ad)
  {
    hide Holds;
    var i := 0;
    assert preds[0..] == preds;
    while i < |preds|
      invariant 0 <= i <= |preds|
      invariant HoldsAll(preds, ad) == HoldsAll(preds[i..], ad)
    {
      assert preds[i..][1..] == preds[i + 1..];
      if !Holds(preds[i], ad) {
        return false;
      }
      i := i + 1;
    }
    return true;
  }

  lemma WalkCount(w: Window, off: nat, s0: nat, preds: seq<Pred>)
    ensures CountMatching(RecsAt(w.arena, Walk(w, off)), s0, preds) ==
      if off < w.used && off in w.arena && w.arena[off].len > 0 then
        (if !w.arena[off].marker && Matches(w.arena[off], s0, preds) then 1 else 0)
        + CountMatching(RecsAt(w.arena, Walk(w, off + w.arena[off].len)), s0, preds)
      else 0
  {
    hide Matches;
    if off < w.used && off in w.arena && w.arena[off].len > 0 {
      WalkStep(w, off);
      var r := w.arena[off];
      var rest := RecsAt(w.arena, Walk(w, off + r.len));
      if r.marker {
        assert [] + rest == rest;
      } else {
        CountConcat([r], rest, s0, preds);
        assert [r][..0] == [];
      }
    }
  }

  // The row fallback: walk the window's visible records, reading only the predicated attributes.
  method BruteCountMulti(w: Window, s0: nat, preds: seq<Pred>) returns (count: nat)
    ensures count == CountMatching(Records(w), s0, preds)
  {
    hide Walk, HoldsAll, Visible, CountMatching;
    count := 0;
    var off := 0;
    while off < w.used && off in w.arena && w.arena[off].len > 0
      invariant count + CountMatching(RecsAt(w.arena, Walk(w, off)), s0, preds) == CountMatching(Records(w), s0, preds)
      decreases w.used - off
    {
      var r := w.arena[off];
      WalkCount(w, off, s0, preds);
      if !r.marker && Visible(r, s0) {
        var ok := TestAd(r.ad, preds);
        if ok {
          count := count + 1;
        }
      }
      off := off + r.len;
    }
    WalkCount(w, off, s0, preds);
  }

  // ---------------------------------------------------------------- the columnar passes

  function CountTrue(keep: seq<bool>): (n: nat)
    ensures n <= |keep|
    ensures n == 0 ==> forall k :: 0 <= k < |keep| ==> !keep[k]
  {
    if keep == [] then 0 else CountTrue(keep[..|keep| - 1]) + if keep[|keep| - 1] then 1 else 0
  }

  lemma NoneTrue()
    ensures CountTrue([]) == 0
  {
  }

  lemma CountTrueStep(keep: seq<bool>, k: nat)
    requires k < |keep|
    ensures CountTrue(keep[..k + 1]) == CountTrue(keep[..k]) + if keep[k] then 1 else 0
  {
    assert keep[..k + 1][..k] == keep[..k];
  }

  // Pass 0: which of the block's records the snapshot sees.
  method VisiblePass(arena: map<nat, Rec>, offs: seq<nat>, base: nat, n: nat, s0: nat, keep: array<bool>)
    returns (live: nat)
    requires n <= keep.Length && forall i :: 0 <= i < |offs| ==> offs[i] in arena
    modifies keep
    ensures forall k :: 0 <= k < n ==> keep[k] == (base + k < |offs| && Visible(arena[offs[base + k]], s0))
    ensures live == CountTrue(keep[..n])
  {
    live := 0;
    var k := 0;
    while k < n
      invariant 0 <= k <= n
      invariant forall j :: 0 <= j < k ==> keep[j] == (base + j < |offs| && Visible(arena[offs[base + j]], s0))
      invariant live == CountTrue(keep[..k])
    {
      var vis := base + k < |offs| && Visible(arena[offs[base + k]], s0);
      ghost var was := keep[..k];
      keep[k] := vis;
      assert keep[..k] == was;
      CountTrueStep(keep[..], k);
      assert keep[..][..k + 1] == keep[..k + 1] && keep[..][..k] == keep[..k];
      if vis {
        live := live + 1;
      }
      k := k + 1;
    }
  }

  // One tight typed load of a whole column; escaped slots hold whatever bytes were there.
  method LoadIntBatch(b: Block, ghost key: nat -> nat, ghost ads: seq<seq<Entry>>, i: nat, dst: array<int>)
    requires BlockFor(b, key, ads) && i < |b.schema.fields| && Numeric(b.schema.fields[i]) && b.n <= dst.Length
    modifies dst
    ensures forall k ::
      0 <= k < b.n ==>
        RawSlot(b, i, k).Some? && |RawSlot(b, i, k).value| <= 8 &&
          dst[k] == ReadInt(RawSlot(b, i, k).value, b.schema.fields[i].uns)
  {
    hide RawSlot, ReadInt, TypedLoad, BlockFor;
    var k := 0;
    while k < b.n
      invariant 0 <= k <= b.n
      invariant forall j ::
        0 <= j < k ==>
          RawSlot(b, i, j).Some? && |RawSlot(b, i, j).value| <= 8 &&
            dst[j] == ReadInt(RawSlot(b, i, j).value, b.schema.fields[i].uns)
    {
      RawWidth(b, key, ads, i, k);
      var raw := RawSlot(b, i, k).value;
      TypedLoadIsRead(raw, b.schema.fields[i].uns);
      dst[k] := TypedLoad(raw, b.schema.fields[i].uns);
      k := k + 1;
    }
  }

  lemma RawWidth(b: Block, key: nat -> nat, ads: seq<seq<Entry>>, i: nat, k: nat)
    requires BlockFor(b, key, ads) && i < |b.schema.fields| && Numeric(b.schema.fields[i]) && k < b.n
    ensures RawSlot(b, i, k).Some? && |RawSlot(b, i, k).value| == b.schema.fields[i].width &&
      SlotWidth(b.schema.fields[i].width)
  {
    hide BlockOf, RawSlot, SlotOff, BoolsBefore;
    var recs :| BlockOf(b, recs) && RowsOf(b.schema, key, ads, recs);
    BlockCount(b, recs);
    RawSlotSeesRow(b, recs, i, k);
    assert RowOf(b.schema, key, ads[k], recs[k]);
    assert FieldOK(b.schema, i);
    SlotInside(b.schema, i);
  }

  // One record's test: the loaded column value, or the cold tail for an escaped one. A real slot holds
  // a bit pattern, so the raw value is converted by kind.
  method TestRecord(sb: ScanBlock, ghost s: Schema, ghost key: nat -> nat, ghost ads: seq<seq<Entry>>, i: nat, p: Pred,
                    k: nat, escFree: bool, raw: int)
    returns (ok: bool)
    requires ScanBlockFor(sb, s, key, ads) && k < sb.blk.n
    requires i < |s.fields| && Numeric(s.fields[i]) && s.fields[i].id == p.id
    requires escFree == (i in sb.zones && !sb.zones[i].escaped)
    requires RawSlot(sb.blk, i, k).Some? && |RawSlot(sb.blk, i, k).value| <= 8
    requires raw == ReadInt(RawSlot(sb.blk, i, k).value, s.fields[i].uns)
    ensures ok == Holds(p, ShownAd(s, key, ads[k], 0))
  {
    hide BlockFor, Holds, Eval, ReadInt, RawSlot, ShownAd, Escaped, ZonesExact, Lookup;
    NarrowValue(sb, s, key, ads, i, p, k);
    if !escFree && Escaped(sb.blk, i, k) {
      var node := TailLookup(TailAt(sb.blk, k), p.id);
      ok := node.Some? && NodeVal(node.value).Some? && Eval(p.tests, FOf(NodeVal(node.value).value));
    } else {
      ok := Eval(p.tests, if sb.blk.schema.fields[i].kind == KReal then OfBits(raw % TWO64) else OfInt(raw));
    }
  }

  // Clear keep[k] for every still-candidate record failing this field's predicate.
  method NarrowByField(sb: ScanBlock, ghost s: Schema, ghost key: nat -> nat, ghost ads: seq<seq<Entry>>, i: nat,
                       p: Pred, keep: array<bool>, scratch: array<int>)
    returns (live: nat)
    requires ScanBlockFor(sb, s, key, ads)
    requires i < |s.fields| && Numeric(s.fields[i]) && s.fields[i].id == p.id
    requires sb.blk.n <= keep.Length && sb.blk.n <= scratch.Length
    modifies keep, scratch
    ensures forall k :: 0 <= k < sb.blk.n ==> keep[k] == (old(keep[k]) && Holds(p, ShownAd(s, key, ads[k], 0)))
    ensures live == CountTrue(keep[..sb.blk.n])
  {
    hide ScanBlockFor, BlockFor, CountTrue, Holds, Eval, ReadInt, RawSlot, ShownAd, Escaped;
    var b := sb.blk;
    ScanBlockFacts(sb, s, key, ads);
    LoadIntBatch(b, key, ads, i, scratch);
    var escFree := i in sb.zones && !sb.zones[i].escaped;
    live := 0;
    var k := 0;
    assert keep[..0] == [];
    NoneTrue();
    while k < b.n
      invariant 0 <= k <= b.n
      invariant forall j :: 0 <= j < k ==> keep[j] == (old(keep[j]) && Holds(p, ShownAd(s, key, ads[j], 0)))
      invariant forall j :: k <= j < b.n ==> keep[j] == old(keep[j])
      invariant forall j ::
        0 <= j < b.n ==>
          RawSlot(b, i, j).Some? && |RawSlot(b, i, j).value| <= 8 &&
            scratch[j] == ReadInt(RawSlot(b, i, j).value, b.schema.fields[i].uns)
      invariant live == CountTrue(keep[..k])
    {
      ghost var was := keep[..k];
      if keep[k] {
        var ok := TestRecord(sb, s, key, ads, i, p, k, escFree, scratch[k]);
        if ok {
          live := live + 1;
        } else {
          keep[k] := false;
        }
      }
      assert keep[..k] == was;
      CountTrueStep(keep[..], k);
      assert keep[..][..k + 1] == keep[..k + 1] && keep[..][..k] == keep[..k];
      k := k + 1;
    }
  }

  lemma ScanBlockFacts(sb: ScanBlock, s: Schema, key: nat -> nat, ads: seq<seq<Entry>>)
    requires ScanBlockFor(sb, s, key, ads)
    ensures sb.blk.schema == s && sb.blk.n == |ads| && BlockFor(sb.blk, key, ads) && ZonesExact(sb.zones, s, ads)
  {
  }

  // What one narrowing step reads decides the predicate on the ad as shown.
  lemma NarrowValue(sb: ScanBlock, s: Schema, key: nat -> nat, ads: seq<seq<Entry>>, i: nat, p: Pred, k: nat)
    requires ScanBlockFor(sb, s, key, ads)
    requires i < |s.fields| && Numeric(s.fields[i]) && s.fields[i].id == p.id && k < sb.blk.n
    ensures Escaped(sb.blk, i, k) ==> !(i in sb.zones && !sb.zones[i].escaped)
    ensures Escaped(sb.blk, i, k) ==>
      (Holds(p, ShownAd(s, key, ads[k], 0)) <==>
       match Lookup(ReadEntries(TailAt(sb.blk, k)), p.id)
       case Some(n) => NodeVal(n).Some? && Eval(p.tests, FOf(NodeVal(n).value))
       case None => false)
    ensures !Escaped(sb.blk, i, k) && RawSlot(sb.blk, i, k).Some? && |RawSlot(sb.blk, i, k).value| <= 8 ==>
      var x := ReadInt(RawSlot(sb.blk, i, k).value, s.fields[i].uns);
      (Holds(p, ShownAd(s, key, ads[k], 0)) <==>
        Eval(p.tests, if s.fields[i].kind == KReal then OfBits(x % TWO64) else OfInt(x)))
  {
    hide BlockFor, Eval, ReadInt, RawSlot, Escaped, Lookup, ReadEntries, TailAt, GetLE, SlotLit, ShownAd;
    var b := sb.blk;
    ColumnShown(b, key, ads, i, k);
    EscapedExact(b, key, ads, i, k);
    if Escaped(b, i, k) {
      if i in sb.zones { assert ZoneExact(sb.zones[i], s, ads, i); }
    } else {
      RawWidth(b, key, ads, i, k);
      RealWidth(b, key, ads, i);
      RawBits(RawSlot(b, i, k).value);
    }
  }

  lemma RealWidth(b: Block, key: nat -> nat, ads: seq<seq<Entry>>, i: nat)
    requires BlockFor(b, key, ads) && i < |b.schema.fields|
    ensures b.schema.fields[i].kind == KReal ==> b.schema.fields[i].width == 8 && !b.schema.fields[i].uns
  {
    hide BlockOf;
    var recs :| BlockOf(b, recs) && RowsOf(b.schema, key, ads, recs);
    BlockCount(b, recs);
    assert FieldOK(b.schema, i);
  }

  // ---------------------------------------------------------------- counting a block

  // Predicate j is on field idxs[j] of the schema.
  ghost predicate Resolved(s: Schema, preds: seq<Pred>, idxs: seq<nat>)
  {
    |idxs| == |preds| && forall j :: 0 <= j < |preds| ==>
      idxs[j] < |s.fields| && Numeric(s.fields[idxs[j]]) && s.fields[idxs[j]].id == preds[j].id
  }

  // Map each predicate to its field in this segment's own schema.
  method ResolveFields(s: Schema, preds: seq<Pred>) returns (idxs: seq<nat>, ok: bool)
    requires ValidSchema(s)
    ensures ok ==> Resolved(s, preds, idxs)
    ensures ok <==> forall j :: 0 <= j < |preds| ==> NumericId(s, preds[j].id)
  {
    idxs := [];
    for j := 0 to |preds|
      invariant Resolved(s, preds[..j], idxs) && forall i :: 0 <= i < j ==> NumericId(s, preds[i].id)
    {
      if !NumericId(s, preds[j].id) {
        return [], false;
      }
      assert IdOK(s, preds[j].id);
      idxs := idxs + [s.byId[preds[j].id]];
    }
    assert preds[..|preds|] == preds;
    ok := true;
  }

  method BlockMayMatch(sb: ScanBlock, idxs: seq<nat>, preds: seq<Pred>) returns (may: bool)
    requires |idxs| == |preds|
    ensures !may ==> exists j :: 0 <= j < |preds| && !MayMatch(sb.zones, idxs[j], preds[j].tests)
    ensures may ==> forall j :: 0 <= j < |preds| ==> MayMatch(sb.zones, idxs[j], preds[j].tests)
  {
    for j := 0 to |preds|
      invariant forall i :: 0 <= i < j ==> MayMatch(sb.zones, idxs[i], preds[i].tests)
    {
      if !MayMatch(sb.zones, idxs[j], preds[j].tests) {
        return false;
      }
    }
    return true;
  }

  // A ruled-out block escaped nothing of the field, so what it shows is what it holds.
  lemma PrunedShown(sb: ScanBlock, cs: ColSeg, rs: seq<Rec>, i: nat, p: Pred, k: nat)
    requires RunFor(sb, cs, rs) && i < |cs.schema.fields| && cs.schema.fields[i].id == p.id && k < |rs|
    requires !MayMatch(sb.zones, i, p.tests)
    ensures !Holds(p, ShownRec(cs, rs[k]).ad)
  {
    hide BlockFor, BaseRow, KeyedBy, TailNamed, Lookup, ShownAd, AnyExcluded, Eval, Covers, FOf, ValidSchema, Disjoint,
      NodeVal;
    var bases := Bases(cs, rs);
    PruneSound(sb.zones, cs.schema, bases, i, p, k);
    assert ZoneExact(sb.zones[i], cs.schema, bases, i);
    assert InZone(sb.zones[i], cs.schema, bases[k], i);
    BaseDistinct(cs, rs[k].ad);
    ShownAgrees(cs.schema, cs.key, bases[k], i);
  }

  // A skipped block held nothing to count.
  lemma SkippedBlock(sb: ScanBlock, cs: ColSeg, rs: seq<Rec>, idxs: seq<nat>, preds: seq<Pred>, s0: nat)
    requires RunFor(sb, cs, rs) && Resolved(cs.schema, preds, idxs)
    requires exists j :: 0 <= j < |preds| && !MayMatch(sb.zones, idxs[j], preds[j].tests)
    ensures CountMatching(ShownRecs(cs, rs), s0, preds) == 0 && forall k ::
      0 <= k < |rs| ==> !Matches(ShownRecs(cs, rs)[k], s0, preds)
  {
    hide RunFor, MayMatch, Holds, ShownRec;
    var hs := ShownRecs(cs, rs);
    var j :| 0 <= j < |preds| && !MayMatch(sb.zones, idxs[j], preds[j].tests);
    forall k | 0 <= k < |rs| ensures !Matches(hs[k], s0, preds) {
      PrunedShown(sb, cs, rs, idxs[j], preds[j], k);
      HoldsAllIff(preds, hs[k].ad);
    }
    CountNone(hs, s0, preds);
  }

  // The survivors of every pass are the matching records.
  lemma {:induction false} KeptIsCount(keep: seq<bool>, rs: seq<Rec>, s0: nat, preds: seq<Pred>)
    requires |keep| == |rs| && forall k :: 0 <= k < |rs| ==> keep[k] == Matches(rs[k], s0, preds)
    ensures CountTrue(keep) == CountMatching(rs, s0, preds)
  {
    hide Matches;
    if keep != [] {
      KeptIsCount(keep[..|keep| - 1], rs[..|rs| - 1], s0, preds);
    }
  }

  // Visibility, then one narrowing pass per predicate, ending early when nothing is left.
  method NarrowBlock(sb: ScanBlock, cs: ColSeg, w: Window, base: nat, s0: nat, idxs: seq<nat>, preds: seq<Pred>,
                     keep: array<bool>, scratch: array<int>)
    returns (live: nat)
    requires InWindow(sb, cs, w, base) && Resolved(cs.schema, preds, idxs)
    requires sb.blk.n <= keep.Length && sb.blk.n <= scratch.Length
    modifies keep, scratch
    ensures live == CountTrue(keep[..sb.blk.n])
    ensures forall k :: 0 <= k < sb.blk.n ==> keep[k] == Matches(ShownRun(sb, cs, w, base)[k], s0, preds)
  {
    hide ScanBlockFor, CountTrue, CountMatching, Holds, HoldsAll, Visible, SegOK, BaseRow, ShownAd, TailNamed;
    var n := sb.blk.n;
    ghost var rs, hs := BlockRun(sb, cs, w, base), ShownRun(sb, cs, w, base);
    live := VisiblePass(w.arena, cs.offs, base, n, s0, keep);
    var i := 0;
    forall k | 0 <= k < n
      ensures HoldsAll(preds[..0], hs[k].ad) && Visible(hs[k], s0) == Visible(rs[k], s0)
    {
      NoProbes(hs[k].ad);
      SeenAlike(cs, rs[k], s0);
    }
    while i < |preds| && live > 0
      invariant 0 <= i <= |preds|
      invariant forall k :: 0 <= k < n ==> keep[k] == (Visible(hs[k], s0) && HoldsAll(preds[..i], hs[k].ad))
      invariant live == CountTrue(keep[..n])
    {
      live := NarrowByField(sb, cs.schema, cs.key, Bases(cs, rs), idxs[i], preds[i], keep, scratch);
      assert preds[..i + 1] == preds[..i] + [preds[i]];
      forall k | 0 <= k < n
        ensures HoldsAll(preds[..i + 1], hs[k].ad) <==>
          HoldsAll(preds[..i], hs[k].ad) && Holds(preds[i], ShownAd(cs.schema, cs.key, Bases(cs, rs)[k], 0))
      {
        HoldsAllSnoc(preds[..i], preds[i], hs[k].ad);
      }
      i := i + 1;
    }
    assert preds == preds[..i] + preds[i..];
    forall k | 0 <= k < n ensures keep[..n][k] == Matches(hs[k], s0, preds) {
      HoldsAllSplit(preds, i, hs[k].ad);
    }
    assert forall k :: 0 <= k < n ==> keep[k] == keep[..n][k];
  }

  lemma SeenAlike(cs: ColSeg, r: Rec, s0: nat)
    ensures Visible(ShownRec(cs, r), s0) == Visible(r, s0)
  {
  }

  lemma SegField(cs: ColSeg, i: nat)
    requires SegOK(cs) && i < |cs.schema.fields|
    ensures cs.schema.fields[i].id in cs.schema.byId && cs.schema.byId[cs.schema.fields[i].id] == i
  {
    FieldAt(cs.schema, i);
  }

  // The run of records a block at this base stands for.
  ghost function BlockRun(sb: ScanBlock, cs: ColSeg, w: Window, base: nat): (rs: seq<Rec>)
    requires (forall i :: 0 <= i < |cs.offs| ==> cs.offs[i] in w.arena) && base + sb.blk.n <= |cs.offs|
    ensures |rs| == sb.blk.n && forall k :: 0 <= k < |rs| ==> rs[k] == w.arena[cs.offs[base + k]]
  {
    RecsAt(w.arena, cs.offs)[base..base + sb.blk.n]
  }

  ghost function ShownRun(sb: ScanBlock, cs: ColSeg, w: Window, base: nat): (hs: seq<Rec>)
    requires (forall i :: 0 <= i < |cs.offs| ==> cs.offs[i] in w.arena) && base + sb.blk.n <= |cs.offs|
    ensures |hs| == sb.blk.n
  {
    ShownRecs(cs, BlockRun(sb, cs, w, base))
  }

  ghost predicate InWindow(sb: ScanBlock, cs: ColSeg, w: Window, base: nat)
  {
    (forall i :: 0 <= i < |cs.offs| ==> cs.offs[i] in w.arena) && base + sb.blk.n <= |cs.offs| &&
      RunFor(sb, cs, BlockRun(sb, cs, w, base))
  }

  method CountBlock(sb: ScanBlock, cs: ColSeg, w: Window, base: nat, s0: nat, idxs: seq<nat>, preds: seq<Pred>,
                    keep: array<bool>, scratch: array<int>)
    returns (live: nat)
    requires InWindow(sb, cs, w, base) && Resolved(cs.schema, preds, idxs)
    requires sb.blk.n <= keep.Length && sb.blk.n <= scratch.Length
    modifies keep, scratch
    ensures live == CountMatching(ShownRun(sb, cs, w, base), s0, preds)
  {
    hide RunFor, CountTrue, CountMatching, Matches, Resolved, ShownRec;
    live := NarrowBlock(sb, cs, w, base, s0, idxs, preds, keep, scratch);
    KeptIsCount(keep[..sb.blk.n], ShownRun(sb, cs, w, base), s0, preds);
  }

  // An early end is sound: with nothing left, later conjuncts cannot add a match.
  lemma HoldsAllSplit(preds: seq<Pred>, i: nat, ad: seq<Entry>)
    requires i <= |preds|
    ensures HoldsAll(preds, ad) ==> HoldsAll(preds[..i], ad)
    ensures i == |preds| ==> HoldsAll(preds, ad) == HoldsAll(preds[..i], ad)
  {
    hide Holds;
    assert preds[..|preds|] == preds;
    HoldsAllIff(preds, ad);
    HoldsAllIff(preds[..i], ad);
  }

  // ---------------------------------------------------------------- the whole scan

  // A segment's block and its run of records, at the walk's current place.
  lemma NextBlock(w: Window, i: nat, base: nat)
    requires w.col.Some? && WindowOK(w) && i < |w.col.value.blocks| && BlocksFrom(w.col.value, Records(w), i, base)
    ensures var cs, rs := w.col.value, Records(w); var sb := cs.blocks[i];
      && InWindow(sb, cs, w, base) && base + sb.blk.n <= |rs| && BlockRun(sb, cs, w, base) == rs[base..base + sb.blk.n]
      && ShownRun(sb, cs, w, base) == ShownRecs(cs, rs)[base..base + sb.blk.n]
      && BlocksFrom(cs, rs, i + 1, base + sb.blk.n)
  {
    hide RunFor, SegOK, Walk, ShownRec;
    ShownSlice(w.col.value, Records(w), base, base + w.col.value.blocks[i].blk.n);
  }

  method CountSegment(w: Window, s0: nat, preds: seq<Pred>, idxs: seq<nat>) returns (count: nat)
    requires w.col.Some? && WindowOK(w) && Resolved(w.col.value.schema, preds, idxs)
    ensures count == CountMatching(ShownRecs(w.col.value, Records(w)), s0, preds)
  {
    hide RunFor, CountMatching, Walk, RecsAt, SegOK, InWindow, BlockRun, ShownRun, ShownRecs;
    var cs := w.col.value;
    ghost var rs := Records(w);
    ghost var hs := ShownRecs(cs, rs);
    count := 0;
    var base: nat := 0;
    var keep := new bool[0];
    var scratch := new int[0];
    var i := 0;
    assert hs[..0] == [];
    CountNothing(s0, preds);
    while i < |cs.blocks|
      invariant 0 <= i <= |cs.blocks| && base <= |rs| && keep.Length == scratch.Length
      invariant fresh(keep) && fresh(scratch)
      invariant BlocksFrom(cs, rs, i, base)
      invariant count == CountMatching(hs[..base], s0, preds)
    {
      var sb := cs.blocks[i];
      var n := sb.blk.n;
      NextBlock(w, i, base);
      assert hs[..base + n] == hs[..base] + hs[base..base + n];
      CountConcat(hs[..base], hs[base..base + n], s0, preds);
      var may := BlockMayMatch(sb, idxs, preds);
      if !may {
        SkippedRun(sb, cs, w, base, idxs, preds, s0);
      } else {
        if keep.Length < n {
          keep := new bool[n](_ => false);
          scratch := new int[n](_ => 0);
        }
        var live := CountBlock(sb, cs, w, base, s0, idxs, preds, keep, scratch);
        count := count + live;
      }
      base := base + n;
      i := i + 1;
    }
    assert hs[..base] == hs;
  }

  lemma SkippedRun(sb: ScanBlock, cs: ColSeg, w: Window, base: nat, idxs: seq<nat>, preds: seq<Pred>, s0: nat)
    requires InWindow(sb, cs, w, base) && Resolved(cs.schema, preds, idxs)
    requires exists j :: 0 <= j < |preds| && !MayMatch(sb.zones, idxs[j], preds[j].tests)
    ensures CountMatching(ShownRun(sb, cs, w, base), s0, preds) == 0 && forall k ::
      0 <= k < sb.blk.n ==> !Matches(ShownRun(sb, cs, w, base)[k], s0, preds)
  {
    hide RunFor, Matches, CountMatching, MayMatch, ShownRec, Resolved;
    SkippedBlock(sb, cs, BlockRun(sb, cs, w, base), idxs, preds, s0);
  }

  lemma CountNothing(s0: nat, preds: seq<Pred>)
    ensures CountMatching([], s0, preds) == 0
  {
  }

  method CountWindows(wins: seq<Window>, s0: nat, preds: seq<Pred>) returns (count: nat)
    requires forall i :: 0 <= i < |wins| ==> WindowOK(wins[i])
    ensures count == WindowsCount(ShownWins(wins, PredIds(preds)), s0, preds)
  {
    hide WindowOK, Records, CountMatching, ShownWindow, ShownRecs, Resolved;
    ghost var hs := ShownWins(wins, PredIds(preds));
    count := 0;
    for i := 0 to |wins|
      invariant count == WindowsCount(hs[..i], s0, preds)
    {
      var w := wins[i];
      assert hs[..i + 1][..i] == hs[..i];
      ShownRecords(w, PredIds(preds));
      var idxs: seq<nat>, resolved := [], false;
      if w.col.Some? {
        WindowSchema(w);
        idxs, resolved := ResolveFields(w.col.value.schema, preds);
      }
      assert resolved <==> Shows(w, PredIds(preds));
      var n: nat;
      if !resolved {
        n := BruteCountMulti(w, s0, preds);
      } else {
        n := CountSegment(w, s0, preds, idxs);
      }
      count := count + n;
    }
    assert hs[..|wins|] == hs;
  }

  lemma WindowSchema(w: Window)
    requires WindowOK(w) && w.col.Some?
    ensures ValidSchema(w.col.value.schema)
  {
  }

  // ---------------------------------------------------------------- where the columns show the records

  lemma MatchAlike(cs: ColSeg, rs: seq<Rec>, k: nat, s0: nat, preds: seq<Pred>)
    requires SegOK(cs) && RecsOK(cs, rs) && k < |rs| && forall j :: 0 <= j < |preds| ==> FieldOfId(cs, rs, preds[j].id)
    ensures Matches(ShownRec(cs, rs[k]), s0, preds) == Matches(rs[k], s0, preds)
  {
    hide SegOK, RecsOK, AttrVal, Eval, FieldReads, BaseRow, ShownAd, Visible;
    var h := ShownRec(cs, rs[k]);
    SeenAlike(cs, rs[k], s0);
    forall j | 0 <= j < |preds| ensures Holds(preds[j], h.ad) == Holds(preds[j], rs[k].ad) {
      assert FieldOfId(cs, rs, preds[j].id);
      ShownById(cs, rs, preds[j].id, k);
    }
    HoldsAllIff(preds, h.ad);
    HoldsAllIff(preds, rs[k].ad);
  }

  // An attribute of the schema that these records show as it is.
  ghost predicate FieldOfId(cs: ColSeg, rs: seq<Rec>, id: nat)
  {
    id in cs.schema.byId && FieldReads(cs, rs, cs.schema.byId[id])
  }

  lemma ShownById(cs: ColSeg, rs: seq<Rec>, id: nat, k: nat)
    requires SegOK(cs) && RecsOK(cs, rs) && k < |rs| && FieldOfId(cs, rs, id)
    ensures AttrVal(ShownRec(cs, rs[k]).ad, id) == AttrVal(rs[k].ad, id)
  {
    hide AttrVal, FieldReads, BaseRow, ShownAd, RecsOK;
    IdAt(cs.schema, id);
    ShownValue(cs, rs, cs.schema.byId[id], k);
  }

  lemma {:induction false} CountAlike(a: seq<Rec>, b: seq<Rec>, s0: nat, preds: seq<Pred>)
    requires |a| == |b| && forall k :: 0 <= k < |a| ==> Matches(a[k], s0, preds) == Matches(b[k], s0, preds)
    ensures CountMatching(a, s0, preds) == CountMatching(b, s0, preds)
    decreases |a|
  {
    hide Matches;
    if a != [] { CountAlike(a[..|a| - 1], b[..|b| - 1], s0, preds); }
  }

  lemma WindowAlike(w: Window, s0: nat, preds: seq<Pred>)
    requires WindowOK(w) && PredsRead(w, preds)
    ensures CountMatching(Records(ShownWindow(w, PredIds(preds))), s0, preds) == CountMatching(Records(w), s0, preds)
  {
    hide Records, Matches, CountMatching, ShownWindow, FieldReads, SegOK, ShownRec, BlocksFrom;
    ShownRecords(w, PredIds(preds));
    if Shows(w, PredIds(preds)) {
      var cs, rs := w.col.value, Records(w);
      WindowRecsOK(w);
      forall j | 0 <= j < |preds| ensures FieldOfId(cs, rs, preds[j].id) {
        assert NumericId(cs.schema, PredIds(preds)[j]) && WindowReads(w, preds[j].id);
      }
      forall k | 0 <= k < |rs|
        ensures Matches(ShownRecs(cs, rs)[k], s0, preds) == Matches(rs[k], s0, preds)
      {
        MatchAlike(cs, rs, k, s0, preds);
      }
      CountAlike(ShownRecs(cs, rs), rs, s0, preds);
    }
  }

  lemma WindowRecsOK(w: Window)
    requires WindowOK(w) && w.col.Some?
    ensures SegOK(w.col.value) && RecsOK(w.col.value, Records(w))
  {
    hide Walk, SegOK, RecsOK, ScanBlockFor;
    BlocksRecs(w.col.value, Records(w), 0, 0);
    assert Records(w)[0..] == Records(w);
  }

  lemma {:induction false} BlocksRecs(cs: ColSeg, rs: seq<Rec>, i: nat, base: nat)
    requires i <= |cs.blocks| && base <= |rs| && BlocksFrom(cs, rs, i, base)
    ensures RecsOK(cs, rs[base..])
    decreases |cs.blocks| - i
  {
    hide SegOK, ScanBlockFor, TailNamed, BaseRow;
    if i < |cs.blocks| {
      var n := cs.blocks[i].blk.n;
      BlocksRecs(cs, rs, i + 1, base + n);
      var head, rest := rs[base..base + n], rs[base + n..];
      assert RecsOK(cs, head);
      forall k: nat | k < |rs[base..]|
        ensures DistinctIds(rs[base..][k].ad) && TailNamed(cs.schema, cs.named, BaseRow(cs, rs[base..][k].ad))
      {
        if k < n { assert rs[base..][k] == head[k]; } else { assert rs[base..][k] == rest[k - n]; }
      }
    }
  }

  lemma {:induction false} WindowsAlike(wins: seq<Window>, s0: nat, preds: seq<Pred>)
    requires forall i :: 0 <= i < |wins| ==> WindowOK(wins[i]) && PredsRead(wins[i], preds)
    ensures WindowsCount(ShownWins(wins, PredIds(preds)), s0, preds) == WindowsCount(wins, s0, preds)
    decreases |wins|
  {
    hide WindowOK, PredsRead, Records, CountMatching, ShownWindow;
    if wins != [] {
      var n := |wins| - 1;
      var hs := ShownWins(wins, PredIds(preds));
      WindowsAlike(wins[..n], s0, preds);
      assert hs[..n] == ShownWins(wins[..n], PredIds(preds));
      WindowAlike(wins[n], s0, preds);
    }
  }

  lemma {:induction false} CountsAlike(shards: seq<Shard>, preds: seq<Pred>)
    requires forall i, j ::
      0 <= i < |shards| && 0 <= j < |shards[i].wins| ==>
        WindowOK(shards[i].wins[j]) && PredsRead(shards[i].wins[j], preds)
    ensures RowCount(ShownShards(shards, PredIds(preds)), preds) == RowCount(shards, preds)
    decreases |shards|
  {
    hide WindowOK, PredsRead, WindowsCount;
    if shards != [] {
      var n := |shards| - 1;
      var hs := ShownShards(shards, PredIds(preds));
      CountsAlike(shards[..n], preds);
      assert hs[..n] == ShownShards(shards[..n], PredIds(preds));
      WindowsAlike(shards[n].wins, shards[n].snapshot, preds);
    }
  }

  // The columnar count of a collection is the row count of its records as the columns show them, whatever mix of
  // sealed segments, columnar-native ones, schemas and unsealed windows it holds and whatever each shard's snapshot
  // sees. Where every predicated field is read as it is, that is the row count.
  method ScanCountMulti(shards: seq<Shard>, preds: seq<Pred>) returns (count: nat)
    requires forall i, j :: 0 <= i < |shards| && 0 <= j < |shards[i].wins| ==> WindowOK(shards[i].wins[j])
    ensures count == RowCount(ShownShards(shards, PredIds(preds)), preds)
    ensures (forall i, j :: 0 <= i < |shards| && 0 <= j < |shards[i].wins| ==> PredsRead(shards[i].wins[j], preds)) ==>
      count == RowCount(shards, preds)
  {
    hide WindowOK, PredsRead, WindowsCount;
    ghost var hs := ShownShards(shards, PredIds(preds));
    count := 0;
    for i := 0 to |shards|
      invariant count == RowCount(hs[..i], preds)
    {
      assert hs[..i + 1][..i] == hs[..i];
      var n := CountWindows(shards[i].wins, shards[i].snapshot, preds);
      count := count + n;
    }
    assert hs[..|shards|] == hs;
    if forall i, j :: 0 <= i < |shards| && 0 <= j < |shards[i].wins| ==> PredsRead(shards[i].wins[j], preds) {
      CountsAlike(shards, preds);
    }
  }
}
