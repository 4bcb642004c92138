/** Counting records by whether an attribute is undefined: escape bits and classes first, the cold tail only
    where they cannot say, and the row walk beside it. */
module Presence {
  import opened Bytes
  import opened Wire
  import opened Row
  import opened Values
  import opened Fields
  import opened Preds
  import opened Groups
  import opened Escapes
  import opened Scan
  import opened Folds
  import opened Native

  // ---------------------------------------------------------------- what is being counted

  // Undefined, defined, or an expression only evaluation can judge.
  datatype Verdict = Undefined | Defined | Unknown

  function NodeVerdict(n: Node): (v: Verdict)
  {
    match n case Lit(LUndef) => Undefined case Lit(_) => Defined case Expr(_) => Unknown
  }

  function AdVerdict(ad: seq<Entry>, id: nat): (v: Verdict)
  {
    match Lookup(ad, id) case None => Undefined case Some(n) => NodeVerdict(n)
  }

  function Tally(want: bool, acc: Option<nat>, v: Verdict): (r: Option<nat>)
  {
    if acc.None? || v.Unknown? then None else if v.Undefined? == want then Some(acc.value + 1) else acc
  }

  function PStep(id: nat, want: bool): (f: (Option<nat>, seq<Entry>) -> Option<nat>)
  {
    (a, ad) => Tally(want, a, AdVerdict(ad, id))
  }

  function CountVerdict(ads: seq<seq<Entry>>, id: nat, want: bool): (n: nat)
  {
    if ads == [] then 0
    else CountVerdict(ads[..|ads| - 1], id, want) + if AdVerdict(ads[|ads| - 1], id).Undefined? == want then 1 else 0
  }

  // The attribute is missing, or undefined as a literal.
  predicate NoValue(ad: seq<Entry>, id: nat)
  {
    match Lookup(ad, id) case None => true case Some(n) => n == Lit(LUndef)
  }

  predicate HoldsExpr(ad: seq<Entry>, id: nat) { match Lookup(ad, id) case None => false case Some(n) => n.Expr? }

  lemma VerdictExactly(ad: seq<Entry>, id: nat)
    ensures AdVerdict(ad, id) == if HoldsExpr(ad, id) then Unknown else if NoValue(ad, id) then Undefined else Defined
  {
    hide Lookup;
  }

  ghost function Lacking(ads: seq<seq<Entry>>, id: nat, want: bool): set<nat>
  {
    set k: nat | k < |ads| && NoValue(ads[k], id) == want
  }

  lemma LackingStep(ads: seq<seq<Entry>>, id: nat, want: bool)
    requires ads != []
    ensures var n := |ads| - 1;
      |Lacking(ads, id, want)| == |Lacking(ads[..n], id, want)| + if NoValue(ads[n], id) == want then 1 else 0
  {
    hide NoValue;
    var n := |ads| - 1;
    var was := Lacking(ads[..n], id, want);
    assert forall k :: 0 <= k < n ==> ads[..n][k] == ads[k];
    assert Lacking(ads, id, want) == if NoValue(ads[n], id) == want then was + {n} else was;
  }

  // Of ads none of which holds an expression there, those without a value are counted, or those with one.
  lemma {:induction false} CountExactly(ads: seq<seq<Entry>>, id: nat, want: bool)
    requires forall k :: 0 <= k < |ads| ==> !HoldsExpr(ads[k], id)
    ensures CountVerdict(ads, id, want) == |Lacking(ads, id, want)|
    decreases |ads|
  {
    hide AdVerdict, NoValue, HoldsExpr;
    if ads == [] {
      assert Lacking(ads, id, want) == {};
    } else {
      var n := |ads| - 1;
      forall k | 0 <= k < n ensures !HoldsExpr(ads[..n][k], id) { assert ads[..n][k] == ads[k]; }
      CountExactly(ads[..n], id, want);
      VerdictExactly(ads[n], id);
      LackingStep(ads, id, want);
    }
  }

  // The walk counts the records wanted, and gives up exactly when one holds an expression.
  lemma {:induction false} TallyMeans(id: nat, want: bool, ads: seq<seq<Entry>>)
    ensures var r := Fold(PStep(id, want), Some(0), ads);
      && (r.None? <==> exists k :: 0 <= k < |ads| && AdVerdict(ads[k], id).Unknown?)
      && (r.Some? ==> r.value == CountVerdict(ads, id, want))
    decreases |ads|
  {
    hide AdVerdict;
    if ads != [] {
      var n := |ads| - 1;
      TallyMeans(id, want, ads[..n]);
      if k :| 0 <= k < n && AdVerdict(ads[..n][k], id).Unknown? { assert AdVerdict(ads[k], id).Unknown?; }
      if k :| 0 <= k < |ads| && AdVerdict(ads[k], id).Unknown? {
        if k < n { assert AdVerdict(ads[..n][k], id).Unknown?; }
      }
    }
  }

  lemma {:induction false} GivenUp(id: nat, want: bool, ads: seq<seq<Entry>>)
    ensures Fold(PStep(id, want), None, ads).None?
    decreases |ads|
  {
    if ads != [] { GivenUp(id, want, ads[..|ads| - 1]); }
  }

  // ---------------------------------------------------------------- one record of a block

  // The base row answers for the schema's own attributes as what the columns hold of the ad would.
  lemma BaseVerdict(cs: ColSeg, ad: seq<Entry>, id: nat)
    requires SegOK(cs) && id in cs.schema.byId
    ensures AdVerdict(BaseRow(cs, ad), id) == AdVerdict(Held(cs, ad), id)
  {
    hide Without, Lookup, Whole, Held, ValidSchema;
    var h := Held(cs, ad);
    assert id !in SkipSet(cs.groups, h);
    LookupWithout(h, SkipSet(cs.groups, h), id);
  }

  // What a block shows of field i: its slot, nothing where its classes say missing, else whatever its tail has under
  // the number the readers look for.
  function SeenNode(cs: ColSeg, classed: bool, base: seq<Entry>, i: nat): (r: Option<Node>)
    requires i < |cs.schema.fields|
  {
    match SlotLit(cs.schema, base, i)
    case Some(l) => Some(Lit(l))
    case None =>
      if classed && Missing(cs.schema, base, i) then None
      else Lookup(ColdEntries(cs.schema, cs.key, base), cs.stored(cs.schema.fields[i].id))
  }

  function VerdictOf(n: Option<Node>): (v: Verdict) { match n case None => Undefined case Some(n) => NodeVerdict(n) }

  // In its slot: defined. Escaped: the class says missing, or the tail says what is there.
  method RecordVerdict(sb: ScanBlock, cs: ColSeg, ghost bases: seq<seq<Entry>>, i: nat, k: nat) returns (v: Verdict)
    requires ScanBlockFor(sb, cs.schema, cs.key, bases) && i < |cs.schema.fields| && k < |bases|
    ensures v == VerdictOf(SeenNode(cs, sb.esc.cls != [], bases[k], i))
  {
    hide BlockFor, ZonesExact, EscFor, Escaped, TailNode, ColdEntries, Lookup;
    EscapedExact(sb.blk, cs.key, bases, i, k);
    if !Escaped(sb.blk, i, k) {
      return Defined;
    }
    var missing, ok := EscapeIsMissing(sb.esc, cs.schema, bases, i, k);
    if ok && missing { return Undefined; }
    var id := cs.schema.fields[i].id;
    TailNodeShown(sb.blk, cs.key, cs.stored, bases, id, k);
    var node := TailNode(sb.blk, cs.stored, id, k);
    if node.None? { return Undefined; }
    v := NodeVerdict(node.value);
  }

  // The tails number the field as the readers look for it; or have no number for it, and the classes say so.
  ghost predicate FieldSeen(cs: ColSeg, classed: bool, id: nat)
  {
    ReadsUnder(cs.key, cs.named, id, cs.stored(id)) || (classed && !cs.named(id))
  }

  lemma SeenExact(cs: ColSeg, classed: bool, ad: seq<Entry>, i: nat)
    requires SegOK(cs) && i < |cs.schema.fields| && DistinctIds(ad) && TailNamed(cs.schema, cs.named, BaseRow(cs, ad))
    requires FieldSeen(cs, classed, cs.schema.fields[i].id)
    ensures VerdictOf(SeenNode(cs, classed, BaseRow(cs, ad), i)) == AdVerdict(Held(cs, ad), cs.schema.fields[i].id)
  {
    hide BaseRow, ColdEntries, Lookup, KeyedBy, ReadsUnder, ValidSchema, Disjoint, Held;
    var base, id := BaseRow(cs, ad), cs.schema.fields[i].id;
    SegField(cs, i);
    BaseVerdict(cs, ad, id);
    BaseDistinct(cs, ad);
    SlotOrNot(cs.schema, base, i);
    if SlotLit(cs.schema, base, i).None? && !(classed && Missing(cs.schema, base, i)) {
      if Lookup(base, id).Some? { LookupFound(base, id); }
      TailRead(cs.schema, cs.key, cs.named, base, id, cs.stored(id));
    }
  }

  // ---------------------------------------------------------------- the scan

  lemma NextTally(id: nat, want: bool, acc: Option<nat>, rs: seq<Rec>, k: nat, s0: nat)
    requires k < |rs|
    ensures var was := Fold(PStep(id, want), acc, MatchAds(rs[..k], s0, []));
      Fold(PStep(id, want), acc, MatchAds(rs[..k + 1], s0, [])) == if Visible(rs[k], s0) then
        Tally(want, was, AdVerdict(rs[k].ad, id)) else was
  {
    hide AdVerdict, Tally, Visible;
    var step, head := PStep(id, want), MatchAds(rs[..k], s0, []);
    assert rs[..k + 1] == rs[..k] + [rs[k]];
    MatchConcat(rs[..k], [rs[k]], s0, []);
    MatchOne(rs[k], s0, []);
    NoProbes(rs[k].ad);
    FoldConcat(step, acc, head, MatchAds([rs[k]], s0, []));
    FoldOne(step, Fold(step, acc, head), rs[k].ad);
  }

  lemma TallyRest(id: nat, want: bool, acc: Option<nat>, rs: seq<Rec>, k: nat, s0: nat)
    requires k <= |rs| && Fold(PStep(id, want), acc, MatchAds(rs[..k], s0, [])).None?
    ensures Fold(PStep(id, want), acc, MatchAds(rs, s0, [])).None?
  {
    hide PStep, Matches;
    assert rs == rs[..k] + rs[k..];
    MatchConcat(rs[..k], rs[k..], s0, []);
    FoldConcat(PStep(id, want), acc, MatchAds(rs[..k], s0, []), MatchAds(rs[k..], s0, []));
    GivenUp(id, want, MatchAds(rs[k..], s0, []));
  }

  lemma TallyNothing(id: nat, want: bool, acc: Option<nat>, s0: nat)
    ensures Fold(PStep(id, want), acc, MatchAds([], s0, [])) == acc
  {
  }

  // A record as a block of the segment shows its field.
  function SeenRec(cs: ColSeg, classed: bool, r: Rec, i: nat): (h: Rec)
    requires i < |cs.schema.fields|
  {
    r.(ad := match SeenNode(cs, classed, BaseRow(cs, r.ad),
      i) case None => [] case Some(n) => [Entry(cs.schema.fields[i].id, n)])
  }

  lemma SeenRecVerdict(cs: ColSeg, classed: bool, r: Rec, i: nat)
    requires i < |cs.schema.fields|
    ensures AdVerdict(SeenRec(cs, classed, r, i).ad, cs.schema.fields[i].id) ==
      VerdictOf(SeenNode(cs, classed, BaseRow(cs, r.ad), i))
  {
    hide BaseRow, ColdEntries, Lookup, SeenNode;
    var id, n := cs.schema.fields[i].id, SeenNode(cs, classed, BaseRow(cs, r.ad), i);
    LookupNothing(id);
    if n.Some? { LookupOne(Entry(id, n.value), id); }
  }

  lemma LookupNothing(id: nat)
    ensures Lookup([], id).None?
  {
  }

  function SeenRun(cs: ColSeg, classed: bool, rs: seq<Rec>, i: nat): (hs: seq<Rec>)
    requires i < |cs.schema.fields|
    ensures |hs| == |rs| && forall k :: 0 <= k < |rs| ==> hs[k] == SeenRec(cs, classed, rs[k], i)
  {
    seq(|rs|, k requires 0 <= k < |rs| => SeenRec(cs, classed, rs[k], i))
  }

  method VisibleVerdict(sb: ScanBlock, cs: ColSeg, ghost rs: seq<Rec>, gone: bool, i: nat, k: nat) returns (v: Verdict)
    requires RunFor(sb, cs, rs) && i < |cs.schema.fields| && k < |rs| && gone == FieldAbsentFromBlock(sb.esc, i)
    ensures v == AdVerdict(SeenRec(cs, sb.esc.cls != [], rs[k], i).ad, cs.schema.fields[i].id)
  {
    hide ScanBlockFor, SegOK, AdVerdict, BaseRow, FieldAbsentFromBlock, SeenRec, SeenNode, RecsOK;
    ghost var bases := Bases(cs, rs);
    SeenRecVerdict(cs, sb.esc.cls != [], rs[k], i);
    if gone {
      GoneVerdict(sb, cs, bases, i, k);
      return Undefined;
    }
    v := RecordVerdict(sb, cs, bases, i, k);
  }

  lemma GoneVerdict(sb: ScanBlock, cs: ColSeg, bases: seq<seq<Entry>>, i: nat, k: nat)
    requires ScanBlockFor(sb, cs.schema, cs.key, bases) && i < |cs.schema.fields| && FieldAbsentFromBlock(sb.esc, i)
    requires k < |bases|
    ensures SeenNode(cs, sb.esc.cls != [], bases[k], i).None?
  {
    hide BlockFor, ZonesExact, FieldExact, HasBit, Lookup;
    AbsentProves(sb.esc, cs.schema, bases, i, k);
    NoBit(i);
  }

  // A field absent from the whole block settles every visible record at once.
  method PresenceBlock(sb: ScanBlock, cs: ColSeg, w: Window, base: nat, s0: nat, i: nat, id: nat, want: bool,
                       count: nat)
    returns (r: Option<nat>)
    requires InWindow(sb, cs, w, base) && i < |cs.schema.fields| && cs.schema.fields[i].id == id
    ensures r ==
      Fold(PStep(id, want), Some(count), MatchAds(SeenRun(cs, sb.esc.cls != [], BlockRun(sb, cs, w, base), i), s0, []))
  {
    hide RunFor, Fold, MatchAds, Visible, AdVerdict, PStep, FieldAbsentFromBlock, SeenRec;
    var n := sb.blk.n;
    ghost var rs := BlockRun(sb, cs, w, base);
    ghost var hs := SeenRun(cs, sb.esc.cls != [], rs, i);
    var c := count;
    var gone := FieldAbsentFromBlock(sb.esc, i);
    assert hs[..0] == [];
    TallyNothing(id, want, Some(count), s0);
    var k := 0;
    while k < n
      invariant 0 <= k <= n && Some(c) == Fold(PStep(id, want), Some(count), MatchAds(hs[..k], s0, []))
    {
      NextTally(id, want, Some(count), hs, k, s0);
      SameSeen(cs, sb.esc.cls != [], rs[k], i, s0);
      if Visible(w.arena[cs.offs[base + k]], s0) {
        var v := VisibleVerdict(sb, cs, rs, gone, i, k);
        if v.Unknown? {
          TallyRest(id, want, Some(count), hs, k + 1, s0);
          return None;
        }
        if v.Undefined? == want { c := c + 1; }
      }
      k := k + 1;
    }
    assert hs[..n] == hs;
    r := Some(c);
  }

  lemma SameSeen(cs: ColSeg, classed: bool, r: Rec, i: nat, s0: nat)
    requires i < |cs.schema.fields|
    ensures Visible(SeenRec(cs, classed, r, i), s0) == Visible(r, s0)
  {
  }

  method BrutePresence(w: Window, s0: nat, id: nat, want: bool, count: nat) returns (r: Option<nat>)
    ensures r == Fold(PStep(id, want), Some(count), MatchAds(Records(w), s0, []))
  {
    hide Walk, Visible, MatchAds, Fold, AdVerdict;
    var c := count;
    var step := PStep(id, want);
    var off := 0;
    while off < w.used && off in w.arena && w.arena[off].len > 0
      invariant Fold(step, Some(c), MatchAds(RecsAt(w.arena, Walk(w, off)), s0, [])) ==
        Fold(step, Some(count), MatchAds(Records(w), s0, []))
      decreases w.used - off
    {
      var rec := w.arena[off];
      WalkMatch(w, off, s0, []);
      NoProbes(rec.ad);
      ghost var rest := MatchAds(RecsAt(w.arena, Walk(w, off + rec.len)), s0, []);
      FoldConcat(step, Some(c), if !rec.marker && Matches(rec, s0, []) then [rec.ad] else [], rest);
      FoldOne(step, Some(c), rec.ad);
      if !rec.marker && Visible(rec, s0) {
        var v := AdVerdict(rec.ad, id);
        if v.Unknown? {
          GivenUp(id, want, rest);
          return None;
        }
        if v.Undefined? == want { c := c + 1; }
      }
      off := off + rec.len;
    }
    WalkMatch(w, off, s0, []);
    TallyNothing(id, want, Some(c), s0);
    MatchNone([], s0, []);
    r := Some(c);
  }

  // The records from base on, as blocks b.. show their field.
  function SeenFrom(cs: ColSeg, rs: seq<Rec>, b: nat, base: nat, i: nat): (hs: seq<Rec>)
    requires b <= |cs.blocks| && i < |cs.schema.fields|
    decreases |cs.blocks| - b
  {
    if b == |cs.blocks| || base + cs.blocks[b].blk.n > |rs| then []
    else
      var n := cs.blocks[b].blk.n;
      SeenRun(cs, cs.blocks[b].esc.cls != [], rs[base..base + n], i) + SeenFrom(cs, rs, b + 1, base + n, i)
  }

  method PresenceSegment(w: Window, s0: nat, i: nat, id: nat, want: bool, count: nat) returns (r: Option<nat>)
    requires w.col.Some? && WindowOK(w) && i < |w.col.value.schema.fields| && w.col.value.schema.fields[i].id == id
    ensures r == Fold(PStep(id, want), Some(count), MatchAds(SeenFrom(w.col.value, Records(w), 0, 0, i), s0, []))
  {
    hide RunFor, MatchAds, Fold, Walk, RecsAt, SegOK, PStep, InWindow, BlockRun, SeenRun;
    var cs := w.col.value;
    ghost var rs := Records(w);
    ghost var all := MatchAds(SeenFrom(cs, rs, 0, 0, i), s0, []);
    r := Some(count);
    var base: nat := 0;
    var b := 0;
    while b < |cs.blocks|
      invariant 0 <= b <= |cs.blocks| && base <= |rs| && BlocksFrom(cs, rs, b, base)
      invariant r.Some? &&
        Fold(PStep(id, want), Some(count), all) ==
          Fold(PStep(id, want), r, MatchAds(SeenFrom(cs, rs, b, base, i), s0, []))
    {
      var sb := cs.blocks[b];
      var n := sb.blk.n;
      NextBlock(w, b, base);
      ghost var run, rest := SeenRun(cs, sb.esc.cls != [], rs[base..base + n], i), SeenFrom(cs, rs, b + 1, base + n, i);
      MatchConcat(run, rest, s0, []);
      FoldConcat(PStep(id, want), r, MatchAds(run, s0, []), MatchAds(rest, s0, []));
      r := PresenceBlock(sb, cs, w, base, s0, i, id, want, r.value);
      if r.None? {
        GivenUp(id, want, MatchAds(rest, s0, []));
        return;
      }
      base := base + n;
      b := b + 1;
    }
    TallyNothing(id, want, r, s0);
  }

  // ---------------------------------------------------------------- the whole scan

  // The scan answers for the attribute from this window's columns.
  predicate Columned(w: Window, id: nat)
  {
    w.col.Some? && id in w.col.value.schema.byId && w.col.value.schema.byId[id] < |w.col.value.schema.fields|
  }

  // And they hold only literals.
  predicate Halved(w: Window, id: nat) { Columned(w, id) && w.col.value.native }

  // The records as the scan sees them.
  function SeenRecs(w: Window, id: nat): (rs: seq<Rec>)
  {
    if Columned(w, id) then SeenFrom(w.col.value, Records(w), 0, 0, w.col.value.schema.byId[id]) else Records(w)
  }

  function WindowsSeen(wins: seq<Window>, s0: nat, id: nat): (ads: seq<seq<Entry>>)
  {
    if wins == [] then []
      else WindowsSeen(wins[..|wins| - 1], s0, id) + MatchAds(SeenRecs(wins[|wins| - 1], id), s0, [])
  }

  function ShardsSeen(shards: seq<Shard>, id: nat): (ads: seq<seq<Entry>>)
  {
    if shards == [] then []
    else
      ShardsSeen(shards[..|shards| - 1], id) + WindowsSeen(shards[|shards| - 1].wins, shards[|shards| - 1].snapshot, id)
  }

  method PresenceWindows(wins: seq<Window>, s0: nat, id: nat, want: bool, count: nat) returns (r: Option<nat>)
    requires forall i :: 0 <= i < |wins| ==> WindowOK(wins[i])
    ensures r == Fold(PStep(id, want), Some(count), WindowsSeen(wins, s0, id))
  {
    hide WindowOK, Records, MatchAds, Fold, PStep, SeenFrom;
    r := Some(count);
    FoldOne(PStep(id, want), r, []);
    for i := 0 to |wins|
      invariant r.Some? && r == Fold(PStep(id, want), Some(count), WindowsSeen(wins[..i], s0, id))
    {
      var w := wins[i];
      assert wins[..i + 1][..i] == wins[..i];
      FoldConcat(PStep(id, want), Some(count), WindowsSeen(wins[..i], s0, id), MatchAds(SeenRecs(w, id), s0, []));
      var found := false;
      if w.col.Some? {
        WindowSchema(w);
        found := id in w.col.value.schema.byId;
      }
      if !found {
        r := BrutePresence(w, s0, id, want, r.value);
      } else {
        IdAt(w.col.value.schema, id);
        r := PresenceSegment(w, s0, w.col.value.schema.byId[id], id, want, r.value);
      }
      if r.None? {
        WindowsUp(id, want, Some(count), wins, i + 1, s0);
        return;
      }
    }
    assert wins[..|wins|] == wins;
  }

  lemma {:induction false} WindowsUp(id: nat, want: bool, acc: Option<nat>, wins: seq<Window>, i: nat, s0: nat)
    requires i <= |wins| && Fold(PStep(id, want), acc, WindowsSeen(wins[..i], s0, id)).None?
    ensures Fold(PStep(id, want), acc, WindowsSeen(wins, s0, id)).None?
    decreases |wins|
  {
    hide PStep, MatchAds, Fold, SeenRecs;
    if i == |wins| {
      assert wins[..i] == wins;
    } else {
      var n := |wins| - 1;
      assert wins[..n][..i] == wins[..i];
      WindowsUp(id, want, acc, wins[..n], i, s0);
      FoldConcat(PStep(id, want), acc, WindowsSeen(wins[..n], s0, id), MatchAds(SeenRecs(wins[n], id), s0, []));
      GivenUp(id, want, MatchAds(SeenRecs(wins[n], id), s0, []));
    }
  }

  // What the row walk over the same collection makes of it.
  function RowPresence(shards: seq<Shard>, id: nat, want: bool): (r: Option<nat>)
  {
    Fold(PStep(id, want), Some(0), ShardsMatch(shards, []))
  }

  // Every window's columns are looked into for the attribute where their tails have it.
  ghost predicate AllSeen(shards: seq<Shard>, id: nat)
  {
    forall i, j :: 0 <= i < |shards| && 0 <= j < |shards[i].wins| ==> WindowSees(shards[i].wins[j], id)
  }

  ghost predicate WindowSees(w: Window, id: nat)
  {
    Columned(w, id) ==> forall b ::
      0 <= b < |w.col.value.blocks| ==> FieldSeen(w.col.value, w.col.value.blocks[b].esc.cls != [], id)
  }

  // A visible record holds the attribute as an expression.
  ghost predicate ExprAmong(rs: seq<Rec>, s0: nat, id: nat)
  {
    exists k :: 0 <= k < |rs| && Visible(rs[k], s0) && AdVerdict(rs[k].ad, id).Unknown?
  }

  ghost predicate VisibleExpr(w: Window, s0: nat, id: nat) { ExprAmong(Records(w), s0, id) }

  // Such a record, where it is met: outside literal-only columns that answer for the attribute.
  ghost predicate ExprMet(shards: seq<Shard>, id: nat)
  {
    exists i, j ::
      0 <= i < |shards| && 0 <= j < |shards[i].wins| && WindowMeets(shards[i].wins[j], shards[i].snapshot, id)
  }

  ghost predicate WindowMeets(w: Window, s0: nat, id: nat) { !Halved(w, id) && VisibleExpr(w, s0, id) }

  // Nowhere is such a record passed over.
  ghost predicate NoneHidden(shards: seq<Shard>, id: nat)
  {
    forall i, j ::
      0 <= i < |shards| && 0 <= j < |shards[i].wins| ==> WindowBare(shards[i].wins[j], shards[i].snapshot, id)
  }

  ghost predicate WindowBare(w: Window, s0: nat, id: nat) { Halved(w, id) ==> !VisibleExpr(w, s0, id) }

  // The columnar presence count, and its refusal, for the records as the columns show them. Where the columns are
  // looked into rightly, it refuses exactly when a visible expression is met outside literal-only columns, and is the
  // row walk's answer if and only if one is, or none is passed over inside them.
  method ScanPresenceCount(shards: seq<Shard>, id: nat, want: bool) returns (r: Option<nat>)
    requires forall i, j :: 0 <= i < |shards| && 0 <= j < |shards[i].wins| ==> WindowOK(shards[i].wins[j])
    ensures r.None? <==>
      exists k :: 0 <= k < |ShardsSeen(shards, id)| && AdVerdict(ShardsSeen(shards, id)[k], id).Unknown?
    ensures r.Some? ==> r.value == CountVerdict(ShardsSeen(shards, id), id, want)
    ensures AllSeen(shards, id) ==>
      && (r.None? <==> ExprMet(shards, id))
      && (r == RowPresence(shards, id, want) <==> ExprMet(shards, id) || NoneHidden(shards, id))
  {
    hide WindowOK, WindowsSeen, Fold, PStep, AdVerdict, CountVerdict, NoneHidden, ShardsMatch, AllSeen, ExprMet;
    r := Some(0);
    FoldOne(PStep(id, want), r, []);
    TallyMeans(id, want, ShardsSeen(shards, id));
    if AllSeen(shards, id) { SeenAgrees(shards, id, want); }
    for i := 0 to |shards|
      invariant r.Some? && r == Fold(PStep(id, want), Some(0), ShardsSeen(shards[..i], id))
    {
      assert shards[..i + 1][..i] == shards[..i];
      FoldConcat(PStep(id, want), Some(0), ShardsSeen(shards[..i], id),
        WindowsSeen(shards[i].wins, shards[i].snapshot, id));
      r := PresenceWindows(shards[i].wins, shards[i].snapshot, id, want, r.value);
      if r.None? {
        ShardsUp(id, want, shards, i + 1);
        return;
      }
    }
    assert shards[..|shards|] == shards;
  }

  lemma {:induction false} ShardsUp(id: nat, want: bool, shards: seq<Shard>, i: nat)
    requires i <= |shards| && Fold(PStep(id, want), Some(0), ShardsSeen(shards[..i], id)).None?
    ensures Fold(PStep(id, want), Some(0), ShardsSeen(shards, id)).None?
    decreases |shards|
  {
    hide PStep, WindowsSeen, Fold;
    if i == |shards| {
      assert shards[..i] == shards;
    } else {
      var n := |shards| - 1;
      assert shards[..n][..i] == shards[..i];
      ShardsUp(id, want, shards[..n], i);
      var last := WindowsSeen(shards[n].wins, shards[n].snapshot, id);
      FoldConcat(PStep(id, want), Some(0), ShardsSeen(shards[..n], id), last);
      GivenUp(id, want, last);
    }
  }

  // ---------------------------------------------------------------- seen and row-walked records, side by side

  // Each record is judged alike, or an expression is taken for an absent attribute.
  ghost predicate Paired(a: seq<seq<Entry>>, b: seq<seq<Entry>>, id: nat)
  {
    && |a| == |b|
    && forall i :: 0 <= i < |a| ==>
      AdVerdict(a[i], id) == AdVerdict(b[i], id) || (AdVerdict(a[i], id).Undefined? && AdVerdict(b[i], id).Unknown?)
  }

  ghost predicate Alike(a: seq<seq<Entry>>, b: seq<seq<Entry>>, id: nat)
  {
    |a| == |b| && forall i :: 0 <= i < |a| ==> AdVerdict(a[i], id) == AdVerdict(b[i], id)
  }

  ghost predicate SomeExpr(a: seq<seq<Entry>>, id: nat) { exists k :: 0 <= k < |a| && AdVerdict(a[k], id).Unknown? }

  lemma {:induction false} AlikeCount(a: seq<seq<Entry>>, b: seq<seq<Entry>>, id: nat, want: bool)
    requires Alike(a, b, id)
    ensures CountVerdict(a, id, want) == CountVerdict(b, id, want)
    decreases |a|
  {
    hide AdVerdict;
    if a != [] { AlikeCount(a[..|a| - 1], b[..|b| - 1], id, want); }
  }

  lemma PairedFold(a: seq<seq<Entry>>, b: seq<seq<Entry>>, id: nat, want: bool)
    requires Paired(a, b, id)
    ensures var r := Fold(PStep(id, want), Some(0), a);
      r.None? == SomeExpr(a, id) && (r == Fold(PStep(id, want), Some(0), b) <==> SomeExpr(a, id) || Alike(a, b, id))
  {
    hide AdVerdict, Fold, PStep, CountVerdict;
    TallyMeans(id, want, a);
    TallyMeans(id, want, b);
    if Alike(a, b, id) { AlikeCount(a, b, id, want); }
    if k :| 0 <= k < |a| && AdVerdict(a[k], id).Unknown? { assert AdVerdict(b[k], id).Unknown?; }
    if !Alike(a, b, id) {
      var k :| 0 <= k < |a| && AdVerdict(a[k], id) != AdVerdict(b[k], id);
      assert AdVerdict(b[k], id).Unknown?;
    }
  }

  lemma PairedConcat(a: seq<seq<Entry>>, b: seq<seq<Entry>>, c: seq<seq<Entry>>, d: seq<seq<Entry>>, id: nat)
    requires Paired(a, b, id) && Paired(c, d, id)
    ensures Paired(a + c, b + d, id) && (Alike(a + c, b + d, id) <==> Alike(a, b, id) && Alike(c, d, id))
    ensures SomeExpr(a + c, id) <==> SomeExpr(a, id) || SomeExpr(c, id)
  {
    hide AdVerdict;
    var x, y := a + c, b + d;
    forall i | 0 <= i < |c| ensures c[i] == x[|a| + i] && d[i] == y[|a| + i] {}
    forall i | 0 <= i < |a| ensures a[i] == x[i] && b[i] == y[i] {}
  }

  lemma AmongSplit(a: seq<Rec>, b: seq<Rec>, s0: nat, id: nat)
    ensures ExprAmong(a + b, s0, id) <==> ExprAmong(a, s0, id) || ExprAmong(b, s0, id)
  {
    hide AdVerdict, Visible;
    var x := a + b;
    forall i | 0 <= i < |b| ensures b[i] == x[|a| + i] {}
    forall i | 0 <= i < |a| ensures a[i] == x[i] {}
  }

  // These records as seen (hs), beside what they are (rs): in literal-only columns the expressions are lost.
  ghost predicate SeenBeside(native: bool, hs: seq<Rec>, rs: seq<Rec>, s0: nat, id: nat)
  {
    var a, b := MatchAds(hs, s0, []), MatchAds(rs, s0, []);
    && Paired(a, b, id) && (Alike(a, b, id) <==> native ==> !ExprAmong(rs, s0, id))
    && (SomeExpr(a, id) <==> !native && ExprAmong(rs, s0, id))
  }

  lemma BesideConcat(native: bool, hs: seq<Rec>, rs: seq<Rec>, hs': seq<Rec>, rs': seq<Rec>, s0: nat, id: nat)
    requires SeenBeside(native, hs, rs, s0, id) && SeenBeside(native, hs', rs', s0, id)
    ensures SeenBeside(native, hs + hs', rs + rs', s0, id)
  {
    hide MatchAds, Paired, Alike, SomeExpr, ExprAmong;
    MatchConcat(hs, hs', s0, []);
    MatchConcat(rs, rs', s0, []);
    AmongSplit(rs, rs', s0, id);
    PairedConcat(MatchAds(hs, s0, []), MatchAds(rs, s0, []), MatchAds(hs', s0, []), MatchAds(rs', s0, []), id);
  }

  lemma BesideNone(native: bool, s0: nat, id: nat)
    ensures SeenBeside(native, [], [], s0, id)
  {
    MatchNone([], s0, []);
  }

  lemma BesideOne(cs: ColSeg, h: Rec, r: Rec, s0: nat, id: nat)
    requires DistinctIds(r.ad) && h == r.(ad := h.ad) && AdVerdict(h.ad, id) == AdVerdict(Held(cs, r.ad), id)
    ensures SeenBeside(cs.native, [h], [r], s0, id)
  {
    hide MatchAds, Half, Lookup;
    MatchOne(h, s0, []);
    MatchOne(r, s0, []);
    NoProbes(h.ad);
    NoProbes(r.ad);
    LookupHalf(r.ad, id);
    var a, b := MatchAds([h], s0, []), MatchAds([r], s0, []);
    if Visible(r, s0) { assert a[0] == h.ad && b[0] == r.ad && [r][0] == r; }
  }

  lemma {:induction false} RunBeside(cs: ColSeg, classed: bool, rs: seq<Rec>, s0: nat, i: nat)
    requires SegOK(cs) && RecsOK(cs, rs) && i < |cs.schema.fields| && FieldSeen(cs, classed, cs.schema.fields[i].id)
    ensures SeenBeside(cs.native, SeenRun(cs, classed, rs, i), rs, s0, cs.schema.fields[i].id)
    decreases |rs|
  {
    hide SegOK, RecsOK, SeenRec, SeenBeside, FieldSeen;
    var id := cs.schema.fields[i].id;
    if rs == [] {
      BesideNone(cs.native, s0, id);
    } else {
      var n := |rs| - 1;
      var hs := SeenRun(cs, classed, rs, i);
      RecsSnoc(cs, rs);
      RunBeside(cs, classed, rs[..n], s0, i);
      RecBeside(cs, classed, rs[n], s0, i);
      assert hs[..n] == SeenRun(cs, classed, rs[..n], i) && hs == hs[..n] + [hs[n]] && rs == rs[..n] + [rs[n]];
      BesideConcat(cs.native, hs[..n], rs[..n], [hs[n]], [rs[n]], s0, id);
    }
  }

  lemma RecsSnoc(cs: ColSeg, rs: seq<Rec>)
    requires rs != [] && RecsOK(cs, rs)
    ensures var n := |rs| - 1;
      RecsOK(cs, rs[..n]) && DistinctIds(rs[n].ad) && TailNamed(cs.schema, cs.named, BaseRow(cs, rs[n].ad))
  {
    hide TailNamed, BaseRow;
  }

  lemma RecBeside(cs: ColSeg, classed: bool, r: Rec, s0: nat, i: nat)
    requires SegOK(cs) && i < |cs.schema.fields| && DistinctIds(r.ad)
    requires TailNamed(cs.schema, cs.named, BaseRow(cs, r.ad))
    requires FieldSeen(cs, classed, cs.schema.fields[i].id)
    ensures SeenBeside(cs.native, [SeenRec(cs, classed, r, i)], [r], s0, cs.schema.fields[i].id)
  {
    hide SegOK, TailNamed, FieldSeen, SeenNode, AdVerdict, BaseRow, Held, SeenBeside;
    SeenExact(cs, classed, r.ad, i);
    SeenRecVerdict(cs, classed, r, i);
    BesideOne(cs, SeenRec(cs, classed, r, i), r, s0, cs.schema.fields[i].id);
  }

  lemma {:induction false} BlocksBeside(cs: ColSeg, rs: seq<Rec>, b: nat, base: nat, s0: nat, i: nat)
    requires b <= |cs.blocks| && base <= |rs| && SegOK(cs) && BlocksFrom(cs, rs, b, base) && i < |cs.schema.fields|
    requires forall b' :: b <= b' < |cs.blocks| ==> FieldSeen(cs, cs.blocks[b'].esc.cls != [], cs.schema.fields[i].id)
    ensures SeenBeside(cs.native, SeenFrom(cs, rs, b, base, i), rs[base..], s0, cs.schema.fields[i].id)
    decreases |cs.blocks| - b
  {
    hide SegOK, RecsOK, ScanBlockFor, SeenRun, SeenBeside, FieldSeen;
    var id := cs.schema.fields[i].id;
    if b == |cs.blocks| {
      assert rs[base..] == [];
      BesideNone(cs.native, s0, id);
    } else {
      var n := cs.blocks[b].blk.n;
      RunBeside(cs, cs.blocks[b].esc.cls != [], rs[base..base + n], s0, i);
      BlocksBeside(cs, rs, b + 1, base + n, s0, i);
      BesideConcat(cs.native, SeenRun(cs, cs.blocks[b].esc.cls != [], rs[base..base + n], i), rs[base..base + n],
                   SeenFrom(cs, rs, b + 1, base + n, i), rs[base + n..], s0, id);
      assert rs[base..] == rs[base..base + n] + rs[base + n..];
    }
  }

  lemma {:induction false} SelfBeside(rs: seq<Rec>, s0: nat, id: nat)
    ensures SeenBeside(false, rs, rs, s0, id)
    decreases |rs|
  {
    hide SeenBeside;
    if rs == [] {
      BesideNone(false, s0, id);
    } else {
      var n := |rs| - 1;
      SelfBeside(rs[..n], s0, id);
      SelfOne(rs[n], s0, id);
      BesideConcat(false, rs[..n], rs[..n], [rs[n]], [rs[n]], s0, id);
      assert rs == rs[..n] + [rs[n]];
    }
  }

  lemma SelfOne(r: Rec, s0: nat, id: nat)
    ensures SeenBeside(false, [r], [r], s0, id)
  {
    hide AdVerdict, MatchAds;
    MatchOne(r, s0, []);
    NoProbes(r.ad);
    var a := MatchAds([r], s0, []);
    if Visible(r, s0) { assert a[0] == r.ad && [r][0] == r; }
  }

  lemma WindowBeside(w: Window, s0: nat, id: nat)
    requires WindowOK(w) && WindowSees(w, id)
    ensures SeenBeside(Halved(w, id), SeenRecs(w, id), Records(w), s0, id)
  {
    hide Records, SeenBeside, BlocksFrom, FieldSeen, SeenFrom;
    if Columned(w, id) {
      var cs := w.col.value;
      IdAt(cs.schema, id);
      WindowSegOK(w);
      BlocksBeside(cs, Records(w), 0, 0, s0, cs.schema.byId[id]);
      assert Records(w)[0..] == Records(w);
    } else {
      SelfBeside(Records(w), s0, id);
    }
  }

  lemma WindowSegOK(w: Window)
    requires WindowOK(w) && w.col.Some?
    ensures SegOK(w.col.value) && BlocksFrom(w.col.value, Records(w), 0, 0)
  {
  }

  // The same three facts, for the records of several windows.
  ghost predicate SeenWins(seen: seq<seq<Entry>>, rows: seq<seq<Entry>>, id: nat, met: bool, bare: bool)
  {
    Paired(seen, rows, id) && (Alike(seen, rows, id) <==> bare) && (SomeExpr(seen, id) <==> met)
  }

  lemma WinsConcat(a: seq<seq<Entry>>, b: seq<seq<Entry>>, c: seq<seq<Entry>>, d: seq<seq<Entry>>, id: nat, m: bool,
                   m': bool, r: bool, r': bool)
    requires SeenWins(a, b, id, m, r) && SeenWins(c, d, id, m', r')
    ensures SeenWins(a + c, b + d, id, m || m', r && r')
  {
    hide Paired, Alike, SomeExpr;
    PairedConcat(a, b, c, d, id);
  }

  lemma NoWins(id: nat)
    ensures SeenWins([], [], id, false, true)
  {
  }

  lemma WindowSeenRows(w: Window, s0: nat, id: nat)
    requires WindowOK(w) && WindowSees(w, id)
    ensures SeenWins(MatchAds(SeenRecs(w, id), s0, []), MatchAds(Records(w), s0, []), id, WindowMeets(w, s0, id),
      WindowBare(w, s0, id))
  {
    hide Records, MatchAds, Paired, Alike, SomeExpr, WindowOK, WindowSees, SeenRecs, AdVerdict, Visible;
    WindowBeside(w, s0, id);
  }

  lemma {:induction false} WindowsSeenRows(wins: seq<Window>, s0: nat, id: nat)
    requires forall i :: 0 <= i < |wins| ==> WindowOK(wins[i]) && WindowSees(wins[i], id)
    ensures SeenWins(WindowsSeen(wins, s0, id), WindowsMatch(wins, s0, []), id,
                     exists j :: 0 <= j < |wins| && WindowMeets(wins[j], s0, id),
                     forall j :: 0 <= j < |wins| ==> WindowBare(wins[j], s0, id))
    decreases |wins|
  {
    hide MatchAds, Records, WindowOK, WindowSees, SeenRecs, WindowBare, WindowMeets, SeenWins;
    if wins == [] {
      NoWins(id);
    } else {
      var n := |wins| - 1;
      var head := wins[..n];
      WindowsSeenRows(head, s0, id);
      WindowSeenRows(wins[n], s0, id);
      WinsConcat(WindowsSeen(head, s0, id), WindowsMatch(head, s0, []), MatchAds(SeenRecs(wins[n], id), s0, []),
        MatchAds(Records(wins[n]), s0, []), id,
                 exists j :: 0 <= j < |head| && WindowMeets(head[j], s0, id), WindowMeets(wins[n], s0, id),
                 forall j :: 0 <= j < |head| ==> WindowBare(head[j], s0, id), WindowBare(wins[n], s0, id));
      forall j | 0 <= j < n ensures head[j] == wins[j] {}
    }
  }

  ghost predicate ShardMeets(s: Shard, id: nat)
  {
    exists j :: 0 <= j < |s.wins| && WindowMeets(s.wins[j], s.snapshot, id)
  }

  ghost predicate ShardBare(s: Shard, id: nat)
  {
    forall j :: 0 <= j < |s.wins| ==> WindowBare(s.wins[j], s.snapshot, id)
  }

  lemma {:induction false} ShardsSeenRows(shards: seq<Shard>, id: nat)
    requires forall i, j ::
      0 <= i < |shards| && 0 <= j < |shards[i].wins| ==>
        WindowOK(shards[i].wins[j]) && WindowSees(shards[i].wins[j], id)
    ensures SeenWins(ShardsSeen(shards, id), ShardsMatch(shards, []), id,
                     exists i ::
                       0 <= i < |shards| && ShardMeets(shards[i], id), forall i ::
                         0 <= i < |shards| ==> ShardBare(shards[i], id))
    decreases |shards|
  {
    hide WindowsSeen, WindowsMatch, WindowOK, WindowSees, WindowBare, WindowMeets, SeenWins;
    if shards == [] {
      NoWins(id);
    } else {
      var n := |shards| - 1;
      var head, last := shards[..n], shards[n];
      ShardsSeenRows(head, id);
      WindowsSeenRows(last.wins, last.snapshot, id);
      assert ShardMeets(last, id) <==> exists j :: 0 <= j < |last.wins| && WindowMeets(last.wins[j], last.snapshot, id);
      assert ShardBare(last, id) <==> forall j :: 0 <= j < |last.wins| ==> WindowBare(last.wins[j], last.snapshot, id);
      hide ShardMeets, ShardBare;
      WinsConcat(ShardsSeen(head, id), ShardsMatch(head, []), WindowsSeen(last.wins, last.snapshot, id),
        WindowsMatch(last.wins, last.snapshot, []), id,
                 exists i :: 0 <= i < |head| && ShardMeets(head[i], id), ShardMeets(last, id),
                 forall i :: 0 <= i < |head| ==> ShardBare(head[i], id), ShardBare(last, id));
      forall i | 0 <= i < n ensures head[i] == shards[i] {}
    }
  }

  lemma SeenAgrees(shards: seq<Shard>, id: nat, want: bool)
    requires forall i, j :: 0 <= i < |shards| && 0 <= j < |shards[i].wins| ==> WindowOK(shards[i].wins[j])
    requires AllSeen(shards, id)
    ensures var r := Fold(PStep(id, want), Some(0), ShardsSeen(shards, id));
      && (r.None? <==> ExprMet(shards, id))
      && (r == RowPresence(shards, id, want) <==> ExprMet(shards, id) || NoneHidden(shards, id))
  {
    hide Fold, PStep, ShardsSeen, ShardsMatch, Paired, Alike, SomeExpr, WindowOK, WindowSees, WindowMeets, WindowBare;
    ShardsSeenRows(shards, id);
    PairedFold(ShardsSeen(shards, id), ShardsMatch(shards, []), id, want);
    assert ExprMet(shards, id) <==> exists i :: 0 <= i < |shards| && ShardMeets(shards[i], id);
  }

  // ---------------------------------------------------------------- columnar-native segments

  // Blocks of a columnar-native segment hold only literals, so an expression left in the record reads as
  // missing there: the block's verdict is the record's exactly when the attribute is no expression.
  lemma NativeVerdictExact(ad: seq<Entry>, id: nat)
    requires DistinctIds(ad)
    ensures AdVerdict(Half(ad, true), id) == AdVerdict(ad, id) <==>
      !(Lookup(ad, id).Some? && Lookup(ad, id).value.Expr?)
  {
    hide Lookup, Half;
    LookupHalf(ad, id);
  }

  lemma NativeCountsExpression(code: seq<byte>)
    ensures AdVerdict([Entry(1, Expr(code))], 1) == Unknown &&
      AdVerdict(Half([Entry(1, Expr(code))], true), 1) == Undefined
  {
    var ad := [Entry(1, Expr(code))];
    assert DistinctIds(ad);
    LookupAt(ad, 0);
    LookupHalf(ad, 1);
  }
}
