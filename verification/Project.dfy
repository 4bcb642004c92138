/** Projected reads of a columnar-native record: only the named columns are opened, under whatever numbers the
    reader's tables give. */
module Project {
  import opened Bytes
  import opened Wire
  import opened Row
  import opened ColBlock
  import opened Values
  import opened Fields
  import opened Groups
  import opened Native
  import opened Splice

  // ---------------------------------------------------------------- the record half

  // The wanted attributes' keys in the record, those a dictionary does not name left out.
  function WantKeys(ks: Keys, ids: seq<nat>): (r: set<nat>) { set id | id in ids && HasKey(ks, id) :: ks.out(id) }

  function Narrowed(rem: seq<Entry>, keep: set<nat>): (r: seq<Entry>)
  {
    if rem == [] then []
    else if rem[|rem| - 1].id in keep then Narrowed(rem[..|rem| - 1], keep) + [rem[|rem| - 1]]
    else Narrowed(rem[..|rem| - 1], keep)
  }

  // Keep the wanted entries of an id-keyed record; a name-keyed one is passed through whole.
  method NarrowAd(rem: seq<Entry>, inline: bool, keep: set<nat>) returns (r: seq<Entry>)
    ensures r == if inline then rem else Narrowed(rem, keep)
  {
    if inline { return rem; }
    r := [];
    for i := 0 to |rem|
      invariant r == Narrowed(rem[..i], keep)
    {
      assert rem[..i + 1][..i] == rem[..i];
      if rem[i].id in keep { r := r + [rem[i]]; }
    }
    assert rem[..|rem|] == rem;
  }

  lemma {:induction false} NarrowedMember(rem: seq<Entry>, keep: set<nat>, e: Entry)
    ensures e in Narrowed(rem, keep) <==> e in rem && e.id in keep
    decreases |rem|
  {
    if rem != [] {
      var n := |rem| - 1;
      NarrowedMember(rem[..n], keep, e);
      assert rem == rem[..n] + [rem[n]];
    }
  }

  lemma {:induction false} NarrowedDistinct(rem: seq<Entry>, keep: set<nat>)
    requires DistinctIds(rem)
    ensures DistinctIds(Narrowed(rem, keep))
    decreases |rem|
  {
    if rem != [] {
      var n := |rem| - 1;
      NarrowedDistinct(rem[..n], keep);
      forall e | e in Narrowed(rem[..n], keep) ensures e.id != rem[n].id { NarrowedMember(rem[..n], keep, e); }
    }
  }

  function IdsOf(ids: seq<nat>): (r: Option<set<nat>>) { Some(set id | id in ids) }

  // Narrowing keeps exactly the wanted attributes of this ad.
  ghost predicate NarrowsRight(ks: Keys, ad: seq<Entry>, ids: seq<nat>)
  {
    forall x :: x in ad ==> (ks.out(x.id) in WantKeys(ks, ids) <==> x.id in ids)
  }

  lemma NarrowedSupplies(ks: Keys, groups: seq<Group>, ad: seq<Entry>, rem: seq<Entry>, ids: seq<nat>)
    requires Supplies(ks.out, groups, ad, None, rem, InRecord) && NarrowsRight(ks, ad, ids)
    ensures Supplies(ks.out, groups, ad, IdsOf(ids), Narrowed(rem, WantKeys(ks, ids)), InRecord)
  {
    hide PartOf, Narrowed, DistinctIds, WantKeys;
    var keep, want, out := WantKeys(ks, ids), IdsOf(ids), ks.out;
    assert DistinctIds(rem);
    NarrowedDistinct(rem, keep);
    forall e
      ensures e in Narrowed(rem, keep) <==>
        exists x :: Carries(out, ad, x, e) && PartOf(groups, ad, x) == InRecord && Wanted(want, x.id)
    {
      NarrowedMember(rem, keep, e);
      if x :| Carries(out, ad, x, e) && PartOf(groups, ad, x) == InRecord && Wanted(want, x.id) {
        assert Wanted(None, x.id);
      }
    }
  }

  // ---------------------------------------------------------------- the base columns

  // The wanted attributes that are no base field, from the tail.
  function TailVals(s: Schema, out: nat -> nat, ad: seq<Entry>, ids: seq<nat>): (es: seq<Entry>)
  {
    if ids == [] then []
    else
      var id := ids[|ids| - 1];
      var v := Lookup(ad, id);
      if id !in s.byId && v.Some? then TailVals(s, out, ad, ids[..|ids| - 1]) + [Entry(out(id), v.value)]
      else TailVals(s, out, ad, ids[..|ids| - 1])
  }

  lemma {:induction false} TailValsMember(s: Schema, out: nat -> nat, ad: seq<Entry>, ids: seq<nat>, e: Entry)
    requires DistinctIds(ad)
    ensures e in TailVals(s, out, ad, ids) <==> exists x :: Carries(out, ad, x, e) && x.id in ids && x.id !in s.byId
    decreases |ids|
  {
    hide Lookup;
    if ids != [] {
      var n := |ids| - 1;
      var id := ids[n];
      TailValsMember(s, out, ad, ids[..n], e);
      assert ids == ids[..n] + [id];
      if Lookup(ad, id).Some? {
        var v := Lookup(ad, id).value;
        var j: nat :| j < |ad| && ad[j] == Entry(id, v);
        assert Carries(out, ad, ad[j], Entry(out(id), v));
      }
      forall x | Carries(out, ad, x, e) && x.id == id ensures Lookup(ad, id) == Some(e.node) {
        var j :| 0 <= j < |ad| && ad[j] == x;
        LookupAt(ad, j);
      }
    }
  }

  lemma {:induction false} TailValsDistinct(s: Schema, out: nat -> nat, ad: seq<Entry>, ids: seq<nat>)
    requires DistinctIds(ad) && KeyInjective(out, ad) && forall i, j :: 0 <= i < j < |ids| ==> ids[i] != ids[j]
    ensures DistinctIds(TailVals(s, out, ad, ids))
    decreases |ids|
  {
    if ids != [] {
      hide Lookup, DistinctIds, KeyInjective;
      var n := |ids| - 1;
      var id := ids[n];
      TailValsDistinct(s, out, ad, ids[..n]);
      if id !in s.byId && Lookup(ad, id).Some? {
        var most, last := TailVals(s, out, ad, ids[..n]), Entry(out(id), Lookup(ad, id).value);
        var j: nat :| j < |ad| && ad[j] == Entry(id, last.node);
        var y := ad[j];
        assert Carries(out, ad, y, last);
        forall e, e' | e in most && e' in [last] ensures e.id != e'.id {
          TailValsMember(s, out, ad, ids[..n], e);
          var x :| Carries(out, ad, x, e) && x.id in ids[..n];
          if e.id == last.id { CarriedOnce(out, ad, x, y, e, last); }
        }
        OneDistinct(last);
        DistinctConcat(most, [last]);
      }
    }
  }

  // Base fields by column, other wanted attributes by tail: the wanted part of the base ad.
  lemma ProjectedBase(s: Schema, out: nat -> nat, groups: seq<Group>, ad: seq<Entry>, ids: seq<nat>)
    requires ValidSchema(s) && ValidAd(ad) && KeyInjective(out, ad)
    requires NoneTwice(ids)
    ensures var b, g := BaseAd(groups, ad), Group(s, []);
      Supplies(out, groups, ad, IdsOf(ids), FieldVals(g, out, b, IdsOf(ids), |s.fields|) + TailVals(s, out, b, ids),
        InBase)
  {
    hide BaseAd, PartOf, KeyInjective, DistinctIds, ValidSchema, FieldVals, TailVals, InFields;
    var b, g, want := BaseAd(groups, ad), Group(s, []), IdsOf(ids);
    var fv, tv := FieldVals(g, out, b, want, |s.fields|), TailVals(s, out, b, ids);
    forall x ensures x in b <==> x in ad && PartOf(groups, ad, x) == InBase { BaseMember(groups, ad, x); }
    BaseDistinct(groups, ad);
    SubInjective(out, b, ad);
    FieldValsDistinct(g, out, b, want, |s.fields|);
    TailValsDistinct(s, out, b, ids);
    forall id ensures InFields(g, |s.fields|, id) <==> id in s.byId { SchemaFields(g, id); }
    forall e, e' | e in fv && e' in tv ensures e.id != e'.id {
      FieldValsMember(g, out, b, want, |s.fields|, e);
      TailValsMember(s, out, b, ids, e');
      var x :| Carries(out, b, x, e) && InFields(g, |s.fields|, x.id);
      var y :| Carries(out, b, y, e') && y.id !in s.byId;
      if e.id == e'.id { CarriedOnce(out, b, x, y, e, e'); }
    }
    DistinctConcat(fv, tv);
    forall e
      ensures e in fv + tv <==>
        exists x :: Carries(out, ad, x, e) && PartOf(groups, ad, x) == InBase && Wanted(want, x.id)
    {
      FieldValsMember(g, out, b, want, |s.fields|, e);
      TailValsMember(s, out, b, ids, e);
      if x :| Carries(out, ad, x, e) && PartOf(groups, ad, x) == InBase && Wanted(want, x.id) {
        assert Carries(out, b, x, e);
      }
      if x :| Carries(out, b, x, e) && x.id in ids { assert Carries(out, ad, x, e); }
      if x :| Carries(out, b, x, e) && InFields(g, |s.fields|, x.id) && Wanted(want, x.id) {
        assert Carries(out, ad, x, e);
      }
    }
  }

  lemma BaseDistinct(groups: seq<Group>, ad: seq<Entry>)
    requires ValidAd(ad)
    ensures DistinctIds(BaseAd(groups, ad))
  {
    hide Half, Without, SkipSet;
    HalfValid(ad, true);
    WithoutDistinct(Half(ad, true), SkipSet(groups, Half(ad, true)));
  }

  lemma SchemaFields(g: Group, id: nat)
    requires ValidSchema(g.schema)
    ensures InFields(g, |g.schema.fields|, id) <==> id in g.schema.byId
  {
    hide SlotOff, BoolsBefore;
    if i :| 0 <= i < |g.schema.fields| && g.schema.fields[i].id == id { assert FieldOK(g.schema, i); }
    if id in g.schema.byId { assert IdOK(g.schema, id); assert g.schema.fields[g.schema.byId[id]].id == id; }
  }

  // ---------------------------------------------------------------- what a projected read returns

  // A tail entry goes out under the number it was stored under where a dictionary keys the record, and otherwise
  // under the wanted attribute's key.
  function TailKey(ks: Keys, id: nat): (x: nat) { if ks.dict then ks.stored(id) else ks.out(id) }

  // The wanted attributes that are no base field, as they are found in the tail.
  function TailValsAs(s: Schema, ks: Keys, ad: seq<Entry>, ids: seq<nat>): (es: seq<Entry>)
  {
    if ids == [] then []
    else
      var id := ids[|ids| - 1];
      var v := Lookup(ColdEntries(s, ks.key, ad), ks.stored(id));
      if id !in s.byId && v.Some? then TailValsAs(s, ks, ad, ids[..|ids| - 1]) + [Entry(TailKey(ks, id), v.value)]
      else TailValsAs(s, ks, ad, ids[..|ids| - 1])
  }

  // Declined: a dictionary does not name a wanted base field.
  predicate Declines(ks: Keys, s: Schema, ids: seq<nat>)
  {
    ks.dict && exists id :: id in ids && id in s.byId && !ks.named(id)
  }

  ghost function ProjectedAs(ks: Keys, s: Schema, groups: seq<Group>, ad: seq<Entry>, inline: bool, ids: seq<nat>)
    : seq<Entry>
  {
    RecordPart(ks, ad, inline, ids) + BasePart(ks, s, BaseAd(groups, ad), ids) +
      GroupValsAs(groups, ks.key, ks.inGroup, ks.out, Half(ad, true), IdsOf(ids), |groups|)
  }

  function RecordPart(ks: Keys, ad: seq<Entry>, inline: bool, ids: seq<nat>): (es: seq<Entry>)
  {
    var rem := Half(RekeyAd(ks.out, ad), false);
    if inline then rem else Narrowed(rem, WantKeys(ks, ids))
  }

  function BasePart(ks: Keys, s: Schema, base: seq<Entry>, ids: seq<nat>): (es: seq<Entry>)
  {
    FieldValsAs(Group(s, []), ks.key, ks.stored, ks.out, base, IdsOf(ids), |s.fields|) + TailValsAs(s, ks, base, ids)
  }

  // Wanted base fields by column, other wanted attributes by tail.
  method BaseColumns(blk: Block, ks: Keys, ids: seq<nat>, local: nat, ghost bases: seq<seq<Entry>>)
    returns (es: Option<seq<Entry>>)
    requires BlockFor(blk, ks.key, bases) && local < |bases|
    ensures es.None? <==> Declines(ks, blk.schema, ids)
    ensures es.Some? ==> es.value == BasePart(ks, blk.schema, bases[local], ids)
  {
    hide BlockFor, Lookup, FieldAtRecord, FieldAs, TailNode, ColdEntries, ValidSchema;
    var s := blk.schema;
    BlockFacts(blk, ks.key, bases);
    ghost var g := Group(s, []);
    var fv: seq<Entry> := [];
    for i := 0 to |s.fields|
      invariant fv == FieldValsAs(g, ks.key, ks.stored, ks.out, bases[local], IdsOf(ids), i)
      invariant forall j {:trigger s.fields[j]} :: 0 <= j < i && s.fields[j].id in ids ==> HasKey(ks, s.fields[j].id)
    {
      var id := s.fields[i].id;
      if id in ids {
        FieldAt(s, i);
        if ks.dict && !ks.named(id) { return None; }
        FieldShown(blk, ks.key, ks.stored, bases, i, local);
        var v := FieldAtRecord(blk, ks.stored, i, local);
        if v.Some? { fv := fv + [Entry(ks.out(id), v.value)]; }
      }
    }
    NotDeclined(ks, s, ids);
    var tv: seq<Entry> := [];
    for i := 0 to |ids|
      invariant tv == TailValsAs(s, ks, bases[local], ids[..i])
    {
      assert ids[..i + 1][..i] == ids[..i];
      if ids[i] !in s.byId {
        TailNodeShown(blk, ks.key, ks.stored, bases, ids[i], local);
        var v := TailNode(blk, ks.stored, ids[i], local);
        if v.Some? { tv := tv + [Entry(TailKey(ks, ids[i]), v.value)]; }
      }
    }
    assert ids[..|ids|] == ids;
    es := Some(fv + tv);
  }

  lemma NotDeclined(ks: Keys, s: Schema, ids: seq<nat>)
    requires ValidSchema(s)
    requires forall j {:trigger s.fields[j]} ::
      0 <= j < |s.fields| && s.fields[j].id in ids ==> HasKey(ks, s.fields[j].id)
    ensures !Declines(ks, s, ids)
  {
    hide ValidSchema;
    forall id | id in ids && id in s.byId ensures HasKey(ks, id) { IdAt(s, id); }
  }

  // Everything wanted is found as it is, and goes out under its own key.
  ghost predicate WantedFound(ks: Keys, s: Schema, groups: seq<Group>, ad: seq<Entry>, ids: seq<nat>)
  {
    && FieldsFound(Group(s, []), ks.key, ks.stored, BaseAd(groups, ad), IdsOf(ids))
    && (forall id {:trigger TailFound(ks, s, BaseAd(groups, ad), id)} ::
          id in ids && id !in s.byId ==> TailFound(ks, s, BaseAd(groups, ad), id))
    && GroupsFound(groups, ks.key, ks.inGroup, Half(ad, true), IdsOf(ids)) && NarrowsRight(ks, ad, ids)
  }

  ghost predicate TailFound(ks: Keys, s: Schema, base: seq<Entry>, id: nat)
  {
    && Lookup(ColdEntries(s, ks.key, base), ks.stored(id)) == Lookup(base, id)
    && (Lookup(base, id).Some? ==> TailKey(ks, id) == ks.out(id))
  }

  lemma {:induction false} TailValsSame(s: Schema, ks: Keys, base: seq<Entry>, ids: seq<nat>)
    requires forall id :: id in ids && id !in s.byId ==> TailFound(ks, s, base, id)
    ensures TailValsAs(s, ks, base, ids) == TailVals(s, ks.out, base, ids)
    decreases |ids|
  {
    hide Lookup, ColdEntries, TailKey;
    if ids != [] {
      var n := |ids| - 1;
      assert ids == ids[..n] + [ids[n]];
      TailValsSame(s, ks, base, ids[..n]);
    }
  }

  predicate NoneTwice(ids: seq<nat>) { forall i, j :: 0 <= i < j < |ids| ==> ids[i] != ids[j] }

  // What is projected of the record is the wanted attributes, and all of the record itself where that is not narrowed.
  ghost predicate Gives(ks: Keys, s: Schema, groups: seq<Group>, ad: seq<Entry>, inline: bool, ids: seq<nat>)
  {
    var want := IdsOf(ids);
    Answer(ks.out, groups, ad, if inline then None else want, want, ProjectedAs(ks, s, groups, ad, inline, ids))
  }

  // Then each wanted attribute is there exactly once, and for an id-keyed record nothing else.
  lemma ProjectedRight(ks: Keys, s: Schema, groups: seq<Group>, ad: seq<Entry>, inline: bool, ids: seq<nat>)
    requires ValidSchema(s) && ValidGroups(groups) && ValidAd(ad) && KeyInjective(ks.out, ad) && NoneTwice(ids)
    requires WantedFound(ks, s, groups, ad, ids)
    ensures Gives(ks, s, groups, ad, inline, ids)
  {
    hide Half, RekeyAd, GroupVals, GroupValsAs, FieldVals, FieldValsAs, TailVals, TailValsAs, BaseAd, KeyInjective,
      ValidGroups, Supplies, Answer, Narrowed, WantKeys, NarrowsRight, FieldsFound, GroupsFound, ValidSchema, ValidAd,
      TailFound;
    ValidAdDistinct(ad);
    var base, want := BaseAd(groups, ad), IdsOf(ids);
    HalfRekeyed(ks.out, ad, false);
    RecordSupplies(ks.out, groups, ad);
    if !inline { NarrowedSupplies(ks, groups, ad, Half(RekeyAd(ks.out, ad), false), ids); }
    FieldValsSame(Group(s, []), ks.key, ks.stored, ks.out, base, want, |s.fields|);
    TailValsSame(s, ks, base, ids);
    ProjectedBase(s, ks.out, groups, ad, ids);
    GroupValsSame(groups, ks.key, ks.inGroup, ks.out, Half(ad, true), want, |groups|);
    GroupsSupply(ks.out, groups, ad, want);
    PartsAnswer(ks.out, groups, ad, if inline then None else want, want, RecordPart(ks, ad, inline, ids),
                BasePart(ks, s, base, ids), GroupVals(groups, ks.out, Half(ad, true), want, |groups|));
  }

  // A projected read, whatever the numbers looked for: declined exactly where a dictionary does not name a wanted base
  // field. Where everything wanted is found as it is, each wanted attribute is there exactly once and, for an id-keyed
  // record, nothing else.
  method ProjectFromColumns(cn: ColNative, ks: Keys, remnant: seq<Entry>, inline: bool, ids: seq<nat>, k: nat,
                            ghost s: Schema, ghost ads: seq<seq<Entry>>)
    returns (r: Option<seq<Entry>>)
    requires NativeFor(cn, ks.key, ads) && k < |ads| && forall bi :: 0 <= bi < |cn.blocks| ==> cn.blocks[bi].schema == s
    requires remnant == Half(RekeyAd(ks.out, ads[k]), false) && (ks.dict ==> AllNamed(ks.named, ads[k]))
    ensures r.None? <==> Declines(ks, s, ids)
    ensures r.Some? ==> r.value == ProjectedAs(ks, s, cn.groups, ads[k], inline, ids)
    ensures r.Some? && NoneTwice(ids) && KeyInjective(ks.out, ads[k]) && WantedFound(ks, s, cn.groups, ads[k], ids) ==>
      Answer(ks.out, cn.groups, ads[k], if inline then None else IdsOf(ids), IdsOf(ids), r.value)
  {
    hide NativeFor, Half, RekeyAd, GroupValsAs, BasePart, BaseAd, KeyInjective, ValidGroups, BlockFor, Answer, Narrowed,
      WantKeys, Start, AllNamed, WantedFound, Declines, GroupsFound, NoneTwice;
    var bi, local := BlockIndexAndLocal(cn.blocks, k);
    NativeSize(cn, ks.key, ads);
    if bi < 0 { return None; }
    ghost var ad := ads[k];
    NativeAt(cn, ks.key, ads, bi, k);
    RunAt(cn, ks.key, ads, bi, local);
    ghost var run := Run(cn, ads, bi);
    PartsNamed(ks, cn.groups, ad);
    var rem := NarrowAd(remnant, inline, WantKeys(ks, ids));
    BlockFacts(cn.blocks[bi], ks.key, BaseAds(cn.groups, run));
    var base := BaseColumns(cn.blocks[bi], ks, ids, local, BaseAds(cn.groups, run));
    if base.None? { return None; }
    var grp := AppendGroupValues(cn, ks, IdsOf(ids), bi, local, ads);
    if grp.None? { return None; }
    r := Some(rem + base.value + grp.value);
    if NoneTwice(ids) && KeyInjective(ks.out, ad) && WantedFound(ks, s, cn.groups, ad, ids) {
      ProjectedRight(ks, s, cn.groups, ad, inline, ids);
    }
  }

  // For every projected attribute a projected read and a full reassembly answer alike.
  lemma ProjectionAgrees(out: nat -> nat, groups: seq<Group>, ad: seq<Entry>, wr: Option<set<nat>>, ids: seq<nat>,
                         proj: seq<Entry>, full: seq<Entry>, id: nat)
    requires Answer(out, groups, ad, wr, IdsOf(ids), proj) && Answer(out, groups, ad, None, None, full) && id in ids
    requires Unshared(out, ad, id)
    requires wr.Some? ==> id in wr.value
    ensures Lookup(proj, out(id)) == Lookup(full, out(id))
  {
    hide PartOf, Lookup;
    forall e: Entry | e.id == out(id) ensures e in proj <==> e in full {
      forall x | Carries(out, ad, x, e) ensures x.id == id {}
      if x :| Carries(out, ad, x, e) { assert Wanted(None, x.id) && Wanted(wr, x.id) && Wanted(IdsOf(ids), x.id); }
    }
    if Lookup(proj, out(id)).Some? { SameEntry(proj, full, out(id)); }
    if Lookup(full, out(id)).Some? { SameEntry(full, proj, out(id)); }
  }

  lemma SameEntry(a: seq<Entry>, b: seq<Entry>, id: nat)
    requires DistinctIds(b) && Lookup(a, id).Some? && forall e: Entry :: e.id == id && e in a ==> e in b
    ensures Lookup(b, id) == Lookup(a, id)
  {
    var e := Entry(id, Lookup(a, id).value);
    assert e in a;
    var j :| 0 <= j < |b| && b[j] == e;
    LookupAt(b, j);
  }
}
