/** When a projected read of a columnar-native record is right: what the reader's tables must give for the wanted
    attributes, for every record the segment can hold. */
module ProjectReads {
  import opened Bytes
  import opened Wire
  import opened Row
  import opened Values
  import opened Fields
  import opened Groups
  import opened GroupReads
  import opened Native
  import opened Splice
  import opened Project

  // A dictionary's tables lead to the number of everything it names, which is its key in the record too.
  ghost predicate DictTables(ks: Keys)
  {
    ks.dict ==> forall id: nat {:trigger ks.named(id)} :: ks.named(id) ==>
      ks.stored(id) == ks.key(id) && ks.inGroup(id) == ks.key(id) && ks.out(id) == ks.key(id)
  }

  // A wanted attribute with a number is looked for in the base blocks under it, or is never there; one without is
  // looked for under the number of no attribute that reaches a base tail.
  ghost predicate ReadsBase(ks: Keys, groups: seq<Group>, id: nat)
  {
    if ks.named(id) && !Sole(groups, id) then ks.stored(id) == ks.key(id)
    else forall z: nat {:trigger ks.named(z)} :: ks.named(z) && ks.key(z) == ks.stored(id) ==> Sole(groups, z)
  }

  ghost predicate ProjectRight(ks: Keys, groups: seq<Group>, ids: seq<nat>)
  {
    (forall id :: id in ids ==> ReadsBase(ks, groups, id)) && GroupsKeyed(ks, groups, IdsOf(ids))
  }

  // ---------------------------------------------------------------- right

  lemma SoleGone(groups: seq<Group>, ad: seq<Entry>, e: Entry)
    requires Sole(groups, e.id)
    ensures e !in BaseAd(groups, ad)
  {
    hide Half, Without, SkipSet, Sole;
    var h := Half(ad, true);
    WithoutMember(h, SkipSet(groups, h), e);
    if e in h { SoleSkipped(groups, h, e); }
  }

  lemma BaseFound(ks: Keys, s: Schema, groups: seq<Group>, ad: seq<Entry>, id: nat)
    requires KeyedBy(ks.key, ks.named) && Holdable(ks, s, groups, ad) && ReadsBase(ks, groups, id)
    requires NotInSlot(s, BaseAd(groups, ad), id)
    ensures Lookup(ColdEntries(s, ks.key, BaseAd(groups, ad)), ks.stored(id)) == Lookup(BaseAd(groups, ad), id)
    ensures Lookup(BaseAd(groups, ad), id).Some? ==> ks.named(id) && ks.stored(id) == ks.key(id)
  {
    hide BaseAd, ColdEntries, Lookup, KeyedBy, ValidAd, Half, Whole, Sole, InSlot;
    var base := BaseAd(groups, ad);
    BaseDistinct(groups, ad);
    if Lookup(base, id).Some? {
      LookupFound(base, id);
      if Sole(groups, id) { SoleGone(groups, ad, Entry(id, Lookup(base, id).value)); }
    }
    if ks.named(id) && !Sole(groups, id) {
      TailRead(s, ks.key, ks.named, base, id, ks.key(id));
    } else {
      var c := ColdEntries(s, ks.key, base);
      forall j | 0 <= j < |c| ensures c[j].id != ks.stored(id) {
        ColdMember(s, ks.key, base, c[j]);
        var b :| 0 <= b < |base| && !InSlot(s, base[b]) && c[j] == Entry(ks.key(base[b].id), base[b].node);
        assert ks.named(base[b].id);
        if Sole(groups, base[b].id) { SoleGone(groups, ad, base[b]); }
      }
      LookupMisses(c, ks.stored(id));
    }
  }

  lemma RightFound(ks: Keys, s: Schema, groups: seq<Group>, ad: seq<Entry>, ids: seq<nat>)
    requires TablesOK(ks) && DictTables(ks) && ValidSchema(s) && ValidGroups(groups) && Holdable(ks, s, groups, ad)
    requires ProjectRight(ks, groups, ids)
    ensures WantedFound(ks, s, groups, ad, ids)
  {
    hide BaseAd, ColdEntries, Lookup, KeyedBy, ValidAd, Half, Whole, ReadsBase, ValidSchema, ValidGroups, AllNamed,
      TailNamed, GroupsFound, GroupsKeyed, FieldAs;
    var base, g := BaseAd(groups, ad), Group(s, []);
    KeyedFound(ks, s, groups, ad, IdsOf(ids));
    forall i: nat | i < |s.fields| && Wanted(IdsOf(ids), s.fields[i].id)
      ensures FieldAs(s, ks.key, base, i, ks.stored(s.fields[i].id)) == Lookup(base, s.fields[i].id)
    {
      FieldRight(ks, s, groups, ad, i);
    }
    assert g.schema == s;
    forall id | id in ids && id !in s.byId ensures TailFound(ks, s, base, id) { TailRight(ks, s, groups, ad, id); }
    assert NarrowsRight(ks, ad, ids) by { WantsRight(ks, s, groups, ad, ids); }
  }

  lemma FieldRight(ks: Keys, s: Schema, groups: seq<Group>, ad: seq<Entry>, i: nat)
    requires KeyedBy(ks.key, ks.named) && ValidSchema(s) && Holdable(ks, s, groups, ad) && i < |s.fields|
    requires ReadsBase(ks, groups, s.fields[i].id)
    ensures var base, id := BaseAd(groups, ad), s.fields[i].id;
      FieldAs(s, ks.key, base, i, ks.stored(id)) == Lookup(base, id)
  {
    hide BaseAd, ColdEntries, Lookup, KeyedBy, ValidSchema, Holdable, ReadsBase, SlotLit;
    var base := BaseAd(groups, ad);
    SlotOrNot(s, base, i);
    if SlotLit(s, base, i).None? { BaseFound(ks, s, groups, ad, s.fields[i].id); }
  }

  lemma TailRight(ks: Keys, s: Schema, groups: seq<Group>, ad: seq<Entry>, id: nat)
    requires KeyedBy(ks.key, ks.named) && DictTables(ks) && Holdable(ks, s, groups, ad) && ReadsBase(ks, groups, id)
    requires id !in s.byId
    ensures TailFound(ks, s, BaseAd(groups, ad), id)
  {
    hide BaseAd, ColdEntries, Lookup, KeyedBy, Holdable, ReadsBase;
    assert NotInSlot(s, BaseAd(groups, ad), id);
    BaseFound(ks, s, groups, ad, id);
  }

  lemma WantsRight(ks: Keys, s: Schema, groups: seq<Group>, ad: seq<Entry>, ids: seq<nat>)
    requires TablesOK(ks) && Holdable(ks, s, groups, ad)
    ensures NarrowsRight(ks, ad, ids)
  {
    hide KeyedBy, ValidAd, BaseAd, TailNamed, Whole;
    forall x | x in ad ensures ks.out(x.id) in WantKeys(ks, ids) <==> x.id in ids {
      var j :| 0 <= j < |ad| && ad[j] == x;
      assert HasKey(ks, x.id);
      if ks.out(x.id) in WantKeys(ks, ids) {
        var id :| id in ids && HasKey(ks, id) && ks.out(id) == ks.out(x.id);
      }
    }
  }

  // ---------------------------------------------------------------- records that fail

  // One attribute, in the base tail, of a group of several or of none.
  lemma LoneHeld(ks: Keys, s: Schema, groups: seq<Group>, z: nat)
    requires KeyedBy(ks.key, ks.named) && ValidGroups(groups) && ks.named(z) && !Sole(groups, z)
    ensures var e := Entry(z, Lit(LUndef)); var ad := [e];
      && Holdable(ks, s, groups, ad) && BaseAd(groups, ad) == ad && Half(ad, true) == ad
      && Half(RekeyAd(ks.out, ad), false) == [] && PartOf(groups, ad, e) == InBase
      && (forall gi :: 0 <= gi < |groups| ==> !Whole(ad, groups[gi]))
      && (forall id :: Lookup(ad, id) == if id == z then Some(Lit(LUndef)) else None)
      && ColdEntries(s, ks.key, ad) == [Entry(ks.key(z), Lit(LUndef))]
  {
    hide ColdEntries, Lookup, ValidAd, ValidSchema, Half, RekeyAd, InSlot, Without, SkipSet, Sole;
    var e := Entry(z, Lit(LUndef));
    var ad := [e];
    LoneTail(s, ks.key, ks.named, z, ks.key(z));
    AllLiterals(ad);
    HalfRekeyed(ks.out, ad, false);
    RekeyNothing(ks.out);
    forall gi | 0 <= gi < |groups| ensures !Whole(ad, groups[gi]) {
      if Whole(ad, groups[gi]) { WholeSole(groups, gi, ad, z); }
    }
    assert !InSlot(s, e) by { assert NotInSlot(s, ad, z); }
    OneColdEntry(s, ks.key, e);
    assert z !in SkipSet(groups, ad);
    OneWithout(e, SkipSet(groups, ad));
    assert AllNamed(ks.named, ad);
  }

  lemma WholeSole(groups: seq<Group>, gi: nat, ad: seq<Entry>, z: nat)
    requires ValidGroups(groups) && gi < |groups| && Whole(ad, groups[gi])
    requires forall id :: Lookup(ad, id).Some? ==> id == z
    ensures Sole(groups, z)
  {
    hide Lookup, ValidSchema;
    var ids := groups[gi].ids;
    assert ValidGroup(groups[gi]);
    forall i | 0 <= i < |ids| ensures ids[i] == z { assert ids[i] in ids && HasAttr(ad, ids[i]); }
    assert ids[0] in ids;
    OnlyMember(ids, z);
  }

  lemma {:induction false} NoneWhole(groups: seq<Group>, key: nat -> nat, stored: nat -> nat, out: nat -> nat,
                                     ad: seq<Entry>, want: Option<set<nat>>, n: nat)
    requires n <= |groups| && forall gi :: 0 <= gi < |groups| ==> !Whole(ad, groups[gi])
    ensures GroupValsAs(groups, key, stored, out, ad, want, n) == []
    decreases n
  {
    hide Whole, FieldValsAs;
    if n > 0 { NoneWhole(groups, key, stored, out, ad, want, n - 1); }
  }

  lemma {:induction false} TailAsFrom(s: Schema, ks: Keys, ad: seq<Entry>, ids: seq<nat>, e: Entry) returns (id: nat)
    requires e in TailValsAs(s, ks, ad, ids)
    ensures id in ids && id !in s.byId && e.id == TailKey(ks, id)
    ensures Lookup(ColdEntries(s, ks.key, ad), ks.stored(id)) == Some(e.node)
    decreases |ids|
  {
    hide Lookup, ColdEntries, TailKey;
    var n := |ids| - 1;
    if e in TailValsAs(s, ks, ad, ids[..n]) {
      id := TailAsFrom(s, ks, ad, ids[..n], e);
      assert id in ids;
    } else {
      id := ids[n];
    }
  }

  lemma {:induction false} TailAsIn(s: Schema, ks: Keys, ad: seq<Entry>, ids: seq<nat>, id: nat)
    requires id in ids && id !in s.byId && Lookup(ColdEntries(s, ks.key, ad), ks.stored(id)).Some?
    ensures var v := Lookup(ColdEntries(s, ks.key, ad), ks.stored(id)).value;
      Entry(TailKey(ks, id), v) in TailValsAs(s, ks, ad, ids)
    decreases |ids|
  {
    hide Lookup, ColdEntries, TailKey;
    var n := |ids| - 1;
    assert ids == ids[..n] + [ids[n]];
    if id != ids[n] { TailAsIn(s, ks, ad, ids[..n], id); }
  }

  lemma {:induction false} FieldAsIn(g: Group, key: nat -> nat, stored: nat -> nat, out: nat -> nat, ad: seq<Entry>,
                                     want: Option<set<nat>>, n: nat, i: nat)
    requires i < n <= |g.schema.fields| && Wanted(want, g.schema.fields[i].id)
    requires FieldAs(g.schema, key, ad, i, stored(g.schema.fields[i].id)).Some?
    ensures Entry(out(g.schema.fields[i].id), FieldAs(g.schema, key, ad, i, stored(g.schema.fields[i].id)).value) in
      FieldValsAs(g, key, stored, out, ad, want, n)
    decreases n
  {
    hide FieldAs;
    if i < n - 1 { FieldAsIn(g, key, stored, out, ad, want, n - 1, i); }
  }

  // Two wanted attributes that go out under one key are there twice.
  lemma {:induction false} TailTwice(s: Schema, ks: Keys, ad: seq<Entry>, ids: seq<nat>, a: nat, b: nat)
    requires NoneTwice(ids) && a in ids && b in ids && a != b && a !in s.byId && b !in s.byId
    requires TailKey(ks, a) == TailKey(ks, b) && Lookup(ColdEntries(s, ks.key, ad), ks.stored(a)).Some?
    requires Lookup(ColdEntries(s, ks.key, ad), ks.stored(b)).Some?
    ensures !DistinctIds(TailValsAs(s, ks, ad, ids))
    decreases |ids|
  {
    hide Lookup, ColdEntries, TailKey;
    var n := |ids| - 1;
    var most, last := TailValsAs(s, ks, ad, ids[..n]), ids[n];
    assert ids == ids[..n] + [last];
    if last == a || last == b {
      var other := if last == a then b else a;
      TailAsIn(s, ks, ad, ids[..n], other);
      SameKeyTwice(most, Entry(TailKey(ks, other), Lookup(ColdEntries(s, ks.key, ad), ks.stored(other)).value),
                   Entry(TailKey(ks, last), Lookup(ColdEntries(s, ks.key, ad), ks.stored(last)).value));
    } else {
      TailTwice(s, ks, ad, ids[..n], a, b);
      PrefixTwice(most, TailValsAs(s, ks, ad, ids));
    }
  }

  lemma SameKeyTwice(es: seq<Entry>, e: Entry, e': Entry)
    requires e in es && e.id == e'.id
    ensures !DistinctIds(es + [e'])
  {
    var c := es + [e'];
    var i :| 0 <= i < |es| && es[i] == e;
    assert c[i].id == c[|es|].id;
  }

  lemma PrefixTwice(a: seq<Entry>, b: seq<Entry>)
    requires !DistinctIds(a) && a <= b
    ensures !DistinctIds(b)
  {
    var i, j :| 0 <= i < j < |a| && a[i].id == a[j].id;
    assert b[i].id == b[j].id;
  }

  // What is projected of a record of one attribute in the base tail.
  lemma LoneProjected(ks: Keys, s: Schema, groups: seq<Group>, z: nat, inline: bool, ids: seq<nat>)
    requires KeyedBy(ks.key, ks.named) && ValidGroups(groups) && ks.named(z) && !Sole(groups, z)
    ensures var ad := [Entry(z, Lit(LUndef))];
      ProjectedAs(ks, s, groups, ad, inline, ids) == BasePart(ks, s, ad, ids)
  {
    hide ColdEntries, Lookup, Half, RekeyAd, BaseAd, BasePart, GroupValsAs, Whole, KeyedBy, ValidGroups, Holdable, Sole;
    var ad := [Entry(z, Lit(LUndef))];
    LoneHeld(ks, s, groups, z);
    NoneWhole(groups, ks.key, ks.inGroup, ks.out, ad, IdsOf(ids), |groups|);
    assert RecordPart(ks, ad, inline, ids) == [];
    assert [] + BasePart(ks, s, ad, ids) + [] == BasePart(ks, s, ad, ids);
  }

  // An attribute with a number, looked for under another: its record comes back without it.
  lemma WantedMissed(ks: Keys, s: Schema, groups: seq<Group>, inline: bool, ids: seq<nat>, id: nat)
    requires TablesOK(ks) && ValidSchema(s) && ValidGroups(groups) && !ks.dict && id in ids
    requires ks.named(id) && !Sole(groups, id) && ks.stored(id) != ks.key(id)
    ensures var ad := [Entry(id, Lit(LUndef))];
      Holdable(ks, s, groups, ad) && !Gives(ks, s, groups, ad, inline, ids)
  {
    hide ColdEntries, Half, RekeyAd, BaseAd, GroupValsAs, FieldValsAs, TailValsAs, Whole, KeyedBy, ValidGroups,
      ValidSchema, Holdable, Sole, ProjectedAs, FieldAs, PartOf;
    var e, ad, g := Entry(id, Lit(LUndef)), [Entry(id, Lit(LUndef))], Group(s, []);
    LoneHeld(ks, s, groups, id);
    LoneProjected(ks, s, groups, id, inline, ids);
    var o := Entry(ks.out(id), Lit(LUndef));
    assert Carries(ks.out, ad, e, o) && Wanted(IdsOf(ids), id);
    var fv, tv := FieldValsAs(g, ks.key, ks.stored, ks.out, ad, IdsOf(ids), |s.fields|), TailValsAs(s, ks, ad, ids);
    hide Lookup;
    if o in fv {
      var fi := FieldAsFrom(g, ks.key, ks.stored, ks.out, ad, IdsOf(ids), |s.fields|, o);
      assert HasKey(ks, s.fields[fi].id) && HasKey(ks, id);
      LoneField(ks, s, id, fi, ks.stored(id));
    } else if o in tv {
      var w := TailAsFrom(s, ks, ad, ids, o);
      assert HasKey(ks, w) && HasKey(ks, id);
      LookupOne(Entry(ks.key(id), Lit(LUndef)), ks.stored(id));
    }
    assert o !in fv + tv;
  }

  lemma LoneField(ks: Keys, s: Schema, z: nat, i: nat, x: nat)
    requires i < |s.fields| && ColdEntries(s, ks.key, [Entry(z, Lit(LUndef))]) == [Entry(ks.key(z), Lit(LUndef))]
    ensures FieldAs(s, ks.key, [Entry(z, Lit(LUndef))], i, x) == if x == ks.key(z) then Some(Lit(LUndef)) else None
  {
    hide Lookup, ColdEntries;
    LookupOne(Entry(z, Lit(LUndef)), s.fields[i].id);
    LookupOne(Entry(ks.key(z), Lit(LUndef)), x);
  }

  // A wanted attribute looked for under another's number: a record of the other comes back with the other's value
  // under the wanted key, or, where a dictionary keys the record, with the other unasked for or twice.
  lemma AnotherGiven(ks: Keys, s: Schema, groups: seq<Group>, inline: bool, ids: seq<nat>, id: nat, z: nat)
    requires TablesOK(ks) && DictTables(ks) && ValidSchema(s) && ValidGroups(groups)
    requires NoneTwice(ids) && !Declines(ks, s, ids)
    requires id in ids && id != z && ks.named(z) && !Sole(groups, z) && ks.key(z) == ks.stored(id)
    ensures var ad := [Entry(z, Lit(LUndef))];
      && Holdable(ks, s, groups, ad) && !Gives(ks, s, groups, ad, inline, ids)
      && Entry(if ks.dict then ks.out(z) else ks.out(id), Lit(LUndef)) in ProjectedAs(ks, s, groups, ad, inline, ids)
  {
    hide ColdEntries, Half, RekeyAd, BaseAd, GroupValsAs, FieldValsAs, TailValsAs, Whole, KeyedBy, ValidGroups,
      ValidSchema, Holdable, Sole, ProjectedAs, FieldAs, PartOf, DistinctIds, Lookup;
    var ad, g, u := [Entry(z, Lit(LUndef))], Group(s, []), Lit(LUndef);
    LoneHeld(ks, s, groups, z);
    LoneProjected(ks, s, groups, z, inline, ids);
    var es := BasePart(ks, s, ad, ids);
    var fv, tv := FieldValsAs(g, ks.key, ks.stored, ks.out, ad, IdsOf(ids), |s.fields|), TailValsAs(s, ks, ad, ids);
    GivenTo(ks, s, ad, ids, id, z);
    var o := Entry(if id in s.byId then ks.out(id) else TailKey(ks, id), u);
    assert o in es;
    if !ks.dict || id in s.byId {
      assert HasKey(ks, id) && HasKey(ks, z) && o.id == ks.out(id);
      forall x | Carries(ks.out, ad, x, o) ensures false {}
    } else if z !in ids {
      forall x | Carries(ks.out, ad, x, o) ensures x.id == z {}
    } else {
      GivenTo(ks, s, ad, ids, z, z);
      LookupOne(Entry(ks.key(z), u), ks.key(z));
      if z in s.byId {
        TwicePlaced(fv, tv, Entry(ks.out(z), u), o);
      } else {
        TailTwice(s, ks, ad, ids, id, z);
        SuffixTwice(fv, tv);
      }
    }
  }

  // The other's entry is read for the wanted attribute.
  lemma GivenTo(ks: Keys, s: Schema, ad: seq<Entry>, ids: seq<nat>, id: nat, z: nat)
    requires ValidSchema(s) && id in ids && ks.stored(id) == ks.key(z) && ad == [Entry(z, Lit(LUndef))]
    requires ColdEntries(s, ks.key, ad) == [Entry(ks.key(z), Lit(LUndef))]
    ensures id in s.byId ==>
      Entry(ks.out(id), Lit(LUndef)) in FieldValsAs(Group(s, []), ks.key, ks.stored, ks.out, ad, IdsOf(ids), |s.fields|)
    ensures id !in s.byId ==> Entry(TailKey(ks, id), Lit(LUndef)) in TailValsAs(s, ks, ad, ids)
  {
    hide ColdEntries, Lookup, FieldValsAs, TailValsAs, ValidSchema, FieldAs, TailKey;
    if id in s.byId {
      IdAt(s, id);
      LoneField(ks, s, z, s.byId[id], ks.stored(id));
      FieldAsIn(Group(s, []), ks.key, ks.stored, ks.out, ad, IdsOf(ids), |s.fields|, s.byId[id]);
    } else {
      LookupOne(Entry(ks.key(z), Lit(LUndef)), ks.stored(id));
      TailAsIn(s, ks, ad, ids, id);
    }
  }

  lemma TwicePlaced(a: seq<Entry>, b: seq<Entry>, e: Entry, e': Entry)
    requires e in a && e' in b && e.id == e'.id
    ensures !DistinctIds(a + b)
  {
    var i :| 0 <= i < |a| && a[i] == e;
    var j :| 0 <= j < |b| && b[j] == e';
    var c := a + b;
    assert c[i].id == c[|a| + j].id;
  }

  lemma SuffixTwice(a: seq<Entry>, b: seq<Entry>)
    requires !DistinctIds(b)
    ensures !DistinctIds(a + b)
  {
    var i, j :| 0 <= i < j < |b| && b[i].id == b[j].id;
    var c := a + b;
    assert c[|a| + i].id == c[|a| + j].id;
  }

  // A wanted group attribute looked for in its group's block under another number.
  lemma WantedLost(ks: Keys, s: Schema, groups: seq<Group>, inline: bool, ids: seq<nat>, gi: nat, fi: nat)
    requires TablesOK(ks) && ValidGroups(groups) && gi < |groups| && fi < |groups[gi].schema.fields|
    requires ks.named(groups[gi].schema.fields[fi].id) && (ks.dict ==> AllOf(groups[gi], ks.named))
    requires ks.inGroup(groups[gi].schema.fields[fi].id) != ks.key(groups[gi].schema.fields[fi].id)
    requires groups[gi].schema.fields[fi].id in ids
    ensures var ad := FitAd(groups[gi], fi);
      Holdable(ks, s, groups, ad) && !Gives(ks, s, groups, ad, inline, ids)
  {
    hide Half, RekeyAd, BaseAd, GroupValsAs, FieldValsAs, TailValsAs, Whole, KeyedBy, ValidGroups, Holdable, FieldAs,
      PartOf, ColdEntries, Lookup, FitAd, DistinctIds;
    var g, ad := groups[gi], FitAd(groups[gi], fi);
    var id := g.schema.fields[fi].id;
    var o := Entry(ks.out(id), Lit(LUndef));
    FitHeld(ks, s, groups, gi, fi);
    FitNotFound(ks, groups, gi, fi, IdsOf(ids));
    NothingProjected(ks, s, ids);
    assert RecordPart(ks, ad, inline, ids) == [];
    assert ProjectedAs(ks, s, groups, ad, inline, ids) ==
      GroupValsAs(groups, ks.key, ks.inGroup, ks.out, ad, IdsOf(ids), |groups|);
    FitCarried(ks.out, groups, gi, fi);
    assert Carries(ks.out, ad, Entry(id, Lit(LUndef)), o) && Wanted(IdsOf(ids), id);
  }

  lemma FitCarried(out: nat -> nat, groups: seq<Group>, gi: nat, fi: nat)
    requires ValidGroups(groups) && gi < |groups| && fi < |groups[gi].schema.fields|
    ensures var id := groups[gi].schema.fields[fi].id; var x := Entry(id, Lit(LUndef));
      x in FitAd(groups[gi], fi) && PartOf(groups, FitAd(groups[gi], fi), x) != InRecord
  {
    hide SkipSet, Half;
    assert FitAd(groups[gi], fi)[fi] in FitAd(groups[gi], fi);
  }

  // Of an empty base row nothing is projected.
  lemma NothingProjected(ks: Keys, s: Schema, ids: seq<nat>)
    ensures BasePart(ks, s, [], ids) == []
  {
    hide FieldValsAs, TailValsAs, FieldAs;
    var fv := FieldValsAs(Group(s, []), ks.key, ks.stored, ks.out, [], IdsOf(ids), |s.fields|);
    var tv := TailValsAs(s, ks, [], ids);
    if fv != [] {
      var fi := FieldAsFrom(Group(s, []), ks.key, ks.stored, ks.out, [], IdsOf(ids), |s.fields|, fv[0]);
      EmptyField(s, ks.key, fi, ks.stored(s.fields[fi].id));
    }
    if tv != [] {
      var id := TailAsFrom(s, ks, [], ids, tv[0]);
    }
  }

  lemma EmptyField(s: Schema, key: nat -> nat, i: nat, x: nat)
    requires i < |s.fields|
    ensures FieldAs(s, key, [], i, x) == None
  {
  }

  // ---------------------------------------------------------------- exactly when it is right

  // A projected read that is not declined gives each wanted attribute exactly once, and for an id-keyed record nothing
  // else, on every record the segment can hold, if and only if every wanted attribute is looked for where it is, or
  // under the number of none that reaches a base tail.
  lemma ProjectExactly(ks: Keys, s: Schema, groups: seq<Group>, inline: bool, ids: seq<nat>)
    requires TablesOK(ks) && DictTables(ks) && ValidSchema(s) && ValidGroups(groups)
    requires NoneTwice(ids) && !Declines(ks, s, ids)
    ensures ProjectRight(ks, groups, ids) <==>
      forall ad {:trigger Holdable(ks, s, groups, ad)} :: Holdable(ks, s, groups, ad) ==>
        Gives(ks, s, groups, ad, inline, ids)
  {
    hide Holdable, TablesOK, ValidSchema, ValidGroups, Declines, Sole, KeyedIn, WantedFound, NoneTwice;
    if ProjectRight(ks, groups, ids) {
      forall ad | Holdable(ks, s, groups, ad)
        ensures Gives(ks, s, groups, ad, inline, ids)
      {
        RightFound(ks, s, groups, ad, ids);
        HeldOK(ks, s, groups, ad);
        HeldValid(ks, s, groups, ad);
        ProjectedRight(ks, s, groups, ad, inline, ids);
      }
    } else if id :| id in ids && !ReadsBase(ks, groups, id) {
      if ks.named(id) && !Sole(groups, id) {
        WantedMissed(ks, s, groups, inline, ids, id);
      } else {
        var z: nat :| ks.named(z) && ks.key(z) == ks.stored(id) && !Sole(groups, z);
        AnotherGiven(ks, s, groups, inline, ids, id, z);
      }
    } else {
      var gi, id :| 0 <= gi < |groups| && id in groups[gi].ids && id in ids && !KeyedIn(ks, groups[gi], id);
      var fi := MemberField(ks, groups, gi, id);
      WantedLost(ks, s, groups, inline, ids, gi, fi);
    }
  }

  lemma HeldValid(ks: Keys, s: Schema, groups: seq<Group>, ad: seq<Entry>)
    requires Holdable(ks, s, groups, ad)
    ensures ValidAd(ad)
  {
  }
}
