/** What reading a group's attribute finds, in the group's block or in the base tails, and when that is right. */
module GroupReads {
  import opened Bytes
  import opened Wire
  import opened Row
  import opened ColBlock
  import opened Values
  import opened Fields
  import opened Groups

  // A group attribute as the readers find it: in the group's block, under x where its row escaped it, in the base tail
  // under y, or nowhere.
  function GroupAs(s: Schema, groups: seq<Group>, g: Group, key: nat -> nat, ad: seq<Entry>, fi: nat, x: nat, y: nat)
    : (r: Option<Node>)
    requires fi < |g.schema.fields|
  {
    if Whole(ad, g) then FieldAs(g.schema, key, ad, fi, x)
    else if Nothing(ad, g) then None
    else Lookup(ColdEntries(s, key, Without(ad, SkipSet(groups, ad))), y)
  }

  // Both translations lead to the attribute's own tail number, and no other attribute of the record has it.
  ghost predicate Found(key: nat -> nat, inGroup: nat -> nat, inBase: nat -> nat, ad: seq<Entry>, id: nat)
  {
    Unshared(key, ad, id) && inGroup(id) == key(id) && inBase(id) == key(id)
  }

  // Member: its row of the group's block. Exception: the base cold tail. Neither: provably absent. The two blocks
  // have each their own translation.
  method ResolveGroup(gb: GroupBlock, ghost groups: seq<Group>, g: Group, ghost gi: nat, base: Block,
                      ghost key: nat -> nat, inGroup: nat -> nat, inBase: nat -> nat, ghost ads: seq<seq<Entry>>,
                      fi: nat, k: nat)
    returns (r: Option<Node>)
    requires gi < |groups| && g == groups[gi] && (forall i :: 0 <= i < |groups| ==> ValidGroup(groups[i]))
    requires Disjoint(base.schema, groups)
    requires GroupBlockFor(gb, g, key, ads) && BlockFor(base, key, BaseAds(groups, ads)) && k < |ads|
    requires DistinctIds(ads[k])
    requires fi < |g.schema.fields|
    ensures r ==
      GroupAs(base.schema, groups, g, key, ads[k], fi, inGroup(g.schema.fields[fi].id), inBase(g.schema.fields[fi].id))
    ensures Found(key, inGroup, inBase, ads[k], g.schema.fields[fi].id) ==> r == Lookup(ads[k], g.schema.fields[fi].id)
  {
    hide HasBit, Whole, Nothing, Rank, BlockFor, Disjoint, Lookup, FieldAtRecord, TailNode, ValidSchema, MemberAds,
      FieldAs, ColdEntries, Unshared;
    var id := g.schema.fields[fi].id;
    BlockFacts(base, key, BaseAds(groups, ads));
    var idx := Index(gb, base.n, k);
    FieldInGroup(g, fi);
    MemberRow(gb, g, key, ads, k);
    GroupStates(ads[k], g);
    if idx.Some? {
      FieldShown(gb.blk.value, key, inGroup, MemberAds(g, ads), fi, idx.value);
      r := FieldAtRecord(gb.blk.value, inGroup, fi, idx.value);
      if Found(key, inGroup, inBase, ads[k], id) {
        SharedTail(g.schema, key, ads[k], id);
        FieldReadExact(gb.blk.value, key, inGroup, MemberAds(g, ads), fi, idx.value);
      }
    } else {
      var exc := IsException(gb.exceptions, k);
      if exc {
        TailNodeShown(base, key, inBase, BaseAds(groups, ads), id, k);
        r := TailNode(base, inBase, id, k);
        if Found(key, inGroup, inBase, ads[k], id) { ExceptionRead(base, groups, gi, key, inBase, ads, id, k); }
      } else {
        assert Nothing(ads[k], g);
        NothingHeld(ads[k], g, id);
        r := None;
      }
    }
  }

  lemma GroupStates(ad: seq<Entry>, g: Group)
    requires DistinctIds(ad) && ValidGroup(g)
    ensures !(Whole(ad, g) && Nothing(ad, g))
  {
    hide Have, Whole, Nothing;
    HaveDecides(ad, g);
  }

  // A group of just this attribute takes it out of every base row that would have it.
  predicate Sole(groups: seq<Group>, y: nat) { exists h :: 0 <= h < |groups| && groups[h].ids == [y] }

  // Some record has all of the group.
  predicate AllOf(g: Group, named: nat -> bool) { forall m :: m in g.ids ==> named(m) }

  // Reading a group attribute under x in the group's block and y in the tail. One with a number is looked for under
  // it wherever a record can have it. One without has no record to be found in: the dictionary names no member of the
  // group at all, or y is the number only of attributes that never reach a base tail.
  ghost predicate GroupReadsUnder(groups: seq<Group>, g: Group, key: nat -> nat, named: nat -> bool, id: nat, x: nat,
                                  y: nat)
  {
    if named(id) then (AllOf(g, named) ==> x == key(id)) && (g.ids != [id] ==> y == key(id))
    else
      (forall m :: m in g.ids ==> !named(m)) || forall z: nat {:trigger named(z)} ::
        named(z) && key(z) == y ==> Sole(groups, z)
  }

  lemma GroupRead(s: Schema, groups: seq<Group>, gi: nat, key: nat -> nat, named: nat -> bool, ad: seq<Entry>, fi: nat,
                  x: nat, y: nat)
    requires gi < |groups| && (forall i :: 0 <= i < |groups| ==> ValidGroup(groups[i])) && Disjoint(s, groups)
    requires fi < |groups[gi].schema.fields|
    requires KeyedBy(key, named) && ValidAd(ad) && AllNamed(named, ad)
    requires GroupReadsUnder(groups, groups[gi], key, named, groups[gi].schema.fields[fi].id, x, y)
    ensures GroupAs(s, groups, groups[gi], key, ad, fi, x, y) == Lookup(ad, groups[gi].schema.fields[fi].id)
  {
    hide Lookup, ColdEntries, ValidAd, ValidSchema, SkipSet, KeyedBy;
    var g := groups[gi];
    var id := g.schema.fields[fi].id;
    FieldInGroup(g, fi);
    ValidAdDistinct(ad);
    if !named(id) {
      assert Lookup(ad, id).None?;
      if !Nothing(ad, g) { UnnamedPart(s, groups, g, key, named, ad, id, x, y); }
    } else if Whole(ad, g) {
      WholeNamed(named, ad, g);
      SlotOrNot(g.schema, ad, fi);
      if SlotLit(g.schema, ad, fi).None? { TailRead(g.schema, key, named, ad, id, x); }
    } else if !Nothing(ad, g) {
      PartialRead(s, groups, gi, key, named, ad, id);
      if g.ids == [id] { LoneWhole(ad, g, id); }
    }
  }

  lemma WholeNamed(named: nat -> bool, ad: seq<Entry>, g: Group)
    requires AllNamed(named, ad) && Whole(ad, g)
    ensures AllOf(g, named)
  {
    forall m | m in g.ids ensures named(m) {
      assert HasAttr(ad, m);
      var j :| 0 <= j < |ad| && ad[j].id == m;
    }
  }

  lemma LoneWhole(ad: seq<Entry>, g: Group, id: nat)
    requires g.ids == [id] && !Nothing(ad, g)
    ensures Whole(ad, g)
  {
    hide Lookup;
    var m :| m in g.ids && HasAttr(ad, m);
    assert m == id;
  }

  lemma PartialRead(s: Schema, groups: seq<Group>, gi: nat, key: nat -> nat, named: nat -> bool, ad: seq<Entry>,
                    id: nat)
    requires gi < |groups| && Disjoint(s, groups) && id in groups[gi].ids && !Whole(ad, groups[gi]) && DistinctIds(ad)
    requires KeyedBy(key, named) && AllNamed(named, ad) && named(id)
    ensures Lookup(ColdEntries(s, key, Without(ad, SkipSet(groups, ad))), key(id)) == Lookup(ad, id)
  {
    hide Lookup, ColdEntries, Whole, Without;
    var skip := SkipSet(groups, ad);
    var base := Without(ad, skip);
    assert id !in skip;
    LookupWithout(ad, skip, id);
    WithoutDistinct(ad, skip);
    forall j | 0 <= j < |base| ensures named(base[j].id) { WithoutMember(ad, skip, base[j]); }
    TailRead(s, key, named, base, id, key(id));
  }

  lemma UnnamedPart(s: Schema, groups: seq<Group>, g: Group, key: nat -> nat, named: nat -> bool, ad: seq<Entry>,
                    id: nat, x: nat, y: nat)
    requires !named(id) && AllNamed(named, ad) && !Nothing(ad, g) && GroupReadsUnder(groups, g, key, named, id, x, y)
    ensures Lookup(ColdEntries(s, key, Without(ad, SkipSet(groups, ad))), y).None?
  {
    hide ColdEntries, Without, Lookup;
    var skip := SkipSet(groups, ad);
    var base := Without(ad, skip);
    var c := ColdEntries(s, key, base);
    var m :| m in g.ids && HasAttr(ad, m);
    var at :| 0 <= at < |ad| && ad[at].id == m;
    forall j | 0 <= j < |c| ensures c[j].id != y {
      ColdMember(s, key, base, c[j]);
      var b :| 0 <= b < |base| && c[j] == Entry(key(base[b].id), base[b].node);
      WithoutMember(ad, skip, base[b]);
      if key(base[b].id) == y { SoleSkipped(groups, ad, base[b]); }
    }
    LookupMisses(c, y);
  }

  lemma LookupMisses(es: seq<Entry>, x: nat)
    requires forall j :: 0 <= j < |es| ==> es[j].id != x
    ensures Lookup(es, x).None?
  {
  }

  lemma SoleSkipped(groups: seq<Group>, ad: seq<Entry>, e: Entry)
    requires Sole(groups, e.id) && e in ad
    ensures e.id in SkipSet(groups, ad)
  {
    var h :| 0 <= h < |groups| && groups[h].ids == [e.id];
    assert Whole(ad, groups[h]);
    assert e.id in groups[h].ids;
  }

  // Reading a group attribute so is right on every record of the segment if and only if that holds.
  lemma GroupReadExactly(s: Schema, groups: seq<Group>, gi: nat, key: nat -> nat, named: nat -> bool, fi: nat, x: nat,
                         y: nat)
    requires gi < |groups| && (forall i :: 0 <= i < |groups| ==> ValidGroup(groups[i])) && Disjoint(s, groups)
    requires fi < |groups[gi].schema.fields|
    requires KeyedBy(key, named)
    ensures GroupReadsUnder(groups, groups[gi], key, named, groups[gi].schema.fields[fi].id, x, y) <==>
      forall ad {:trigger GroupAs(s, groups, groups[gi], key, ad, fi, x, y)} :: ValidAd(ad) && AllNamed(named, ad) ==>
        GroupAs(s, groups, groups[gi], key, ad, fi, x, y) == Lookup(ad, groups[gi].schema.fields[fi].id)
  {
    hide GroupAs, Lookup, ValidAd, AllNamed, ValidGroup, Disjoint, KeyedBy;
    var g := groups[gi];
    var id := g.schema.fields[fi].id;
    if GroupReadsUnder(groups, g, key, named, id, x, y) {
      forall ad | ValidAd(ad) && AllNamed(named, ad)
        ensures GroupAs(s, groups, g, key, ad, fi, x, y) == Lookup(ad, id)
      {
        GroupRead(s, groups, gi, key, named, ad, fi, x, y);
      }
    } else if !named(id) {
      var m :| m in g.ids && named(m);
      var z: nat :| named(z) && key(z) == y && !Sole(groups, z);
      AnotherTaken(s, groups, gi, key, named, fi, if z in g.ids then z else m, x, z);
    } else if AllOf(g, named) && x != key(id) {
      WholeMissed(s, groups, gi, key, named, fi, x, y);
      assert GroupAs(s, groups, g, key, MembersAd(g.ids, id), fi, x, y) != Lookup(MembersAd(g.ids, id), id);
    } else {
      PartMissed(s, groups, gi, key, named, fi, x, y);
      assert GroupAs(s, groups, g, key, [Entry(id, Lit(LUndef))], fi, x, y) != Lookup([Entry(id, Lit(LUndef))], id);
    }
  }

  // Of several members, an attribute held alone is looked for in the base tail, where it has another number.
  lemma PartMissed(s: Schema, groups: seq<Group>, gi: nat, key: nat -> nat, named: nat -> bool, fi: nat, x: nat, y: nat)
    requires gi < |groups| && (forall i :: 0 <= i < |groups| ==> ValidGroup(groups[i])) && Disjoint(s, groups)
    requires fi < |groups[gi].schema.fields|
    requires KeyedBy(key, named) && named(groups[gi].schema.fields[fi].id) && key(groups[gi].schema.fields[fi].id) != y
    requires groups[gi].ids != [groups[gi].schema.fields[fi].id]
    ensures var id := groups[gi].schema.fields[fi].id; var ad := [Entry(id, Lit(LUndef))];
      ValidAd(ad) && AllNamed(named, ad) && GroupAs(s, groups, groups[gi], key, ad, fi, x, y).None? &&
        Lookup(ad, id).Some?
  {
    hide ColdEntries, Lookup, ValidAd, ValidSchema, SkipSet;
    var g := groups[gi];
    var id := g.schema.fields[fi].id;
    var e := Entry(id, Lit(LUndef));
    FieldInGroup(g, fi);
    LoneTail(s, key, named, id, y);
    if Whole([e], g) {
      forall i | 0 <= i < |g.ids| ensures g.ids[i] == id { assert g.ids[i] in g.ids && HasAttr([e], g.ids[i]); }
      OnlyMember(g.ids, id);
    }
    var skip := SkipSet(groups, [e]);
    OneWithout(e, skip);
    assert id !in skip;
  }

  // Every member of the group, none of them in a slot, this one unlike the others.
  function MembersAd(ids: seq<nat>, id: nat): (ad: seq<Entry>)
    ensures |ad| == |ids| && forall i ::
      0 <= i < |ids| ==> ad[i] == Entry(ids[i], Lit(if ids[i] == id then LUndef else LError))
  {
    seq(|ids|, i requires 0 <= i < |ids| => Entry(ids[i], Lit(if ids[i] == id then LUndef else LError)))
  }

  lemma MembersValid(g: Group, named: nat -> bool, id: nat)
    requires ValidGroup(g) && AllOf(g, named) && (forall z: nat {:trigger named(z)} :: named(z) ==> z < 0x1_0000_0000)
    requires id in g.ids
    ensures var ad := MembersAd(g.ids, id);
      ValidAd(ad) && AllNamed(named, ad) && Whole(ad, g) && Lookup(ad, id) == Some(Lit(LUndef))
  {
    hide Lookup, ValidNode, ValidSchema;
    var ad := MembersAd(g.ids, id);
    LiteralNode(LUndef);
    LiteralNode(LError);
    forall i | 0 <= i < |ad| ensures ValidEntry(ad[i]) && named(ad[i].id) { assert g.ids[i] in g.ids; }
    forall m | m in g.ids ensures HasAttr(ad, m) && (m == id ==> Lookup(ad, m) == Some(Lit(LUndef))) {
      var i :| 0 <= i < |g.ids| && g.ids[i] == m;
      LookupAt(ad, i);
    }
  }

  // In a record with the whole group it is looked for in the group's block, where it has another number.
  lemma WholeMissed(s: Schema, groups: seq<Group>, gi: nat, key: nat -> nat, named: nat -> bool, fi: nat, x: nat,
                    y: nat)
    requires gi < |groups| && (forall i :: 0 <= i < |groups| ==> ValidGroup(groups[i]))
    requires fi < |groups[gi].schema.fields|
    requires KeyedBy(key, named) && AllOf(groups[gi], named) && key(groups[gi].schema.fields[fi].id) != x
    ensures var id := groups[gi].schema.fields[fi].id; var ad := MembersAd(groups[gi].ids, id);
      ValidAd(ad) && AllNamed(named, ad) && Lookup(ad, id) == Some(Lit(LUndef)) &&
        GroupAs(s, groups, groups[gi], key, ad, fi, x, y) != Some(Lit(LUndef))
  {
    hide Lookup, ValidAd, ValidSchema, ColdEntries, SkipSet, Without;
    var g := groups[gi];
    var id := g.schema.fields[fi].id;
    var ad := MembersAd(g.ids, id);
    FieldInGroup(g, fi);
    MembersValid(g, named, id);
    var c := ColdEntries(g.schema, key, ad);
    if Lookup(c, x) == Some(Lit(LUndef)) {
      LookupFound(c, x);
      var j :| 0 <= j < |c| && c[j] == Entry(x, Lit(LUndef));
      ColdMember(g.schema, key, ad, c[j]);
    }
    FieldAt(g.schema, fi);
  }

  lemma OneWithout(e: Entry, skip: set<nat>)
    ensures Without([e], skip) == if e.id in skip then [] else [e]
  {
    assert [e][..0] == [];
  }

  // A record with part of the group and another attribute under the number looked up answers with that attribute.
  lemma AnotherTaken(s: Schema, groups: seq<Group>, gi: nat, key: nat -> nat, named: nat -> bool, fi: nat, m: nat,
                     x: nat, y: nat)
    requires gi < |groups| && (forall i :: 0 <= i < |groups| ==> ValidGroup(groups[i])) && Disjoint(s, groups)
    requires fi < |groups[gi].schema.fields|
    requires KeyedBy(key, named) && !named(groups[gi].schema.fields[fi].id) && m in groups[gi].ids && named(m)
    requires named(y) && !Sole(groups, y)
    requires y in groups[gi].ids ==> y == m
    ensures exists ad {:trigger GroupAs(s, groups, groups[gi], key, ad, fi, x, key(y))} ::
      && ValidAd(ad) && AllNamed(named, ad) && GroupAs(s, groups, groups[gi], key, ad, fi, x, key(y)).Some?
      && Lookup(ad, groups[gi].schema.fields[fi].id).None?
  {
    hide GroupAs, ValidAd, AllNamed, Lookup, ValidGroup, Disjoint;
    var id := groups[gi].schema.fields[fi].id;
    var u := Lit(LUndef);
    var ad := if y == m then [Entry(y, u)] else [Entry(m, u), Entry(y, u)];
    TwoValid(named, m, y);
    TakenRead(s, groups, gi, key, named, fi, m, x, y, ad);
    assert ValidAd(ad) && AllNamed(named, ad) && GroupAs(s, groups, groups[gi], key, ad, fi, x, key(y)).Some?;
  }

  lemma TwoValid(named: nat -> bool, m: nat, y: nat)
    requires named(m) && named(y) && m < 0x1_0000_0000 && y < 0x1_0000_0000
    ensures var u := Lit(LUndef); var ad := if y == m then [Entry(y, u)] else [Entry(m, u), Entry(y, u)];
      ValidAd(ad) && AllNamed(named, ad) && forall id :: Lookup(ad, id).Some? <==> id == m || id == y
  {
    hide Lookup, ValidNode;
    LiteralNode(LUndef);
    var u := Lit(LUndef);
    var ad := if y == m then [Entry(y, u)] else [Entry(m, u), Entry(y, u)];
    forall id ensures Lookup(ad, id).Some? <==> id == m || id == y {
      LookupOne(Entry(y, u), id);
      if y != m { LookupCons(Entry(m, u), [Entry(y, u)], id); assert [Entry(m, u)] + [Entry(y, u)] == ad; }
    }
  }

  lemma TakenRead(s: Schema, groups: seq<Group>, gi: nat, key: nat -> nat, named: nat -> bool, fi: nat, m: nat, x: nat,
                  y: nat, ad: seq<Entry>)
    requires gi < |groups| && (forall i :: 0 <= i < |groups| ==> ValidGroup(groups[i])) && Disjoint(s, groups)
    requires fi < |groups[gi].schema.fields|
    requires !named(groups[gi].schema.fields[fi].id) && m in groups[gi].ids && named(m) && named(y) && !Sole(groups, y)
    requires ad == (if y == m then [Entry(y, Lit(LUndef))] else [Entry(m, Lit(LUndef)), Entry(y, Lit(LUndef))])
    requires (y in groups[gi].ids ==> y == m) && forall id :: Lookup(ad, id).Some? <==> id == m || id == y
    ensures GroupAs(s, groups, groups[gi], key, ad, fi, x, key(y)).Some?
  {
    hide ColdEntries, Lookup, ValidSchema, SkipSet;
    var g := groups[gi];
    FieldInGroup(g, fi);
    assert HasAttr(ad, m);
    var e, skip := Entry(y, Lit(LUndef)), SkipSet(groups, ad);
    if y in skip {
      var h :| 0 <= h < |groups| && Whole(ad, groups[h]) && y in groups[h].ids;
      WholeIsSole(groups, gi, h, ad, m, y);
    }
    assert e in ad by { assert ad[|ad| - 1] == e; }
    WithoutMember(ad, skip, e);
    var base := Without(ad, skip);
    var c := Entry(key(y), e.node);
    assert c in ColdEntries(s, key, base) by {
      var b :| 0 <= b < |base| && base[b] == e;
      ColdMember(s, key, base, c);
    }
    LookupHits(ColdEntries(s, key, base), c);
  }

  lemma LookupHits(es: seq<Entry>, e: Entry)
    requires e in es
    ensures Lookup(es, e.id).Some?
  {
    var j :| 0 <= j < |es| && es[j] == e;
  }

  lemma WholeIsSole(groups: seq<Group>, gi: nat, h: nat, ad: seq<Entry>, m: nat, y: nat)
    requires gi < |groups| && h < |groups| && (forall i :: 0 <= i < |groups| ==> ValidGroup(groups[i]))
    requires Whole(ad, groups[h]) && y in groups[h].ids
    requires forall i, j, id ::
      0 <= i < |groups| && 0 <= j < |groups| && id in groups[i].ids && id in groups[j].ids ==> i == j
    requires m in groups[gi].ids && !Whole(ad, groups[gi]) && forall id :: Lookup(ad, id).Some? <==> id == m || id == y
    ensures Sole(groups, y)
  {
    hide Lookup, ValidSchema;
    var ids := groups[h].ids;
    assert h != gi;
    forall i | 0 <= i < |ids| ensures ids[i] == y { assert ids[i] in ids && HasAttr(ad, ids[i]); }
    OnlyMember(ids, y);
  }

  lemma OnlyMember(ids: seq<nat>, y: nat)
    requires y in ids && (forall i :: 0 <= i < |ids| ==> ids[i] == y)
    requires forall i, j :: 0 <= i < j < |ids| ==> ids[i] != ids[j]
    ensures ids == [y]
  {
    if |ids| > 1 { AnotherMember(ids, y); }
  }

  lemma AnotherMember(ids: seq<nat>, y: nat)
    requires |ids| > 1 && forall i, j :: 0 <= i < j < |ids| ==> ids[i] != ids[j]
    ensures exists i :: 0 <= i < |ids| && ids[i] != y
  {
    assert ids[0] != ids[1];
  }

  // A freshly built block's translation leaves every attribute outside the base schema as it is: a group's attribute
  // with a number is found on every record if and only if that is its own id.
  lemma FreshGroupRead(s: Schema, groups: seq<Group>, gi: nat, key: nat -> nat, named: nat -> bool, fi: nat)
    requires gi < |groups| && (forall i :: 0 <= i < |groups| ==> ValidGroup(groups[i])) && Disjoint(s, groups)
    requires fi < |groups[gi].schema.fields|
    requires KeyedBy(key, named) && named(groups[gi].schema.fields[fi].id)
    ensures var id := groups[gi].schema.fields[fi].id; var x := FreshStored(s, key, id);
      key(id) == id <==>
      forall ad {:trigger GroupAs(s, groups, groups[gi], key, ad, fi, x, x)} :: ValidAd(ad) && AllNamed(named, ad) ==>
        GroupAs(s, groups, groups[gi], key, ad, fi, x, x) == Lookup(ad, id)
  {
    hide GroupAs, Lookup, ValidAd, AllNamed, KeyedBy, ValidSchema;
    var g := groups[gi];
    FieldInGroup(g, fi);
    assert g.ids == [g.schema.fields[fi].id] ==> AllOf(g, named);
    GroupReadExactly(s, groups, gi, key, named, fi, FreshStored(s, key, g.schema.fields[fi].id),
      FreshStored(s, key, g.schema.fields[fi].id));
  }
}
