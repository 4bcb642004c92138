/** The group section of a segment's columns, written out and opened by the next process, and what reading a group's
    attribute finds there. */
module GroupReopen {
  import opened Bytes
  import opened Wire
  import opened Row
  import opened ColBlock
  import opened Floats
  import opened Values
  import opened Fields
  import opened Groups
  import opened GroupReads
  import opened Layout
  import opened Reload
  import opened Scan
  import opened DictBlock
  import opened Restore
  import opened Reopened
  import P = Persist

  // ---------------------------------------------------------------- writing a group and reading it back

  // One base block's selection: which records are whole members, which are exceptions, and the members' rows.
  datatype Sel = Sel(members: seq<byte>, exceptions: seq<nat>, blk: Option<ScanBlock>, dicts: StrDicts)

  ghost predicate SelWritten(st: P.StoredSel, sel: Sel, c: Codec, bits: F64 -> nat)
  {
    && st.members == sel.members && st.exceptions == sel.exceptions && (st.blk.Some? <==> sel.blk.Some?)
    && (sel.blk.Some? ==> BlockWritten(st.blk.value, sel.blk.value, sel.dicts, c, bits))
  }

  // A group's rows are over its own schema, none of whose fields is kept hot.
  ghost predicate SelBound(sel: Sel, s: Schema, bits: F64 -> nat)
  {
    if sel.blk.None? then sel.dicts == StrDicts(map[], [], [])
    else
      && FieldsBound(sel.blk.value, sel.dicts) && sel.blk.value.blk.schema == s && LaidOut(sel.blk.value.blk) &&
         sel.blk.value.blk.hot == []
      && forall i :: i in sel.blk.value.zones ==> Patterned(bits, sel.blk.value.zones[i])
  }

  ghost predicate GroupWritten(sg: P.StoredGroup, s: Schema, sels: seq<Sel>, nameOf: nat -> seq<byte>, c: Codec,
                               bits: F64 -> nat)
  {
    && sg.fields == StoreFields(s.fields, nameOf) && |sg.sels| == |sels|
    && forall j :: 0 <= j < |sels| ==> SelWritten(sg.sels[j], sels[j], c, bits)
  }

  method StoreGroup(s: Schema, sels: seq<Sel>, nameOf: nat -> seq<byte>, c: Codec, bits: F64 -> nat)
    returns (sg: P.StoredGroup)
    requires forall j :: 0 <= j < |sels| ==> SelBound(sels[j], s, bits)
    ensures GroupWritten(sg, s, sels, nameOf, c, bits)
  {
    hide BlockWritten, FieldsBound, LaidOut, Patterned;
    var out: seq<P.StoredSel> := [];
    for j := 0 to |sels|
      invariant |out| == j && forall i :: 0 <= i < j ==> SelWritten(out[i], sels[i], c, bits)
    {
      var sel := sels[j];
      assert SelBound(sel, s, bits);
      if sel.blk.None? {
        out := out + [P.StoredSel(sel.members, sel.exceptions, None)];
      } else {
        var st := StoreBlock(sel.blk.value, sel.dicts, c, bits);
        out := out + [P.StoredSel(sel.members, sel.exceptions, Some(st))];
      }
    }
    sg := P.StoredGroup(StoreFields(s.fields, nameOf), out);
  }

  // The selection with its rows under another schema.
  function Reseated(sel: Sel, s: Schema): (r: Sel)
  {
    if sel.blk.None? then sel
      else sel.(blk := Some(ScanBlock(sel.blk.value.blk.(schema := s), sel.blk.value.zones, sel.blk.value.esc)))
  }

  function RestoredSel(st: P.StoredSel, s: Schema, c: Codec): (r: Sel)
  {
    if st.blk.None? then Sel(st.members, st.exceptions, None, StrDicts(map[], [], []))
    else Sel(st.members, st.exceptions, Some(Restored(st.blk.value, s, [], c)), RestoredDicts(st.blk.value, c))
  }

  lemma SelReturns(st: P.StoredSel, sel: Sel, s: Schema, s': Schema, re: nat -> nat, c: Codec, bits: F64 -> nat)
    requires SelWritten(st, sel, c, bits) && SelBound(sel, s, bits) && Lossless(c) && SameLayout(s, s', re)
    ensures RestoredSel(st, s', c) == Reseated(sel, s')
  {
    hide BlockWritten, FieldsBound, LaidOut, Patterned, Restored, RestoredDicts, SameLayout, Lossless;
    if sel.blk.Some? { BlockReturns(st.blk.value, sel.blk.value, sel.dicts, s', re, c, bits); }
  }

  // The group as the next process has it: its schema laid out under the new numbers, its members the schema's fields,
  // and every selection as written where the layout is kept.
  ghost predicate GroupOpened(g: Group, sels': seq<Sel>, s: Schema, sels: seq<Sel>, nameOf: nat -> seq<byte>,
                              intern: seq<byte> -> nat)
  {
    && ValidGroup(g) && SpecsOf(g.schema.fields) == Sort(Rebound(SpecsOf(s.fields), Renumber(nameOf, intern)))
    && (SameLayout(s, g.schema, Renumber(nameOf, intern)) <==> OrderKept(s, Renumber(nameOf, intern)))
    && |sels'| == |sels| &&
       (forall j ::
         0 <= j < |sels| ==> sels'[j].members == sels[j].members && sels'[j].exceptions == sels[j].exceptions)
    && (OrderKept(s, Renumber(nameOf, intern)) ==> forall j ::
       0 <= j < |sels| ==> sels'[j] == Reseated(sels[j], g.schema))
  }

  method OpenGroup(sg: P.StoredGroup, intern: seq<byte> -> nat, c: Codec, ghost s: Schema, ghost sels: seq<Sel>,
                   ghost nameOf: nat -> seq<byte>, ghost bits: F64 -> nat)
    returns (g: Option<Group>, found: seq<Sel>)
    requires GroupWritten(sg, s, sels, nameOf, c, bits) && (forall j :: 0 <= j < |sels| ==> SelBound(sels[j], s, bits))
    requires Lossless(c)
    requires Readable(s, nameOf, intern) && s.fields != []
    ensures g.Some? && GroupOpened(g.value, found, s, sels, nameOf, intern)
  {
    hide SelWritten, SelBound, Sort, Restored, RestoredDicts, SameLayout, OrderKept, Lossless, ValidSchema, Ordered;
    var specs := LoadFields(sg.fields, intern);
    FieldsReturn(s, nameOf, intern);
    assert specs.Some? && specs.value == Rebound(SpecsOf(s.fields), Renumber(nameOf, intern));
    var s' := LayoutSchema(specs.value);
    LayoutKeptExactly(s, s', Renumber(nameOf, intern));
    var ids := Ascending(set i | 0 <= i < |s'.fields| :: s'.fields[i].id);
    found := [];
    for j := 0 to |sg.sels|
      invariant |found| == j && forall i :: 0 <= i < j ==> found[i] == RestoredSel(sg.sels[i], s', c)
    {
      var st := sg.sels[j];
      if st.blk.None? {
        found := found + [Sel(st.members, st.exceptions, None, StrDicts(map[], [], []))];
      } else {
        var sb, ds := RestoreBlock(st.blk.value, s', [], c);
        found := found + [Sel(st.members, st.exceptions, Some(sb), ds)];
      }
    }
    g := Some(Group(s', ids));
    assert |s'.fields| == |s.fields| by { assert |SpecsOf(s'.fields)| == |s.fields|; }
    FieldsAreMembers(s', ids);
    forall j | 0 <= j < |sels|
      ensures found[j].members == sels[j].members && found[j].exceptions == sels[j].exceptions
    {
      SelParts(sg.sels[j], sels[j], s', c, bits);
    }
    if OrderKept(s, Renumber(nameOf, intern)) {
      forall j | 0 <= j < |sels| ensures found[j] == Reseated(sels[j], s') {
        SelReturns(sg.sels[j], sels[j], s, s', Renumber(nameOf, intern), c, bits);
      }
    }
  }

  lemma SelParts(st: P.StoredSel, sel: Sel, s: Schema, c: Codec, bits: F64 -> nat)
    requires SelWritten(st, sel, c, bits)
    ensures RestoredSel(st, s, c).members == sel.members && RestoredSel(st, s, c).exceptions == sel.exceptions
  {
    hide BlockWritten, Restored, RestoredDicts;
  }

  lemma FieldsAreMembers(s: Schema, ids: seq<nat>)
    requires ValidSchema(s) && s.fields != [] && Rising(ids)
    requires forall x :: x in ids <==> x in set i | 0 <= i < |s.fields| :: s.fields[i].id
    ensures ValidGroup(Group(s, ids))
  {
    hide ValidSchema;
    assert s.fields[0].id in ids;
    forall id ensures id in ids <==> id in s.byId {
      if id in ids {
        var i :| 0 <= i < |s.fields| && s.fields[i].id == id;
        FieldAt(s, i);
      }
      if id in s.byId { IdAt(s, id); }
    }
  }

  // ---------------------------------------------------------------- the group under the new numbers

  // Its members are its members, renumbered.
  lemma IdsReopened(g: Group, g': Group, re: nat -> nat)
    requires ValidGroup(g) && ValidGroup(g') && SameLayout(g.schema, g'.schema, re)
    ensures IdsAfter(g.ids, g'.ids, re)
  {
    hide ValidSchema, SameLayout;
    SameSize(g.schema, g'.schema, re);
    forall y | y in g.ids ensures re(y) in g'.ids {
      IdAt(g.schema, y);
      SameAt(g.schema, g'.schema, re, g.schema.byId[y]);
      FieldInGroup(g', g.schema.byId[y]);
    }
    forall z | z in g'.ids ensures exists y :: y in g.ids && re(y) == z {
      IdAt(g'.schema, z);
      var i := g'.schema.byId[z];
      SameAt(g.schema, g'.schema, re, i);
      FieldInGroup(g, i);
      assert re(g.schema.fields[i].id) == z;
    }
  }

  lemma NothingAfter(known: nat -> bool, re: nat -> nat, ad: seq<Entry>, g: Group, g': Group)
    requires Renumbers(re, known) && AdKnown(known, ad) && IdsAfter(g.ids, g'.ids, re)
    requires forall y :: y in g.ids ==> known(y)
    ensures Nothing(RekeyAd(re, ad), g') <==> Nothing(ad, g)
  {
    hide Lookup, RekeyAd, Renumbers, AdKnown;
    forall y | y in g.ids ensures HasAttr(RekeyAd(re, ad), re(y)) <==> HasAttr(ad, y) { KnownLookup(known, re, ad, y); }
  }

  // These records stand to the group as they did.
  ghost predicate StandsAfter(g: Group, g': Group, re: nat -> nat, ads: seq<seq<Entry>>)
  {
    forall k {:trigger ads[k]} :: 0 <= k < |ads| ==>
      (Whole(RekeyAd(re, ads[k]), g') <==> Whole(ads[k], g)) &&
        (Nothing(RekeyAd(re, ads[k]), g') <==> Nothing(ads[k], g))
  }

  lemma {:induction false} MembersAfter(g: Group, g': Group, re: nat -> nat, ads: seq<seq<Entry>>)
    requires StandsAfter(g, g', re, ads)
    ensures MemberAds(g', RelabelAds(re, ads)) == RelabelAds(re, MemberAds(g, ads))
    decreases |ads|
  {
    hide Whole, Nothing, RekeyAd;
    if ads != [] {
      var n := |ads| - 1;
      assert RelabelAds(re, ads)[..n] == RelabelAds(re, ads[..n]);
      forall k | 0 <= k < n ensures ads[..n][k] == ads[k] {}
      MembersAfter(g, g', re, ads[..n]);
      assert ads[n] == ads[n];
    }
  }

  lemma {:induction false} MembersFrom(g: Group, ads: seq<seq<Entry>>, m: seq<Entry>)
    requires m in MemberAds(g, ads)
    ensures m in ads && Whole(m, g)
    decreases |ads|
  {
    hide Whole;
    if ads != [] {
      var n := |ads| - 1;
      if m in MemberAds(g, ads[..n]) { MembersFrom(g, ads[..n], m); }
    }
  }

  // The predecessor knew all the record has, and if it has the whole group, numbered what the group's tail holds.
  ghost predicate RowKnown(g: Group, named: nat -> bool, known: nat -> bool, ad: seq<Entry>)
  {
    AdKnown(known, ad) && (Whole(ad, g) ==> TailNamed(g.schema, named, ad))
  }

  // A selection over the same records, its rows under the new schema.
  lemma SelectionAfter(gb: GroupBlock, g: Group, g': Group, key: nat -> nat, named: nat -> bool, known: nat -> bool,
                       re: nat -> nat, ads: seq<seq<Entry>>)
    requires GroupBlockFor(gb, g, key, ads) && ValidGroup(g) && ValidGroup(g') && SameLayout(g.schema, g'.schema, re)
    requires Renumbers(re, known) && (forall id: nat {:trigger named(id)} :: named(id) ==> known(id))
    requires (forall y :: y in g.ids ==> known(y))
    requires forall k {:trigger ads[k]} :: 0 <= k < |ads| ==> RowKnown(g, named, known, ads[k])
    ensures GroupBlockFor(if gb.blk.None? then gb else gb.(blk := Some(gb.blk.value.(schema := g'.schema))), g',
      KeyAfter(key, named, re), RelabelAds(re, ads))
  {
    hide HasBit, Whole, Nothing, RankTable, BlockFor, ValidSchema, SameLayout, KeyAfter, Renumbers, RekeyAd, MemberAds;
    var ads' := RelabelAds(re, ads);
    IdsReopened(g, g', re);
    forall k | 0 <= k < |ads|
      ensures (Whole(ads'[k], g') <==> Whole(ads[k], g)) && (Nothing(ads'[k], g') <==> Nothing(ads[k], g))
    {
      assert RowKnown(g, named, known, ads[k]);
      WholeAfter(known, re, ads[k], g, g');
      NothingAfter(known, re, ads[k], g, g');
    }
    MembersAfter(g, g', re, ads);
    if gb.blk.Some? { RowsAfter(gb.blk.value, g, g', key, named, known, re, MemberAds(g, ads), ads); }
  }

  lemma RowsAfter(b: Block, g: Group, g': Group, key: nat -> nat, named: nat -> bool, known: nat -> bool,
                  re: nat -> nat, rows: seq<seq<Entry>>, ads: seq<seq<Entry>>)
    requires BlockFor(b, key, rows) && b.schema == g.schema && rows == MemberAds(g, ads) && ValidGroup(g)
    requires ValidSchema(g'.schema)
    requires SameLayout(g.schema, g'.schema, re) && Renumbers(re, known)
    requires (forall id: nat {:trigger named(id)} :: named(id) ==> known(id)) && (forall y :: y in g.ids ==> known(y))
    requires forall k {:trigger ads[k]} :: 0 <= k < |ads| ==> RowKnown(g, named, known, ads[k])
    ensures BlockFor(b.(schema := g'.schema), KeyAfter(key, named, re), RelabelAds(re, rows))
  {
    hide BlockFor, ValidSchema, SameLayout, KeyAfter, Renumbers, RekeyAd, MemberAds, RelabelOK, InSlot;
    forall k | 0 <= k < |rows| ensures RelabelOK(g.schema, re, key, KeyAfter(key, named, re), rows[k]) {
      MembersFrom(g, ads, rows[k]);
      var i :| 0 <= i < |ads| && ads[i] == rows[k];
      assert RowKnown(g, named, known, ads[i]);
      RowRelabels(g.schema, key, named, known, re, rows[k]);
    }
    BlockReloads(b, g'.schema, re, key, KeyAfter(key, named, re), rows);
  }

  // ---------------------------------------------------------------- reading a group's attribute

  // What a read finds of a record under its new numbers is what it finds under its old ones.
  lemma GroupAsSame(o: Opened, cs: ColSeg, groups': seq<Group>, gi: nat, known: nat -> bool, re: nat -> nat,
                    ad: seq<Entry>, fi: nat, x: nat, y: nat)
    requires SegRenumbers(cs, groups', known, re) && gi < |cs.groups| && ValidSchema(cs.schema) && ValidSchema(o.schema)
    requires SameLayout(cs.schema, o.schema, re)
    requires ValidGroup(cs.groups[gi]) && ValidGroup(groups'[gi])
    requires SameLayout(cs.groups[gi].schema, groups'[gi].schema, re)
    requires AllNamed(cs.named, ad) && fi < |cs.groups[gi].schema.fields|
    ensures fi < |groups'[gi].schema.fields|
    ensures GroupAs(o.schema, groups', groups'[gi], KeyAfter(cs.key, cs.named, re), RekeyAd(re, ad), fi, x, y) ==
      GroupAs(cs.schema, cs.groups, cs.groups[gi], cs.key, ad, fi, x, y)
  {
    hide Whole, Nothing, FieldAs, Lookup, ColdEntries, Without, SkipSet, KeyAfter, NamedAfter, SameLayout, ValidSchema,
      RekeyAd, Renumbers;
    var g, g', key' := cs.groups[gi], groups'[gi], KeyAfter(cs.key, cs.named, re);
    assert AdKnown(known, ad);
    SameSize(g.schema, g'.schema, re);
    GroupMembersKnown(cs, groups', known, re, gi);
    WholeAfter(known, re, ad, g, g');
    NothingAfter(known, re, ad, g, g');
    if Whole(ad, g) {
      MemberFieldSame(cs, g, g', known, re, ad, fi, x);
    } else {
      TailAfter(o, cs, groups', known, re, ad, y);
    }
  }

  lemma GroupMembersKnown(cs: ColSeg, groups': seq<Group>, known: nat -> bool, re: nat -> nat, gi: nat)
    requires SegRenumbers(cs, groups', known, re) && gi < |cs.groups|
    ensures gi < |groups'| && IdsAfter(cs.groups[gi].ids, groups'[gi].ids, re) && forall y ::
      y in cs.groups[gi].ids ==> known(y)
  {
    hide IdsAfter;
    assert cs.groups[gi] == cs.groups[gi];
  }

  lemma MemberFieldSame(cs: ColSeg, g: Group, g': Group, known: nat -> bool, re: nat -> nat, ad: seq<Entry>, fi: nat,
                        x: nat)
    requires ValidGroup(g) && ValidGroup(g') && SameLayout(g.schema, g'.schema, re) && fi < |g.schema.fields|
    requires Renumbers(re, known) && (forall id: nat {:trigger cs.named(id)} :: cs.named(id) ==> known(id))
    requires (forall y :: y in g.ids ==> known(y))
    requires AllNamed(cs.named, ad)
    ensures fi < |g'.schema.fields| &&
      FieldAs(g'.schema, KeyAfter(cs.key, cs.named, re), RekeyAd(re, ad), fi, x) == FieldAs(g.schema, cs.key, ad, fi, x)
  {
    hide FieldAs, KeyAfter, SameLayout, ValidSchema, RekeyAd, Renumbers, InSlot;
    FieldAsSame(ColSeg(g.schema, [], [], [], false, cs.key, cs.named, cs.stored), g'.schema, known, re, ad, fi, x);
  }

  // The tail of a base row keeps its entries.
  lemma TailAfter(o: Opened, cs: ColSeg, groups': seq<Group>, known: nat -> bool, re: nat -> nat, ad: seq<Entry>,
                  y: nat)
    requires SegRenumbers(cs, groups', known, re) && ValidSchema(cs.schema) && ValidSchema(o.schema)
    requires SameLayout(cs.schema, o.schema, re)
    requires AllNamed(cs.named, ad)
    ensures Lookup(ColdEntries(o.schema, KeyAfter(cs.key, cs.named, re),
      Without(RekeyAd(re, ad), SkipSet(groups', RekeyAd(re, ad)))), y) ==
      Lookup(ColdEntries(cs.schema, cs.key, Without(ad, SkipSet(cs.groups, ad))), y)
  {
    hide Lookup, ColdEntries, Without, SkipSet, KeyAfter, NamedAfter, SameLayout, ValidSchema, RekeyAd, Renumbers,
      GroupsAfter, GroupsKnown, RelabelOK, KnowsAll, InSlot;
    var whole := cs.(native := false);
    assert AdKnown(known, ad) by { RenumbersParts(cs, groups', known, re); KnownAd(cs, known, ad); }
    BaseAfter(o, whole, groups', known, re, ad);
    var base := Without(ad, SkipSet(cs.groups, ad));
    assert TailNamed(cs.schema, cs.named, base) by {
      forall j | 0 <= j < |base| ensures cs.named(base[j].id) { WithoutMember(ad, SkipSet(cs.groups, ad), base[j]); }
    }
    RowRelabels(cs.schema, cs.key, cs.named, known, re, base);
    ColdSame(cs.schema, o.schema, re, cs.key, KeyAfter(cs.key, cs.named, re), base);
  }

  lemma KnownAd(cs: ColSeg, known: nat -> bool, ad: seq<Entry>)
    requires KnowsAll(known, cs.schema, cs.named) && AllNamed(cs.named, ad)
    ensures AdKnown(known, ad)
  {
  }

  // Opened from its sidecar a globally numbered segment has names for its base blocks only: in a group's block the
  // next process looks for its own number, in the base tails for the stored one. Under the dictionary's names both
  // are translated; without names neither is.
  function InGroupAfter(names: bool, ids: seq<nat>, key: nat -> nat, re: nat -> nat, id: nat): (x: nat)
  {
    if names then NumberAfter(ids, key, re, id) else re(id)
  }

  // A group attribute is read right after reopening, whatever the records, if and only if the number looked for in the
  // group's block and the number looked for in the base tails each are its own wherever a record can have it.
  lemma ReopenedGroupExactly(o: Opened, cs: ColSeg, groups': seq<Group>, gi: nat, known: nat -> bool, re: nat -> nat,
                             ids: seq<nat>, names: bool, fi: nat)
    requires SegOK(cs) && SegRenumbers(cs, groups', known, re) && gi < |cs.groups| && ValidSchema(o.schema)
    requires SameLayout(cs.schema, o.schema, re)
    requires (forall i :: 0 <= i < |cs.groups| ==> ValidGroup(cs.groups[i])) && ValidGroup(groups'[gi])
    requires SameLayout(cs.groups[gi].schema, groups'[gi].schema, re)
    requires fi < |cs.groups[gi].schema.fields|
    ensures var id := cs.groups[gi].schema.fields[fi].id;
      var x, y := InGroupAfter(names, ids, cs.key, re, id), NumberAfter(ids, cs.key, re, id);
      && fi < |groups'[gi].schema.fields|
      && (GroupReadsUnder(cs.groups, cs.groups[gi], cs.key, cs.named, id, x, y) <==>
          forall ad {:trigger RekeyAd(re, ad)} :: ValidAd(ad) && AllNamed(cs.named, ad) ==>
            GroupAs(o.schema, groups', groups'[gi], KeyAfter(cs.key, cs.named, re), RekeyAd(re, ad), fi, x, y) ==
              Lookup(ad, id))
  {
    hide GroupAs, Lookup, ValidAd, AllNamed, ValidGroup, Disjoint, KeyedBy, KeyAfter, SameLayout, ValidSchema,
      SegRenumbers, RekeyAd, GroupReadsUnder;
    var g := cs.groups[gi];
    var id := g.schema.fields[fi].id;
    var x, y := InGroupAfter(names, ids, cs.key, re, id), NumberAfter(ids, cs.key, re, id);
    GroupReadExactly(cs.schema, cs.groups, gi, cs.key, cs.named, fi, x, y);
    GroupMembersKnown(cs, groups', known, re, gi);
    SameSize(g.schema, groups'[gi].schema, re);
    var key' := KeyAfter(cs.key, cs.named, re);
    if GroupReadsUnder(cs.groups, g, cs.key, cs.named, id, x, y) {
      forall ad | ValidAd(ad) && AllNamed(cs.named, ad)
        ensures GroupAs(o.schema, groups', groups'[gi], key', RekeyAd(re, ad), fi, x, y) == Lookup(ad, id)
      {
        GroupAsSame(o, cs, groups', gi, known, re, ad, fi, x, y);
      }
    } else {
      var ad :| ValidAd(ad) && AllNamed(cs.named, ad) &&
        GroupAs(cs.schema, cs.groups, g, cs.key, ad, fi, x, y) != Lookup(ad, id);
      GroupAsSame(o, cs, groups', gi, known, re, ad, fi, x, y);
      assert GroupAs(o.schema, groups', groups'[gi], key', RekeyAd(re, ad), fi, x, y) != Lookup(ad, id);
    }
  }

  // A globally numbered segment reopened from its sidecar: a record with the whole group, its values in no slot, has
  // the attribute, and the next process does not find it in the group's block though its names lead to it elsewhere.
  lemma GroupBlockMisread(o: Opened, cs: ColSeg, groups': seq<Group>, gi: nat, known: nat -> bool, re: nat -> nat,
                          ids: seq<nat>, fi: nat)
    requires SegOK(cs) && SegRenumbers(cs, groups', known, re) && gi < |cs.groups| && ValidSchema(o.schema)
    requires SameLayout(cs.schema, o.schema, re)
    requires (forall i :: 0 <= i < |cs.groups| ==> ValidGroup(cs.groups[i])) && ValidGroup(groups'[gi])
    requires SameLayout(cs.groups[gi].schema, groups'[gi].schema, re)
    requires fi < |cs.groups[gi].schema.fields| && AllOf(cs.groups[gi], cs.named)
    requires cs.groups[gi].schema.fields[fi].id in ids
    requires re(cs.groups[gi].schema.fields[fi].id) != cs.key(cs.groups[gi].schema.fields[fi].id)
    ensures var id := cs.groups[gi].schema.fields[fi].id; var ad := MembersAd(cs.groups[gi].ids, id);
      var x, y := InGroupAfter(false, ids, cs.key, re, id), NumberAfter(ids, cs.key, re, id);
      && ValidAd(ad) && AllNamed(cs.named, ad) && Lookup(ad, id) == Some(Lit(LUndef)) && y == cs.key(id) &&
         fi < |groups'[gi].schema.fields|
      && GroupAs(o.schema, groups', groups'[gi], KeyAfter(cs.key, cs.named, re), RekeyAd(re, ad), fi, x,
         y) != Some(Lit(LUndef))
  {
    hide GroupAs, Lookup, ValidAd, AllNamed, ValidGroup, Disjoint, KeyedBy, KeyAfter, SameLayout, ValidSchema,
      SegRenumbers, RekeyAd, MembersAd, AllOf;
    var g := cs.groups[gi];
    var id := g.schema.fields[fi].id;
    GroupMembersKnown(cs, groups', known, re, gi);
    WholeMissed(cs.schema, cs.groups, gi, cs.key, cs.named, fi, re(id), cs.key(id));
    GroupAsSame(o, cs, groups', gi, known, re, MembersAd(g.ids, id), fi, re(id), cs.key(id));
  }
}
