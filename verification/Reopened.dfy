/** Reading a segment's columns in the next process: which translation the readers have there, when it leads to the
    right attribute, and the scans over the reopened window. */
module Reopened {
  import opened Bytes
  import opened Wire
  import opened Row
  import opened ColBlock
  import opened Values
  import opened Preds
  import opened Fields
  import opened Escapes
  import opened Groups
  import opened Native
  import opened Layout
  import opened Reload
  import opened Scan
  import opened Presence
  import opened DictBlock
  import opened Restore

  // ---------------------------------------------------------------- the next process's numbers

  // It numbers the attributes its predecessor knew apart, within 32 bits.
  ghost predicate Renumbers(re: nat -> nat, known: nat -> bool)
  {
    && (forall a: nat {:trigger known(a)} :: known(a) ==> re(a) < 0x1_0000_0000)
    && forall a: nat, b: nat {:trigger known(a), known(b)} :: known(a) && known(b) && re(a) == re(b) ==> a == b
  }

  ghost predicate KnowsAll(known: nat -> bool, s: Schema, named: nat -> bool)
  {
    (forall id: nat {:trigger named(id)} :: named(id) ==> known(id)) && forall id :: id in s.byId ==> known(id)
  }

  // The attributes with a number in the tails, and those numbers, as functions of the new ids.
  ghost function NamedAfter(named: nat -> bool, re: nat -> nat): (r: nat -> bool)
  {
    (z: nat) => NamedBefore(named, re, z)
  }

  ghost function KeyAfter(key: nat -> nat, named: nat -> bool, re: nat -> nat): (r: nat -> nat)
  {
    (z: nat) => KeyBefore(key, named, re, z)
  }

  ghost predicate NamedBefore(named: nat -> bool, re: nat -> nat, z: nat)
  {
    exists y: nat {:trigger named(y)} :: named(y) && re(y) == z
  }

  ghost function KeyBefore(key: nat -> nat, named: nat -> bool, re: nat -> nat, z: nat): (x: nat)
  {
    if NamedBefore(named, re, z) then key(WriterOf(named, re, z)) else z
  }

  ghost function WriterOf(named: nat -> bool, re: nat -> nat, z: nat): (y: nat)
    requires NamedBefore(named, re, z)
    ensures named(y) && re(y) == z
  {
    var y: nat :| named(y) && re(y) == z;
    y
  }

  lemma KeptKey(key: nat -> nat, named: nat -> bool, known: nat -> bool, re: nat -> nat, y: nat)
    requires Renumbers(re, known) && (forall id: nat {:trigger named(id)} :: named(id) ==> known(id)) && named(y)
    ensures NamedAfter(named, re)(re(y)) && KeyAfter(key, named, re)(re(y)) == key(y)
  {
    var z := WriterOf(named, re, re(y));
    assert known(z) && known(y);
  }

  lemma KeysAfter(key: nat -> nat, named: nat -> bool, known: nat -> bool, re: nat -> nat)
    requires KeyedBy(key, named) && Renumbers(re, known)
    requires forall id: nat {:trigger named(id)} :: named(id) ==> known(id)
    ensures KeyedBy(KeyAfter(key, named, re), NamedAfter(named, re))
  {
    hide KeyAfter;
    var key', named' := KeyAfter(key, named, re), NamedAfter(named, re);
    forall z: nat | !named'(z) ensures key'(z) == z { UnkeptKey(key, named, re, z); }
    forall z: nat | named'(z) ensures z < 0x1_0000_0000 && key'(z) < 0x1_0000_0000 {
      var y: nat :| named(y) && re(y) == z;
      KeptKey(key, named, known, re, y);
    }
    forall a: nat, b: nat | named'(a) && named'(b) && key'(a) == key'(b) ensures a == b {
      var x: nat :| named(x) && re(x) == a;
      var y: nat :| named(y) && re(y) == b;
      KeptKey(key, named, known, re, x);
      KeptKey(key, named, known, re, y);
    }
  }

  lemma UnkeptKey(key: nat -> nat, named: nat -> bool, re: nat -> nat, z: nat)
    requires !NamedAfter(named, re)(z)
    ensures KeyAfter(key, named, re)(z) == z
  {
  }

  // A row's attributes keep apart, and its tail keeps its keys.
  lemma RowRelabels(s: Schema, key: nat -> nat, named: nat -> bool, known: nat -> bool, re: nat -> nat, ad: seq<Entry>)
    requires ValidSchema(s) && KnowsAll(known, s, named) && Renumbers(re, known) && TailNamed(s, named, ad)
    ensures RelabelOK(s, re, key, KeyAfter(key, named, re), ad)
  {
    hide KeyAfter, NamedAfter, ValidSchema;
    forall j | 0 <= j < |ad|
      ensures known(ad[j].id) && (InSlot(s, ad[j]) || KeyAfter(key, named, re)(re(ad[j].id)) == key(ad[j].id))
    {
      if !InSlot(s, ad[j]) { KeptKey(key, named, known, re, ad[j].id); }
    }
    forall i | 0 <= i < |s.fields| ensures known(s.fields[i].id) { FieldAt(s, i); }
  }

  // ---------------------------------------------------------------- one field of one record

  // What a restored block answers: the slot's value, or whatever the tail holds under the translated id.
  lemma RestoredRead(b: Block, s': Schema, re: nat -> nat, key: nat -> nat, named: nat -> bool, known: nat -> bool,
                     stored': nat -> nat, ads: seq<seq<Entry>>, i: nat, k: nat)
    requires BlockFor(b, key, ads) && ValidSchema(s') && SameLayout(b.schema, s', re) && k < |ads|
    requires i < |b.schema.fields|
    requires KnowsAll(known, b.schema, named) && Renumbers(re, known)
    requires forall x :: 0 <= x < |ads| ==> TailNamed(b.schema, named, ads[x])
    ensures |s'.fields| == |b.schema.fields|
    ensures FieldAtRecord(b.(schema := s'), stored', i, k) ==
      FieldAs(b.schema, key, ads[k], i, stored'(re(b.schema.fields[i].id)))
  {
    hide BlockFor, RelabelOK, SameLayout, ValidSchema, ColdEntries, RekeyAd, FieldAtRecord, KeyAfter, KnowsAll,
      Renumbers, TailNamed, SlotLit, Lookup;
    var s, b', ads', key' := b.schema, b.(schema := s'), RelabelAds(re, ads), KeyAfter(key, named, re);
    BlockFacts(b, key, ads);
    forall x | 0 <= x < |ads|
      ensures RelabelOK(s, re, key, key', ads[x])
    {
      RowRelabels(s, key, named, known, re, ads[x]);
    }
    SameAt(s, s', re, i);
    BlockReloads(b, s', re, key, key', ads);
    FieldShown(b', key', stored', ads', i, k);
    assert ads'[k] == RekeyAd(re, ads[k]);
    SlotLitSame(s, s', re, key, key', ads[k], i);
    ColdSame(s, s', re, key, key', ads[k]);
  }

  // The attributes whose tail numbers come with names: all listed, each with a number.
  ghost predicate Listed(ids: seq<nat>, named: nat -> bool, nameOf: nat -> seq<byte>)
  {
    forall a :: 0 <= a < |ids| ==> named(ids[a]) && nameOf(ids[a]) != []
  }

  // The number the next process looks for: the stored one where a name leads to it, its own otherwise.
  function NumberAfter(ids: seq<nat>, key: nat -> nat, re: nat -> nat, id: nat): (x: nat)
  {
    if id in ids then key(id) else re(id)
  }

  // One field of one record, from a reopened segment's block.
  lemma ReopenedRead(o: Opened, cs: ColSeg, dss: seq<StrDicts>, nameOf: nat -> seq<byte>, intern: seq<byte> -> nat,
                     ids: seq<nat>, known: nat -> bool, j: nat, ads: seq<seq<Entry>>, id: nat, k: nat)
    requires OpenedAs(o, cs, dss, ids, nameOf, intern) && SegOK(cs) && OrderKept(cs.schema, Renumber(nameOf, intern))
    requires KnowsAll(known, cs.schema, cs.named) && Renumbers(Renumber(nameOf, intern), known)
    requires Listed(ids, cs.named, nameOf)
    requires j < |cs.blocks| && ScanBlockFor(cs.blocks[j], cs.schema, cs.key, ads) && k < |ads| && id in cs.schema.byId
    requires forall x :: 0 <= x < |ads| ==> TailNamed(cs.schema, cs.named, ads[x])
    ensures var i, id' := cs.schema.byId[id], intern(nameOf(id));
      && id' in o.schema.byId && o.schema.byId[id'] == i && i < |cs.schema.fields| == |o.schema.fields| &&
         o.blocks[j].blk.schema == o.schema
      && FieldAtRecord(o.blocks[j].blk, cur => Translate(o.toStored, cur), i, k) ==
         FieldAs(cs.schema, cs.key, ads[k], i, NumberAfter(ids, cs.key, Renumber(nameOf, intern), id))
  {
    hide BlockFor, SameLayout, OrderKept, FieldAtRecord, FieldAs, StoredOf, CurrentOf, Translate, TailNamed, ZonesExact,
      EscFor, SlotOff, BoolsBefore, Sort, Renumbers, KeyedBy, Disjoint;
    var i, b, re := cs.schema.byId[id], cs.blocks[j].blk, Renumber(nameOf, intern);
    assert IdOK(cs.schema, id);
    SameAt(cs.schema, o.schema, re, i);
    assert FieldOK(o.schema, i);
    var stored' := (cur: nat) => Translate(o.toStored, cur);
    RestoredRead(b, o.schema, re, cs.key, cs.named, known, stored', ads, i, k);
    NamesReach(ids, cs.key, cs.named, known, nameOf, intern, id);
    assert stored'(re(id)) == NumberAfter(ids, cs.key, re, id);
  }

  lemma NamesReach(ids: seq<nat>, key: nat -> nat, named: nat -> bool, known: nat -> bool, nameOf: nat -> seq<byte>,
                   intern: seq<byte> -> nat, id: nat)
    requires Renumbers(Renumber(nameOf, intern), known) && Listed(ids, named, nameOf) && known(id)
    requires forall id: nat {:trigger named(id)} :: named(id) ==> known(id)
    ensures StoredOf(ColdNames(ids, key, nameOf), intern, intern(nameOf(id))) ==
      NumberAfter(ids, key, Renumber(nameOf, intern), id)
  {
    hide StoredOf;
    var re := Renumber(nameOf, intern);
    forall a | 0 <= a < |ids| && re(ids[a]) == re(id) ensures ids[a] == id { assert known(ids[a]) && known(id); }
    NamesLead(ids, key, nameOf, intern, id);
  }

  // Looking the field up under x is right for every record the segment could hold.
  ghost predicate RightOnAll(cs: ColSeg, id: nat, x: nat)
    requires id in cs.schema.byId && cs.schema.byId[id] < |cs.schema.fields|
  {
    forall ad {:trigger FieldAs(cs.schema, cs.key, ad, cs.schema.byId[id], x)} ::
      ValidAd(ad) && TailNamed(cs.schema, cs.named, ad) ==>
      FieldAs(cs.schema, cs.key, ad, cs.schema.byId[id], x) == Lookup(ad, id)
  }

  ghost predicate ReadsAfter(cs: ColSeg, ids: seq<nat>, re: nat -> nat, id: nat)
  {
    if cs.named(id) then id in ids || re(id) == cs.key(id)
    else forall y: nat {:trigger cs.named(y)} :: cs.named(y) ==> cs.key(y) != re(id)
  }

  // A schema field is read right from a reopened segment, whatever its records, if and only if a name leads to its
  // number in the tails, or its new number happens to be that number, or it has none there and its new number is no
  // other attribute's. The names are those written beside a globally numbered segment, or all of its dictionary's for
  // a columnar-native one; opening a dictionary-numbered segment from its sidecar leaves none.
  lemma ReopenedReadExactly(cs: ColSeg, nameOf: nat -> seq<byte>, intern: seq<byte> -> nat, ids: seq<nat>, id: nat)
    requires SegOK(cs) && Listed(ids, cs.named, nameOf) && id in cs.schema.byId
    ensures cs.schema.byId[id] < |cs.schema.fields|
    ensures ReadsAfter(cs, ids, Renumber(nameOf, intern), id) <==>
      RightOnAll(cs, id, NumberAfter(ids, cs.key, Renumber(nameOf, intern), id))
  {
    hide FieldAs, ValidAd, TailNamed, Lookup, KeyedBy, Disjoint, ValidSchema;
    IdAt(cs.schema, id);
    FieldReadExactly(cs.schema, cs.key, cs.named, cs.schema.byId[id],
      NumberAfter(ids, cs.key, Renumber(nameOf, intern), id));
  }

  // ---------------------------------------------------------------- the segment as the next process holds it

  ghost function After(o: Opened, cs: ColSeg, groups: seq<Group>, re: nat -> nat): (r: ColSeg)
  {
    ColSeg(o.schema, o.blocks, o.offs, groups, cs.native, KeyAfter(cs.key, cs.named, re), NamedAfter(cs.named, re),
      cur => Translate(o.toStored, cur))
  }

  lemma TailRelabels(s: Schema, s': Schema, key: nat -> nat, named: nat -> bool, known: nat -> bool, re: nat -> nat,
                     ad: seq<Entry>)
    requires ValidSchema(s) && ValidSchema(s') && SameLayout(s, s', re) && KnowsAll(known, s, named)
    requires Renumbers(re, known) && TailNamed(s, named, ad)
    ensures TailNamed(s', NamedAfter(named, re), RekeyAd(re, ad))
  {
    hide KeyAfter, NamedAfter, ValidSchema, RelabelOK, SameLayout, InSlot;
    RowRelabels(s, key, named, known, re, ad);
    var ad' := RekeyAd(re, ad);
    forall j | 0 <= j < |ad'| && !InSlot(s', ad'[j]) ensures NamedAfter(named, re)(ad'[j].id) {
      InSlotSame(s, s', re, key, KeyAfter(key, named, re), ad, j);
      KeptKey(key, named, known, re, ad[j].id);
    }
  }

  // A reopened block holds its ads under the new numbers.
  lemma BlockAfter(o: Opened, cs: ColSeg, dss: seq<StrDicts>, nameOf: nat -> seq<byte>, intern: seq<byte> -> nat,
                   ids: seq<nat>, known: nat -> bool, j: nat, ads: seq<seq<Entry>>)
    requires OpenedAs(o, cs, dss, ids, nameOf, intern) && SegOK(cs) && OrderKept(cs.schema, Renumber(nameOf, intern))
    requires KnowsAll(known, cs.schema, cs.named) && Renumbers(Renumber(nameOf, intern), known)
    requires j < |cs.blocks| && ScanBlockFor(cs.blocks[j], cs.schema, cs.key, ads)
    requires forall x :: 0 <= x < |ads| ==> TailNamed(cs.schema, cs.named, ads[x])
    ensures var re := Renumber(nameOf, intern); var ads' := RelabelAds(re, ads);
      && ScanBlockFor(o.blocks[j], o.schema, KeyAfter(cs.key, cs.named, re), ads') &&
         o.blocks[j].blk.n == cs.blocks[j].blk.n
      && forall x :: 0 <= x < |ads'| ==> TailNamed(o.schema, NamedAfter(cs.named, re), ads'[x])
  {
    hide SameLayout, OrderKept, StoredOf, CurrentOf, Translate, TailNamed, Sort, Renumbers, KnowsAll, KeyedBy, Disjoint,
      KeyAfter, NamedAfter, RelabelOK, ValidSchema, RekeyAd;
    var re := Renumber(nameOf, intern);
    hide Renumber;
    assert BlockFor(cs.blocks[j].blk, cs.key, ads) && cs.blocks[j].blk.n == |ads|;
    hide BlockFor, ZonesExact, EscFor;
    forall x | 0 <= x < |ads| ensures RelabelOK(cs.schema, re, cs.key, KeyAfter(cs.key, cs.named, re), ads[x]) {
      RowRelabels(cs.schema, cs.key, cs.named, known, re, ads[x]);
    }
    forall x | 0 <= x < |ads| ensures TailNamed(o.schema, NamedAfter(cs.named, re), RekeyAd(re, ads[x])) {
      TailRelabels(cs.schema, o.schema, cs.key, cs.named, known, re, ads[x]);
    }
    ScanBlockReloads(cs.blocks[j], cs.schema, o.schema, re, cs.key, KeyAfter(cs.key, cs.named, re), ads);
  }

  lemma KnowsAfter(o: Opened, cs: ColSeg, known: nat -> bool, known': nat -> bool, re: nat -> nat)
    requires ValidSchema(cs.schema) && ValidSchema(o.schema) && SameLayout(cs.schema, o.schema, re)
    requires KnowsAll(known, cs.schema, cs.named)
    requires forall a: nat {:trigger known(a)} :: known(a) ==> known'(re(a))
    ensures KnowsAll(known', o.schema, NamedAfter(cs.named, re))
  {
    hide SameLayout, ValidSchema;
    forall z: nat | NamedAfter(cs.named, re)(z) ensures known'(z) {
      var y: nat :| cs.named(y) && re(y) == z;
      assert known(y);
    }
    forall z | z in o.schema.byId ensures known'(z) {
      IdAt(o.schema, z);
      var i := o.schema.byId[z];
      SameSize(cs.schema, o.schema, re);
      SameAt(cs.schema, o.schema, re, i);
      FieldAt(cs.schema, i);
      assert known(cs.schema.fields[i].id);
    }
  }

  // A reopened block no longer knows which attributes its tails hold, so writing the segment again writes no names,
  // and the process that opens that looks for its own number: right, whatever the records, if and only if that is
  // the number first stored, or the field has none and it is no other attribute's.
  lemma SecondReopenExactly(o: Opened, o': Opened, cs: ColSeg, dss: seq<StrDicts>, ids: seq<nat>,
                            nameOf: nat -> seq<byte>, intern: seq<byte> -> nat, nameOf': nat -> seq<byte>,
                            intern': seq<byte> -> nat, known: nat -> bool, known': nat -> bool, j: nat,
                            ads: seq<seq<Entry>>, id: nat, k: nat)
    requires OpenedAs(o, cs, dss, ids, nameOf, intern) && SegOK(cs) && OrderKept(cs.schema, Renumber(nameOf, intern))
    requires OpenedAs(o', After(o, cs, [], Renumber(nameOf, intern)), dss, [], nameOf', intern')
    requires OrderKept(o.schema, Renumber(nameOf', intern'))
    requires KnowsAll(known, cs.schema, cs.named) && Renumbers(Renumber(nameOf, intern), known)
    requires Renumbers(Renumber(nameOf', intern'), known')
    requires forall a: nat {:trigger known(a)} :: known(a) ==> known'(intern(nameOf(a)))
    requires j < |cs.blocks| && ScanBlockFor(cs.blocks[j], cs.schema, cs.key, ads) && k < |ads| && id in cs.schema.byId
    requires forall x :: 0 <= x < |ads| ==> TailNamed(cs.schema, cs.named, ads[x])
    ensures var i, id'' := cs.schema.byId[id], intern'(nameOf'(intern(nameOf(id))));
      && id'' in o'.schema.byId && o'.schema.byId[id''] == i && i < |cs.schema.fields| == |o'.schema.fields| &&
         o'.blocks[j].blk.schema == o'.schema
      && FieldAtRecord(o'.blocks[j].blk, cur => Translate(o'.toStored, cur), i, k) ==
         FieldAs(cs.schema, cs.key, ads[k], i, id'')
      && ((if cs.named(id) then id'' == cs.key(id) else forall y: nat {:trigger cs.named(y)} ::
         cs.named(y) ==> cs.key(y) != id'') <==>
          RightOnAll(cs, id, id''))
  {
    hide BlockFor, SameLayout, OrderKept, FieldAtRecord, FieldAs, StoredOf, CurrentOf, Translate, TailNamed, ZonesExact,
      EscFor, SlotOff, BoolsBefore, Sort, Renumbers, KeyedBy, Disjoint, KeyAfter, NamedAfter, RekeyAd, Lookup, ValidAd,
      ValidSchema;
    var re, re' := Renumber(nameOf, intern), Renumber(nameOf', intern');
    var cs', ads', i := After(o, cs, [], re), RelabelAds(re, ads), cs.schema.byId[id];
    IdAt(cs.schema, id);
    SameAt(cs.schema, o.schema, re, i);
    FieldAt(o.schema, i);
    BlockAfter(o, cs, dss, nameOf, intern, ids, known, j, ads);
    KnowsAfter(o, cs, known, known', re);
    SegAfter(o, cs, [], known, re);
    ReopenedRead(o', cs', dss, nameOf', intern', [], known', j, ads', re(id), k);
    FieldAsSame(cs, o.schema, known, re, ads[k], i, re'(re(id)));
    FieldReadExactly(cs.schema, cs.key, cs.named, i, re'(re(id)));
  }

  lemma FieldAsSame(cs: ColSeg, s': Schema, known: nat -> bool, re: nat -> nat, ad: seq<Entry>, i: nat, x: nat)
    requires ValidSchema(cs.schema) && ValidSchema(s') && SameLayout(cs.schema, s', re) && i < |cs.schema.fields|
    requires KnowsAll(known, cs.schema, cs.named) && Renumbers(re, known) && TailNamed(cs.schema, cs.named, ad)
    ensures i < |s'.fields| &&
      FieldAs(s', KeyAfter(cs.key, cs.named, re), RekeyAd(re, ad), i, x) == FieldAs(cs.schema, cs.key, ad, i, x)
  {
    hide SameLayout, RelabelOK, KeyAfter, ValidSchema, KnowsAll, Renumbers, TailNamed, SlotLit, Lookup, ColdEntries,
      RekeyAd;
    RowRelabels(cs.schema, cs.key, cs.named, known, re, ad);
    SameSize(cs.schema, s', re);
    SlotLitSame(cs.schema, s', re, cs.key, KeyAfter(cs.key, cs.named, re), ad, i);
    ColdSame(cs.schema, s', re, cs.key, KeyAfter(cs.key, cs.named, re), ad);
  }

  // ---------------------------------------------------------------- the groups, and a window's records

  // The same groups under the new numbers.
  ghost predicate GroupsAfter(groups: seq<Group>, groups': seq<Group>, re: nat -> nat)
  {
    && |groups'| == |groups|
    && forall g: nat {:trigger groups[g]} {:trigger groups'[g]} ::
       g < |groups| ==> IdsAfter(groups[g].ids, groups'[g].ids, re)
  }

  ghost predicate IdsAfter(ids: seq<nat>, ids': seq<nat>, re: nat -> nat)
  {
    (forall y :: y in ids ==> re(y) in ids') && forall z :: z in ids' ==> exists y :: y in ids && re(y) == z
  }

  ghost predicate GroupsKnown(known: nat -> bool, groups: seq<Group>)
  {
    forall g: nat, y {:trigger y in groups[g].ids} :: g < |groups| && y in groups[g].ids ==> known(y)
  }

  lemma SegAfter(o: Opened, cs: ColSeg, groups': seq<Group>, known: nat -> bool, re: nat -> nat)
    requires SegOK(cs) && ValidSchema(o.schema) && SameLayout(cs.schema, o.schema, re)
    requires KnowsAll(known, cs.schema, cs.named) && Renumbers(re, known)
    requires groups' == [] || (GroupsAfter(cs.groups, groups', re) && GroupsKnown(known, cs.groups))
    ensures SegOK(After(o, cs, groups', re))
  {
    hide KeyedBy, KeyAfter, NamedAfter, ValidSchema, SameLayout;
    KeysAfter(cs.key, cs.named, known, re);
    if groups' != [] { DisjointAfter(o.schema, cs, groups', known, re); }
  }

  lemma DisjointAfter(s': Schema, cs: ColSeg, groups': seq<Group>, known: nat -> bool, re: nat -> nat)
    requires ValidSchema(cs.schema) && ValidSchema(s') && SameLayout(cs.schema, s', re)
    requires Disjoint(cs.schema, cs.groups)
    requires KnowsAll(known, cs.schema, cs.named) && Renumbers(re, known) && GroupsAfter(cs.groups, groups', re)
    requires GroupsKnown(known, cs.groups)
    ensures Disjoint(s', groups')
  {
    hide ValidSchema, SameLayout;
    var s := cs.schema;
    SameSize(s, s', re);
    forall g: nat, z | g < |groups'| && z in groups'[g].ids ensures z !in s'.byId {
      var y :| y in cs.groups[g].ids && re(y) == z;
      if z in s'.byId {
        IdAt(s', z);
        SameAt(s, s', re, s'.byId[z]);
        FieldAt(s, s'.byId[z]);
      }
    }
    forall g: nat, h: nat, z | g < |groups'| && h < |groups'| && z in groups'[g].ids && z in groups'[h].ids
      ensures g == h
    {
      var x :| x in cs.groups[g].ids && re(x) == z;
      var y :| y in cs.groups[h].ids && re(y) == z;
      assert known(x) && known(y);
    }
  }

  ghost predicate AdKnown(known: nat -> bool, ad: seq<Entry>)
  {
    forall j {:trigger ad[j]} :: 0 <= j < |ad| ==> known(ad[j].id)
  }

  lemma KnownLookup(known: nat -> bool, re: nat -> nat, ad: seq<Entry>, id: nat)
    requires Renumbers(re, known) && AdKnown(known, ad) && known(id)
    ensures Lookup(RekeyAd(re, ad), re(id)) == Lookup(ad, id)
  {
    hide Lookup;
    forall j | 0 <= j < |ad| && re(ad[j].id) == re(id) ensures ad[j].id == id { assert known(ad[j].id); }
    LookupRekey(re, ad, id);
  }

  lemma WholeAfter(known: nat -> bool, re: nat -> nat, ad: seq<Entry>, g: Group, g': Group)
    requires Renumbers(re, known) && AdKnown(known, ad) && IdsAfter(g.ids, g'.ids, re)
    requires forall y :: y in g.ids ==> known(y)
    ensures Whole(RekeyAd(re, ad), g') <==> Whole(ad, g)
  {
    hide Lookup, RekeyAd, Renumbers, AdKnown;
    forall y | y in g.ids ensures HasAttr(RekeyAd(re, ad), re(y)) <==> HasAttr(ad, y) { KnownLookup(known, re, ad, y); }
  }

  lemma SkipAfter(known: nat -> bool, re: nat -> nat, ad: seq<Entry>, groups: seq<Group>, groups': seq<Group>, id: nat)
    requires Renumbers(re, known) && AdKnown(known, ad) && GroupsAfter(groups, groups', re)
    requires GroupsKnown(known, groups) && known(id)
    ensures re(id) in SkipSet(groups', RekeyAd(re, ad)) <==> id in SkipSet(groups, ad)
  {
    hide SkipSet, Whole, RekeyAd, AdKnown;
    forall g: nat | g < |groups|
      ensures (Whole(RekeyAd(re, ad), groups'[g]) <==> Whole(ad, groups[g])) &&
        (re(id) in groups'[g].ids <==> id in groups[g].ids)
    {
      assert forall y :: y in groups[g].ids ==> known(y);
      WholeAfter(known, re, ad, groups[g], groups'[g]);
      if re(id) in groups'[g].ids {
        var y :| y in groups[g].ids && re(y) == re(id);
        assert known(y) && known(id);
      }
    }
  }

  lemma {:induction false} WithoutAfter(re: nat -> nat, ad: seq<Entry>, skip: set<nat>, skip': set<nat>)
    requires forall j {:trigger ad[j]} :: 0 <= j < |ad| ==> (re(ad[j].id) in skip' <==> ad[j].id in skip)
    ensures Without(RekeyAd(re, ad), skip') == RekeyAd(re, Without(ad, skip))
    decreases |ad|
  {
    if ad != [] {
      var n := |ad| - 1;
      assert RekeyAd(re, ad)[..n] == RekeyAd(re, ad[..n]);
      WithoutAfter(re, ad[..n], skip, skip');
      RekeySnoc(re, Without(ad[..n], skip), ad[n]);
    }
  }

  // A record's base row under the new numbers.
  lemma BaseAfter(o: Opened, cs: ColSeg, groups': seq<Group>, known: nat -> bool, re: nat -> nat, ad: seq<Entry>)
    requires Renumbers(re, known) && AdKnown(known, ad) && GroupsAfter(cs.groups, groups', re)
    requires GroupsKnown(known, cs.groups)
    ensures BaseRow(After(o, cs, groups', re), RekeyAd(re, ad)) == RekeyAd(re, BaseRow(cs, ad))
  {
    hide Half, Without, SkipSet, RekeyAd, Renumbers, GroupsAfter, GroupsKnown, KeyAfter, NamedAfter;
    HalfRekeyed(re, ad, true);
    var h := Held(cs, ad);
    forall j | 0 <= j < |h| ensures known(h[j].id) {
      if cs.native { HalfMember(ad, true, h[j]); }
      var i :| 0 <= i < |ad| && ad[i] == h[j];
    }
    var skip, skip' := SkipSet(cs.groups, h), SkipSet(groups', RekeyAd(re, h));
    forall j | 0 <= j < |h|
      ensures re(h[j].id) in skip' <==> h[j].id in skip
    {
      SkipAfter(known, re, h, cs.groups, groups', h[j].id);
    }
    WithoutAfter(re, h, skip, skip');
  }

  // A window whose records and columns the next process holds under its own numbers.
  ghost predicate ReopenedAs(w: Window, w': Window, o: Opened, groups': seq<Group>, re: nat -> nat)
    requires w.col.Some?
  {
    && w'.arena.Keys == w.arena.Keys && w'.used == w.used && w'.col == Some(After(o, w.col.value, groups', re))
    && forall at :: at in w.arena ==> w'.arena[at] == w.arena[at].(ad := RekeyAd(re, w.arena[at].ad))
  }

  lemma {:induction false} WalkAfter(w: Window, w': Window, o: Opened, groups': seq<Group>, re: nat -> nat, off: nat)
    requires w.col.Some? && ReopenedAs(w, w', o, groups', re)
    ensures Walk(w', off) == Walk(w, off)
    decreases w.used - off
  {
    hide After, RekeyAd;
    if off < w.used && off in w.arena && w.arena[off].len > 0 {
      WalkAfter(w, w', o, groups', re, off + w.arena[off].len);
    }
  }

  function RecsAfter(re: nat -> nat, rs: seq<Rec>): (r: seq<Rec>)
    ensures |r| == |rs| && forall k :: 0 <= k < |rs| ==> r[k] == rs[k].(ad := RekeyAd(re, rs[k].ad))
  {
    seq(|rs|, k requires 0 <= k < |rs| => rs[k].(ad := RekeyAd(re, rs[k].ad)))
  }

  ghost predicate RecsKnown(known: nat -> bool, rs: seq<Rec>)
  {
    forall k {:trigger rs[k]} :: 0 <= k < |rs| ==> AdKnown(known, rs[k].ad)
  }

  // The numbering of everything the segment holds is kept apart.
  ghost predicate SegRenumbers(cs: ColSeg, groups': seq<Group>, known: nat -> bool, re: nat -> nat)
  {
    && KnowsAll(known, cs.schema, cs.named) && Renumbers(re, known) && GroupsAfter(cs.groups, groups', re) &&
       GroupsKnown(known, cs.groups)
  }

  lemma RunBases(o: Opened, cs: ColSeg, groups': seq<Group>, known: nat -> bool, re: nat -> nat, rs: seq<Rec>)
    requires SegRenumbers(cs, groups', known, re) && RecsKnown(known, rs)
    ensures Bases(After(o, cs, groups', re), RecsAfter(re, rs)) == RelabelAds(re, Bases(cs, rs))
  {
    hide BaseRow, RekeyAd, AdKnown, Renumbers, KnowsAll, GroupsAfter, GroupsKnown, After;
    forall k | 0 <= k < |rs|
      ensures BaseRow(After(o, cs, groups', re), RekeyAd(re, rs[k].ad)) == RekeyAd(re, BaseRow(cs, rs[k].ad))
    {
      assert AdKnown(known, rs[k].ad);
      BaseAfter(o, cs, groups', known, re, rs[k].ad);
    }
  }

  lemma KnownDistinct(known: nat -> bool, re: nat -> nat, ad: seq<Entry>)
    requires Renumbers(re, known) && AdKnown(known, ad) && DistinctIds(ad)
    ensures DistinctIds(RekeyAd(re, ad))
  {
    forall i, j | 0 <= i < |ad| && 0 <= j < |ad| && re(ad[i].id) == re(ad[j].id) ensures ad[i].id == ad[j].id {
      assert known(ad[i].id) && known(ad[j].id);
    }
    RekeyDistinct(re, ad);
  }

  lemma RunAfter(o: Opened, cs: ColSeg, dss: seq<StrDicts>, nameOf: nat -> seq<byte>, intern: seq<byte> -> nat,
                 ids: seq<nat>, groups': seq<Group>, known: nat -> bool, j: nat, rs: seq<Rec>)
    requires OpenedAs(o, cs, dss, ids, nameOf, intern) && OrderKept(cs.schema, Renumber(nameOf, intern))
    requires SegRenumbers(cs, groups', known, Renumber(nameOf, intern)) && RecsKnown(known, rs) && j < |cs.blocks|
    requires RunFor(cs.blocks[j], cs, rs)
    ensures var re := Renumber(nameOf, intern);
      RunFor(o.blocks[j], After(o, cs, groups', re), RecsAfter(re, rs)) && o.blocks[j].blk.n == cs.blocks[j].blk.n
  {
    hide ScanBlockFor, OpenedAs, OrderKept, KnowsAll, Renumbers, GroupsAfter, GroupsKnown, BaseRow, TailNamed, KeyAfter,
      NamedAfter, RekeyAd, Renumber, SegOK, AdKnown;
    var re := Renumber(nameOf, intern);
    var cs', rs' := After(o, cs, groups', re), RecsAfter(re, rs);
    RunBases(o, cs, groups', known, re, rs);
    SegSchema(cs);
    BlockAfter(o, cs, dss, nameOf, intern, ids, known, j, Bases(cs, rs));
    OpenedSchema(o, cs, dss, nameOf, intern, ids);
    SegAfter(o, cs, groups', known, re);
    forall k: nat | k < |rs'|
      ensures DistinctIds(rs'[k].ad) && TailNamed(cs'.schema, cs'.named, BaseRow(cs', rs'[k].ad))
    {
      assert DistinctIds(rs[k].ad) && AdKnown(known, rs[k].ad);
      KnownDistinct(known, re, rs[k].ad);
      assert Bases(cs', rs')[k] == BaseRow(cs', rs'[k].ad);
    }
  }

  lemma SegSchema(cs: ColSeg)
    requires SegOK(cs)
    ensures ValidSchema(cs.schema)
  {
  }

  lemma OpenedSchema(o: Opened, cs: ColSeg, dss: seq<StrDicts>, nameOf: nat -> seq<byte>, intern: seq<byte> -> nat,
                     ids: seq<nat>)
    requires OpenedAs(o, cs, dss, ids, nameOf, intern) && OrderKept(cs.schema, Renumber(nameOf, intern))
    ensures ValidSchema(o.schema) && SameLayout(cs.schema, o.schema, Renumber(nameOf, intern)) &&
      |o.blocks| == |cs.blocks| && o.offs == cs.offs
  {
    hide SameLayout, OrderKept, ValidSchema, Sort, StoredOf, CurrentOf, Translate;
  }

  lemma {:induction false} BlocksAfter(o: Opened, cs: ColSeg, dss: seq<StrDicts>, nameOf: nat -> seq<byte>,
                                       intern: seq<byte> -> nat, ids: seq<nat>, groups': seq<Group>, known: nat -> bool,
                                       rs: seq<Rec>, i: nat, base: nat)
    requires OpenedAs(o, cs, dss, ids, nameOf, intern) && OrderKept(cs.schema, Renumber(nameOf, intern))
    requires SegRenumbers(cs, groups', known, Renumber(nameOf, intern)) && RecsKnown(known, rs)
    requires i <= |cs.blocks| && BlocksFrom(cs, rs, i, base)
    ensures |o.blocks| == |cs.blocks| &&
      BlocksFrom(After(o, cs, groups', Renumber(nameOf, intern)), RecsAfter(Renumber(nameOf, intern), rs), i, base)
    decreases |cs.blocks| - i
  {
    hide RunFor, OpenedAs, OrderKept, SegRenumbers, RekeyAd, Renumber, AdKnown, KeyAfter, NamedAfter;
    OpenedSchema(o, cs, dss, nameOf, intern, ids);
    if i < |cs.blocks| {
      var n, re := cs.blocks[i].blk.n, Renumber(nameOf, intern);
      RunAfter(o, cs, dss, nameOf, intern, ids, groups', known, i, rs[base..base + n]);
      BlocksAfter(o, cs, dss, nameOf, intern, ids, groups', known, rs, i + 1, base + n);
      assert RecsAfter(re, rs)[base..base + n] == RecsAfter(re, rs[base..base + n]);
    }
  }

  // Where the new numbers keep the layout, a window reopened describes its records under them: every scan over it
  // answers as over any other window.
  lemma ReopenedWindow(w: Window, w': Window, o: Opened, dss: seq<StrDicts>, nameOf: nat -> seq<byte>,
                       intern: seq<byte> -> nat, ids: seq<nat>, groups': seq<Group>, known: nat -> bool)
    requires w.col.Some? && WindowOK(w) && OpenedAs(o, w.col.value, dss, ids, nameOf, intern)
    requires OrderKept(w.col.value.schema, Renumber(nameOf, intern))
    requires ReopenedAs(w, w', o, groups', Renumber(nameOf, intern))
    requires SegRenumbers(w.col.value, groups', known, Renumber(nameOf, intern)) && RecsKnown(known, Records(w))
    ensures WindowOK(w') && Records(w') == RecsAfter(Renumber(nameOf, intern), Records(w))
  {
    hide OpenedAs, OrderKept, SegRenumbers, RecsKnown, BlocksFrom, Walk, RekeyAd, Renumber, SegOK, KeyAfter, NamedAfter;
    var re, cs := Renumber(nameOf, intern), w.col.value;
    WalkAfter(w, w', o, groups', re, 0);
    assert Records(w') == RecsAfter(re, Records(w));
    OpenedSchema(o, cs, dss, nameOf, intern, ids);
    SegSchema(cs);
    assert SegOK(After(o, cs, groups', re)) by {
      RenumbersParts(cs, groups', known, re);
      SegAfter(o, cs, groups', known, re);
    }
    BlocksAfter(o, cs, dss, nameOf, intern, ids, groups', known, Records(w), 0, 0);
  }

  lemma RenumbersParts(cs: ColSeg, groups': seq<Group>, known: nat -> bool, re: nat -> nat)
    requires SegRenumbers(cs, groups', known, re)
    ensures KnowsAll(known, cs.schema, cs.named) && Renumbers(re, known) && GroupsAfter(cs.groups, groups', re) &&
      GroupsKnown(known, cs.groups)
  {
  }

  // Looking a number up in the reopened tails is right for an attribute as it was for it in the tails written.
  lemma ReadsKept(cs: ColSeg, known: nat -> bool, re: nat -> nat, id: nat, x: nat)
    requires KnowsAll(known, cs.schema, cs.named) && Renumbers(re, known) && known(id)
    ensures ReadsUnder(KeyAfter(cs.key, cs.named, re), NamedAfter(cs.named, re), re(id), x) <==>
      ReadsUnder(cs.key, cs.named, id, x)
    ensures NamedAfter(cs.named, re)(re(id)) <==> cs.named(id)
  {
    hide KeyBefore;
    var key', named' := KeyAfter(cs.key, cs.named, re), NamedAfter(cs.named, re);
    if named'(re(id)) {
      var y: nat :| cs.named(y) && re(y) == re(id);
      assert known(y) && known(id);
    }
    if cs.named(id) { KeptKey(cs.key, cs.named, known, re, id); }
    forall y: nat | cs.named(y)
      ensures named'(re(y)) && key'(re(y)) == cs.key(y)
    {
      KeptKey(cs.key, cs.named, known, re, y);
    }
    if !cs.named(id) && ReadsUnder(cs.key, cs.named, id, x) {
      forall z: nat | named'(z) ensures key'(z) != x {
        var y: nat :| cs.named(y) && re(y) == z;
        assert key'(re(y)) == cs.key(y);
      }
    }
  }

  // Counting by presence over the reopened window: right where reading the field is, or where the field has no number
  // in the tails and the blocks have their classes.
  lemma PresenceAfter(w: Window, w': Window, o: Opened, dss: seq<StrDicts>, nameOf: nat -> seq<byte>,
                      intern: seq<byte> -> nat, ids: seq<nat>, groups': seq<Group>, known: nat -> bool, id: nat)
    requires w.col.Some? && SegOK(w.col.value) && OpenedAs(o, w.col.value, dss, ids, nameOf, intern)
    requires OrderKept(w.col.value.schema, Renumber(nameOf, intern))
    requires ReopenedAs(w, w', o, groups', Renumber(nameOf, intern))
    requires SegRenumbers(w.col.value, groups', known, Renumber(nameOf, intern))
    requires Listed(ids, w.col.value.named, nameOf) && id in w.col.value.schema.byId
    ensures WindowSees(w', intern(nameOf(id))) <==>
      || ReadsAfter(w.col.value, ids, Renumber(nameOf, intern), id)
      || forall b :: 0 <= b < |w.col.value.blocks| ==> w.col.value.blocks[b].esc.cls != [] && !w.col.value.named(id)
  {
    hide OpenedAs, OrderKept, KeyAfter, NamedAfter, SegRenumbers, Listed, SegOK, Renumber, RekeyAd, FieldSeen,
      ReadsAfter;
    var cs, re := w.col.value, Renumber(nameOf, intern);
    assert re(id) == intern(nameOf(id)) by { NumberOf(nameOf, intern, id); }
    FieldAfter(o, cs, dss, nameOf, intern, ids, id);
    forall b | 0 <= b < |cs.blocks|
      ensures o.blocks[b].esc == cs.blocks[b].esc
      ensures FieldSeen(After(o, cs, groups', re), o.blocks[b].esc.cls != [], re(id)) <==>
        ReadsAfter(cs, ids, re, id) || (cs.blocks[b].esc.cls != [] && !cs.named(id))
    {
      EscAfter(o, cs, dss, nameOf, intern, ids, b);
      RenumbersParts(cs, groups', known, re);
      SeenAfter(o, cs, dss, nameOf, intern, ids, groups', known, id, o.blocks[b].esc.cls != []);
    }
  }

  lemma NumberOf(nameOf: nat -> seq<byte>, intern: seq<byte> -> nat, id: nat)
    ensures Renumber(nameOf, intern)(id) == intern(nameOf(id))
  {
  }

  lemma EscAfter(o: Opened, cs: ColSeg, dss: seq<StrDicts>, nameOf: nat -> seq<byte>, intern: seq<byte> -> nat,
                 ids: seq<nat>, b: nat)
    requires OpenedAs(o, cs, dss, ids, nameOf, intern) && OrderKept(cs.schema, Renumber(nameOf, intern))
    requires b < |cs.blocks|
    ensures b < |o.blocks| && o.blocks[b].esc == cs.blocks[b].esc
  {
    hide OrderKept, SameLayout, Sort, StoredOf, ValidSchema;
  }

  // The field stands where it stood.
  lemma FieldAfter(o: Opened, cs: ColSeg, dss: seq<StrDicts>, nameOf: nat -> seq<byte>, intern: seq<byte> -> nat,
                   ids: seq<nat>, id: nat)
    requires OpenedAs(o, cs, dss, ids, nameOf, intern) && SegOK(cs) && OrderKept(cs.schema, Renumber(nameOf, intern))
    requires id in cs.schema.byId
    ensures |o.blocks| == |cs.blocks| && |o.schema.fields| == |cs.schema.fields|
    ensures var re, i := Renumber(nameOf, intern), cs.schema.byId[id];
      re(id) in o.schema.byId && o.schema.byId[re(id)] == i < |cs.schema.fields|
  {
    hide OpenedAs, SameLayout, ValidSchema, OrderKept, KeyedBy, Disjoint;
    var re, i := Renumber(nameOf, intern), cs.schema.byId[id];
    OpenedSchema(o, cs, dss, nameOf, intern, ids);
    IdAt(cs.schema, id);
    SameAt(cs.schema, o.schema, re, i);
    FieldAt(o.schema, i);
  }

  lemma SeenAfter(o: Opened, cs: ColSeg, dss: seq<StrDicts>, nameOf: nat -> seq<byte>, intern: seq<byte> -> nat,
                  ids: seq<nat>, groups': seq<Group>, known: nat -> bool, id: nat, classed: bool)
    requires OpenedAs(o, cs, dss, ids, nameOf, intern) && KnowsAll(known, cs.schema, cs.named)
    requires Renumbers(Renumber(nameOf, intern), known)
    requires Listed(ids, cs.named, nameOf) && id in cs.schema.byId
    ensures FieldSeen(After(o, cs, groups', Renumber(nameOf, intern)), classed, Renumber(nameOf, intern)(id)) <==>
      ReadsAfter(cs, ids, Renumber(nameOf, intern), id) || (classed && !cs.named(id))
  {
    hide SameLayout, OrderKept, ValidSchema, Sort, StoredOf, CurrentOf, Translate, KeyAfter, NamedAfter, ReadsUnder,
      ReadsAfter, Renumbers;
    var re := Renumber(nameOf, intern);
    NamesReach(ids, cs.key, cs.named, known, nameOf, intern, id);
    assert After(o, cs, groups', re).stored(re(id)) == NumberAfter(ids, cs.key, re, id);
    ReadsKept(cs, known, re, id, NumberAfter(ids, cs.key, re, id));
    NumberReads(cs, ids, re, id);
  }

  lemma NumberReads(cs: ColSeg, ids: seq<nat>, re: nat -> nat, id: nat)
    requires forall a :: 0 <= a < |ids| ==> cs.named(ids[a])
    ensures ReadsUnder(cs.key, cs.named, id, NumberAfter(ids, cs.key, re, id)) <==> ReadsAfter(cs, ids, re, id)
  {
  }

  // ---------------------------------------------------------------- strings

  // A string read from the reopened block is the string read from the block written.
  lemma ReopenedString(o: Opened, cs: ColSeg, dss: seq<StrDicts>, nameOf: nat -> seq<byte>, intern: seq<byte> -> nat,
                       ids: seq<nat>, known: nat -> bool, j: nat, full: Block, ads: seq<seq<Entry>>, i: nat, k: nat)
    requires OpenedAs(o, cs, dss, ids, nameOf, intern) && SegOK(cs) && OrderKept(cs.schema, Renumber(nameOf, intern))
    requires j < |cs.blocks|
    requires cs.blocks[j].blk.schema == cs.schema && DictBlockFor(cs.blocks[j].blk, dss[j], full, cs.key, ads)
    requires KnowsAll(known, cs.schema, cs.named) && Renumbers(Renumber(nameOf, intern), known)
    requires forall x :: 0 <= x < |ads| ==> TailNamed(cs.schema, cs.named, ads[x])
    requires k < |ads| && i < |cs.schema.fields| && StrVal(cs.schema, ads[k], i).Some?
    ensures ReadString(o.blocks[j].blk, o.dicts[j], i, k) == ReadString(cs.blocks[j].blk, dss[j], i, k) ==
      StrVal(cs.schema, ads[k], i)
  {
    hide DictBlockFor, SameLayout, OrderKept, StrVal, ReadString, RelabelOK, Sort, StoredOf, CurrentOf, Translate,
      RekeyAd, ValidSchema, KeyAfter, KnowsAll, Renumbers, TailNamed, KeyedBy, Disjoint;
    var re, key' := Renumber(nameOf, intern), KeyAfter(cs.key, cs.named, Renumber(nameOf, intern));
    SameSize(cs.schema, o.schema, re);
    forall x | 0 <= x < |ads|
      ensures RelabelOK(cs.schema, re, cs.key, key', ads[x])
    {
      RowRelabels(cs.schema, cs.key, cs.named, known, re, ads[x]);
    }
    DictBlockReloads(cs.blocks[j].blk, dss[j], full, o.schema, re, cs.key, key', ads);
    StrValSame(cs.schema, o.schema, re, cs.key, key', ads[k], i);
    ReadStringExact(o.blocks[j].blk, dss[j], full.(schema := o.schema), key', RelabelAds(re, ads), i, k);
    ReadStringExact(cs.blocks[j].blk, dss[j], full, cs.key, ads, i, k);
  }

  // ---------------------------------------------------------------- where it goes wrong

  // A record of one attribute, in its tail: the field answers with it if the translation leads there.
  lemma LoneTailRead(b: Block, s': Schema, re: nat -> nat, key: nat -> nat, named: nat -> bool, stored': nat -> nat,
                     e: Entry)
    requires BlockFor(b, key, [[e]]) && ValidSchema(s') && SameLayout(b.schema, s', re)
    requires SpecsOf(b.schema.fields) == [Spec(1, KInt, 1, false)]
    requires !InSlot(b.schema, e) && named(e.id) && Renumbers(re, (id: nat) => named(id) || id == 1)
    ensures |s'.fields| == 1
    ensures FieldAtRecord(b.(schema := s'), stored', 0, 0) == if stored'(re(1)) == key(e.id) then Some(e.node) else None
  {
    hide BlockFor, SameLayout, FieldAtRecord, ColdEntries, Lookup, SlotOff, BoolsBefore, Renumbers;
    var s := b.schema;
    BlockFacts(b, key, [[e]]);
    SpecAt(s, 0);
    assert forall id :: id in s.byId ==> IdOK(s, id);
    RestoredRead(b, s', re, key, named, (id: nat) => named(id) || id == 1, stored', [[e]], 0, 0);
    FieldAt(s, 0);
    LookupOne(e, 1);
    OneColdEntry(s, key, e);
    LookupOne(Entry(key(e.id), e.node), stored'(re(1)));
  }

  lemma SpecAt(s: Schema, i: nat)
    requires i < |SpecsOf(s.fields)|
    ensures i < |s.fields| == |SpecsOf(s.fields)| && SpecOf(s.fields[i]) == SpecsOf(s.fields)[i]
  {
  }

  // A bool in the tail of a schema of one int field.
  lemma BoolEscapes(s: Schema, id: nat)
    requires ValidSchema(s) && SpecsOf(s.fields) == [Spec(1, KInt, 1, false)]
    ensures !InSlot(s, Entry(id, Lit(LBool(true)))) && Lookup([Entry(id, Lit(LBool(true)))], 1) == if id == 1 then
      Some(Lit(LBool(true))) else None
  {
    hide SlotOff, BoolsBefore, Lookup;
    SpecAt(s, 0);
    assert id in s.byId ==> IdOK(s, id);
    LookupOne(Entry(id, Lit(LBool(true))), 1);
  }

  // The writer's field 1 is in no tail, so it has no name; the reader numbers it 2, which is what the writer
  // called another attribute. A record without field 1 answers with that attribute's value.
  lemma UnlistedFieldReadsAnother(b: Block, s': Schema, nameOf: nat -> seq<byte>, intern: seq<byte> -> nat,
                                  toStored: map<nat, nat>)
    requires ValidSchema(s') && SameLayout(b.schema, s', Renumber(nameOf, intern))
    requires SpecsOf(b.schema.fields) == [Spec(1, KInt, 1, false)]
    requires BlockFor(b, id => id, [[Entry(2, Lit(LBool(true)))]]) && nameOf(2) != [] && intern(nameOf(1)) == 2
    requires intern(nameOf(2)) == 3
    requires forall cur :: Translate(toStored, cur) == StoredOf(ColdNames([2], id => id, nameOf), intern, cur)
    ensures |s'.fields| == 1 && Lookup([Entry(2, Lit(LBool(true)))], 1) == None
    ensures FieldAtRecord(b.(schema := s'), cur => Translate(toStored, cur), 0, 0) == Some(Lit(LBool(true)))
  {
    hide BlockFor, SameLayout, FieldAtRecord, Translate, ValidSchema, InSlot, Lookup;
    var stored' := (cur: nat) => Translate(toStored, cur);
    BlockFacts(b, id => id, [[Entry(2, Lit(LBool(true)))]]);
    BoolEscapes(b.schema, 2);
    NamesLead([2], id => id, nameOf, intern, 1);
    LoneTailRead(b, s', Renumber(nameOf, intern), id => id, id => id == 2, stored', Entry(2, Lit(LBool(true))));
  }

  // The segment's dictionary numbers field 1 as 0 and another attribute as 1. Opened again by a process with the very
  // same numbers, through the dictionary's names field 1 is found; from the sidecar it is not, and a record without it
  // answers with the other attribute.
  lemma SidecarMisreads(b: Block, other: Block, s': Schema, key: nat -> nat, named: nat -> bool)
    requires ValidSchema(s') && SpecsOf(b.schema.fields) == [Spec(1, KInt, 1, false)] && other.schema == b.schema
    requires SameLayout(b.schema, s', id => id)
    requires named(1) && named(2) && key(1) == 0 && key(2) == 1 && forall id :: named(id) ==> id < 0x1_0000_0000
    requires BlockFor(b, key, [[Entry(1, Lit(LBool(true)))]]) && BlockFor(other, key, [[Entry(2, Lit(LBool(true)))]])
    ensures |s'.fields| == 1 && Lookup([Entry(1, Lit(LBool(true)))], 1) == Some(Lit(LBool(true))) &&
      Lookup([Entry(2, Lit(LBool(true)))], 1) == None
    ensures FieldAtRecord(b.(schema := s'), key, 0, 0) == Some(Lit(LBool(true)))
    ensures FieldAtRecord(b.(schema := s'), id => id, 0, 0) == None
    ensures FieldAtRecord(other.(schema := s'), id => id, 0, 0) == Some(Lit(LBool(true)))
  {
    hide BlockFor, SameLayout, FieldAtRecord, ValidSchema, InSlot, Lookup;
    BlockFacts(b, key, [[Entry(1, Lit(LBool(true)))]]);
    BoolEscapes(b.schema, 1);
    BoolEscapes(b.schema, 2);
    LoneTailRead(b, s', id => id, key, named, key, Entry(1, Lit(LBool(true))));
    LoneTailRead(b, s', id => id, key, named, id => id, Entry(1, Lit(LBool(true))));
    LoneTailRead(other, s', id => id, key, named, id => id, Entry(2, Lit(LBool(true))));
  }

  // Field 1 holds a bool, so it is in the tail; numbered 2 by the first reader, it is read through its name.
  // The second reader numbers it 2 as well, and finds nothing.
  lemma SecondReopenLoses(b: Block, s': Schema, re: nat -> nat, stored': nat -> nat)
    requires ValidSchema(s') && SameLayout(b.schema, s', re) && SpecsOf(b.schema.fields) == [Spec(1, KInt, 1, false)]
    requires BlockFor(b, id => id, [[Entry(1, Lit(LBool(true)))]]) && re(1) == 2 && stored'(2) == 1
    ensures |s'.fields| == 1 &&
      FieldAtRecord(b.(schema := s'), stored', 0, 0) == Lookup([Entry(1, Lit(LBool(true)))], 1) ==
        Some(Lit(LBool(true)))
    ensures FieldAtRecord(b.(schema := s'), id => id, 0, 0) == None
  {
    hide BlockFor, SameLayout, FieldAtRecord, ValidSchema, InSlot, Lookup;
    BlockFacts(b, id => id, [[Entry(1, Lit(LBool(true)))]]);
    BoolEscapes(b.schema, 1);
    LoneTailRead(b, s', re, id => id, id => id == 1, stored', Entry(1, Lit(LBool(true))));
    LoneTailRead(b, s', re, id => id, id => id == 1, id => id, Entry(1, Lit(LBool(true))));
  }

  // Two one-byte ints whose names the reader numbers the other way round: each is read from the other's column.
  lemma SwappedColumnsRead(b: Block, s': Schema, re: nat -> nat, key: nat -> nat, stored': nat -> nat,
                           ads: seq<seq<Entry>>, k: nat)
    requires BlockFor(b, key, ads) && ValidSchema(s')
    requires SpecsOf(b.schema.fields) == [Spec(1, KInt, 1, false), Spec(2, KInt, 1, false)]
    requires re(1) == 2 && re(2) == 1 && SpecsOf(s'.fields) == Sort(Rebound(SpecsOf(b.schema.fields), re))
    requires k < |ads| && SlotLit(b.schema, ads[k], 0).Some? && SlotLit(b.schema, ads[k], 1).Some?
    ensures |s'.fields| == 2 && re(1) in s'.byId && re(2) in s'.byId && s'.byId[re(1)] == 1 && s'.byId[re(2)] == 0
    ensures FieldAtRecord(b.(schema := s'), stored', s'.byId[re(1)], k) == Lookup(ads[k], 2)
    ensures FieldAtRecord(b.(schema := s'), stored', s'.byId[re(2)], k) == Lookup(ads[k], 1)
  {
    hide BlockFor, FieldAtRecord, SlotOff, BoolsBefore, Sort, SlotLit, Lookup, ValidSchema, TailNamed, ColdEntries;
    var s, small := b.schema, (id: nat) => id < 0x1_0000_0000;
    BlockFacts(b, key, ads);
    SwappedColumns(s, s', re);
    SwappedBack(s, s', re);
    SpecAt(s, 0);
    SpecAt(s, 1);
    assert KnowsAll(small, s, small) by { SchemaSmall(s); }
    forall x | 0 <= x < |ads| ensures TailNamed(s, small, ads[x]) { AdsSmall(b, key, ads, x, small); }
    RestoredRead(b, s', id => id, key, small, small, stored', ads, 0, k);
    RestoredRead(b, s', id => id, key, small, small, stored', ads, 1, k);
    SlotOrNot(s, ads[k], 0);
    SlotOrNot(s, ads[k], 1);
  }

  lemma SchemaSmall(s: Schema)
    requires ValidSchema(s) && forall i :: 0 <= i < |s.fields| ==> s.fields[i].id < 0x1_0000_0000
    ensures forall id :: id in s.byId ==> id < 0x1_0000_0000
  {
    hide SlotOff, BoolsBefore;
    forall id | id in s.byId ensures id < 0x1_0000_0000 { assert IdOK(s, id); }
  }

  lemma AdsSmall(b: Block, key: nat -> nat, ads: seq<seq<Entry>>, k: nat, small: nat -> bool)
    requires BlockFor(b, key, ads) && k < |ads|
    requires forall id: nat {:trigger small(id)} :: small(id) <==> id < 0x1_0000_0000
    ensures TailNamed(b.schema, small, ads[k])
  {
    hide BlockOf, RowOf, ColdEntries, InSlot;
    var recs :| BlockOf(b, recs) && RowsOf(b.schema, key, ads, recs);
    assert ValidAd(ads[k]);
    forall j | 0 <= j < |ads[k]| ensures ads[k][j].id < 0x1_0000_0000 { assert ValidEntry(ads[k][j]); }
  }

  // Sorted again, the two fields stand as they were: the layout is the writer's, under the writer's numbers.
  lemma SwappedBack(s: Schema, s': Schema, re: nat -> nat)
    requires ValidSchema(s) && ValidSchema(s')
    requires SpecsOf(s.fields) == [Spec(1, KInt, 1, false), Spec(2, KInt, 1, false)]
    requires re(1) == 2 && re(2) == 1 && SpecsOf(s'.fields) == Sort(Rebound(SpecsOf(s.fields), re))
    ensures |s'.fields| == 2 && re(2) in s'.byId && s'.byId[re(2)] == 0 && SameLayout(s, s', id => id)
  {
    hide SlotOff, BoolsBefore, Sort;
    SwappedSort(Rebound(SpecsOf(s.fields), re));
    var fs := SpecsOf(s.fields);
    assert SpecsOf(s'.fields) == fs;
    assert Rebound(fs, id => id) == fs;
    assert Ordered(fs) && DistinctSpecs(fs) by { assert Before(fs[0], fs[1]); }
    SortFixed(fs);
    LayoutKeptExactly(s, s', id => id);
    OrderedRebound(s, id => id);
    SpecAt(s', 0);
    assert FieldOK(s', 0);
  }
}
