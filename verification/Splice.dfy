/** When a columnar-native record comes back as it was: what the reader's tables must give, for every record the
    segment can hold. */
module Splice {
  import opened Bytes
  import opened Wire
  import opened Row
  import opened Values
  import opened Fields
  import opened Groups
  import opened GroupReads
  import opened Native

  // ---------------------------------------------------------------- tables and records

  // A dictionary has a key only for the attributes it names.
  predicate HasKey(ks: Keys, id: nat) { ks.dict ==> ks.named(id) }

  // Tail numbers tell attributes apart, output keys do, and a stored number maps back to its attribute's output key.
  ghost predicate TablesOK(ks: Keys)
  {
    && KeyedBy(ks.key, ks.named)
    && (forall a: nat, b: nat {:trigger ks.out(a), ks.out(b)} ::
          HasKey(ks, a) && HasKey(ks, b) && ks.out(a) == ks.out(b) ==> a == b)
    && forall a: nat {:trigger ks.named(a)} :: ks.named(a) ==> ks.cold(ks.key(a)) == ks.out(a)
  }

  // Whatever the record keeps in a tail has a number, and under a dictionary all it has.
  ghost predicate Holdable(ks: Keys, s: Schema, groups: seq<Group>, ad: seq<Entry>)
  {
    && ValidAd(ad) && (ks.dict ==> AllNamed(ks.named, ad)) && TailNamed(s, ks.named, BaseAd(groups, ad))
    && forall gi {:trigger groups[gi]} :: 0 <= gi < |groups| && Whole(Half(ad, true), groups[gi]) ==>
      TailNamed(groups[gi].schema, ks.named, Half(ad, true))
  }

  lemma HeldOK(ks: Keys, s: Schema, groups: seq<Group>, ad: seq<Entry>)
    requires TablesOK(ks) && Holdable(ks, s, groups, ad)
    ensures RecordOK(ks, s, groups, ad)
  {
    hide BaseAd, Half, Whole, InSlot, KeyedBy, ValidAd;
    forall i, j | 0 <= i < |ad| && 0 <= j < |ad| && ks.out(ad[i].id) == ks.out(ad[j].id) ensures ad[i].id == ad[j].id {
      assert HasKey(ks, ad[i].id) && HasKey(ks, ad[j].id);
    }
    var b := BaseAd(groups, ad);
    forall j | 0 <= j < |b| && !InSlot(s, b[j]) ensures ks.cold(ks.key(b[j].id)) == ks.out(b[j].id) {
      assert ks.named(b[j].id);
    }
  }

  // ---------------------------------------------------------------- the groups

  // An attribute that can be in the tail of its group's block is looked for there under its own number.
  ghost predicate GroupsKeyed(ks: Keys, groups: seq<Group>, want: Option<set<nat>>)
  {
    forall gi, id {:trigger id in groups[gi].ids} :: 0 <= gi < |groups| && id in groups[gi].ids && Wanted(want, id) ==>
      KeyedIn(ks, groups[gi], id)
  }

  ghost predicate KeyedIn(ks: Keys, g: Group, id: nat)
  {
    ks.named(id) && (ks.dict ==> AllOf(g, ks.named)) ==> ks.inGroup(id) == ks.key(id)
  }

  lemma KeyedFound(ks: Keys, s: Schema, groups: seq<Group>, ad: seq<Entry>, want: Option<set<nat>>)
    requires KeyedBy(ks.key, ks.named) && ValidGroups(groups) && Holdable(ks, s, groups, ad)
    requires GroupsKeyed(ks, groups, want)
    ensures GroupsFound(groups, ks.key, ks.inGroup, Half(ad, true), want)
  {
    hide Half, BaseAd, Whole, AllNamed, TailNamed, KeyedBy, ValidAd, FieldAs, Lookup, ValidGroup;
    var h := Half(ad, true);
    HalfValid(ad, true);
    PartsNamed(ks, groups, ad);
    forall gi | 0 <= gi < |groups| && Whole(h, groups[gi])
      ensures FieldsFound(groups[gi], ks.key, ks.inGroup, h, want)
    {
      var g := groups[gi];
      assert TailNamed(g.schema, ks.named, h) && ValidGroup(g);
      forall i: nat | i < |g.schema.fields| && Wanted(want, g.schema.fields[i].id)
        ensures FieldAs(g.schema, ks.key, h, i, ks.inGroup(g.schema.fields[i].id)) == Lookup(h, g.schema.fields[i].id)
      {
        FieldInGroup(g, i);
        MemberFound(ks, g, h, i);
      }
    }
  }

  lemma MemberFound(ks: Keys, g: Group, h: seq<Entry>, i: nat)
    requires KeyedBy(ks.key, ks.named) && ValidGroup(g) && ValidAd(h) && Whole(h, g) && i < |g.schema.fields|
    requires (ks.dict ==> AllNamed(ks.named, h)) && TailNamed(g.schema, ks.named, h)
    requires KeyedIn(ks, g, g.schema.fields[i].id)
    ensures FieldAs(g.schema, ks.key, h, i, ks.inGroup(g.schema.fields[i].id)) == Lookup(h, g.schema.fields[i].id)
  {
    hide ValidSchema, ValidAd, KeyedBy, ColdEntries, Lookup, AllOf, SlotLit;
    var id := g.schema.fields[i].id;
    SlotOrNot(g.schema, h, i);
    if SlotLit(g.schema, h, i).None? {
      FieldInGroup(g, i);
      assert HasAttr(h, id);
      LookupFound(h, id);
      if ks.dict { WholeNamed(ks.named, h, g); }
      ValidAdDistinct(h);
      TailRead(g.schema, ks.key, ks.named, h, id, ks.key(id));
    }
  }

  // ---------------------------------------------------------------- a record that fails

  // A value the field's slot takes.
  function Fitting(f: Field): (l: Literal)
  {
    match f.kind case KBool => LBool(true) case KInt => LInt(0) case KReal => LReal(0) case KString => LStr([])
  }

  // The whole group, every member but one in its slot.
  function FitAd(g: Group, fi: nat): (ad: seq<Entry>)
    ensures |ad| == |g.schema.fields|
    ensures forall i {:trigger ad[i]} {:trigger g.schema.fields[i]} :: 0 <= i < |ad| ==>
      ad[i] == Entry(g.schema.fields[i].id, Lit(if i == fi then LUndef else Fitting(g.schema.fields[i])))
  {
    seq(|g.schema.fields|, i requires 0 <= i < |g.schema.fields| =>
      Entry(g.schema.fields[i].id, Lit(if i == fi then LUndef else Fitting(g.schema.fields[i]))))
  }

  lemma FitFacts(g: Group, fi: nat)
    requires ValidGroup(g) && fi < |g.schema.fields|
    ensures var ad := FitAd(g, fi);
      && ValidAd(ad) && Whole(ad, g) && (forall x :: x in ad ==> x.id in g.ids)
      && (forall i {:trigger ad[i]} :: 0 <= i < |ad| ==> (InSlot(g.schema, ad[i]) <==> i != fi))
      && Lookup(ad, g.schema.fields[fi].id) == Some(Lit(LUndef))
  {
    hide Lookup, SlotOff, BoolsBefore;
    var ad := FitAd(g, fi);
    forall i | 0 <= i < |ad| ensures ValidEntry(ad[i]) && ad[i].id in g.ids && (InSlot(g.schema, ad[i]) <==> i != fi) {
      assert FieldOK(g.schema, i);
      FieldInGroup(g, i);
    }
    forall i, j | 0 <= i < j < |ad| ensures ad[i].id != ad[j].id {
      assert FieldOK(g.schema, i) && FieldOK(g.schema, j);
    }
    forall m | m in g.ids ensures HasAttr(ad, m) {
      assert IdOK(g.schema, m);
      LookupAt(ad, g.schema.byId[m]);
    }
    LookupAt(ad, fi);
  }

  lemma {:induction false} AllLiterals(ad: seq<Entry>)
    requires forall i {:trigger ad[i]} :: 0 <= i < |ad| ==> ad[i].node.Lit?
    ensures Half(ad, true) == ad && Half(ad, false) == []
    decreases |ad|
  {
    if ad != [] {
      AllLiterals(ad[..|ad| - 1]);
      assert ad == ad[..|ad| - 1] + [ad[|ad| - 1]];
    }
  }

  // A group column's entry is some whole group's field, as found.
  lemma {:induction false} FieldAsFrom(g: Group, key: nat -> nat, stored: nat -> nat, out: nat -> nat, ad: seq<Entry>,
                                       want: Option<set<nat>>, n: nat, e: Entry)
    returns (fi: nat)
    requires n <= |g.schema.fields| && e in FieldValsAs(g, key, stored, out, ad, want, n)
    ensures fi < n && e.id == out(g.schema.fields[fi].id) && Wanted(want, g.schema.fields[fi].id)
    ensures FieldAs(g.schema, key, ad, fi, stored(g.schema.fields[fi].id)) == Some(e.node)
    decreases n
  {
    hide FieldAs;
    if e in FieldValsAs(g, key, stored, out, ad, want, n - 1) {
      fi := FieldAsFrom(g, key, stored, out, ad, want, n - 1, e);
    } else {
      fi := n - 1;
    }
  }

  lemma {:induction false} GroupAsFrom(groups: seq<Group>, key: nat -> nat, stored: nat -> nat, out: nat -> nat,
                                       ad: seq<Entry>, want: Option<set<nat>>, n: nat, e: Entry)
    returns (gi: nat, fi: nat)
    requires n <= |groups| && e in GroupValsAs(groups, key, stored, out, ad, want, n)
    ensures gi < n && Whole(ad, groups[gi]) && fi < |groups[gi].schema.fields|
    ensures e.id == out(groups[gi].schema.fields[fi].id) && Wanted(want, groups[gi].schema.fields[fi].id)
    ensures FieldAs(groups[gi].schema, key, ad, fi, stored(groups[gi].schema.fields[fi].id)) == Some(e.node)
    decreases n
  {
    hide FieldAs, FieldValsAs, Whole;
    if e in GroupValsAs(groups, key, stored, out, ad, want, n - 1) {
      gi, fi := GroupAsFrom(groups, key, stored, out, ad, want, n - 1, e);
    } else {
      gi := n - 1;
      fi := FieldAsFrom(groups[gi], key, stored, out, ad, want, |groups[gi].schema.fields|, e);
    }
  }

  lemma OnlyWhole(groups: seq<Group>, gi: nat, gj: nat, ad: seq<Entry>)
    requires ValidGroups(groups) && gi < |groups| && gj < |groups| && Whole(ad, groups[gj])
    requires forall x :: x in ad ==> x.id in groups[gi].ids
    ensures gj == gi
  {
    hide Lookup, ValidSchema;
    var m := groups[gj].ids[0];
    assert m in groups[gj].ids && HasAttr(ad, m);
    LookupFound(ad, m);
  }

  // The record's tail in the group's block has the one attribute, under its own number.
  lemma FitMissed(ks: Keys, g: Group, fi: nat, x: nat)
    requires ValidGroup(g) && fi < |g.schema.fields| && ks.key(g.schema.fields[fi].id) != x
    ensures FieldAs(g.schema, ks.key, FitAd(g, fi), fi, x) == None
  {
    hide ColdEntries, Lookup, ValidAd;
    var ad := FitAd(g, fi);
    FitFacts(g, fi);
    var c := ColdEntries(g.schema, ks.key, ad);
    forall j | 0 <= j < |c| ensures c[j].id != x {
      ColdMember(g.schema, ks.key, ad, c[j]);
    }
    LookupMisses(c, x);
    FieldAt(g.schema, fi);
  }

  // Such a record is held: it is all group, and its one tail entry has a number.
  lemma FitHeld(ks: Keys, s: Schema, groups: seq<Group>, gi: nat, fi: nat)
    requires ValidGroups(groups) && gi < |groups| && fi < |groups[gi].schema.fields|
    requires ks.named(groups[gi].schema.fields[fi].id) && (ks.dict ==> AllOf(groups[gi], ks.named))
    ensures var ad := FitAd(groups[gi], fi);
      && Holdable(ks, s, groups, ad) && Half(ad, true) == ad && Half(RekeyAd(ks.out, ad), false) == []
      && BaseAd(groups, ad) == []
  {
    hide ValidGroup, ValidAd, Without, SkipSet, Half, RekeyAd, InSlot, Whole, FitAd, AllNamed;
    var g, ad := groups[gi], FitAd(groups[gi], fi);
    assert ValidGroup(g);
    FitFacts(g, fi);
    FitLiterals(g, fi);
    AllLiterals(ad);
    HalfRekeyed(ks.out, ad, false);
    RekeyNothing(ks.out);
    AllSkipped(groups, gi, ad);
    if ks.dict { MembersNamed(g, ks.named, ad); }
    forall gj | 0 <= gj < |groups| && Whole(ad, groups[gj]) ensures TailNamed(groups[gj].schema, ks.named, ad) {
      OnlyWhole(groups, gi, gj, ad);
      FitTail(ks, g, fi);
    }
  }

  lemma FitLiterals(g: Group, fi: nat)
    ensures forall i {:trigger FitAd(g, fi)[i]} :: 0 <= i < |FitAd(g, fi)| ==> FitAd(g, fi)[i].node.Lit?
  {
  }

  lemma MembersNamed(g: Group, named: nat -> bool, ad: seq<Entry>)
    requires AllOf(g, named) && forall x :: x in ad ==> x.id in g.ids
    ensures AllNamed(named, ad)
  {
    forall j | 0 <= j < |ad| ensures named(ad[j].id) { assert ad[j] in ad; }
  }

  lemma FitTail(ks: Keys, g: Group, fi: nat)
    requires ValidGroup(g) && fi < |g.schema.fields| && ks.named(g.schema.fields[fi].id)
    ensures TailNamed(g.schema, ks.named, FitAd(g, fi))
  {
    hide InSlot, ValidAd, ValidSchema;
    FitFacts(g, fi);
  }

  lemma RekeyNothing(out: nat -> nat)
    ensures RekeyAd(out, []) == []
  {
  }

  lemma AllSkipped(groups: seq<Group>, gi: nat, ad: seq<Entry>)
    requires gi < |groups| && Whole(ad, groups[gi]) && forall x :: x in ad ==> x.id in groups[gi].ids
    ensures Without(ad, SkipSet(groups, ad)) == []
  {
    hide Whole, Without;
    var b := Without(ad, SkipSet(groups, ad));
    if b != [] { WithoutMember(ad, SkipSet(groups, ad), b[0]); }
  }

  lemma FitNotFound(ks: Keys, groups: seq<Group>, gi: nat, fi: nat, want: Option<set<nat>>)
    requires TablesOK(ks) && ValidGroups(groups) && gi < |groups| && fi < |groups[gi].schema.fields|
    requires ks.named(groups[gi].schema.fields[fi].id) && (ks.dict ==> AllOf(groups[gi], ks.named))
    requires ks.inGroup(groups[gi].schema.fields[fi].id) != ks.key(groups[gi].schema.fields[fi].id)
    ensures Entry(ks.out(groups[gi].schema.fields[fi].id), Lit(LUndef)) !in
      GroupValsAs(groups, ks.key, ks.inGroup, ks.out, FitAd(groups[gi], fi), want, |groups|)
  {
    hide KeyedBy, ValidSchema, ValidAd, GroupValsAs, FieldAs, Whole, Lookup;
    var g, ad := groups[gi], FitAd(groups[gi], fi);
    var id := g.schema.fields[fi].id;
    var es, e := GroupValsAs(groups, ks.key, ks.inGroup, ks.out, ad, want, |groups|), Entry(ks.out(id), Lit(LUndef));
    assert ValidGroup(g);
    FitFacts(g, fi);
    if e in es {
      var gj, fj := GroupAsFrom(groups, ks.key, ks.inGroup, ks.out, ad, want, |groups|, e);
      OnlyWhole(groups, gi, gj, ad);
      FieldInGroup(g, fj);
      FieldInGroup(g, fi);
      assert HasKey(ks, id) && HasKey(ks, g.schema.fields[fj].id);
      FieldAt(g.schema, fi);
      FieldAt(g.schema, fj);
      FitMissed(ks, g, fi, ks.inGroup(id));
    }
  }

  // Looked for under another number, the attribute does not come back.
  lemma FitLost(ks: Keys, s: Schema, groups: seq<Group>, gi: nat, fi: nat)
    requires TablesOK(ks) && ValidGroups(groups) && gi < |groups| && fi < |groups[gi].schema.fields|
    requires ks.named(groups[gi].schema.fields[fi].id) && (ks.dict ==> AllOf(groups[gi], ks.named))
    requires ks.inGroup(groups[gi].schema.fields[fi].id) != ks.key(groups[gi].schema.fields[fi].id)
    ensures var ad := FitAd(groups[gi], fi);
      var es := GroupValsAs(groups, ks.key, ks.inGroup, ks.out, ad, None, |groups|);
      && Holdable(ks, s, groups, ad) && Spliced(ks, groups, ad, es)
      && var e := Entry(ks.out(groups[gi].schema.fields[fi].id), Lit(LUndef)); e in RekeyAd(ks.out, ad) && e !in es
  {
    hide KeyedBy, ValidGroup, GroupValsAs, Half, BaseAd, RekeyAd, Holdable, TablesOK;
    var g, ad := groups[gi], FitAd(groups[gi], fi);
    var es, e := GroupValsAs(groups, ks.key, ks.inGroup, ks.out, ad, None, |groups|),
      Entry(ks.out(g.schema.fields[fi].id), Lit(LUndef));
    FitHeld(ks, s, groups, gi, fi);
    FitNotFound(ks, groups, gi, fi, None);
    assert SplicedWith(ks, groups, ad, [], es) by { NothingInBase(ks.out, groups, ad); assert [] + [] + es == es; }
    assert e in RekeyAd(ks.out, ad) by {
      RekeyMember(ks.out, ad, e);
      assert ad[fi] in ad && Carries(ks.out, ad, ad[fi], e);
    }
  }

  lemma NothingInBase(out: nat -> nat, groups: seq<Group>, ad: seq<Entry>)
    requires BaseAd(groups, ad) == []
    ensures Supplies(out, groups, ad, None, [], InBase)
  {
    hide BaseAd, PartOf;
    forall x: Entry | x in ad ensures PartOf(groups, ad, x) != InBase { BaseMember(groups, ad, x); }
  }

  // ---------------------------------------------------------------- exactly when nothing is lost

  // Strip and splice gives back every record the segment can hold if and only if every group attribute that can be in
  // the tail of its group's block is looked for there under its own number.
  lemma SpliceExactly(ks: Keys, s: Schema, groups: seq<Group>)
    requires TablesOK(ks) && ValidGroups(groups)
    ensures GroupsKeyed(ks, groups, None) <==>
      forall ad, es {:trigger Holdable(ks, s, groups, ad), Spliced(ks, groups, ad, es)} ::
        Holdable(ks, s, groups, ad) && Spliced(ks, groups, ad, es) ==> Rejoined(ks.out, ad, es)
  {
    hide Spliced, KeyedBy, ValidSchema, KeyedIn, GroupsFound;
    if GroupsKeyed(ks, groups, None) {
      forall ad, es | Holdable(ks, s, groups, ad) && Spliced(ks, groups, ad, es) ensures Rejoined(ks.out, ad, es) {
        HeldOK(ks, s, groups, ad);
        KeyedFound(ks, s, groups, ad, None);
        SplicedAd(ks, groups, ad, es);
      }
    } else {
      var gi, id :| 0 <= gi < |groups| && id in groups[gi].ids && !KeyedIn(ks, groups[gi], id);
      var fi := MemberField(ks, groups, gi, id);
      FitLost(ks, s, groups, gi, fi);
    }
  }

  lemma MemberField(ks: Keys, groups: seq<Group>, gi: nat, id: nat) returns (fi: nat)
    requires ValidGroups(groups) && gi < |groups| && id in groups[gi].ids && !KeyedIn(ks, groups[gi], id)
    ensures fi < |groups[gi].schema.fields| && groups[gi].schema.fields[fi].id == id
    ensures ks.named(id) && (ks.dict ==> AllOf(groups[gi], ks.named)) && ks.inGroup(id) != ks.key(id)
  {
    hide ValidSchema, AllOf;
    var g := groups[gi];
    assert ValidGroup(g);
    IdAt(g.schema, id);
    fi := g.schema.byId[id];
  }
}
