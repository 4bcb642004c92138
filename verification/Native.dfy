/** Columnar-native segments: the columns are authoritative, the record keeps only what they cannot store,
    and a read splices the two halves back together. */
module Native {
  import opened Bytes
  import opened Wire
  import opened Row
  import opened ColBlock
  import opened Values
  import opened Fields
  import opened Groups

  // ---------------------------------------------------------------- the two halves of a record

  // Only a literal moves to a column: an expression names attributes in the record's own id space.
  predicate StorableInColumn(n: Node) { n.Lit? }

  function Half(ad: seq<Entry>, columns: bool): (r: seq<Entry>)
  {
    if ad == [] then []
    else if StorableInColumn(ad[|ad| - 1].node) == columns then Half(ad[..|ad| - 1], columns) + [ad[|ad| - 1]]
    else Half(ad[..|ad| - 1], columns)
  }

  // The half the columns take.
  method KeepAttrs(ad: seq<Entry>) returns (r: seq<Entry>)
    ensures r == Half(ad, true) && forall e :: e in r <==> e in ad && e.node.Lit?
  {
    r := [];
    for i := 0 to |ad|
      invariant r == Half(ad[..i], true)
    {
      assert ad[..i + 1][..i] == ad[..i];
      if StorableInColumn(ad[i].node) { r := r + [ad[i]]; }
    }
    assert ad[..|ad|] == ad;
    forall e ensures e in r <==> e in ad && e.node.Lit? { HalfMember(ad, true, e); }
  }

  // The half the record keeps, in its own id space.
  method StripSchemaAttrs(raw: seq<Entry>) returns (r: seq<Entry>)
    ensures r == Half(raw, false) && forall e :: e in r <==> e in raw && !e.node.Lit?
  {
    r := [];
    for i := 0 to |raw|
      invariant r == Half(raw[..i], false)
    {
      assert raw[..i + 1][..i] == raw[..i];
      if !StorableInColumn(raw[i].node) { r := r + [raw[i]]; }
    }
    assert raw[..|raw|] == raw;
    forall e ensures e in r <==> e in raw && !e.node.Lit? { HalfMember(raw, false, e); }
  }

  lemma {:induction false} HalfMember(ad: seq<Entry>, columns: bool, e: Entry)
    ensures e in Half(ad, columns) <==> e in ad && StorableInColumn(e.node) == columns
    decreases |ad|
  {
    if ad != [] {
      var n := |ad| - 1;
      HalfMember(ad[..n], columns, e);
      assert ad == ad[..n] + [ad[n]];
    }
  }

  lemma {:induction false} LookupHalf(ad: seq<Entry>, id: nat)
    requires DistinctIds(ad)
    ensures Lookup(Half(ad, true), id) ==
      match Lookup(ad, id) case None => None case Some(n) => if StorableInColumn(n) then Some(n) else None
    decreases |ad|
  {
    if ad != [] {
      hide Lookup;
      var n := |ad| - 1;
      assert ad == ad[..n] + [ad[n]];
      LookupHalf(ad[..n], id);
      LookupSnoc(ad[..n], ad[n], id);
      assert id == ad[n].id ==> Lookup(ad[..n], id).None? by { FreshLast(ad); }
      if StorableInColumn(ad[n].node) { LookupSnoc(Half(ad[..n], true), ad[n], id); }
    }
  }

  lemma {:induction false} HalfValid(ad: seq<Entry>, columns: bool)
    requires ValidAd(ad)
    ensures ValidAd(Half(ad, columns))
    decreases |ad|
  {
    if ad != [] {
      hide StorableInColumn;
      var n := |ad| - 1;
      HalfValid(ad[..n], columns);
      forall e | e in Half(ad[..n], columns) ensures e.id != ad[n].id { HalfMember(ad[..n], columns, e); }
    }
  }

  lemma {:induction false} HalfDistinct(ad: seq<Entry>, columns: bool)
    requires DistinctIds(ad)
    ensures DistinctIds(Half(ad, columns))
    decreases |ad|
  {
    if ad != [] {
      hide StorableInColumn;
      var n := |ad| - 1;
      HalfDistinct(ad[..n], columns);
      forall e | e in Half(ad[..n], columns) ensures e.id != ad[n].id { HalfMember(ad[..n], columns, e); }
    }
  }

  // Re-keying and halving commute: the record's own half is stripped from its own encoding.
  lemma {:induction false} HalfRekeyed(out: nat -> nat, ad: seq<Entry>, columns: bool)
    ensures Half(RekeyAd(out, ad), columns) == RekeyAd(out, Half(ad, columns))
    decreases |ad|
  {
    if ad != [] {
      var n := |ad| - 1;
      HalfRekeyed(out, ad[..n], columns);
      assert RekeyAd(out, ad)[..n] == RekeyAd(out, ad[..n]);
      RekeySnoc(out, Half(ad[..n], columns), ad[n]);
    }
  }

  lemma RekeySnoc(out: nat -> nat, es: seq<Entry>, e: Entry)
    ensures RekeyAd(out, es + [e]) == RekeyAd(out, es) + [Entry(out(e.id), e.node)]
  {
  }

  // ---------------------------------------------------------------- entries that come from an ad

  // e is the ad's attribute x under its output key.
  predicate Carries(out: nat -> nat, ad: seq<Entry>, x: Entry, e: Entry) { x in ad && e == Entry(out(x.id), x.node) }

  lemma RekeyMember(out: nat -> nat, ad: seq<Entry>, e: Entry)
    ensures e in RekeyAd(out, ad) <==> exists x :: Carries(out, ad, x, e)
  {
    if e in RekeyAd(out, ad) {
      var j: nat :| j < |ad| && RekeyAd(out, ad)[j] == e;
      assert Carries(out, ad, ad[j], e);
    }
    if x :| Carries(out, ad, x, e) {
      var j: nat :| j < |ad| && ad[j] == x;
      assert RekeyAd(out, ad)[j] == e;
    }
  }

  // Two carried entries with one output key are one attribute.
  lemma CarriedOnce(out: nat -> nat, ad: seq<Entry>, x: Entry, y: Entry, e: Entry, e': Entry)
    requires DistinctIds(ad) && KeyInjective(out, ad) && Carries(out, ad, x, e) && Carries(out, ad, y, e')
    requires e.id == e'.id
    ensures x == y
  {
    var i :| 0 <= i < |ad| && ad[i] == x;
    var j :| 0 <= j < |ad| && ad[j] == y;
  }

  lemma DistinctConcat(a: seq<Entry>, b: seq<Entry>)
    requires DistinctIds(a) && DistinctIds(b) && forall e, e' :: e in a && e' in b ==> e.id != e'.id
    ensures DistinctIds(a + b)
  {
    var c := a + b;
    forall i, j | 0 <= i < j < |c| ensures c[i].id != c[j].id {
      if i < |a| <= j { assert c[i] in a && c[j] in b; }
    }
  }

  lemma RekeyDistinct(out: nat -> nat, ad: seq<Entry>)
    requires DistinctIds(ad) && KeyInjective(out, ad)
    ensures DistinctIds(RekeyAd(out, ad))
  {
  }

  // ---------------------------------------------------------------- the base columns

  // What a row yields on the way out: a slot's id is translated, a tail id is mapped back from the one stored.
  function Emit(out: nat -> nat, cold: nat -> nat, ks: seq<Keyed>): (es: seq<Entry>)
    ensures |es| == |ks|
  {
    if ks == [] then []
    else
      Emit(out, cold, ks[..|ks| - 1]) +
        [Entry(if ks[|ks| - 1].fromCold then cold(ks[|ks| - 1].e.id) else out(ks[|ks| - 1].e.id), ks[|ks| - 1].e.node)]
  }

  lemma {:induction false} EmitSlots(out: nat -> nat, cold: nat -> nat, ks: seq<Keyed>)
    requires forall i :: 0 <= i < |ks| ==> !ks[i].fromCold
    ensures Emit(out, cold, ks) == Rekeyed(out, ks)
    decreases |ks|
  {
    if ks != [] {
      var n := |ks| - 1;
      EmitSlots(out, cold, ks[..n]);
      RekeyedConcat(out, ks[..n], [ks[n]]);
      assert ks == ks[..n] + [ks[n]];
      assert Rekeyed(out, [ks[n]]) == [Entry(out(ks[n].e.id), ks[n].e.node)];
    }
  }

  lemma {:induction false} EmitConcat(out: nat -> nat, cold: nat -> nat, a: seq<Keyed>, b: seq<Keyed>)
    ensures Emit(out, cold, a + b) == Emit(out, cold, a) + Emit(out, cold, b)
    decreases |b|
  {
    if b == [] {
      assert a + b == a;
    } else {
      var n := |b| - 1;
      EmitConcat(out, cold, a, b[..n]);
      assert (a + b)[..|a| + n] == a + b[..n];
    }
  }

  // The keys stored in this ad's tail map back to its output keys.
  ghost predicate MapsBack(s: Schema, key: nat -> nat, cold: nat -> nat, out: nat -> nat, ad: seq<Entry>)
  {
    forall j {:trigger ad[j]} :: 0 <= j < |ad| && !InSlot(s, ad[j]) ==> cold(key(ad[j].id)) == out(ad[j].id)
  }

  lemma {:induction false} EmitCold(s: Schema, key: nat -> nat, cold: nat -> nat, out: nat -> nat, ad: seq<Entry>)
    requires MapsBack(s, key, cold, out, ad)
    ensures Emit(out, cold, TagCold(ColdEntries(s, key, ad))) == ColdEntries(s, out, ad)
    decreases |ad|
  {
    hide InSlot;
    if ad != [] {
      var n := |ad| - 1;
      EmitCold(s, key, cold, out, ad[..n]);
      if !InSlot(s, ad[n]) {
        var c, e := ColdEntries(s, key, ad[..n]), Entry(key(ad[n].id), ad[n].node);
        TagSnoc(c, e);
        EmitConcat(out, cold, TagCold(c), [Keyed(e, true)]);
        assert Emit(out, cold, [Keyed(e, true)]) == [Entry(out(ad[n].id), ad[n].node)];
      } else {
        assert ColdEntries(s, key, ad) == ColdEntries(s, key, ad[..n]);
        assert ColdEntries(s, out, ad) == ColdEntries(s, out, ad[..n]);
      }
    }
  }

  lemma {:induction false} TagSnoc(es: seq<Entry>, e: Entry)
    ensures TagCold(es + [e]) == TagCold(es) + [Keyed(e, true)]
    decreases |es|
  {
    if es != [] {
      TagSnoc(es[1..], e);
      assert (es + [e])[1..] == es[1..] + [e];
    }
  }

  lemma {:induction false} SlotsNotCold(s: Schema, ad: seq<Entry>, i: nat)
    requires i <= |s.fields|
    ensures forall j :: 0 <= j < |SlotEntries(s, ad, i)| ==> !SlotEntries(s, ad, i)[j].fromCold
    decreases |s.fields| - i
  {
    hide SlotLit;
    if i < |s.fields| { SlotsNotCold(s, ad, i + 1); }
  }

  // A base row, read back and re-keyed, is the ad it was built from.
  lemma BaseHalf(s: Schema, key: nat -> nat, cold: nat -> nat, out: nat -> nat, ad: seq<Entry>, rec: seq<byte>)
    requires ValidSchema(s) && ValidAd(ad) && RowOf(s, key, ad, rec) && ValidEntries(ColdEntries(s, key, ad))
    requires KeyInjective(out, ad) && MapsBack(s, key, cold, out, ad)
    ensures DecodeRow(s, rec).Some?
    ensures var es := Emit(out, cold, DecodeRow(s, rec).value);
      DistinctIds(es) && forall e :: e in es <==> e in RekeyAd(out, ad)
  {
    hide RowOf, SlotEntries, ColdEntries, TagCold, Emit, DecodeRow, ValidSchema, ValidAd, KeyInjective;
    RowRoundTrip(s, key, ad, rec);
    EmitConcat(out, cold, SlotEntries(s, ad, 0), TagCold(ColdEntries(s, key, ad)));
    SlotsNotCold(s, ad, 0);
    EmitSlots(out, cold, SlotEntries(s, ad, 0));
    EmitCold(s, key, cold, out, ad);
    HalvesPartition(s, out, ad);
  }

  // ---------------------------------------------------------------- the group columns

  // A read may name the attributes it wants; without a list it wants them all.
  predicate Wanted(want: Option<set<nat>>, id: nat) { want.Some? ==> id in want.value }

  // The wanted values of a group's first n fields.
  function FieldVals(g: Group, out: nat -> nat, ad: seq<Entry>, want: Option<set<nat>>, n: nat): (es: seq<Entry>)
    requires n <= |g.schema.fields|
  {
    if n == 0 then []
    else
      var id := g.schema.fields[n - 1].id;
      if Wanted(want, id) && Lookup(ad, id).Some?
      then FieldVals(g, out, ad, want, n - 1) + [Entry(out(id), Lookup(ad, id).value)]
      else FieldVals(g, out, ad, want, n - 1)
  }

  // The wanted values of the groups, among the first n, that the ad holds wholly.
  function GroupVals(groups: seq<Group>, out: nat -> nat, ad: seq<Entry>, want: Option<set<nat>>, n: nat)
    : (es: seq<Entry>)
    requires n <= |groups|
  {
    if n == 0 then []
    else if Whole(ad, groups[n - 1]) then
      GroupVals(groups, out, ad, want, n - 1) + FieldVals(groups[n - 1], out, ad, want, |groups[n - 1].schema.fields|)
    else GroupVals(groups, out, ad, want, n - 1)
  }

  // The same as the readers find them: in each field's slot, or in the tail under the number they look for.
  function FieldValsAs(g: Group, key: nat -> nat, stored: nat -> nat, out: nat -> nat, ad: seq<Entry>,
                       want: Option<set<nat>>, n: nat): (es: seq<Entry>)
    requires n <= |g.schema.fields|
  {
    if n == 0 then []
    else
      var id := g.schema.fields[n - 1].id;
      var v := FieldAs(g.schema, key, ad, n - 1, stored(id));
      if Wanted(want, id) && v.Some?
      then FieldValsAs(g, key, stored, out, ad, want, n - 1) + [Entry(out(id), v.value)]
      else FieldValsAs(g, key, stored, out, ad, want, n - 1)
  }

  function GroupValsAs(groups: seq<Group>, key: nat -> nat, stored: nat -> nat, out: nat -> nat, ad: seq<Entry>,
                       want: Option<set<nat>>, n: nat): (es: seq<Entry>)
    requires n <= |groups|
  {
    if n == 0 then []
    else if Whole(ad, groups[n - 1]) then
      GroupValsAs(groups, key, stored, out, ad, want, n - 1) +
        FieldValsAs(groups[n - 1], key, stored, out, ad, want, |groups[n - 1].schema.fields|)
    else GroupValsAs(groups, key, stored, out, ad, want, n - 1)
  }

  // Every wanted field is found as it is.
  ghost predicate FieldsFound(g: Group, key: nat -> nat, stored: nat -> nat, ad: seq<Entry>, want: Option<set<nat>>)
  {
    forall i: nat {:trigger g.schema.fields[i]} :: i < |g.schema.fields| && Wanted(want, g.schema.fields[i].id) ==>
      FieldAs(g.schema, key, ad, i, stored(g.schema.fields[i].id)) == Lookup(ad, g.schema.fields[i].id)
  }

  ghost predicate GroupsFound(groups: seq<Group>, key: nat -> nat, stored: nat -> nat, ad: seq<Entry>,
                              want: Option<set<nat>>)
  {
    forall gi {:trigger groups[gi]} :: 0 <= gi < |groups| && Whole(ad, groups[gi]) ==>
      FieldsFound(groups[gi], key, stored, ad, want)
  }

  lemma {:induction false} FieldValsSame(g: Group, key: nat -> nat, stored: nat -> nat, out: nat -> nat, ad: seq<Entry>,
                                         want: Option<set<nat>>, n: nat)
    requires n <= |g.schema.fields| && FieldsFound(g, key, stored, ad, want)
    ensures FieldValsAs(g, key, stored, out, ad, want, n) == FieldVals(g, out, ad, want, n)
    decreases n
  {
    hide FieldAs, Lookup;
    if n > 0 {
      FieldValsSame(g, key, stored, out, ad, want, n - 1);
      assert g.schema.fields[n - 1] == g.schema.fields[n - 1];
    }
  }

  lemma {:induction false} GroupValsSame(groups: seq<Group>, key: nat -> nat, stored: nat -> nat, out: nat -> nat,
                                         ad: seq<Entry>, want: Option<set<nat>>, n: nat)
    requires n <= |groups| && GroupsFound(groups, key, stored, ad, want)
    ensures GroupValsAs(groups, key, stored, out, ad, want, n) == GroupVals(groups, out, ad, want, n)
    decreases n
  {
    hide FieldsFound, FieldVals, FieldValsAs, Whole;
    if n > 0 {
      GroupValsSame(groups, key, stored, out, ad, want, n - 1);
      if Whole(ad, groups[n - 1]) {
        FieldValsSame(groups[n - 1], key, stored, out, ad, want, |groups[n - 1].schema.fields|);
      }
    }
  }

  // An attribute among a schema's first n fields.
  ghost predicate InFields(g: Group, n: nat, id: nat)
  {
    exists i :: 0 <= i < n && i < |g.schema.fields| && g.schema.fields[i].id == id
  }

  lemma {:induction false} FieldValsMember(g: Group, out: nat -> nat, ad: seq<Entry>, want: Option<set<nat>>, n: nat,
                                           e: Entry)
    requires DistinctIds(ad) && n <= |g.schema.fields|
    ensures e in FieldVals(g, out, ad, want, n) <==>
      exists x :: Carries(out, ad, x, e) && InFields(g, n, x.id) && Wanted(want, x.id)
    decreases n
  {
    hide Lookup;
    if n > 0 {
      FieldValsMember(g, out, ad, want, n - 1, e);
      var id := g.schema.fields[n - 1].id;
      forall x ensures InFields(g, n, x) <==> InFields(g, n - 1, x) || x == id {}
      if Wanted(want, id) && Lookup(ad, id).Some? {
        var v := Lookup(ad, id).value;
        var j: nat :| j < |ad| && ad[j] == Entry(id, v);
        assert Carries(out, ad, ad[j], Entry(out(id), v));
      }
      forall x | Carries(out, ad, x, e) && x.id == id ensures Lookup(ad, id) == Some(e.node) {
        var j :| 0 <= j < |ad| && ad[j] == x;
        LookupAt(ad, j);
      }
    }
  }

  lemma {:induction false} FieldValsDistinct(g: Group, out: nat -> nat, ad: seq<Entry>, want: Option<set<nat>>, n: nat)
    requires ValidSchema(g.schema) && DistinctIds(ad) && KeyInjective(out, ad) && n <= |g.schema.fields|
    ensures DistinctIds(FieldVals(g, out, ad, want, n))
    decreases n
  {
    if n > 0 {
      hide Lookup, ValidSchema, KeyInjective, DistinctIds;
      FieldValsDistinct(g, out, ad, want, n - 1);
      var id := g.schema.fields[n - 1].id;
      if Wanted(want, id) && Lookup(ad, id).Some? {
        var v, most := Lookup(ad, id).value, FieldVals(g, out, ad, want, n - 1);
        var last := Entry(out(id), v);
        var j: nat :| j < |ad| && ad[j] == Entry(id, v);
        var y := ad[j];
        assert Carries(out, ad, y, last);
        forall e, e' | e in most && e' in [last] ensures e.id != e'.id {
          FieldValsMember(g, out, ad, want, n - 1, e);
          var x :| Carries(out, ad, x, e) && InFields(g, n - 1, x.id);
          NewField(g, n - 1, x.id);
          if e.id == last.id { CarriedOnce(out, ad, x, y, e, last); }
        }
        OneDistinct(last);
        DistinctConcat(most, [last]);
      }
    }
  }

  lemma OneDistinct(e: Entry)
    ensures DistinctIds([e])
  {
  }

  lemma NewField(g: Group, n: nat, id: nat)
    requires ValidSchema(g.schema) && n < |g.schema.fields| && InFields(g, n, id)
    ensures id != g.schema.fields[n].id
  {
    hide SlotOff, BoolsBefore;
    var i :| 0 <= i < n && g.schema.fields[i].id == id;
    assert FieldOK(g.schema, i) && FieldOK(g.schema, n);
  }

  // An attribute of some whole group among the first n.
  ghost predicate InGroups(groups: seq<Group>, ad: seq<Entry>, n: nat, id: nat)
  {
    exists i :: 0 <= i < n && i < |groups| && Whole(ad, groups[i]) && id in groups[i].ids
  }

  ghost predicate ValidGroups(groups: seq<Group>)
  {
    && (forall i :: 0 <= i < |groups| ==> ValidGroup(groups[i]))
    && (forall i, j, id ::
       0 <= i < |groups| && 0 <= j < |groups| && id in groups[i].ids && id in groups[j].ids ==> i == j)
  }

  lemma AllFields(g: Group, id: nat)
    requires ValidGroup(g)
    ensures InFields(g, |g.schema.fields|, id) <==> id in g.ids
  {
    hide SlotOff, BoolsBefore;
    if i :| 0 <= i < |g.schema.fields| && g.schema.fields[i].id == id { assert FieldOK(g.schema, i); }
    if id in g.ids { assert IdOK(g.schema, id); assert g.schema.fields[g.schema.byId[id]].id == id; }
  }

  lemma WholeGroupVals(g: Group, out: nat -> nat, ad: seq<Entry>, want: Option<set<nat>>, e: Entry)
    requires ValidGroup(g) && DistinctIds(ad)
    ensures e in FieldVals(g, out, ad, want, |g.schema.fields|) <==>
      exists x :: Carries(out, ad, x, e) && x.id in g.ids && Wanted(want, x.id)
  {
    hide FieldVals, ValidGroup, InFields, DistinctIds;
    FieldValsMember(g, out, ad, want, |g.schema.fields|, e);
    forall x | Carries(out, ad, x, e)
      ensures InFields(g, |g.schema.fields|, x.id) <==> x.id in g.ids
    {
      AllFields(g, x.id);
    }
  }

  lemma InGroupsStep(groups: seq<Group>, ad: seq<Entry>, n: nat, id: nat)
    requires n < |groups|
    ensures InGroups(groups, ad, n + 1, id) <==>
      InGroups(groups, ad, n, id) || (Whole(ad, groups[n]) && id in groups[n].ids)
  {
    hide Whole;
  }

  lemma {:induction false} GroupValsMember(groups: seq<Group>, out: nat -> nat, ad: seq<Entry>, want: Option<set<nat>>,
                                           n: nat, e: Entry)
    requires ValidGroups(groups) && DistinctIds(ad) && n <= |groups|
    ensures e in GroupVals(groups, out, ad, want, n) <==>
      exists x :: Carries(out, ad, x, e) && InGroups(groups, ad, n, x.id) && Wanted(want, x.id)
    decreases n
  {
    if n == 0 {
    } else {
      hide FieldVals, ValidGroup, Whole, InFields, DistinctIds, InGroups, ValidGroups, Carries, Wanted;
      var g := groups[n - 1];
      GroupValid(groups, n - 1);
      GroupValsMember(groups, out, ad, want, n - 1, e);
      WholeGroupVals(g, out, ad, want, e);
      hide GroupVals;
      GroupValsStep(groups, out, ad, want, n);
      if e in GroupVals(groups, out, ad, want, n - 1) {
        var x :| Carries(out, ad, x, e) && InGroups(groups, ad, n - 1, x.id) && Wanted(want, x.id);
        InGroupsStep(groups, ad, n - 1, x.id);
      } else if e in GroupVals(groups, out, ad, want, n) {
        var x :| Carries(out, ad, x, e) && x.id in g.ids && Wanted(want, x.id);
        InGroupsStep(groups, ad, n - 1, x.id);
      } else if x :| Carries(out, ad, x, e) && InGroups(groups, ad, n, x.id) && Wanted(want, x.id) {
        InGroupsStep(groups, ad, n - 1, x.id);
      }
    }
  }

  lemma GroupValsStep(groups: seq<Group>, out: nat -> nat, ad: seq<Entry>, want: Option<set<nat>>, n: nat)
    requires 0 < n <= |groups|
    ensures GroupVals(groups, out, ad, want, n) == GroupVals(groups, out, ad, want, n - 1) +
      if Whole(ad, groups[n - 1]) then FieldVals(groups[n - 1], out, ad, want, |groups[n - 1].schema.fields|) else []
  {
    hide FieldVals, Whole;
  }

  lemma GroupValid(groups: seq<Group>, i: nat)
    requires ValidGroups(groups) && i < |groups|
    ensures ValidGroup(groups[i])
  {
  }

  lemma {:induction false} GroupValsDistinct(groups: seq<Group>, out: nat -> nat, ad: seq<Entry>,
                                             want: Option<set<nat>>, n: nat)
    requires ValidGroups(groups) && DistinctIds(ad) && KeyInjective(out, ad) && n <= |groups|
    ensures DistinctIds(GroupVals(groups, out, ad, want, n))
    decreases n
  {
    if n > 0 {
      hide FieldVals, ValidGroup, Whole, InFields, DistinctIds, KeyInjective;
      var g := groups[n - 1];
      assert ValidGroup(g);
      GroupValsDistinct(groups, out, ad, want, n - 1);
      if Whole(ad, g) {
        var most, last := GroupVals(groups, out, ad, want, n - 1), FieldVals(g, out, ad, want, |g.schema.fields|);
        GroupSchemaValid(g);
        FieldValsDistinct(g, out, ad, want, |g.schema.fields|);
        forall e, e' | e in most && e' in last ensures e.id != e'.id {
          GroupValsMember(groups, out, ad, want, n - 1, e);
          FieldValsMember(g, out, ad, want, |g.schema.fields|, e');
          var x :| Carries(out, ad, x, e) && InGroups(groups, ad, n - 1, x.id);
          var y :| Carries(out, ad, y, e') && InFields(g, |g.schema.fields|, y.id);
          AllFields(g, y.id);
          if e.id == e'.id { CarriedOnce(out, ad, x, y, e, e'); }
        }
        DistinctConcat(most, last);
      }
    }
  }

  // ---------------------------------------------------------------- the three parts are the ad

  // Which attributes of the ad each part supplies.
  datatype Part = InRecord | InBase | InGroup

  ghost function PartOf(groups: seq<Group>, ad: seq<Entry>, x: Entry): Part
  {
    if !StorableInColumn(x.node) then InRecord
    else if x.id in SkipSet(groups, Half(ad, true)) then InGroup else InBase
  }

  ghost function BaseAd(groups: seq<Group>, ad: seq<Entry>): seq<Entry>
  {
    Without(Half(ad, true), SkipSet(groups, Half(ad, true)))
  }

  // A part holds exactly its own attributes, each once.
  ghost predicate Supplies(out: nat -> nat, groups: seq<Group>, ad: seq<Entry>, want: Option<set<nat>>, es: seq<Entry>,
                           p: Part)
  {
    && DistinctIds(es)
    && forall e :: e in es <==> exists x :: Carries(out, ad, x, e) && PartOf(groups, ad, x) == p && Wanted(want, x.id)
  }

  lemma SubInjective(out: nat -> nat, sub: seq<Entry>, ad: seq<Entry>)
    requires KeyInjective(out, ad) && forall x :: x in sub ==> x in ad
    ensures KeyInjective(out, sub)
  {
    forall i, j | 0 <= i < |sub| && 0 <= j < |sub| && out(sub[i].id) == out(sub[j].id) ensures sub[i].id == sub[j].id {
      assert sub[i] in ad && sub[j] in ad;
    }
  }

  lemma RecordSupplies(out: nat -> nat, groups: seq<Group>, ad: seq<Entry>)
    requires ValidAd(ad) && KeyInjective(out, ad)
    ensures Supplies(out, groups, ad, None, RekeyAd(out, Half(ad, false)), InRecord)
  {
    hide Half, SkipSet, RekeyAd;
    var es := RekeyAd(out, Half(ad, false));
    HalfValid(ad, false);
    forall x ensures x in Half(ad, false) <==> x in ad && !StorableInColumn(x.node) { HalfMember(ad, false, x); }
    SubInjective(out, Half(ad, false), ad);
    RekeyDistinct(out, Half(ad, false));
    forall e
      ensures e in es <==> exists x :: Carries(out, ad, x, e) && PartOf(groups, ad, x) == InRecord && Wanted(None, x.id)
    {
      RekeyMember(out, Half(ad, false), e);
      if x :| Carries(out, Half(ad, false), x, e) { assert Carries(out, ad, x, e); }
      if x :| Carries(out, ad, x, e) && PartOf(groups, ad, x) == InRecord {
        assert Carries(out, Half(ad, false), x, e);
      }
    }
  }

  lemma BaseMember(groups: seq<Group>, ad: seq<Entry>, x: Entry)
    ensures x in BaseAd(groups, ad) <==> x in ad && PartOf(groups, ad, x) == InBase
  {
    hide Half, SkipSet, Without;
    var c := Half(ad, true);
    WithoutMember(c, SkipSet(groups, c), x);
    HalfMember(ad, true, x);
  }

  lemma BaseSupplies(out: nat -> nat, groups: seq<Group>, ad: seq<Entry>, es: seq<Entry>)
    requires DistinctIds(es) && forall e :: e in es <==> e in RekeyAd(out, BaseAd(groups, ad))
    ensures Supplies(out, groups, ad, None, es, InBase)
  {
    hide BaseAd, RekeyAd, PartOf;
    var base := BaseAd(groups, ad);
    forall x ensures x in base <==> x in ad && PartOf(groups, ad, x) == InBase { BaseMember(groups, ad, x); }
    forall e
      ensures e in es <==> exists x :: Carries(out, ad, x, e) && PartOf(groups, ad, x) == InBase && Wanted(None, x.id)
    {
      RekeyMember(out, base, e);
      if x :| Carries(out, base, x, e) { assert Carries(out, ad, x, e); }
      if x :| Carries(out, ad, x, e) && PartOf(groups, ad, x) == InBase { assert Carries(out, base, x, e); }
    }
  }

  lemma GroupsSupply(out: nat -> nat, groups: seq<Group>, ad: seq<Entry>, want: Option<set<nat>>)
    requires ValidGroups(groups) && ValidAd(ad) && KeyInjective(out, ad)
    ensures Supplies(out, groups, ad, want, GroupVals(groups, out, Half(ad, true), want, |groups|), InGroup)
  {
    hide Half, GroupVals, ValidGroups, KeyInjective, Whole, Wanted;
    var c := Half(ad, true);
    var es := GroupVals(groups, out, c, want, |groups|);
    HalfValid(ad, true);
    forall x ensures x in c <==> x in ad && StorableInColumn(x.node) { HalfMember(ad, true, x); }
    SubInjective(out, c, ad);
    GroupValsDistinct(groups, out, c, want, |groups|);
    forall id ensures InGroups(groups, c, |groups|, id) <==> id in SkipSet(groups, c) {}
    forall e
      ensures e in es <==> exists x :: Carries(out, ad, x, e) && PartOf(groups, ad, x) == InGroup && Wanted(want, x.id)
    {
      GroupValsMember(groups, out, c, want, |groups|, e);
      if x :| Carries(out, c, x, e) && InGroups(groups, c, |groups|, x.id) && Wanted(want, x.id) {
        assert Carries(out, ad, x, e);
      }
      if x :| Carries(out, ad, x, e) && PartOf(groups, ad, x) == InGroup && Wanted(want, x.id) {
        assert Carries(out, c, x, e);
      }
    }
  }

  lemma ApartParts(out: nat -> nat, groups: seq<Group>, ad: seq<Entry>, a: seq<Entry>, wa: Option<set<nat>>, p: Part,
                   b: seq<Entry>, wb: Option<set<nat>>, q: Part)
    requires DistinctIds(ad) && KeyInjective(out, ad) && p != q && Supplies(out, groups, ad, wa, a, p)
    requires Supplies(out, groups, ad, wb, b, q)
    ensures forall e, e' :: e in a && e' in b ==> e.id != e'.id
  {
    hide PartOf, KeyInjective, DistinctIds, Wanted;
    forall e, e' | e in a && e' in b ensures e.id != e'.id {
      var x :| Carries(out, ad, x, e) && PartOf(groups, ad, x) == p;
      var y :| Carries(out, ad, y, e') && PartOf(groups, ad, y) == q;
      if e.id == e'.id { CarriedOnce(out, ad, x, y, e, e'); }
    }
  }

  // What a read must return: the wanted attributes, and from the record part those wanted there.
  ghost predicate Answer(out: nat -> nat, groups: seq<Group>, ad: seq<Entry>, wr: Option<set<nat>>,
                         want: Option<set<nat>>, es: seq<Entry>)
  {
    && DistinctIds(es)
    && forall e ::
       e in es <==>
         exists x :: Carries(out, ad, x, e) && Wanted(if PartOf(groups, ad, x) == InRecord then wr else want, x.id)
  }

  // Record, base columns and group columns together: each wanted attribute exactly once.
  lemma PartsAnswer(out: nat -> nat, groups: seq<Group>, ad: seq<Entry>, wr: Option<set<nat>>, want: Option<set<nat>>,
                    rem: seq<Entry>, base: seq<Entry>, grp: seq<Entry>)
    requires DistinctIds(ad) && KeyInjective(out, ad)
    requires Supplies(out, groups, ad, wr, rem, InRecord) && Supplies(out, groups, ad, want, base, InBase)
    requires Supplies(out, groups, ad, want, grp, InGroup)
    ensures Answer(out, groups, ad, wr, want, rem + base + grp)
  {
    hide PartOf, KeyInjective, DistinctIds, Wanted;
    ApartParts(out, groups, ad, rem, wr, InRecord, base, want, InBase);
    ApartParts(out, groups, ad, rem, wr, InRecord, grp, want, InGroup);
    ApartParts(out, groups, ad, base, want, InBase, grp, want, InGroup);
    assert DistinctIds(rem) && DistinctIds(base) && DistinctIds(grp);
    DistinctConcat(rem, base);
    DistinctConcat(rem + base, grp);
  }

  // With everything wanted, the answer is the ad.
  lemma WholeAnswer(out: nat -> nat, groups: seq<Group>, ad: seq<Entry>, es: seq<Entry>)
    requires Answer(out, groups, ad, None, None, es)
    ensures DistinctIds(es) && forall e :: e in es <==> e in RekeyAd(out, ad)
  {
    hide PartOf, RekeyAd, DistinctIds;
    forall e ensures e in es <==> e in RekeyAd(out, ad) {
      RekeyMember(out, ad, e);
      if x :| Carries(out, ad, x, e) { assert Wanted(None, x.id); }
    }
  }

  // ---------------------------------------------------------------- a columnar-native segment

  // Row-group blocks, and per group one selection a block.
  datatype ColNative = ColNative(blocks: seq<Block>, groups: seq<Group>, sel: seq<seq<GroupBlock>>)

  function Start(blocks: seq<Block>, bi: nat): (n: nat)
    requires bi <= |blocks|
  {
    if bi == 0 then 0 else Start(blocks, bi - 1) + blocks[bi - 1].n
  }

  function ColumnAds(ads: seq<seq<Entry>>): (r: seq<seq<Entry>>)
    ensures |r| == |ads| && forall k :: 0 <= k < |ads| ==> r[k] == Half(ads[k], true)
  {
    seq(|ads|, k requires 0 <= k < |ads| => Half(ads[k], true))
  }

  // The columns of these block-sized runs of ads.
  ghost predicate NativeFor(cn: ColNative, key: nat -> nat, ads: seq<seq<Entry>>)
  {
    && ValidGroups(cn.groups) && |cn.sel| == |cn.groups| && Start(cn.blocks, |cn.blocks|) == |ads|
    && (forall gi :: 0 <= gi < |cn.groups| ==> |cn.sel[gi]| == |cn.blocks|)
    && (forall k :: 0 <= k < |ads| ==> ValidAd(ads[k]))
    && forall bi {:trigger cn.blocks[bi]} :: 0 <= bi < |cn.blocks| ==> RunOK(cn, key, ads, bi)
  }

  ghost function Run(cn: ColNative, ads: seq<seq<Entry>>, bi: nat): seq<seq<Entry>>
    requires bi < |cn.blocks|
  {
    var lo, hi := Start(cn.blocks, bi), Start(cn.blocks, bi + 1);
    if hi <= |ads| then ColumnAds(ads)[lo..hi] else []
  }

  ghost predicate RunOK(cn: ColNative, key: nat -> nat, ads: seq<seq<Entry>>, bi: nat)
    requires bi < |cn.blocks| && |cn.sel| == |cn.groups|
    requires forall gi :: 0 <= gi < |cn.groups| ==> |cn.sel[gi]| == |cn.blocks|
  {
    && Start(cn.blocks, bi + 1) <= |ads|
    && BlockFor(cn.blocks[bi], key, BaseAds(cn.groups, Run(cn, ads, bi)))
    && forall gi :: 0 <= gi < |cn.groups| ==> GroupBlockFor(cn.sel[gi][bi], cn.groups[gi], key, Run(cn, ads, bi))
  }

  lemma {:induction false} StartMono(blocks: seq<Block>, i: nat, j: nat)
    requires i <= j <= |blocks|
    ensures Start(blocks, i) <= Start(blocks, j)
    decreases j
  {
    if i < j { StartMono(blocks, i, j - 1); }
  }

  // The block holding record k, and its place there.
  method BlockIndexAndLocal(blocks: seq<Block>, k: nat) returns (bi: int, local: nat)
    ensures bi < 0 <==> k >= Start(blocks, |blocks|)
    ensures bi >= 0 ==> bi < |blocks| && local < blocks[bi].n && Start(blocks, bi) + local == k
  {
    bi, local := 0, k;
    while bi < |blocks|
      invariant 0 <= bi <= |blocks| && Start(blocks, bi) + local == k
    {
      if local < blocks[bi].n {
        StartMono(blocks, bi + 1, |blocks|);
        return;
      }
      local := local - blocks[bi].n;
      bi := bi + 1;
    }
    bi, local := -1, 0;
  }

  // The ids a read goes through: the writer's tail key and the attributes that have one, the numbers looked for in
  // the base blocks and in the group blocks, the table that maps a stored number back, the record's own keys, and
  // whether those are a dictionary's.
  datatype Keys = Keys(key: nat -> nat, named: nat -> bool, stored: nat -> nat, inGroup: nat -> nat, cold: nat -> nat,
                       out: nat -> nat, dict: bool)

  // A record the segment holds: its keys are told apart, a dictionary names all it has, and its base tail maps back.
  ghost predicate RecordOK(ks: Keys, s: Schema, groups: seq<Group>, ad: seq<Entry>)
  {
    && KeyInjective(ks.out, ad) && (ks.dict ==> AllNamed(ks.named, ad))
    && MapsBack(s, ks.key, ks.cold, ks.out, BaseAd(groups, ad))
  }

  // One member's row of a group's block; refused where a dictionary does not name a wanted field.
  method MemberFields(gb: GroupBlock, g: Group, ks: Keys, want: Option<set<nat>>, idx: nat, ghost run: seq<seq<Entry>>,
                      ghost k: nat)
    returns (es: Option<seq<Entry>>)
    requires ValidGroup(g) && GroupBlockFor(gb, g, ks.key, run) && gb.blk.Some? && k < |run| && Whole(run[k], g)
    requires idx < |MemberAds(g, run)| && MemberAds(g, run)[idx] == run[k]
    requires ks.dict ==> AllNamed(ks.named, run[k])
    ensures es == Some(FieldValsAs(g, ks.key, ks.inGroup, ks.out, run[k], want, |g.schema.fields|))
  {
    hide ValidGroup, MembersOf, RankTable, ExceptionsOf, BlockFor, MemberAds, Lookup, FieldAtRecord, FieldAs;
    var vs: seq<Entry> := [];
    var blk := gb.blk.value;
    for fi := 0 to |blk.schema.fields|
      invariant vs == FieldValsAs(g, ks.key, ks.inGroup, ks.out, run[k], want, fi)
    {
      var f := blk.schema.fields[fi];
      if Wanted(want, f.id) {
        FieldInGroup(g, fi);
        assert HasAttr(run[k], f.id);
        if ks.dict { HeldNamed(ks.named, run[k], f.id); }
        if ks.dict && !ks.named(f.id) { return None; }
        FieldShown(blk, ks.key, ks.inGroup, MemberAds(g, run), fi, idx);
        var v := FieldAtRecord(blk, ks.inGroup, fi, idx);
        if v.Some? { vs := vs + [Entry(ks.out(f.id), v.value)]; }
      }
    }
    es := Some(vs);
  }

  lemma HeldNamed(named: nat -> bool, ad: seq<Entry>, id: nat)
    requires AllNamed(named, ad) && HasAttr(ad, id)
    ensures named(id)
  {
    LookupFound(ad, id);
  }

  // The group columns of one record: every group it belongs to wholly.
  method AppendGroupValues(cn: ColNative, ks: Keys, want: Option<set<nat>>, bi: nat, local: nat,
                           ghost ads: seq<seq<Entry>>)
    returns (es: Option<seq<Entry>>)
    requires NativeFor(cn, ks.key, ads) && bi < |cn.blocks| && local < |Run(cn, ads, bi)|
    requires ks.dict ==> AllNamed(ks.named, Run(cn, ads, bi)[local])
    ensures es == Some(GroupValsAs(cn.groups, ks.key, ks.inGroup, ks.out, Run(cn, ads, bi)[local], want, |cn.groups|))
    ensures GroupsFound(cn.groups, ks.key, ks.inGroup, Run(cn, ads, bi)[local], want) ==>
      es == Some(GroupVals(cn.groups, ks.out, Run(cn, ads, bi)[local], want, |cn.groups|))
  {
    hide ValidGroup, Run, Whole, Rank, FieldVals, FieldValsAs, FieldsFound, MemberAds, BlockFor, GroupBlockFor,
      AllNamed;
    ghost var run := Run(cn, ads, bi);
    assert RunOK(cn, ks.key, ads, bi);
    var n := cn.blocks[bi].n;
    RunCount(cn, ks.key, ads, bi);
    var all: seq<Entry> := [];
    for gi := 0 to |cn.groups|
      invariant all == GroupValsAs(cn.groups, ks.key, ks.inGroup, ks.out, run[local], want, gi)
    {
      var gb, g := cn.sel[gi][bi], cn.groups[gi];
      assert GroupBlockFor(gb, g, ks.key, run);
      GroupValid(cn.groups, gi);
      GroupTables(gb, g, ks.key, run);
      var idx := Index(gb, n, local);
      MemberRow(gb, g, ks.key, run, local);
      if idx.Some? {
        var vs := MemberFields(gb, g, ks, want, idx.value, run, local);
        if vs.None? { return None; }
        all := all + vs.value;
      }
    }
    es := Some(all);
    if GroupsFound(cn.groups, ks.key, ks.inGroup, run[local], want) {
      GroupValsSame(cn.groups, ks.key, ks.inGroup, ks.out, run[local], want, |cn.groups|);
    }
  }

  lemma GroupTables(gb: GroupBlock, g: Group, key: nat -> nat, run: seq<seq<Entry>>)
    requires GroupBlockFor(gb, g, key, run)
    ensures |gb.members| == BitBytes(|run|) && RankTable(gb.members, gb.rank, |run|)
  {
  }

  lemma RunCount(cn: ColNative, key: nat -> nat, ads: seq<seq<Entry>>, bi: nat)
    requires NativeFor(cn, key, ads) && bi < |cn.blocks|
    ensures cn.blocks[bi].n == |Run(cn, ads, bi)|
  {
    hide ValidGroups, BlockFor, GroupBlockFor;
    assert RunOK(cn, key, ads, bi);
    BlockFacts(cn.blocks[bi], key, BaseAds(cn.groups, Run(cn, ads, bi)));
  }

  method EmitRow(out: nat -> nat, cold: nat -> nat, ks: seq<Keyed>) returns (es: seq<Entry>)
    ensures es == Emit(out, cold, ks)
  {
    es := [];
    for i := 0 to |ks|
      invariant es == Emit(out, cold, ks[..i])
    {
      assert ks[..i + 1][..i] == ks[..i];
      es := es + [Entry(if ks[i].fromCold then cold(ks[i].e.id) else out(ks[i].e.id), ks[i].e.node)];
    }
    assert ks[..|ks|] == ks;
  }

  lemma RunAt(cn: ColNative, key: nat -> nat, ads: seq<seq<Entry>>, bi: nat, local: nat)
    requires NativeFor(cn, key, ads) && bi < |cn.blocks| && local < cn.blocks[bi].n
    ensures Start(cn.blocks, bi) + local < |ads| && local < |Run(cn, ads, bi)|
    ensures Run(cn, ads, bi)[local] == Half(ads[Start(cn.blocks, bi) + local], true)
    ensures BaseAds(cn.groups, Run(cn, ads, bi))[local] == BaseAd(cn.groups, ads[Start(cn.blocks, bi) + local])
  {
    hide NativeFor, Half, SkipSet, Without, Start;
    NativeSize(cn, key, ads);
    StartMono(cn.blocks, bi + 1, |cn.blocks|);
    StartNext(cn.blocks, bi);
  }

  lemma StartNext(blocks: seq<Block>, bi: nat)
    requires bi < |blocks|
    ensures Start(blocks, bi + 1) == Start(blocks, bi) + blocks[bi].n
  {
  }

  // A dictionary names every field this row has in a slot.
  predicate SlotsNamed(ks: Keys, row: seq<Keyed>)
  {
    ks.dict ==> forall i :: 0 <= i < |row| ==> row[i].fromCold || ks.named(row[i].e.id)
  }

  lemma RowNamed(ks: Keys, s: Schema, ad: seq<Entry>)
    requires ks.dict ==> AllNamed(ks.named, ad)
    ensures SlotsNamed(ks, SlotEntries(s, ad, 0) + TagCold(ColdEntries(s, ks.key, ad)))
  {
    hide ColdEntries, SlotEntries, TagCold;
    if ks.dict {
      var a, b := SlotEntries(s, ad, 0), TagCold(ColdEntries(s, ks.key, ad));
      SlotsOfNamed(ks.named, s, ad, 0);
      TagsCold(ColdEntries(s, ks.key, ad));
      var row: seq<Keyed> := a + b;
      forall i | 0 <= i < |row| ensures row[i].fromCold || ks.named(row[i].e.id) {
        assert row[i] == if i < |a| then a[i] else b[i - |a|];
      }
    }
  }

  lemma {:induction false} TagsCold(es: seq<Entry>)
    ensures forall i :: 0 <= i < |TagCold(es)| ==> TagCold(es)[i].fromCold
    decreases |es|
  {
    if es != [] { TagsCold(es[1..]); }
  }

  lemma {:induction false} SlotsOfNamed(named: nat -> bool, s: Schema, ad: seq<Entry>, i: nat)
    requires i <= |s.fields| && AllNamed(named, ad)
    ensures forall j :: 0 <= j < |SlotEntries(s, ad, i)| ==> named(SlotEntries(s, ad, i)[j].e.id)
    decreases |s.fields| - i
  {
    hide Lookup;
    if i < |s.fields| {
      SlotsOfNamed(named, s, ad, i + 1);
      if SlotLit(s, ad, i).Some? { HeldNamed(named, ad, s.fields[i].id); }
    }
  }

  // The base row of a record, read back through the block; refused where a dictionary does not name a field of it.
  method BaseValues(blk: Block, ks: Keys, local: nat, ghost bases: seq<seq<Entry>>) returns (r: Option<seq<Entry>>)
    requires BlockFor(blk, ks.key, bases) && local < |bases| && KeyInjective(ks.out, bases[local])
    requires MapsBack(blk.schema, ks.key, ks.cold, ks.out, bases[local])
    requires ks.dict ==> AllNamed(ks.named, bases[local])
    ensures r.Some? && DistinctIds(r.value) && forall e :: e in r.value <==> e in RekeyAd(ks.out, bases[local])
  {
    hide BlockOf, RowOf, ColdEntries, ValidSchema, ValidAd, DecodeRow, Emit, KeyInjective, MapsBack, RekeyAd,
      SlotEntries, TagCold, AllNamed;
    ghost var recs :| BlockOf(blk, recs) && RowsOf(blk.schema, ks.key, bases, recs);
    BlockCount(blk, recs);
    var rec := Reconstruct(blk, local, recs);
    BaseHalf(blk.schema, ks.key, ks.cold, ks.out, bases[local], rec);
    RowRoundTrip(blk.schema, ks.key, bases[local], rec);
    RowNamed(ks, blk.schema, bases[local]);
    var row := DecodeRow(blk.schema, rec);
    if row.None? || !SlotsNamed(ks, row.value) { return None; }
    var es := EmitRow(ks.out, ks.cold, row.value);
    r := Some(es);
  }

  // What the splice returns: the record's own half, its base columns and its group columns as they are found.
  ghost predicate Spliced(ks: Keys, groups: seq<Group>, ad: seq<Entry>, es: seq<Entry>)
  {
    exists base :: SplicedWith(ks, groups, ad, base, es)
  }

  ghost predicate SplicedWith(ks: Keys, groups: seq<Group>, ad: seq<Entry>, base: seq<Entry>, es: seq<Entry>)
  {
    && Supplies(ks.out, groups, ad, None, base, InBase)
    && es == Half(RekeyAd(ks.out, ad), false) + base +
       GroupValsAs(groups, ks.key, ks.inGroup, ks.out, Half(ad, true), None, |groups|)
  }

  // The ad's attributes, each exactly once, under the record's own keys.
  ghost predicate Rejoined(out: nat -> nat, ad: seq<Entry>, es: seq<Entry>)
  {
    DistinctIds(es) && forall e :: e in es <==> e in RekeyAd(out, ad)
  }

  // Where its group columns are found as they are, what is spliced is the ad.
  lemma SplicedAd(ks: Keys, groups: seq<Group>, ad: seq<Entry>, es: seq<Entry>)
    requires ValidGroups(groups) && ValidAd(ad) && KeyInjective(ks.out, ad) && Spliced(ks, groups, ad, es)
    requires GroupsFound(groups, ks.key, ks.inGroup, Half(ad, true), None)
    ensures Rejoined(ks.out, ad, es) && Answer(ks.out, groups, ad, None, None, es)
  {
    hide Half, RekeyAd, GroupVals, GroupValsAs, KeyInjective, ValidGroups, Supplies, Answer, GroupsFound;
    var base :| SplicedWith(ks, groups, ad, base, es);
    HalfRekeyed(ks.out, ad, false);
    RecordSupplies(ks.out, groups, ad);
    GroupsSupply(ks.out, groups, ad, None);
    GroupValsSame(groups, ks.key, ks.inGroup, ks.out, Half(ad, true), None, |groups|);
    var grp := GroupVals(groups, ks.out, Half(ad, true), None, |groups|);
    PartsAnswer(ks.out, groups, ad, None, None, RekeyAd(ks.out, Half(ad, false)), base, grp);
    WholeAnswer(ks.out, groups, ad, es);
  }

  // Splicing a record's remnant with its columns, whatever the numbers looked for. Where every group it has wholly is
  // found as it is, that is the ad it was built from: each attribute exactly once, under the record's own key.
  method SpliceInto(cn: ColNative, ks: Keys, remnant: seq<Entry>, k: nat, ghost ads: seq<seq<Entry>>)
    returns (r: Option<seq<Entry>>)
    requires NativeFor(cn, ks.key, ads) && k < |ads| && remnant == Half(RekeyAd(ks.out, ads[k]), false)
    requires forall bi :: 0 <= bi < |cn.blocks| ==> RecordOK(ks, cn.blocks[bi].schema, cn.groups, ads[k])
    ensures r.Some? && Spliced(ks, cn.groups, ads[k], r.value)
    ensures GroupsFound(cn.groups, ks.key, ks.inGroup, Half(ads[k], true), None) ==>
      Rejoined(ks.out, ads[k], r.value) && Answer(ks.out, cn.groups, ads[k], None, None, r.value)
  {
    hide NativeFor, Half, RekeyAd, GroupVals, GroupValsAs, BaseAd, KeyInjective, MapsBack, ValidGroups, BlockFor,
      Supplies, Answer, GroupsFound, AllNamed, Rejoined;
    var bi, local := BlockIndexAndLocal(cn.blocks, k);
    NativeSize(cn, ks.key, ads);
    if bi < 0 { return Some(remnant); }
    ghost var ad := ads[k];
    NativeAt(cn, ks.key, ads, bi, k);
    RunAt(cn, ks.key, ads, bi, local);
    ghost var run := Run(cn, ads, bi);
    assert RecordOK(ks, cn.blocks[bi].schema, cn.groups, ad);
    PartsNamed(ks, cn.groups, ad);
    BaseKeys(ks, cn.groups, ad);
    var base := BaseValues(cn.blocks[bi], ks, local, BaseAds(cn.groups, run));
    if base.None? { return None; }
    var grp := AppendGroupValues(cn, ks, None, bi, local, ads);
    if grp.None? { return None; }
    BaseSupplies(ks.out, cn.groups, ad, base.value);
    r := Some(remnant + base.value + grp.value);
    assert SplicedWith(ks, cn.groups, ad, base.value, r.value);
    if GroupsFound(cn.groups, ks.key, ks.inGroup, Half(ad, true), None) { SplicedAd(ks, cn.groups, ad, r.value); }
  }

  lemma PartsNamed(ks: Keys, groups: seq<Group>, ad: seq<Entry>)
    requires ks.dict ==> AllNamed(ks.named, ad)
    ensures ks.dict ==> AllNamed(ks.named, Half(ad, true)) && AllNamed(ks.named, BaseAd(groups, ad))
  {
    hide Half, BaseAd, PartOf;
    if ks.dict {
      var h, b := Half(ad, true), BaseAd(groups, ad);
      forall j | 0 <= j < |h| ensures ks.named(h[j].id) {
        HalfMember(ad, true, h[j]);
        var i :| 0 <= i < |ad| && ad[i] == h[j];
      }
      forall j | 0 <= j < |b| ensures ks.named(b[j].id) {
        BaseMember(groups, ad, b[j]);
        var i :| 0 <= i < |ad| && ad[i] == b[j];
      }
    }
  }

  lemma NativeSize(cn: ColNative, key: nat -> nat, ads: seq<seq<Entry>>)
    requires NativeFor(cn, key, ads)
    ensures Start(cn.blocks, |cn.blocks|) == |ads|
  {
  }

  lemma NativeAt(cn: ColNative, key: nat -> nat, ads: seq<seq<Entry>>, bi: nat, k: nat)
    requires NativeFor(cn, key, ads) && bi < |cn.blocks| && k < |ads|
    ensures ValidAd(ads[k]) && ValidGroups(cn.groups) &&
      BlockFor(cn.blocks[bi], key, BaseAds(cn.groups, Run(cn, ads, bi)))
  {
    hide ValidAd, ValidGroups, BlockFor, GroupBlockFor, Run;
    assert RunOK(cn, key, ads, bi);
  }

  lemma BaseKeys(ks: Keys, groups: seq<Group>, ad: seq<Entry>)
    requires KeyInjective(ks.out, ad)
    ensures KeyInjective(ks.out, BaseAd(groups, ad))
  {
    hide BaseAd, KeyInjective, PartOf;
    var base := BaseAd(groups, ad);
    forall x | x in base ensures x in ad { BaseMember(groups, ad, x); }
    SubInjective(ks.out, base, ad);
  }
}
