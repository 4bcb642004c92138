/** Reloading persisted columns: the layout is re-derived under the reader's own attribute ids, and the stored
    bytes mean the same ads exactly when that changes no field's place. */
module Reload {
  import opened Bytes
  import opened Wire
  import opened Row
  import opened ColBlock
  import opened Values
  import opened Layout

  // ---------------------------------------------------------------- when the layout is kept

  // The stored fields, bound to the ids the reader's table gives their names.
  function Rebound(fs: seq<Spec>, re: nat -> nat): (r: seq<Spec>)
    ensures |r| == |fs| && forall i :: 0 <= i < |fs| ==> r[i] == fs[i].(id := re(fs[i].id))
  {
    seq(|fs|, i requires 0 <= i < |fs| => fs[i].(id := re(fs[i].id)))
  }

  // The reader numbers names in the writer's order among fields of equal kind and width.
  ghost predicate OrderKept(s: Schema, re: nat -> nat)
  {
    forall i, j ::
      0 <= i < j < |s.fields| && s.fields[i].kind == s.fields[j].kind && s.fields[i].width == s.fields[j].width ==>
      re(s.fields[i].id) < re(s.fields[j].id)
  }

  // Field i keeps its kind, width and place.
  predicate SameField(f: Field, f': Field, re: nat -> nat)
  {
    && f'.id == re(f.id) && f'.kind == f.kind && f'.width == f.width && f'.uns == f.uns
    && (Numeric(f) ==> f'.off == f.off) && (f.kind == KBool ==> f'.boolBit == f.boolBit)
  }

  ghost predicate SameLayout(s: Schema, s': Schema, re: nat -> nat)
  {
    && |s'.fields| == |s.fields| && s'.boolBytes == s.boolBytes && s'.fixedLen == s.fixedLen &&
       s'.escBytes == s.escBytes
    && forall i: nat {:trigger s.fields[i]} {:trigger s'.fields[i]} ::
       i < |s.fields| ==> SameField(s.fields[i], s'.fields[i], re)
  }

  lemma OrderedRebound(s: Schema, re: nat -> nat)
    requires Ordered(SpecsOf(s.fields))
    ensures Ordered(Rebound(SpecsOf(s.fields), re)) <==> OrderKept(s, re)
  {
    var fs := SpecsOf(s.fields);
    var gs := Rebound(fs, re);
    forall i, j | 0 <= i < j < |fs| ensures Before(gs[i], gs[j]) <==>
      (s.fields[i].kind == s.fields[j].kind && s.fields[i].width == s.fields[j].width ==>
        re(s.fields[i].id) < re(s.fields[j].id))
    {
      assert Before(fs[i], fs[j]);
    }
    if OrderKept(s, re) {
      forall i, j | 0 <= i < j < |gs| ensures Before(gs[i], gs[j]) {}
    }
    if Ordered(gs) {
      forall i, j | 0 <= i < j < |s.fields| && s.fields[i].kind == s.fields[j].kind &&
        s.fields[i].width == s.fields[j].width
        ensures re(s.fields[i].id) < re(s.fields[j].id)
      {
        assert Before(gs[i], gs[j]);
      }
    }
  }

  lemma {:induction false} OffsetsSame(fs: seq<Field>, fs': seq<Field>, base: nat, n: nat)
    requires n <= |fs| == |fs'|
    requires forall i :: 0 <= i < |fs| ==> fs'[i].kind == fs[i].kind && fs'[i].width == fs[i].width
    ensures SlotOff(fs', base, n) == SlotOff(fs, base, n) && BoolsBefore(fs', n) == BoolsBefore(fs, n)
    decreases n
  {
    if n > 0 { OffsetsSame(fs, fs', base, n - 1); }
  }

  // Re-deriving the layout under the reader's ids puts every field back where the bytes have it exactly when
  // the reader's numbering keeps the order among fields of equal kind and width.
  lemma LayoutKeptExactly(s: Schema, s': Schema, re: nat -> nat)
    requires ValidSchema(s) && ValidSchema(s') && Ordered(SpecsOf(s.fields))
    requires DistinctSpecs(Rebound(SpecsOf(s.fields), re))
    requires SpecsOf(s'.fields) == Sort(Rebound(SpecsOf(s.fields), re))
    ensures SameLayout(s, s', re) <==> OrderKept(s, re)
  {
    hide Sort, Before, SlotOff, BoolsBefore;
    var gs := Rebound(SpecsOf(s.fields), re);
    OrderedRebound(s, re);
    SortFixed(gs);
    if OrderKept(s, re) {
      forall i | 0 <= i < |s.fields| ensures SpecOf(s'.fields[i]) == gs[i] { assert SpecsOf(s'.fields)[i] == gs[i]; }
      OffsetsSame(s.fields, s'.fields, s.boolBytes, |s.fields|);
      forall i: nat | i < |s.fields| ensures SameField(s.fields[i], s'.fields[i], re) {
        assert FieldOK(s, i) && FieldOK(s', i);
        OffsetsSame(s.fields, s'.fields, s.boolBytes, i);
      }
    }
    if SameLayout(s, s', re) {
      forall i | 0 <= i < |gs|
        ensures SpecsOf(s'.fields)[i] == gs[i]
      {
        assert SameField(s.fields[i], s'.fields[i], re);
      }
      assert SpecsOf(s'.fields) == gs;
    }
  }

  lemma SwappedSort(gs: seq<Spec>)
    requires gs == [Spec(2, KInt, 1, false), Spec(1, KInt, 1, false)]
    ensures Sort(gs) == [Spec(1, KInt, 1, false), Spec(2, KInt, 1, false)]
  {
    assert gs[..1] == [gs[0]] && gs[..1][..0] == [];
    assert Sort([gs[0]]) == [gs[0]];
    assert Sort(gs) == Insert([gs[0]], gs[1]);
    assert [gs[0]][..0] == [];
    assert Insert([gs[0]], gs[1]) == [gs[1], gs[0]];
  }

  // Two one-byte ints whose names the reader numbers the other way round trade places.
  lemma SwappedColumns(s: Schema, s': Schema, re: nat -> nat)
    requires ValidSchema(s) && ValidSchema(s')
    requires SpecsOf(s.fields) == [Spec(1, KInt, 1, false), Spec(2, KInt, 1, false)]
    requires re(1) == 2 && re(2) == 1 && SpecsOf(s'.fields) == Sort(Rebound(SpecsOf(s.fields), re))
    ensures s.fields[0].id == 1 && re(1) in s'.byId && s'.byId[re(1)] == 1
  {
    SwappedSort(Rebound(SpecsOf(s.fields), re));
    assert SpecsOf(s.fields)[0] == SpecOf(s.fields[0]);
    assert SpecsOf(s'.fields)[1] == SpecOf(s'.fields[1]);
    assert FieldOK(s', 1);
  }

  // ---------------------------------------------------------------- the same bytes, read under the new ids

  // Attributes of the ad and of the schema keep apart under the reader's ids, and its tail keeps its keys.
  ghost predicate RelabelOK(s: Schema, re: nat -> nat, key: nat -> nat, key': nat -> nat, ad: seq<Entry>)
  {
    && (forall j ::
       0 <= j < |ad| ==> re(ad[j].id) < 0x1_0000_0000 && (InSlot(s, ad[j]) || key'(re(ad[j].id)) == key(ad[j].id)))
    && KeyInjective(re, ad)
    && forall j, i ::
       0 <= j < |ad| && 0 <= i < |s.fields| && re(ad[j].id) == re(s.fields[i].id) ==> ad[j].id == s.fields[i].id
  }

  lemma {:induction false} LookupRekey(re: nat -> nat, ad: seq<Entry>, id: nat)
    requires Unshared(re, ad, id)
    ensures Lookup(RekeyAd(re, ad), re(id)) == Lookup(ad, id)
    decreases |ad|
  {
    if ad != [] {
      LookupRekey(re, ad[1..], id);
      assert RekeyAd(re, ad)[1..] == RekeyAd(re, ad[1..]);
    }
  }

  lemma SlotLitSame(s: Schema, s': Schema, re: nat -> nat, key: nat -> nat, key': nat -> nat, ad: seq<Entry>, i: nat)
    requires SameLayout(s, s', re) && RelabelOK(s, re, key, key', ad) && i < |s.fields|
    ensures SlotLit(s', RekeyAd(re, ad), i) == SlotLit(s, ad, i)
  {
    hide Lookup;
    assert SameField(s.fields[i], s'.fields[i], re);
    LookupRekey(re, ad, s.fields[i].id);
  }

  lemma {:induction false} StringRegionSame(s: Schema, s': Schema, re: nat -> nat, key: nat -> nat, key': nat -> nat,
                                            ad: seq<Entry>, i: nat)
    requires SameLayout(s, s', re) && RelabelOK(s, re, key, key', ad) && i <= |s.fields|
    ensures StringRegion(s', RekeyAd(re, ad), i) == StringRegion(s, ad, i)
    decreases |s.fields| - i
  {
    hide SlotLit, RelabelOK, StringRegion, PutUvarint, RekeyAd, SameLayout;
    SameSize(s, s', re);
    if i == |s.fields| {
      StringRegionEnd(s, ad);
      StringRegionEnd(s', RekeyAd(re, ad));
    } else {
      SameAt(s, s', re, i);
      SlotLitSame(s, s', re, key, key', ad, i);
      StringRegionSame(s, s', re, key, key', ad, i + 1);
      StringRegionStep(s, ad, i);
      StringRegionStep(s', RekeyAd(re, ad), i);
    }
  }

  lemma InSlotSame(s: Schema, s': Schema, re: nat -> nat, key: nat -> nat, key': nat -> nat, ad: seq<Entry>, j: nat)
    requires ValidSchema(s) && ValidSchema(s') && SameLayout(s, s', re) && RelabelOK(s, re, key, key', ad) && j < |ad|
    ensures InSlot(s', Entry(re(ad[j].id), ad[j].node)) <==> InSlot(s, ad[j])
  {
    hide SlotOff, BoolsBefore;
    var id := ad[j].id;
    if id in s.byId {
      assert IdOK(s, id);
      var i := s.byId[id];
      assert SameField(s.fields[i], s'.fields[i], re) && FieldOK(s', i);
    }
    if re(id) in s'.byId {
      assert IdOK(s', re(id));
      var i := s'.byId[re(id)];
      assert SameField(s.fields[i], s'.fields[i], re) && FieldOK(s, i);
    }
  }

  lemma RelabelPrefix(s: Schema, re: nat -> nat, key: nat -> nat, key': nat -> nat, ad: seq<Entry>)
    requires RelabelOK(s, re, key, key', ad) && ad != []
    ensures RelabelOK(s, re, key, key', ad[..|ad| - 1])
    ensures InSlot(s, ad[|ad| - 1]) || key'(re(ad[|ad| - 1].id)) == key(ad[|ad| - 1].id)
  {
    hide InSlot;
  }

  lemma ColdStep(s: Schema, key: nat -> nat, ad: seq<Entry>)
    requires ad != []
    ensures ColdEntries(s, key, ad) == ColdEntries(s, key, ad[..|ad| - 1]) + if InSlot(s, ad[|ad| - 1]) then []
      else [Entry(key(ad[|ad| - 1].id), ad[|ad| - 1].node)]
  {
    hide InSlot;
  }

  lemma {:induction false} ColdSame(s: Schema, s': Schema, re: nat -> nat, key: nat -> nat, key': nat -> nat,
                                    ad: seq<Entry>)
    requires ValidSchema(s) && ValidSchema(s') && SameLayout(s, s', re) && RelabelOK(s, re, key, key', ad)
    ensures ColdEntries(s', key', RekeyAd(re, ad)) == ColdEntries(s, key, ad)
    decreases |ad|
  {
    if ad != [] {
      hide InSlot, ValidSchema, SameLayout, RelabelOK, ColdEntries;
      var n := |ad| - 1;
      RelabelPrefix(s, re, key, key', ad);
      ColdSame(s, s', re, key, key', ad[..n]);
      assert RekeyAd(re, ad)[..n] == RekeyAd(re, ad[..n]);
      InSlotSame(s, s', re, key, key', ad, n);
      ColdStep(s, key, ad);
      ColdStep(s', key', RekeyAd(re, ad));
    }
  }

  // A stored row is the row of the same ad under the reader's ids.
  lemma RowReloads(s: Schema, s': Schema, re: nat -> nat, key: nat -> nat, key': nat -> nat, ad: seq<Entry>,
                   rec: seq<byte>)
    requires ValidSchema(s) && ValidSchema(s') && SameLayout(s, s', re) && RelabelOK(s, re, key, key', ad)
    requires RowOf(s, key, ad, rec) && ValidAd(ad) && ValidEntries(ColdEntries(s, key, ad))
    ensures RowOf(s', key', RekeyAd(re, ad), rec) && ValidAd(RekeyAd(re, ad)) &&
      ValidEntries(ColdEntries(s', key', RekeyAd(re, ad)))
  {
    hide SlotLit, StringRegion, ColdEntries, ValidSchema, RelabelOK, EncodeEntries, HasBit;
    var ad', blob := RekeyAd(re, ad), rec[s.escBytes..PrefixLen(s)];
    StringRegionSame(s, s', re, key, key', ad, 0);
    ColdSame(s, s', re, key, key', ad);
    forall i: nat | i < |s.fields|
      ensures SlotLit(s', ad', i) == SlotLit(s, ad, i)
    {
      SlotLitSame(s, s', re, key, key', ad, i);
    }
    forall i: nat | i < |s.fields| ensures SlotHolds(s', ad', blob, i) {
      assert SlotHolds(s, ad, blob, i);
      assert SameField(s.fields[i], s'.fields[i], re);
      SlotLitSame(s, s', re, key, key', ad, i);
    }
    RelabelValid(s, re, key, key', ad);
  }

  lemma RelabelValid(s: Schema, re: nat -> nat, key: nat -> nat, key': nat -> nat, ad: seq<Entry>)
    requires RelabelOK(s, re, key, key', ad) && ValidAd(ad)
    ensures ValidAd(RekeyAd(re, ad))
  {
    forall i | 0 <= i < |ad| ensures ValidEntry(RekeyAd(re, ad)[i]) { assert ValidEntry(ad[i]); }
  }

  lemma SameAt(s: Schema, s': Schema, re: nat -> nat, i: nat)
    requires SameLayout(s, s', re) && i < |s.fields|
    ensures |s'.fields| == |s.fields| && s'.escBytes == s.escBytes && SameField(s.fields[i], s'.fields[i], re)
  {
  }

  lemma SameSize(s: Schema, s': Schema, re: nat -> nat)
    requires SameLayout(s, s', re)
    ensures |s'.fields| == |s.fields|
  {
  }

  lemma BitsSame(s: Schema, s': Schema, bits: seq<byte>, recs: seq<seq<byte>>)
    requires Stride(s') == Stride(s) && BitsOf(s, bits, recs)
    ensures BitsOf(s', bits, recs)
  {
    forall k: nat | k < |recs| ensures Stride(s') <= |recs[k]| && BitsAt(s', bits, k) == recs[k][..Stride(s')] {
      assert BitsAt(s, bits, k) == BitsAt(s', bits, k);
    }
  }

  lemma {:induction false} StringsEndSame(s: Schema, s': Schema, re: nat -> nat, rec: seq<byte>, i: nat, p: nat)
    requires SameLayout(s, s', re) && i <= |s.fields| && p <= |rec|
    ensures |s'.fields| == |s.fields| && StringsEnd(s', rec, i, p) == StringsEnd(s, rec, i, p)
    decreases |s.fields| - i
  {
    hide HasBit, GetUvarint, SameLayout, StringsEnd;
    SameSize(s, s', re);
    if i < |s.fields| {
      SameAt(s, s', re, i);
      StringsEndSame(s, s', re, rec, i + 1, p);
      var u := GetUvarint(rec[p..]);
      if u.Some? && p + u.value.1 + u.value.0 <= |rec| {
        StringsEndSame(s, s', re, rec, i + 1, p + u.value.1 + u.value.0);
      }
      StringsEndAt(s, rec, i, p);
      StringsEndAt(s', rec, i, p);
    } else {
      StringsEndLast(s, rec, p);
      StringsEndLast(s', rec, p);
    }
  }

  lemma StringsEndAt(s: Schema, rec: seq<byte>, i: nat, p: nat)
    requires i < |s.fields| && p <= |rec|
    ensures StringsEnd(s, rec, i, p) ==
      if s.fields[i].kind == KString && !HasBit(rec[..if s.escBytes <= |rec| then s.escBytes else 0], i) then
        var u := GetUvarint(rec[p..]);
        if u.None? || p + u.value.1 + u.value.0 > |rec| then None
          else StringsEnd(s, rec, i + 1, p + u.value.1 + u.value.0)
      else StringsEnd(s, rec, i + 1, p)
  {
    hide HasBit, GetUvarint;
  }

  lemma {:induction false} ColStartSame(s: Schema, s': Schema, re: nat -> nat, cols: seq<nat>, n: nat, p: nat)
    requires SameLayout(s, s', re) && p <= |cols|
    ensures ColStart(s', cols, n, p) == ColStart(s, cols, n, p)
    decreases p
  {
    if p > 0 {
      ColStartSame(s, s', re, cols, n, p - 1);
      WidthSame(s, s', re, cols[p - 1]);
    }
  }

  lemma WidthSame(s: Schema, s': Schema, re: nat -> nat, i: nat)
    requires SameLayout(s, s', re)
    ensures WidthOf(s', i) == WidthOf(s, i)
  {
    if i < |s.fields| { assert SameField(s.fields[i], s'.fields[i], re); }
  }

  lemma ColumnsSame(s: Schema, s': Schema, re: nat -> nat, cols: seq<nat>)
    requires SameLayout(s, s', re) && ColumnsOK(s, cols)
    ensures ColumnsOK(s', cols)
  {
    forall p | 0 <= p < |cols|
      ensures cols[p] < |s'.fields| && Numeric(s'.fields[cols[p]])
    {
      assert SameField(s.fields[cols[p]], s'.fields[cols[p]], re);
    }
  }

  lemma TransposedSame(s: Schema, s': Schema, re: nat -> nat, cols: seq<nat>, recs: seq<seq<byte>>, region: seq<byte>)
    requires SameLayout(s, s', re) && ColumnsOK(s, cols) && Transposed(s, cols, recs, region, |recs|)
    ensures Transposed(s', cols, recs, region, |recs|)
  {
    hide ColStart;
    ColStartSame(s, s', re, cols, |recs|, |cols|);
    forall p: nat, k: nat | p < |cols| && k < |recs|
      ensures ColSlot(s', cols, |recs|, region, p, k) == SlotBytes(s', Blob(s', recs[k]), cols[p])
    {
      assert ColSlot(s, cols, |recs|, region, p, k) == SlotBytes(s, Blob(s, recs[k]), cols[p]);
      ColStartSame(s, s', re, cols, |recs|, p);
      WidthSame(s, s', re, cols[p]);
      assert SameField(s.fields[cols[p]], s'.fields[cols[p]], re);
    }
  }

  lemma PartsSame(s: Schema, s': Schema, re: nat -> nat, recs: seq<seq<byte>>)
    requires SameLayout(s, s', re) && forall k :: 0 <= k < |recs| ==> Shaped(s, recs[k])
    ensures forall k :: 0 <= k < |recs| ==> Shaped(s', recs[k])
    ensures StrParts(s', recs) == StrParts(s, recs) && ColdParts(s', recs) == ColdParts(s, recs)
  {
    hide StringsEnd;
    forall k | 0 <= k < |recs|
      ensures Shaped(s', recs[k]) && StrPart(s', recs[k]) == StrPart(s, recs[k]) &&
        ColdPart(s', recs[k]) == ColdPart(s, recs[k])
    {
      StringsEndSame(s, s', re, recs[k], 0, PrefixLen(s));
    }
    assert StrParts(s', recs) == StrParts(s, recs);
    assert ColdParts(s', recs) == ColdParts(s, recs);
  }

  lemma LaidOutSame(b: Block, s': Schema, re: nat -> nat)
    requires LaidOut(b) && SameLayout(b.schema, s', re)
    ensures LaidOut(b.(schema := s'))
  {
    forall j: nat {:trigger s'.fields[j]} | j < |b.schema.fields|
      ensures Numeric(s'.fields[j]) <==> Numeric(b.schema.fields[j])
    {
      SameAt(b.schema, s', re, j);
    }
    NumericFieldsAgree(b.schema, s', Members(b.hot), Members(b.hot), true, 0);
    NumericFieldsAgree(b.schema, s', Members(b.hot), Members(b.hot), false, 0);
  }

  lemma BlockOfSame(b: Block, s': Schema, re: nat -> nat, recs: seq<seq<byte>>)
    requires BlockOf(b, recs) && ValidSchema(s') && SameLayout(b.schema, s', re)
    ensures BlockOf(b.(schema := s'), recs)
  {
    hide Transposed, ColumnsOK, StreamOf, ValidSchema, Shaped, BitsOf, LaidOut;
    var s := b.schema;
    LaidOutSame(b, s', re);
    PartsSame(s, s', re, recs);
    ColumnsSame(s, s', re, b.hot);
    ColumnsSame(s, s', re, b.cold);
    TransposedSame(s, s', re, b.hot, recs, b.hotCol);
    TransposedSame(s, s', re, b.cold, recs, b.coldCol);
    forall i: nat | i < |s'.fields| && Numeric(s'.fields[i])
      ensures i in b.hot || i in b.cold
    {
      assert SameField(s.fields[i], s'.fields[i], re);
    }
    BitsSame(s, s', b.bits, recs);
  }

  function RelabelAds(re: nat -> nat, ads: seq<seq<Entry>>): (r: seq<seq<Entry>>)
    ensures |r| == |ads| && forall k :: 0 <= k < |ads| ==> r[k] == RekeyAd(re, ads[k])
  {
    seq(|ads|, k requires 0 <= k < |ads| => RekeyAd(re, ads[k]))
  }

  // A reloaded block is the block of the same ads under the reader's ids.
  lemma BlockReloads(b: Block, s': Schema, re: nat -> nat, key: nat -> nat, key': nat -> nat, ads: seq<seq<Entry>>)
    requires BlockFor(b, key, ads) && ValidSchema(s') && SameLayout(b.schema, s', re)
    requires forall k :: 0 <= k < |ads| ==> RelabelOK(b.schema, re, key, key', ads[k])
    ensures BlockFor(b.(schema := s'), key', RelabelAds(re, ads))
  {
    hide BlockOf, RowOf, ValidSchema, ColdEntries, ValidAd, RelabelOK, SameLayout, ValidEntries, RekeyAd;
    var recs :| BlockOf(b, recs) && RowsOf(b.schema, key, ads, recs);
    BlockCount(b, recs);
    BlockOfSame(b, s', re, recs);
    forall k | 0 <= k < |ads|
      ensures ValidAd(RelabelAds(re, ads)[k]) && RowOf(s', key', RelabelAds(re, ads)[k], recs[k]) &&
        ValidEntries(ColdEntries(s', key', RelabelAds(re, ads)[k]))
    {
      RowReloads(b.schema, s', re, key, key', ads[k], recs[k]);
    }
    assert RowsOf(s', key', RelabelAds(re, ads), recs);
  }
}
