/** Laying a schema out, encoding an ad as a row under it, and reading the row back. */
module Row {
  import opened Bytes
  import opened Wire
  import opened AdSchema

  // ---------------------------------------------------------------- schema

  datatype Kind = KBool | KInt | KReal | KString

  function KindRank(k: Kind): (r: nat) { match k case KBool => 1 case KInt => 2 case KReal => 3 case KString => 4 }

  datatype Field = Field(id: nat, kind: Kind, width: nat, uns: bool, boolBit: nat, off: nat)

  datatype Schema = Schema(fields: seq<Field>, byId: map<nat, nat>, boolBytes: nat, fixedLen: nat, escBytes: nat)

  predicate Numeric(f: Field) { f.kind == KInt || f.kind == KReal }

  predicate ValidField(f: Field)
  {
    && f.id < 0x1_0000_0000
    && (f.kind == KInt ==> SlotWidth(f.width))
    && (f.kind == KReal ==> f.width == 8 && !f.uns)
    && (!Numeric(f) ==> f.width == 0 && !f.uns)
  }

  // Total width of the numeric slots before field i, from a base offset.
  function SlotOff(fs: seq<Field>, base: nat, i: nat): (o: nat)
    requires i <= |fs|
  {
    if i == 0 then base
    else SlotOff(fs, base, i - 1) + if Numeric(fs[i - 1]) then fs[i - 1].width else 0
  }

  function BoolsBefore(fs: seq<Field>, i: nat): (n: nat)
    requires i <= |fs|
  {
    if i == 0 then 0 else BoolsBefore(fs, i - 1) + if fs[i - 1].kind == KBool then 1 else 0
  }

  // Field i of a laid-out schema: its slot follows the slots before it, its bool bit counts the bools
  // before it, and byId leads back to it.
  predicate FieldOK(s: Schema, i: nat)
    requires i < |s.fields|
  {
    var f := s.fields[i];
    && ValidField(f)
    && f.id in s.byId && s.byId[f.id] == i
    && (Numeric(f) ==> f.off == SlotOff(s.fields, s.boolBytes, i))
    && (f.kind == KBool ==> f.boolBit == BoolsBefore(s.fields, i))
  }

  predicate IdOK(s: Schema, id: nat)
    requires id in s.byId
  {
    s.byId[id] < |s.fields| && s.fields[s.byId[id]].id == id
  }

  // A laid-out schema: slots tile the blob behind the bool bitset, bool bits and escape bits are
  // dense, and byId inverts the field order.
  ghost predicate ValidSchema(s: Schema)
  {
    && (forall i: nat {:trigger FieldOK(s, i)} :: i < |s.fields| ==> FieldOK(s, i))
    && (forall id {:trigger IdOK(s, id)} :: id in s.byId ==> IdOK(s, id))
    && s.boolBytes == BitBytes(BoolsBefore(s.fields, |s.fields|))
    && s.fixedLen == SlotOff(s.fields, s.boolBytes, |s.fields|)
    && s.escBytes == BitBytes(|s.fields|)
  }

  lemma {:induction false} SlotOffMono(fs: seq<Field>, base: nat, i: nat, j: nat)
    requires i <= j <= |fs|
    ensures SlotOff(fs, base, i) <= SlotOff(fs, base, j)
    decreases j
  {
    if i < j { SlotOffMono(fs, base, i, j - 1); }
  }

  lemma {:induction false} BoolsBeforeMono(fs: seq<Field>, i: nat, j: nat)
    requires i <= j <= |fs|
    ensures BoolsBefore(fs, i) <= BoolsBefore(fs, j)
    ensures i < j && fs[i].kind == KBool ==> BoolsBefore(fs, i) < BoolsBefore(fs, j)
    decreases j
  {
    if i < j {
      BoolsBeforeMono(fs, i, j - 1);
    }
  }

  lemma FieldAt(s: Schema, i: nat)
    requires ValidSchema(s) && i < |s.fields|
    ensures ValidField(s.fields[i]) && s.fields[i].id in s.byId && s.byId[s.fields[i].id] == i
  {
    assert FieldOK(s, i);
  }

  lemma IdAt(s: Schema, id: nat)
    requires ValidSchema(s) && id in s.byId
    ensures s.byId[id] < |s.fields| && s.fields[s.byId[id]].id == id
  {
    assert IdOK(s, id);
  }

  // Every numeric slot lies inside the blob, behind the bool bitset.
  lemma SlotInside(s: Schema, i: nat)
    requires ValidSchema(s) && i < |s.fields| && Numeric(s.fields[i])
    ensures s.boolBytes <= s.fields[i].off
    ensures s.fields[i].off + s.fields[i].width <= s.fixedLen
  {
    assert FieldOK(s, i);
    SlotOffMono(s.fields, s.boolBytes, 0, i);
    SlotOffMono(s.fields, s.boolBytes, i + 1, |s.fields|);
  }

  lemma SlotsDisjoint(s: Schema, i: nat, j: nat)
    requires ValidSchema(s) && i < j < |s.fields| && Numeric(s.fields[i]) && Numeric(s.fields[j])
    ensures s.fields[i].off + s.fields[i].width <= s.fields[j].off
  {
    assert FieldOK(s, i) && FieldOK(s, j);
    SlotOffMono(s.fields, s.boolBytes, i + 1, j);
  }

  lemma BoolBitInside(s: Schema, i: nat)
    requires ValidSchema(s) && i < |s.fields| && s.fields[i].kind == KBool
    ensures s.fields[i].boolBit / 8 < s.boolBytes
  {
    assert FieldOK(s, i);
    BoolsBeforeMono(s.fields, i, |s.fields|);
  }

  lemma BoolBitsDistinct(s: Schema, i: nat, j: nat)
    requires ValidSchema(s) && i < j < |s.fields| && s.fields[i].kind == KBool && s.fields[j].kind == KBool
    ensures s.fields[i].boolBit < s.fields[j].boolBit
  {
    assert FieldOK(s, i) && FieldOK(s, j);
    BoolsBeforeMono(s.fields, i, j);
  }

  lemma BoolsInPrefix(s: Schema)
    requires ValidSchema(s)
    ensures s.boolBytes <= s.fixedLen
  {
    SlotOffMono(s.fields, s.boolBytes, 0, |s.fields|);
  }

  // Field i's bytes in a blob, empty unless the field has a slot there.
  function SlotBytes(s: Schema, blob: seq<byte>, i: nat): (r: seq<byte>)
    requires i < |s.fields|
  {
    var f := s.fields[i];
    if Numeric(f) && f.off + f.width <= |blob| then blob[f.off..f.off + f.width] else []
  }

  // The slots tile the blob: two blobs agreeing on the bool bitset and on every slot are equal.
  lemma {:induction false} SlotsTile(s: Schema, a: seq<byte>, b: seq<byte>, n: nat)
    requires ValidSchema(s) && n <= |s.fields| && |a| == s.fixedLen && |b| == s.fixedLen
    requires s.boolBytes <= s.fixedLen && a[..s.boolBytes] == b[..s.boolBytes]
    requires forall i: nat {:trigger SlotBytes(s, a, i)} :: i < |s.fields| ==> SlotBytes(s, a, i) == SlotBytes(s, b, i)
    ensures SlotOff(s.fields, s.boolBytes, n) <= s.fixedLen
    ensures a[..SlotOff(s.fields, s.boolBytes, n)] == b[..SlotOff(s.fields, s.boolBytes, n)]
  {
    SlotOffMono(s.fields, s.boolBytes, n, |s.fields|);
    if n > 0 {
      SlotsTile(s, a, b, n - 1);
      var f := s.fields[n - 1];
      if Numeric(f) {
        SlotInside(s, n - 1);
        assert FieldOK(s, n - 1);
        var o, e := f.off, f.off + f.width;
        assert SlotBytes(s, a, n - 1) == a[o..e] && SlotBytes(s, b, n - 1) == b[o..e];
        assert a[..e] == a[..o] + a[o..e];
        assert b[..e] == b[..o] + b[o..e];
      }
    }
  }

  // ---------------------------------------------------------------- which attribute goes where

  function LitKind(l: Literal): (k: Option<Kind>)
  {
    match l
    case LBool(_) => Some(KBool)
    case LInt(_) => Some(KInt)
    case LReal(_) => Some(KReal)
    case LStr(_) => Some(KString)
    case _ => None
  }

  // Whether a value may occupy field f's slot: a literal of its kind, an int within its width.
  predicate Storable(f: Field, n: Node)
  {
    n.Lit? && LitKind(n.lit) == Some(f.kind) && (f.kind == KInt ==> IntFits(n.lit.i, f.width, f.uns))
  }

  // A value is put in its field's slot exactly where it is a literal of the field's kind that the slot gives back; a
  // negative integer is kept out of an unsigned slot of any width.
  lemma StorableExactly(f: Field, n: Node)
    requires ValidField(f) && ValidNode(n)
    ensures Storable(f, n) <==>
      match n
      case Lit(LBool(_)) => f.kind == KBool
      case Lit(LInt(i)) => f.kind == KInt && ReadInt(PutInt(i, f.width), f.uns) == i && (f.uns ==> i >= 0)
      case Lit(LReal(_)) => f.kind == KReal
      case Lit(LStr(_)) => f.kind == KString
      case _ => false
  {
    hide ReadInt, PutInt;
    if n.Lit? && n.lit.LInt? && f.kind == KInt { IntSlotExact(n.lit.i, f.width, f.uns); }
  }

  // The literal field i's slot holds for this ad, if any; None is the escape bit.
  function SlotLit(s: Schema, ad: seq<Entry>, i: nat): (r: Option<Literal>)
    requires i < |s.fields|
    ensures r.Some? ==> LitKind(r.value) == Some(s.fields[i].kind)
  {
    match Lookup(ad, s.fields[i].id)
    case Some(n) => if Storable(s.fields[i], n) then Some(n.lit) else None
    case None => None
  }

  predicate InSlot(s: Schema, e: Entry)
  {
    e.id in s.byId && s.byId[e.id] < |s.fields| && Storable(s.fields[s.byId[e.id]], e.node)
  }

  // What is left for the cold tail: attributes the schema does not carry, and those that escaped,
  // in the ad's own order and keyed in the tail's id space.
  function ColdEntries(s: Schema, key: nat -> nat, ad: seq<Entry>): (es: seq<Entry>)
  {
    if ad == [] then []
    else
      var n := |ad| - 1;
      ColdEntries(s, key, ad[..n]) + if InSlot(s, ad[n]) then [] else [Entry(key(ad[n].id), ad[n].node)]
  }

  // The ad without the attributes a group column has taken.
  function Without(ad: seq<Entry>, skip: set<nat>): (r: seq<Entry>)
  {
    if ad == [] then []
    else
      var n := |ad| - 1;
      Without(ad[..n], skip) + if ad[n].id in skip then [] else [ad[n]]
  }

  // The string region from field i on: uvarint(len)+bytes for each stored string, in field order.
  function StringRegion(s: Schema, ad: seq<Entry>, i: nat): (r: seq<byte>)
    requires i <= |s.fields|
    decreases |s.fields| - i
  {
    if i == |s.fields| then []
    else if s.fields[i].kind == KString && SlotLit(s, ad, i).Some? then
      var str := SlotLit(s, ad, i).value.s;
      PutUvarint(|str|) + str + StringRegion(s, ad, i + 1)
    else StringRegion(s, ad, i + 1)
  }

  // The 64-bit pattern of a numeric literal.
  function NumBytes(l: Literal, w: nat): (b: seq<byte>)
    requires l.LInt? || l.LReal?
    ensures |b| == w
  {
    match l case LInt(i) => PutInt(i, w) case LReal(bits) => PutLE(bits, w)
  }

  // Bit i of a bitset; clear outside it.
  predicate HasBit(b: seq<byte>, i: nat) { i / 8 < |b| && TestBit(b, i) }

  // Field i of a blob agrees with the ad: the literal's bytes, or for a bool its bit.
  predicate SlotHolds(s: Schema, ad: seq<Entry>, blob: seq<byte>, i: nat)
    requires i < |s.fields|
  {
    var f, l := s.fields[i], SlotLit(s, ad, i);
    && (Numeric(f) && l.Some? ==> SlotBytes(s, blob, i) == NumBytes(l.value, f.width))
    && (f.kind == KBool ==> HasBit(blob, f.boolBit) == (l.Some? && l.value.b))
  }

  ghost predicate BlobOf(s: Schema, ad: seq<Entry>, blob: seq<byte>)
  {
    |blob| == s.fixedLen && forall i: nat {:trigger SlotHolds(s, ad, blob, i)} ::
      i < |s.fields| ==> SlotHolds(s, ad, blob, i)
  }

  // The escape bitmap of an ad: a set bit says the slot does not hold the value.
  ghost predicate EscapesOf(s: Schema, ad: seq<Entry>, esc: seq<byte>)
  {
    |esc| == s.escBytes && forall i: nat {:trigger HasBit(esc, i)} ::
      i < |s.fields| ==> (HasBit(esc, i) <==> SlotLit(s, ad, i).None?)
  }

  function PrefixLen(s: Schema): (n: nat) { s.escBytes + s.fixedLen }

  // rec is the row form of ad.
  ghost predicate RowOf(s: Schema, key: nat -> nat, ad: seq<Entry>, rec: seq<byte>)
  {
    && PrefixLen(s) <= |rec|
    && EscapesOf(s, ad, rec[..s.escBytes])
    && BlobOf(s, ad, rec[s.escBytes..PrefixLen(s)])
    && rec[PrefixLen(s)..] == StringRegion(s, ad, 0) + EncodeEntries(ColdEntries(s, key, ad))
  }

  // ---------------------------------------------------------------- encoding a row

  lemma {:induction false} LookupSnoc(es: seq<Entry>, e: Entry, id: nat)
    ensures Lookup(es + [e], id) ==
      if Lookup(es, id).Some? then Lookup(es, id) else if e.id == id then Some(e.node) else None
  {
    if es == [] {
      assert es + [e] == [e];
    } else {
      assert (es + [e])[1..] == es[1..] + [e];
      LookupSnoc(es[1..], e, id);
    }
  }

  // Adding a fresh attribute affects its own field only.
  lemma SlotLitSnoc(s: Schema, ad: seq<Entry>, e: Entry, i: nat)
    requires i < |s.fields| && Lookup(ad, e.id).None?
    ensures s.fields[i].id != e.id ==> SlotLit(s, ad + [e], i) == SlotLit(s, ad, i)
    ensures s.fields[i].id == e.id ==>
      SlotLit(s, ad, i).None? &&
      SlotLit(s, ad + [e], i) == if Storable(s.fields[i], e.node) then Some(e.node.lit) else None
  {
    LookupSnoc(ad, e, s.fields[i].id);
  }

  lemma {:induction false} LookupWithout(ad: seq<Entry>, skip: set<nat>, id: nat)
    ensures Lookup(Without(ad, skip), id) == if id in skip then None else Lookup(ad, id)
    decreases |ad|
  {
    if ad != [] {
      var n := |ad| - 1;
      LookupWithout(ad[..n], skip, id);
      assert ad == ad[..n] + [ad[n]];
      LookupSnoc(ad[..n], ad[n], id);
      if ad[n].id in skip {
        assert Without(ad, skip) == Without(ad[..n], skip);
      } else {
        LookupSnoc(Without(ad[..n], skip), ad[n], id);
      }
    }
  }

  lemma {:induction false} ZeroBit(i: nat)
    ensures !Bit(0, i)
  {
    if i > 0 { ZeroBit(i - 1); }
  }

  method SetBitAt(a: array<byte>, i: nat)
    requires i / 8 < a.Length
    modifies a
    ensures a[..] == SetBit(old(a[..]), i)
  {
    if !Bit(a[i / 8], i % 8) {
      OrBitByte(a[i / 8], i % 8);
      a[i / 8] := a[i / 8] + Pow2(i % 8);
    }
  }

  lemma StoreBoolFrame(s: Schema, before: seq<byte>, after: seq<byte>, seen: seq<Entry>, e: Entry, i: nat)
    requires ValidSchema(s) && |before| == s.fixedLen && InSlot(s, e) && Lookup(seen, e.id).None? && i < |s.fields|
    requires e.node.lit.LBool? && s.fields[s.byId[e.id]].boolBit / 8 < s.boolBytes <= s.fixedLen
    requires after == if e.node.lit.b then SetBit(before, s.fields[s.byId[e.id]].boolBit) else before
    requires SlotHolds(s, seen, before, i)
    ensures SlotHolds(s, seen + [e], after, i)
  {
    hide Lookup, SlotLit, ValidSchema, SetBit;
    var idx, f := s.byId[e.id], s.fields[i];
    FieldAt(s, i);
    IdAt(s, e.id);
    SlotLitSnoc(s, seen, e, i);
    if Numeric(f) {
      SlotInside(s, i);
      assert after[f.off..f.off + f.width] == before[f.off..f.off + f.width];
    } else if f.kind == KBool {
      BoolBitInside(s, i);
      if i < idx { BoolBitsDistinct(s, i, idx); } else if idx < i { BoolBitsDistinct(s, idx, i); }
      assert HasBit(after, f.boolBit) == TestBit(after, f.boolBit);
    }
  }

  lemma StoreNumFrame(s: Schema, before: seq<byte>, after: seq<byte>, seen: seq<Entry>, e: Entry, i: nat)
    requires ValidSchema(s) && |before| == s.fixedLen && InSlot(s, e) && Lookup(seen, e.id).None? && i < |s.fields|
    requires Numeric(s.fields[s.byId[e.id]])
    requires s.fields[s.byId[e.id]].off + s.fields[s.byId[e.id]].width <= s.fixedLen
    requires var f := s.fields[s.byId[e.id]];
      after == before[..f.off] + NumBytes(e.node.lit, f.width) + before[f.off + f.width..]
    requires SlotHolds(s, seen, before, i)
    ensures SlotHolds(s, seen + [e], after, i)
  {
    hide Lookup, SlotLit, ValidSchema, NumBytes;
    var idx := s.byId[e.id];
    var f := s.fields[i];
    FieldAt(s, i);
    IdAt(s, e.id);
    SlotLitSnoc(s, seen, e, i);
    SlotInside(s, idx);
    if Numeric(f) {
      SlotInside(s, i);
      Overwrite(before, s.fields[idx].off, NumBytes(e.node.lit, s.fields[idx].width), f.off, f.off + f.width);
      if i < idx { SlotsDisjoint(s, i, idx); } else if idx < i { SlotsDisjoint(s, idx, i); }
    } else if f.kind == KBool {
      BoolBitInside(s, i);
      BoolsInPrefix(s);
      Overwrite(before, s.fields[idx].off, NumBytes(e.node.lit, s.fields[idx].width), 0, s.boolBytes);
      assert after[f.boolBit / 8] == after[0..s.boolBytes][f.boolBit / 8];
      assert before[f.boolBit / 8] == before[0..s.boolBytes][f.boolBit / 8];
    }
  }

  // Writing one stored value into its slot leaves every other slot as it was.
  method StoreSlot(s: Schema, fixed: array<byte>, ghost seen: seq<Entry>, e: Entry)
    requires ValidSchema(s) && ValidEntry(e) && InSlot(s, e) && Lookup(seen, e.id).None?
    requires BlobOf(s, seen, fixed[..])
    modifies fixed
    ensures BlobOf(s, seen + [e], fixed[..])
  {
    hide Lookup, SlotLit, SlotOff, BoolsBefore, PutLE, SetBit, SlotHolds;
    var idx := s.byId[e.id];
    var f := s.fields[idx];
    ghost var before := fixed[..];
    if f.kind == KBool {
      BoolBitInside(s, idx);
      BoolsInPrefix(s);
      if e.node.lit.b {
        SetBitAt(fixed, f.boolBit);
      }
      forall i: nat | i < |s.fields| ensures SlotHolds(s, seen + [e], fixed[..], i) {
        assert SlotHolds(s, seen, before, i);
        StoreBoolFrame(s, before, fixed[..], seen, e, i);
      }
    } else if Numeric(f) {
      SlotInside(s, idx);
      assert FieldOK(s, idx);
      PutIntLE(fixed, f.off, if e.node.lit.LInt? then e.node.lit.i else e.node.lit.bits, f.width);
      forall i: nat | i < |s.fields| ensures SlotHolds(s, seen + [e], fixed[..], i) {
        assert SlotHolds(s, seen, before, i);
        StoreNumFrame(s, before, fixed[..], seen, e, i);
      }
    } else {
      forall i: nat | i < |s.fields| ensures SlotHolds(s, seen + [e], fixed[..], i) {
        assert SlotHolds(s, seen, before, i);
        StoreStringFrame(s, before, seen, e, i);
      }
    }
  }

  lemma StoreStringFrame(s: Schema, blob: seq<byte>, seen: seq<Entry>, e: Entry, i: nat)
    requires ValidSchema(s) && InSlot(s, e) && Lookup(seen, e.id).None? && i < |s.fields|
    requires s.fields[s.byId[e.id]].kind == KString && SlotHolds(s, seen, blob, i)
    ensures SlotHolds(s, seen + [e], blob, i)
  {
    assert IdOK(s, e.id) && FieldOK(s, i);
    SlotLitSnoc(s, seen, e, i);
  }

  lemma ColdEntriesSnoc(s: Schema, key: nat -> nat, ad: seq<Entry>, e: Entry)
    ensures ColdEntries(s, key, ad + [e]) ==
      ColdEntries(s, key, ad) + if InSlot(s, e) then [] else [Entry(key(e.id), e.node)]
  {
    assert (ad + [e])[..|ad|] == ad;
  }

  lemma {:induction false} EncodeEntriesSnoc(es: seq<Entry>, e: Entry)
    ensures EncodeEntries(es + [e]) == EncodeEntries(es) + EncodeEntry(e)
  {
    if es == [] {
      assert es + [e] == [e] && [e][1..] == [];
    } else {
      assert (es + [e])[1..] == es[1..] + [e];
      EncodeEntriesSnoc(es[1..], e);
    }
  }

  // The encoder's string table: filled marks the slots taken, strVals keeps the stored strings.
  predicate Recorded(s: Schema, ad: seq<Entry>, filled: seq<bool>, strVals: seq<seq<byte>>, i: nat)
    requires i < |s.fields| && |filled| == |s.fields| && |strVals| == |s.fields|
  {
    && filled[i] == SlotLit(s, ad, i).Some?
    && (filled[i] && s.fields[i].kind == KString ==> strVals[i] == SlotLit(s, ad, i).value.s)
  }

  ghost predicate AllRecorded(s: Schema, ad: seq<Entry>, filled: seq<bool>, strVals: seq<seq<byte>>)
  {
    && |filled| == |s.fields| && |strVals| == |s.fields|
    && forall i: nat {:trigger Recorded(s, ad, filled, strVals, i)} ::
       i < |s.fields| ==> Recorded(s, ad, filled, strVals, i)
  }

  lemma RecordedFrame(s: Schema, seen: seq<Entry>, e: Entry, filled: seq<bool>, strVals: seq<seq<byte>>,
                      filled': seq<bool>, strVals': seq<seq<byte>>)
    requires ValidSchema(s) && Lookup(seen, e.id).None? && AllRecorded(s, seen, filled, strVals)
    requires |filled'| == |filled| && |strVals'| == |strVals|
    requires InSlot(s, e) ==> (var idx := s.byId[e.id];
      filled' == filled[idx := true] &&
      strVals' == if s.fields[idx].kind == KString then strVals[idx := e.node.lit.s] else strVals)
    requires !InSlot(s, e) ==> filled' == filled && strVals' == strVals
    ensures AllRecorded(s, seen + [e], filled', strVals')
  {
    forall i: nat | i < |s.fields| ensures Recorded(s, seen + [e], filled', strVals', i) {
      assert Recorded(s, seen, filled, strVals, i) && FieldOK(s, i);
      if e.id in s.byId { assert IdOK(s, e.id); }
      SlotLitSnoc(s, seen, e, i);
    }
  }

  lemma BlobUnchanged(s: Schema, seen: seq<Entry>, e: Entry, blob: seq<byte>)
    requires ValidSchema(s) && Lookup(seen, e.id).None? && !InSlot(s, e) && BlobOf(s, seen, blob)
    ensures BlobOf(s, seen + [e], blob)
  {
    forall i: nat | i < |s.fields| ensures SlotHolds(s, seen + [e], blob, i) {
      assert SlotHolds(s, seen, blob, i) && FieldOK(s, i);
      SlotLitSnoc(s, seen, e, i);
    }
  }

  // One attribute of the ad: to its slot, or to the cold tail.
  method PlaceEntry(s: Schema, fixed: array<byte>, filled: array<bool>, strVals: array<seq<byte>>, cold: seq<byte>,
                    key: nat -> nat, ghost seen: seq<Entry>, e: Entry)
    returns (cold': seq<byte>)
    requires ValidSchema(s) && ValidEntry(e) && Lookup(seen, e.id).None?
    requires BlobOf(s, seen, fixed[..]) && AllRecorded(s, seen, filled[..], strVals[..])
    requires cold == EncodeEntries(ColdEntries(s, key, seen))
    modifies fixed, filled, strVals
    ensures BlobOf(s, seen + [e], fixed[..]) && AllRecorded(s, seen + [e], filled[..], strVals[..])
    ensures cold' == EncodeEntries(ColdEntries(s, key, seen + [e]))
  {
    ColdEntriesSnoc(s, key, seen, e);
    ghost var filled0, strVals0 := filled[..], strVals[..];
    cold' := cold;
    if e.id in s.byId { assert IdOK(s, e.id); }
    if e.id !in s.byId || !Storable(s.fields[s.byId[e.id]], e.node) {
      EncodeEntriesSnoc(ColdEntries(s, key, seen), Entry(key(e.id), e.node));
      cold' := cold + (PutUvarint(key(e.id)) + EncodeNode(e.node));
      BlobUnchanged(s, seen, e, fixed[..]);
    } else {
      var idx := s.byId[e.id];
      assert ColdEntries(s, key, seen) + [] == ColdEntries(s, key, seen);
      StoreSlot(s, fixed, seen, e);
      if s.fields[idx].kind == KString {
        strVals[idx] := e.node.lit.s;
      }
      filled[idx] := true;
    }
    RecordedFrame(s, seen, e, filled0, strVals0, filled[..], strVals[..]);
  }

  lemma EmptyRow(s: Schema, blob: seq<byte>, filled: seq<bool>, strVals: seq<seq<byte>>)
    requires ValidSchema(s) && |blob| == s.fixedLen && forall p :: 0 <= p < |blob| ==> blob[p] == 0
    requires |filled| == |s.fields| && |strVals| == |s.fields| && forall i :: 0 <= i < |filled| ==> !filled[i]
    ensures BlobOf(s, [], blob) && AllRecorded(s, [], filled, strVals)
  {
    forall i: nat | i < |s.fields| ensures SlotHolds(s, [], blob, i) {
      ZeroBit(s.fields[i].boolBit % 8);
    }
  }

  // The pass over the ad's attributes, in wire order.
  method PlaceAll(s: Schema, ad: seq<Entry>, skip: set<nat>, key: nat -> nat, fixed: array<byte>, filled: array<bool>,
                  strVals: array<seq<byte>>)
    returns (cold: seq<byte>)
    requires ValidSchema(s) && ValidAd(ad)
    requires BlobOf(s, [], fixed[..]) && AllRecorded(s, [], filled[..], strVals[..])
    modifies fixed, filled, strVals
    ensures BlobOf(s, Without(ad, skip), fixed[..]) && AllRecorded(s, Without(ad, skip), filled[..], strVals[..])
    ensures cold == EncodeEntries(ColdEntries(s, key, Without(ad, skip)))
  {
    cold := [];
    var j := 0;
    assert ad[..0] == [];
    while j < |ad|
      invariant 0 <= j <= |ad|
      invariant cold == EncodeEntries(ColdEntries(s, key, Without(ad[..j], skip)))
      invariant BlobOf(s, Without(ad[..j], skip), fixed[..])
      invariant AllRecorded(s, Without(ad[..j], skip), filled[..], strVals[..])
    {
      WithoutStep(ad, j, skip);
      if ad[j].id !in skip {
        cold := PlaceEntry(s, fixed, filled, strVals, cold, key, Without(ad[..j], skip), ad[j]);
      }
      j := j + 1;
    }
    assert ad[..|ad|] == ad;
  }

  // The encoder: place what fits, escape the rest to the cold tail, drop what a group column stores.
  method EncodeExcept(s: Schema, ad: seq<Entry>, skip: set<nat>, key: nat -> nat) returns (rec: seq<byte>)
    requires ValidSchema(s) && ValidAd(ad)
    ensures RowOf(s, key, Without(ad, skip), rec)
  {
    var fixed := new byte[s.fixedLen](_ => 0);
    var filled := new bool[|s.fields|](_ => false);
    var strVals := new seq<byte>[|s.fields|](_ => []);
    EmptyRow(s, fixed[..], filled[..], strVals[..]);
    var cold := PlaceAll(s, ad, skip, key, fixed, filled, strVals);
    ghost var seen := Without(ad, skip);
    var esc := EscapeBits(s, seen, filled[..], strVals[..]);
    var strs := Strings(s, seen, filled[..], strVals[..]);
    rec := esc + fixed[..] + strs + cold;
    RowAssembled(s, key, seen, esc, fixed[..]);
  }

  lemma WithoutStep(ad: seq<Entry>, j: nat, skip: set<nat>)
    requires j < |ad| && ValidAd(ad)
    ensures ValidEntry(ad[j]) && Lookup(Without(ad[..j], skip), ad[j].id).None?
    ensures Without(ad[..j + 1], skip) == if ad[j].id in skip then Without(ad[..j], skip)
      else Without(ad[..j], skip) + [ad[j]]
  {
    assert ad[..j + 1][..j] == ad[..j];
    LookupWithout(ad[..j], skip, ad[j].id);
    assert Without(ad[..j], skip) + [] == Without(ad[..j], skip);
  }

  lemma RowAssembled(s: Schema, key: nat -> nat, ad: seq<Entry>, esc: seq<byte>, blob: seq<byte>)
    requires EscapesOf(s, ad, esc) && BlobOf(s, ad, blob)
    ensures RowOf(s, key, ad, esc + blob + StringRegion(s, ad, 0) + EncodeEntries(ColdEntries(s, key, ad)))
  {
    var strs, cold := StringRegion(s, ad, 0), EncodeEntries(ColdEntries(s, key, ad));
    var rec := esc + blob + strs + cold;
    assert rec[..s.escBytes] == esc;
    assert rec[s.escBytes..PrefixLen(s)] == blob;
    assert rec[PrefixLen(s)..] == strs + cold;
  }

  // A set bit per field that is missing or exceptional.
  method EscapeBits(s: Schema, ghost ad: seq<Entry>, filled: seq<bool>, ghost strVals: seq<seq<byte>>)
    returns (esc: seq<byte>)
    requires ValidSchema(s) && AllRecorded(s, ad, filled, strVals)
    ensures EscapesOf(s, ad, esc)
  {
    var a := new byte[s.escBytes](_ => 0);
    forall x: nat ensures !HasBit(a[..], x) { ZeroBit(x % 8); }
    var i := 0;
    while i < |s.fields|
      invariant 0 <= i <= |s.fields|
      invariant forall x: nat {:trigger HasBit(a[..], x)} ::
        x < |s.fields| ==> (HasBit(a[..], x) <==> x < i && !filled[x])
    {
      if !filled[i] {
        ghost var b := a[..];
        SetBitAt(a, i);
        forall x: nat | x < |s.fields| ensures HasBit(a[..], x) <==> x == i || HasBit(b, x) {
          assert TestBit(a[..], x) <==> x == i || TestBit(b, x);
        }
      }
      i := i + 1;
    }
    esc := a[..];
    forall x: nat | x < |s.fields| ensures HasBit(esc, x) <==> SlotLit(s, ad, x).None? {
      assert Recorded(s, ad, filled, strVals, x);
    }
  }

  // The stored strings, in field order, each behind its length.
  method Strings(s: Schema, ghost ad: seq<Entry>, filled: seq<bool>, strVals: seq<seq<byte>>) returns (strs: seq<byte>)
    requires AllRecorded(s, ad, filled, strVals)
    ensures strs == StringRegion(s, ad, 0)
  {
    strs := [];
    var i := 0;
    while i < |s.fields|
      invariant 0 <= i <= |s.fields|
      invariant strs + StringRegion(s, ad, i) == StringRegion(s, ad, 0)
    {
      assert Recorded(s, ad, filled, strVals, i);
      if s.fields[i].kind == KString && filled[i] {
        var str := strVals[i];
        assert strs + (PutUvarint(|str|) + str + StringRegion(s, ad, i + 1)) ==
               strs + PutUvarint(|str|) + str + StringRegion(s, ad, i + 1);
        strs := strs + PutUvarint(|str|) + str;
      }
      i := i + 1;
    }
  }

  // ---------------------------------------------------------------- reading a row back

  // An attribute as the row reader yields it: slot values carry the schema's id, tail entries the
  // id they were stored under.
  datatype Keyed = Keyed(e: Entry, fromCold: bool)

  function TagCold(es: seq<Entry>): (r: seq<Keyed>)
    ensures |r| == |es|
  {
    if es == [] then [] else [Keyed(es[0], true)] + TagCold(es[1..])
  }

  // The whole tail, or None when it is malformed anywhere.
  function ReadTail(b: seq<byte>): (r: Option<seq<Entry>>)
    decreases |b|
  {
    if b == [] then Some([]) else
    match ReadEntry(b)
    case None => None
    case Some((e, n)) =>
      match ReadTail(b[n..]) { case None => None case Some(es) => Some([e] + es) }
  }

  lemma {:induction false} TailRoundTrip(es: seq<Entry>)
    requires ValidEntries(es)
    ensures ReadTail(EncodeEntries(es)) == Some(es)
  {
    hide ReadEntry, EncodeEntry, ValidEntry;
    if es != [] {
      var t := EncodeEntries(es);
      assert t == EncodeEntry(es[0]) + EncodeEntries(es[1..]);
      ReadEntryEncoded(es[0], EncodeEntries(es[1..]));
      assert t != [];
      TailRoundTrip(es[1..]);
      assert t[|EncodeEntry(es[0])|..] == EncodeEntries(es[1..]);
      assert es == [es[0]] + es[1..];
    }
  }

  // A non-string slot's value.
  function SlotNode(s: Schema, blob: seq<byte>, i: nat): (n: Node)
    requires i < |s.fields|
  {
    var f := s.fields[i];
    match f.kind
    case KBool => Lit(LBool(HasBit(blob, f.boolBit)))
    case KInt => var b := SlotBytes(s, blob, i); Lit(LInt(if |b| <= 8 then ReadInt(b, f.uns) else 0))
    case KReal => Lit(LReal(GetLE(SlotBytes(s, blob, i))))
    case KString => Lit(LStr([]))
  }

  // Fields i.. and then the tail, with the string cursor at p; None on a malformed row.
  function DecodeFrom(s: Schema, rec: seq<byte>, i: nat, p: nat): (r: Option<seq<Keyed>>)
    requires i <= |s.fields| && PrefixLen(s) <= p <= |rec|
    decreases |s.fields| - i
  {
    if i == |s.fields| then
      match ReadTail(rec[p..]) { case None => None case Some(es) => Some(TagCold(es)) }
    else if HasBit(rec[..s.escBytes], i) then DecodeFrom(s, rec, i + 1, p)
    else if s.fields[i].kind == KString then
      match GetUvarint(rec[p..])
      case None => None
      case Some((l, m)) =>
        if p + m + l > |rec| then None
        else
          Prepend(Keyed(Entry(s.fields[i].id, Lit(LStr(rec[p + m..p + m + l]))), false),
            DecodeFrom(s, rec, i + 1, p + m + l))
    else
      Prepend(Keyed(Entry(s.fields[i].id, SlotNode(s, rec[s.escBytes..PrefixLen(s)], i)), false),
        DecodeFrom(s, rec, i + 1, p))
  }

  function Prepend(k: Keyed, r: Option<seq<Keyed>>): (r': Option<seq<Keyed>>)
  {
    match r case None => None case Some(ks) => Some([k] + ks)
  }

  function DecodeRow(s: Schema, rec: seq<byte>): (r: Option<seq<Keyed>>)
  {
    if |rec| < PrefixLen(s) then None else DecodeFrom(s, rec, 0, PrefixLen(s))
  }

  // What the slots hold, in field order.
  function SlotEntries(s: Schema, ad: seq<Entry>, i: nat): (es: seq<Keyed>)
    requires i <= |s.fields|
    decreases |s.fields| - i
  {
    if i == |s.fields| then []
    else
      (if SlotLit(s, ad, i).Some? then [Keyed(Entry(s.fields[i].id, Lit(SlotLit(s, ad, i).value)), false)] else [])
      + SlotEntries(s, ad, i + 1)
  }

  // A non-string slot reads back the literal it was given.
  lemma SlotReadsBack(s: Schema, ad: seq<Entry>, blob: seq<byte>, i: nat)
    requires ValidSchema(s) && ValidAd(ad) && BlobOf(s, ad, blob) && i < |s.fields|
    requires SlotLit(s, ad, i).Some? && s.fields[i].kind != KString
    ensures SlotNode(s, blob, i) == Lit(SlotLit(s, ad, i).value)
  {
    hide Lookup, SlotOff, BoolsBefore, PutLE, GetLE, ReadInt, PutInt;
    assert FieldOK(s, i) && SlotHolds(s, ad, blob, i);
    var f, l := s.fields[i], SlotLit(s, ad, i).value;
    SlotLitValid(s, ad, i);
    if f.kind == KInt {
      IntSlotExact(l.i, f.width, f.uns);
    } else if f.kind == KReal {
      GetPutLE(l.bits, 8);
      Pow256Widths();
    }
  }

  lemma SlotLitValid(s: Schema, ad: seq<Entry>, i: nat)
    requires ValidAd(ad) && i < |s.fields| && SlotLit(s, ad, i).Some?
    ensures ValidLiteral(SlotLit(s, ad, i).value)
    ensures Entry(s.fields[i].id, Lit(SlotLit(s, ad, i).value)) in ad
  {
    var n := Lookup(ad, s.fields[i].id).value;
    var j :| 0 <= j < |ad| && ad[j] == Entry(s.fields[i].id, n);
    assert ValidEntry(ad[j]);
  }

  // Decoding from field i on yields the remaining slots, then the cold tail.
  lemma {:induction false} DecodeFromRow(s: Schema, ad: seq<Entry>, cold: seq<Entry>, rec: seq<byte>, i: nat, p: nat)
    requires ValidSchema(s) && ValidAd(ad) && ValidEntries(cold) && i <= |s.fields| && PrefixLen(s) <= p <= |rec|
    requires EscapesOf(s, ad, rec[..s.escBytes]) && BlobOf(s, ad, rec[s.escBytes..PrefixLen(s)])
    requires rec[p..] == StringRegion(s, ad, i) + EncodeEntries(cold)
    ensures DecodeFrom(s, rec, i, p) == Some(SlotEntries(s, ad, i) + TagCold(cold))
    decreases |s.fields| - i
  {
    hide SlotLit, SlotEntries, StringRegion, EncodeEntries, TagCold, DecodeFrom, ValidSchema, ValidAd, ValidEntries,
      EscapesOf, BlobOf, PrefixLen;
    if i == |s.fields| {
      DecodeTail(s, ad, cold, rec, p);
    } else {
      SlotEntriesStep(s, ad, i);
      if SlotLit(s, ad, i).None? {
        StringRegionStep(s, ad, i);
        DecodeFromRow(s, ad, cold, rec, i + 1, p);
        DecodeEscaped(s, ad, rec, i, p);
      } else {
        var k := Keyed(Entry(s.fields[i].id, Lit(SlotLit(s, ad, i).value)), false);
        assert [k] + (SlotEntries(s, ad, i + 1) + TagCold(cold)) == SlotEntries(s, ad, i) + TagCold(cold);
        if s.fields[i].kind == KString {
          var q := DecodeString(s, ad, cold, rec, i, p);
          DecodeFromRow(s, ad, cold, rec, i + 1, q);
        } else {
          StringRegionStep(s, ad, i);
          DecodeFromRow(s, ad, cold, rec, i + 1, p);
          DecodeSlot(s, ad, rec, i, p);
        }
      }
    }
  }

  lemma DecodeTail(s: Schema, ad: seq<Entry>, cold: seq<Entry>, rec: seq<byte>, p: nat)
    requires ValidEntries(cold) && PrefixLen(s) <= p <= |rec|
    requires rec[p..] == StringRegion(s, ad, |s.fields|) + EncodeEntries(cold)
    ensures DecodeFrom(s, rec, |s.fields|, p) == Some(SlotEntries(s, ad, |s.fields|) + TagCold(cold))
  {
    hide TagCold, EncodeEntries, ReadTail;
    assert rec[p..] == EncodeEntries(cold);
    TailRoundTrip(cold);
    assert [] + TagCold(cold) == TagCold(cold);
  }

  lemma StringRegionStep(s: Schema, ad: seq<Entry>, i: nat)
    requires i < |s.fields|
    ensures StringRegion(s, ad, i) ==
      if s.fields[i].kind == KString && SlotLit(s, ad, i).Some? then
        PutUvarint(|SlotLit(s, ad, i).value.s|) + SlotLit(s, ad, i).value.s + StringRegion(s, ad, i + 1)
      else StringRegion(s, ad, i + 1)
  {
  }

  lemma SlotEntriesStep(s: Schema, ad: seq<Entry>, i: nat)
    requires i < |s.fields|
    ensures SlotEntries(s, ad, i) ==
      if SlotLit(s, ad, i).Some? then
        [Keyed(Entry(s.fields[i].id, Lit(SlotLit(s, ad, i).value)), false)] + SlotEntries(s, ad, i + 1)
      else SlotEntries(s, ad, i + 1)
  {
    if SlotLit(s, ad, i).None? {
      assert [] + SlotEntries(s, ad, i + 1) == SlotEntries(s, ad, i + 1);
    }
  }

  lemma DecodeEscaped(s: Schema, ad: seq<Entry>, rec: seq<byte>, i: nat, p: nat)
    requires i < |s.fields| && PrefixLen(s) <= p <= |rec|
    requires EscapesOf(s, ad, rec[..s.escBytes]) && SlotLit(s, ad, i).None?
    ensures DecodeFrom(s, rec, i, p) == DecodeFrom(s, rec, i + 1, p)
  {
    assert HasBit(rec[..s.escBytes], i);
  }

  // A stored string is read at the cursor, which then stands at the next one.
  lemma DecodeString(s: Schema, ad: seq<Entry>, cold: seq<Entry>, rec: seq<byte>, i: nat, p: nat) returns (q: nat)
    requires ValidAd(ad) && i < |s.fields| && PrefixLen(s) <= p <= |rec|
    requires EscapesOf(s, ad, rec[..s.escBytes]) && SlotLit(s, ad, i).Some? && s.fields[i].kind == KString
    requires rec[p..] == StringRegion(s, ad, i) + EncodeEntries(cold)
    ensures p <= q <= |rec| && rec[q..] == StringRegion(s, ad, i + 1) + EncodeEntries(cold)
    ensures DecodeFrom(s, rec, i, p) ==
      Prepend(Keyed(Entry(s.fields[i].id, Lit(SlotLit(s, ad, i).value)), false), DecodeFrom(s, rec, i + 1, q))
  {
    hide SlotLit, GetUvarint, PutUvarint, EncodeEntries, StringRegion, DecodeFrom, EscapesOf;
    var str := SlotLit(s, ad, i).value.s;
    var m := |PutUvarint(|str|)|;
    assert |str| < TWO64 by { SlotLitValid(s, ad, i); }
    var rest := StringRegion(s, ad, i + 1) + EncodeEntries(cold);
    StringRegionStep(s, ad, i);
    assert rec[p..] == PutUvarint(|str|) + str + rest;
    StringAt(rec, p, str, rest);
    q := p + m + |str|;
    DecodeStringStep(s, ad, rec, i, p, m);
  }

  lemma DecodeStringStep(s: Schema, ad: seq<Entry>, rec: seq<byte>, i: nat, p: nat, m: nat)
    requires i < |s.fields| && PrefixLen(s) <= p <= |rec| && s.fields[i].kind == KString
    requires EscapesOf(s, ad, rec[..s.escBytes]) && SlotLit(s, ad, i).Some?
    requires var str := SlotLit(s, ad, i).value.s;
      GetUvarint(rec[p..]) == Some((|str|, m)) && p + m + |str| <= |rec| && rec[p + m..p + m + |str|] == str
    ensures var l := SlotLit(s, ad, i).value;
      DecodeFrom(s, rec, i, p) ==
      Prepend(Keyed(Entry(s.fields[i].id, Lit(l)), false), DecodeFrom(s, rec, i + 1, p + m + |l.s|))
  {
    hide SlotLit, GetUvarint;
    assert !HasBit(rec[..s.escBytes], i);
  }

  lemma DecodeSlot(s: Schema, ad: seq<Entry>, rec: seq<byte>, i: nat, p: nat)
    requires ValidSchema(s) && ValidAd(ad) && i < |s.fields| && PrefixLen(s) <= p <= |rec|
    requires EscapesOf(s, ad, rec[..s.escBytes]) && BlobOf(s, ad, rec[s.escBytes..PrefixLen(s)])
    requires SlotLit(s, ad, i).Some? && s.fields[i].kind != KString
    ensures DecodeFrom(s, rec, i, p) ==
      Prepend(Keyed(Entry(s.fields[i].id, Lit(SlotLit(s, ad, i).value)), false), DecodeFrom(s, rec, i + 1, p))
  {
    hide SlotLit, SlotNode;
    assert !HasBit(rec[..s.escBytes], i);
    SlotReadsBack(s, ad, rec[s.escBytes..PrefixLen(s)], i);
  }

  lemma StringAt(rec: seq<byte>, p: nat, str: seq<byte>, rest: seq<byte>)
    requires p <= |rec| && |str| < TWO64 && rec[p..] == PutUvarint(|str|) + str + rest
    ensures GetUvarint(rec[p..]) == Some((|str|, |PutUvarint(|str|)|))
    ensures var m := |PutUvarint(|str|)|;
      p + m + |str| <= |rec| && rec[p + m..p + m + |str|] == str && rec[p + m + |str|..] == rest
  {
    hide PutUvarint, GetUvarint;
    var m := |PutUvarint(|str|)|;
    var all := PutUvarint(|str|) + str + rest;
    assert rec[p..] == PutUvarint(|str|) + (str + rest);
    UvarintRoundTrip(|str|, str + rest);
    assert rec[p + m..p + m + |str|] == all[m..m + |str|];
    assert rec[p + m + |str|..] == all[m + |str|..];
  }

  // Round trip: decoding the encoder's row yields its slots in field order, then its cold tail.
  lemma RowRoundTrip(s: Schema, key: nat -> nat, ad: seq<Entry>, rec: seq<byte>)
    requires ValidSchema(s) && ValidAd(ad) && RowOf(s, key, ad, rec) && ValidEntries(ColdEntries(s, key, ad))
    ensures DecodeRow(s, rec) == Some(SlotEntries(s, ad, 0) + TagCold(ColdEntries(s, key, ad)))
  {
    DecodeFromRow(s, ad, ColdEntries(s, key, ad), rec, 0, PrefixLen(s));
  }

  // ---------------------------------------------------------------- the row means the ad

  // The reader's attributes in the record's own id space: slot ids are translated, tail ids are not.
  function Rekeyed(key: nat -> nat, ks: seq<Keyed>): (es: seq<Entry>)
    ensures |es| == |ks|
  {
    if ks == [] then []
    else [if ks[0].fromCold then ks[0].e else Entry(key(ks[0].e.id), ks[0].e.node)] + Rekeyed(key, ks[1..])
  }

  function RekeyAd(key: nat -> nat, ad: seq<Entry>): (es: seq<Entry>)
    ensures |es| == |ad|
    ensures forall i :: 0 <= i < |ad| ==> es[i] == Entry(key(ad[i].id), ad[i].node)
  {
    if ad == [] then [] else [Entry(key(ad[0].id), ad[0].node)] + RekeyAd(key, ad[1..])
  }

  // The tail's key does not merge two attributes of this ad.
  ghost predicate KeyInjective(key: nat -> nat, ad: seq<Entry>)
  {
    forall i, j :: 0 <= i < |ad| && 0 <= j < |ad| && key(ad[i].id) == key(ad[j].id) ==> ad[i].id == ad[j].id
  }

  lemma {:induction false} RekeyedConcat(key: nat -> nat, a: seq<Keyed>, b: seq<Keyed>)
    ensures Rekeyed(key, a + b) == Rekeyed(key, a) + Rekeyed(key, b)
  {
    if a == [] {
      assert a + b == b;
    } else {
      assert (a + b)[1..] == a[1..] + b;
      RekeyedConcat(key, a[1..], b);
    }
  }

  lemma {:induction false} RekeyedTagCold(key: nat -> nat, es: seq<Entry>)
    ensures Rekeyed(key, TagCold(es)) == es
  {
    if es != [] { RekeyedTagCold(key, es[1..]); }
  }

  // The slot half, re-keyed: one entry per stored field.
  function SlotAttrs(s: Schema, key: nat -> nat, ad: seq<Entry>): (es: seq<Entry>)
  {
    Rekeyed(key, SlotEntries(s, ad, 0))
  }

  lemma {:induction false} SlotAttrsFrom(s: Schema, key: nat -> nat, ad: seq<Entry>, i: nat, e: Entry)
    requires i <= |s.fields|
    ensures e in Rekeyed(key, SlotEntries(s, ad, i)) <==>
      exists j: nat {:trigger s.fields[j]} :: i <= j < |s.fields| && SlotLit(s, ad, j).Some? &&
                e == Entry(key(s.fields[j].id), Lit(SlotLit(s, ad, j).value))
    decreases |s.fields| - i
  {
    hide SlotLit, SlotEntries, Rekeyed;
    if i == |s.fields| {
      SlotAttrsEnd(s, key, ad);
    } else {
      SlotAttrsFrom(s, key, ad, i + 1, e);
      SlotAttrsStep(s, key, ad, i);
      assert s.fields[i] == s.fields[i];
    }
  }

  lemma SlotAttrsEnd(s: Schema, key: nat -> nat, ad: seq<Entry>)
    ensures Rekeyed(key, SlotEntries(s, ad, |s.fields|)) == []
  {
  }

  lemma SlotAttrsStep(s: Schema, key: nat -> nat, ad: seq<Entry>, i: nat)
    requires i < |s.fields|
    ensures Rekeyed(key, SlotEntries(s, ad, i)) ==
      (if SlotLit(s, ad, i).Some? then [Entry(key(s.fields[i].id), Lit(SlotLit(s, ad, i).value))] else []) +
        Rekeyed(key, SlotEntries(s, ad, i + 1))
  {
    hide SlotLit, SlotEntries;
    SlotEntriesStep(s, ad, i);
    if SlotLit(s, ad, i).Some? { assert SlotEntries(s, ad, i)[1..] == SlotEntries(s, ad, i + 1); }
  }

  // An attribute is in the slot half exactly when its value fits its field.
  lemma SlotAttrsMember(s: Schema, key: nat -> nat, ad: seq<Entry>, e: Entry)
    requires ValidSchema(s) && ValidAd(ad)
    ensures e in SlotAttrs(s, key, ad) <==>
      exists j :: 0 <= j < |ad| && InSlot(s, ad[j]) && e == Entry(key(ad[j].id), ad[j].node)
  {
    SlotAttrsFrom(s, key, ad, 0, e);
    if e in SlotAttrs(s, key, ad) {
      var i: nat :| i < |s.fields| && SlotLit(s, ad, i).Some? &&
        e == Entry(key(s.fields[i].id), Lit(SlotLit(s, ad, i).value));
      SlotLitValid(s, ad, i);
      assert FieldOK(s, i);
      var j :| 0 <= j < |ad| && ad[j] == Entry(s.fields[i].id, Lit(SlotLit(s, ad, i).value));
      assert InSlot(s, ad[j]);
    }
    if j :| 0 <= j < |ad| && InSlot(s, ad[j]) && e == Entry(key(ad[j].id), ad[j].node) {
      assert IdOK(s, ad[j].id);
      var i := s.byId[ad[j].id];
      LookupAt(ad, j);
      assert s.fields[i].id == ad[j].id;
    }
  }

  lemma {:induction false} ColdMember(s: Schema, key: nat -> nat, ad: seq<Entry>, e: Entry)
    ensures e in ColdEntries(s, key, ad) <==>
      exists j :: 0 <= j < |ad| && !InSlot(s, ad[j]) && e == Entry(key(ad[j].id), ad[j].node)
    decreases |ad|
  {
    hide InSlot;
    if ad != [] {
      var n := |ad| - 1;
      ColdMember(s, key, ad[..n], e);
      if j :| 0 <= j < |ad| && !InSlot(s, ad[j]) && e == Entry(key(ad[j].id), ad[j].node) {
        if j < n { assert ad[..n][j] == ad[j]; }
      }
      if e in ColdEntries(s, key, ad[..n]) {
        var j :| 0 <= j < n && !InSlot(s, ad[..n][j]) && e == Entry(key(ad[..n][j].id), ad[..n][j].node);
        assert ad[..n][j] == ad[j];
      }
    }
  }

  lemma {:induction false} ColdDistinct(s: Schema, key: nat -> nat, ad: seq<Entry>)
    requires DistinctIds(ad) && KeyInjective(key, ad)
    ensures DistinctIds(ColdEntries(s, key, ad))
    decreases |ad|
  {
    hide InSlot;
    if ad != [] {
      var n := |ad| - 1;
      ColdDistinct(s, key, ad[..n]);
      forall e | e in ColdEntries(s, key, ad[..n]) ensures e.id != key(ad[n].id) {
        ColdMember(s, key, ad[..n], e);
      }
    }
  }

  lemma {:induction false} SlotsDistinct(s: Schema, key: nat -> nat, ad: seq<Entry>, i: nat)
    requires ValidSchema(s) && ValidAd(ad) && KeyInjective(key, ad) && i <= |s.fields|
    ensures DistinctIds(Rekeyed(key, SlotEntries(s, ad, i)))
    decreases |s.fields| - i
  {
    hide SlotLit, SlotEntries, Lookup, BoolsBefore, SlotOff;
    if i < |s.fields| {
      SlotsDistinct(s, key, ad, i + 1);
      SlotEntriesStep(s, ad, i);
      if SlotLit(s, ad, i).Some? {
        var rest := Rekeyed(key, SlotEntries(s, ad, i + 1));
        var x := Entry(key(s.fields[i].id), Lit(SlotLit(s, ad, i).value));
        assert SlotEntries(s, ad, i)[1..] == SlotEntries(s, ad, i + 1);
        assert Rekeyed(key, SlotEntries(s, ad, i)) == [x] + rest;
        forall e | e in rest ensures e.id != x.id {
          SlotAttrsFrom(s, key, ad, i + 1, e);
          var j: nat :| i + 1 <= j < |s.fields| && SlotLit(s, ad, j).Some? &&
            e == Entry(key(s.fields[j].id), Lit(SlotLit(s, ad, j).value));
          SlotLitValid(s, ad, i);
          SlotLitValid(s, ad, j);
          assert FieldOK(s, i) && FieldOK(s, j);
        }
      }
    } else {
      assert SlotEntries(s, ad, i) == [] by { SlotEntriesEnd(s, ad); }
    }
  }

  lemma SlotEntriesEnd(s: Schema, ad: seq<Entry>)
    ensures SlotEntries(s, ad, |s.fields|) == []
  {
  }

  // The whole row, read back and re-keyed, is the ad: each attribute exactly once, with its node.
  lemma RowMeansAd(s: Schema, key: nat -> nat, ad: seq<Entry>, rec: seq<byte>)
    requires ValidSchema(s) && ValidAd(ad) && RowOf(s, key, ad, rec)
    requires ValidEntries(ColdEntries(s, key, ad)) && KeyInjective(key, ad)
    ensures DecodeRow(s, rec).Some?
    ensures var es := Rekeyed(key, DecodeRow(s, rec).value);
      DistinctIds(es) && (forall e :: e in es <==> e in RekeyAd(key, ad))
  {
    hide InSlot, SlotLit, DecodeRow, SlotEntries;
    RowRoundTrip(s, key, ad, rec);
    var cold := ColdEntries(s, key, ad);
    RekeyedConcat(key, SlotEntries(s, ad, 0), TagCold(cold));
    RekeyedTagCold(key, cold);
    var slots := SlotAttrs(s, key, ad);
    assert Rekeyed(key, DecodeRow(s, rec).value) == slots + cold;
    HalvesPartition(s, key, ad);
  }

  // The slot half and the cold half partition the ad's attributes.
  lemma HalvesPartition(s: Schema, key: nat -> nat, ad: seq<Entry>)
    requires ValidSchema(s) && ValidAd(ad) && KeyInjective(key, ad)
    ensures DistinctIds(SlotAttrs(s, key, ad) + ColdEntries(s, key, ad))
    ensures forall e :: e in SlotAttrs(s, key, ad) + ColdEntries(s, key, ad) <==> e in RekeyAd(key, ad)
  {
    hide InSlot, SlotLit, ColdEntries, ValidSchema, Rekeyed, SlotEntries;
    var slots, cold := SlotAttrs(s, key, ad), ColdEntries(s, key, ad);
    SlotsDistinct(s, key, ad, 0);
    ColdDistinct(s, key, ad);
    forall e, e' | e in slots && e' in cold ensures e.id != e'.id {
      SlotAttrsMember(s, key, ad, e);
      ColdMember(s, key, ad, e');
    }
    forall e ensures e in slots + cold <==> e in RekeyAd(key, ad) {
      SlotAttrsMember(s, key, ad, e);
      ColdMember(s, key, ad, e);
      if e in RekeyAd(key, ad) {
        var j :| 0 <= j < |ad| && RekeyAd(key, ad)[j] == e;
        assert InSlot(s, ad[j]) || !InSlot(s, ad[j]);
      }
    }
  }
}
