/** Reading one attribute of one record straight out of a block: the slot readers and the cold tail. */
module Fields {
  import opened Bytes
  import opened Wire
  import opened AdSchema
  import opened Row
  import opened ColBlock
  import opened Values

  // The string stored for field i, found by walking the positional region from field j on.
  function FindString(s: Schema, esc: seq<byte>, region: seq<byte>, j: nat, i: nat): (r: Option<seq<byte>>)
    requires j <= |s.fields|
    decreases |s.fields| - j
  {
    if j == |s.fields| then None
    else if s.fields[j].kind != KString || HasBit(esc, j) then FindString(s, esc, region, j + 1, i)
    else
      match GetUvarint(region)
      case None => None
      case Some((l, m)) =>
        if m + l > |region| then None
        else if j == i then Some(region[m..m + l])
        else FindString(s, esc, region[m + l..], j + 1, i)
  }

  // The walk over a record's string region reaches field i's own string.
  lemma {:induction false} FindStringOfRow(s: Schema, ad: seq<Entry>, esc: seq<byte>, j: nat, i: nat)
    requires ValidAd(ad) && EscapesOf(s, ad, esc) && j <= i < |s.fields|
    requires s.fields[i].kind == KString && SlotLit(s, ad, i).Some?
    ensures FindString(s, esc, StringRegion(s, ad, j), j, i) == Some(SlotLit(s, ad, i).value.s)
    decreases |s.fields| - j
  {
    hide SlotLit, GetUvarint, PutUvarint, StringRegion, ValidAd, EscapesOf, HasBit;
    EscapeBit(s, ad, esc, j);
    StringRegionStep(s, ad, j);
    if s.fields[j].kind == KString && SlotLit(s, ad, j).Some? {
      var str, region := SlotLit(s, ad, j).value.s, StringRegion(s, ad, j);
      assert |str| < TWO64 by { SlotLitValid(s, ad, j); }
      assert region[0..] == region;
      StringAt(region, 0, str, StringRegion(s, ad, j + 1));
      if j < i { FindStringOfRow(s, ad, esc, j + 1, i); }
    } else {
      FindStringOfRow(s, ad, esc, j + 1, i);
    }
  }

  // Field i of record k when its value is in the slot.
  function SlotAt(b: Block, i: nat, k: nat): (r: Option<Node>)
    requires i < |b.schema.fields|
  {
    var s := b.schema;
    var f := s.fields[i];
    match f.kind
    case KBool =>
      var bits := BitsAt(s, b.bits, k);
      if s.escBytes <= |bits| then Some(Lit(LBool(HasBit(bits[s.escBytes..], f.boolBit)))) else None
    case KString =>
      (match FindString(s, EscapeAt(b, k), PieceAt(b.strCat, b.strOff, k), 0, i)
       case Some(str) => Some(Lit(LStr(str)))
       case None => None)
    case _ =>
      match RawSlot(b, i, k)
      case Some(raw) => Some(Lit(if f.kind == KReal then LReal(GetLE(raw))
        else LInt(if |raw| <= 8 then ReadInt(raw, f.uns) else 0)))
      case None => None
  }

  // Record k's tail entry for an attribute, looked up under the id the reader's translation gives.
  function TailNode(b: Block, stored: nat -> nat, id: nat, k: nat): (r: Option<Node>)
  {
    Lookup(ReadEntries(TailAt(b, k)), stored(id))
  }

  // Field i of record k: the slot, or the cold tail when the record escaped it.
  function FieldAtRecord(b: Block, stored: nat -> nat, i: nat, k: nat): (r: Option<Node>)
    requires i < |b.schema.fields|
  {
    if Escaped(b, i, k) then TailNode(b, stored, b.schema.fields[i].id, k) else SlotAt(b, i, k)
  }

  // The tail is looked up under whatever the translation gives.
  lemma TailNodeShown(b: Block, key: nat -> nat, stored: nat -> nat, ads: seq<seq<Entry>>, id: nat, k: nat)
    requires BlockFor(b, key, ads) && k < |ads|
    ensures TailNode(b, stored, id, k) == Lookup(ColdEntries(b.schema, key, ads[k]), stored(id))
  {
    hide BlockFor, ReadEntries, ColdEntries, TailAt, Lookup;
    TailExact(b, key, ads, k);
  }

  // Under the writer's key, the tail holds what the slots do not.
  lemma TailNodeExact(b: Block, key: nat -> nat, stored: nat -> nat, ads: seq<seq<Entry>>, id: nat, k: nat)
    requires BlockFor(b, key, ads) && k < |ads| && TailApart(b.schema, key, ads[k], id) && stored(id) == key(id)
    ensures TailNode(b, stored, id, k) ==
      match Lookup(ads[k], id) case None => None case Some(n) => if InSlot(b.schema, Entry(id, n)) then None
        else Some(n)
  {
    hide BlockOf, ReadEntries, ColdEntries, TailAt, Lookup, InSlot;
    TailExact(b, key, ads, k);
    ghost var recs :| BlockOf(b, recs) && RowsOf(b.schema, key, ads, recs);
    assert ValidAd(ads[k]);
    ColdLookup(b.schema, key, ads[k], id);
  }

  // The translation a freshly built block carries: the schema's fields, and no other attribute.
  function FreshStored(s: Schema, key: nat -> nat, id: nat): (r: nat) { if id in s.byId then key(id) else id }

  // Reading the tail of a freshly built block is right for an attribute on every ad if and only if the dictionary
  // names the attribute and it is a schema field or numbered by its own id, or the dictionary does not name it
  // and gives its id to no other attribute.
  lemma FreshTailRead(s: Schema, key: nat -> nat, named: nat -> bool, id: nat)
    requires KeyedBy(key, named)
    ensures
      (if named(id) then id in s.byId || key(id) == id else forall y: nat {:trigger named(y)} ::
        named(y) ==> key(y) != id) <==>
      forall ad {:trigger ColdEntries(s, key, ad)} :: ValidAd(ad) && TailNamed(s, named, ad) && NotInSlot(s, ad, id) ==>
        Lookup(ColdEntries(s, key, ad), FreshStored(s, key, id)) == Lookup(ad, id)
  {
    hide ValidAd, ColdEntries, Lookup, TailNamed, NotInSlot;
    TailReadExactly(s, key, named, id, FreshStored(s, key, id));
  }

  // An attribute outside the schema that the dictionary renumbers is not found.
  lemma LostAttribute(s: Schema, key: nat -> nat, named: nat -> bool, id: nat)
    requires KeyedBy(key, named) && id !in s.byId && key(id) != id
    ensures var ad := [Entry(id, Lit(LUndef))];
      && ValidAd(ad) && TailNamed(s, named, ad) && NotInSlot(s, ad, id)
      && Lookup(ad, id) == Some(Lit(LUndef)) && Lookup(ColdEntries(s, key, ad), FreshStored(s, key, id)) == None
  {
    hide ColdEntries, Lookup, ValidAd, TailNamed, NotInSlot;
    LoneTail(s, key, named, id, FreshStored(s, key, id));
  }

  lemma SlotAtExact(b: Block, key: nat -> nat, ads: seq<seq<Entry>>, i: nat, k: nat)
    requires BlockFor(b, key, ads) && k < |ads| && i < |b.schema.fields| && SlotLit(b.schema, ads[k], i).Some?
    ensures SlotAt(b, i, k) == Some(Lit(SlotLit(b.schema, ads[k], i).value))
  {
    hide BlockOf, RawSlot, NumBytes, GetLE, ReadInt, FindString, PieceAt, SlotLit, StringRegion, Shaped, SlotVal;
    var s, ad := b.schema, ads[k];
    var f, l := s.fields[i], SlotLit(s, ad, i).value;
    var recs :| BlockOf(b, recs) && RowsOf(s, key, ads, recs);
    BlockCount(b, recs);
    ReadersSeeRow(b, recs, k);
    assert RowOf(s, key, ad, recs[k]) && ValidAd(ad);
    FieldAt(s, i);
    if f.kind == KBool {
      BoolSlotExact(s, key, ad, recs[k], i);
    } else if f.kind == KString {
      SplitRow(s, key, ad, recs[k]);
      FindStringOfRow(s, ad, recs[k][..s.escBytes], 0, i);
    } else {
      RawExact(b, key, ads, i, k);
      SlotLitValid(s, ad, i);
      StoredLit(s, ad, i);
      SlotValExact(f, l);
      SlotValNode(f, NumBytes(l, f.width), l);
    }
  }

  lemma SlotValNode(f: Field, raw: seq<byte>, l: Literal)
    requires Numeric(f) && Storable(f, Lit(l)) && Some(SlotVal(f, raw)) == NodeVal(Lit(l))
    ensures Lit(if f.kind == KReal then LReal(GetLE(raw)) else LInt(if |raw| <= 8 then ReadInt(raw, f.uns) else 0)) ==
      Lit(l)
  {
  }

  lemma BoolSlotExact(s: Schema, key: nat -> nat, ad: seq<Entry>, rec: seq<byte>, i: nat)
    requires ValidSchema(s) && RowOf(s, key, ad, rec) && i < |s.fields| && s.fields[i].kind == KBool
    requires SlotLit(s, ad, i).Some?
    ensures Stride(s) <= |rec| &&
      HasBit(rec[..Stride(s)][s.escBytes..], s.fields[i].boolBit) == SlotLit(s, ad, i).value.b
  {
    hide SlotLit, SlotOff, BoolsBefore, ValidSchema, Bit;
    BoolsInPrefix(s);
    BoolBitInside(s, i);
    var blob, bit := rec[s.escBytes..PrefixLen(s)], s.fields[i].boolBit;
    assert SlotHolds(s, ad, blob, i);
    assert rec[..Stride(s)][s.escBytes..][bit / 8] == blob[bit / 8];
  }

  // A field as its slot has it, or whatever the tail has under x.
  function FieldAs(s: Schema, key: nat -> nat, ad: seq<Entry>, i: nat, x: nat): (r: Option<Node>)
    requires i < |s.fields|
  {
    if SlotLit(s, ad, i).Some? then Some(Lit(SlotLit(s, ad, i).value)) else Lookup(ColdEntries(s, key, ad), x)
  }

  // Whatever its kind and whatever the translation, a field read from the block is what the ad's slot holds, or what
  // its tail holds under the translated id.
  lemma FieldShown(b: Block, key: nat -> nat, stored: nat -> nat, ads: seq<seq<Entry>>, i: nat, k: nat)
    requires BlockFor(b, key, ads) && k < |ads| && i < |b.schema.fields|
    ensures FieldAtRecord(b, stored, i, k) == FieldAs(b.schema, key, ads[k], i, stored(b.schema.fields[i].id))
  {
    hide BlockFor, SlotAt, TailNode, Escaped, Lookup, ColdEntries, SlotLit;
    EscapedExact(b, key, ads, i, k);
    if SlotLit(b.schema, ads[k], i).Some? {
      SlotAtExact(b, key, ads, i, k);
    } else {
      TailNodeShown(b, key, stored, ads, b.schema.fields[i].id, k);
    }
  }

  // That is the ad's own node, or its absence, on every ad if and only if the translation gives the field's key, or
  // the dictionary does not name the field and the translation gives no other attribute's key.
  lemma FieldReadExactly(s: Schema, key: nat -> nat, named: nat -> bool, i: nat, x: nat)
    requires ValidSchema(s) && KeyedBy(key, named) && i < |s.fields|
    ensures ReadsUnder(key, named, s.fields[i].id, x) <==>
      forall ad {:trigger FieldAs(s, key, ad, i, x)} :: ValidAd(ad) && TailNamed(s, named, ad) ==>
        FieldAs(s, key, ad, i, x) == Lookup(ad, s.fields[i].id)
  {
    hide ValidAd, ColdEntries, Lookup, TailNamed, NotInSlot, ValidSchema, SlotLit, ReadsUnder;
    var id := s.fields[i].id;
    if ReadsUnder(key, named, id, x) {
      forall ad | ValidAd(ad) && TailNamed(s, named, ad) ensures FieldAs(s, key, ad, i, x) == Lookup(ad, id) {
        SlotOrNot(s, ad, i);
        ValidAdDistinct(ad);
        if SlotLit(s, ad, i).None? { TailRead(s, key, named, ad, id, x); }
      }
    } else {
      FieldMisread(s, key, named, i, x);
    }
  }

  // Otherwise a one-attribute ad, of the field or of the attribute it is taken for, is misread.
  lemma FieldMisread(s: Schema, key: nat -> nat, named: nat -> bool, i: nat, x: nat)
    requires ValidSchema(s) && KeyedBy(key, named) && i < |s.fields| && !ReadsUnder(key, named, s.fields[i].id, x)
    ensures exists ad {:trigger FieldAs(s, key, ad, i, x)} ::
      ValidAd(ad) && TailNamed(s, named, ad) && FieldAs(s, key, ad, i, x) != Lookup(ad, s.fields[i].id)
  {
    hide ValidAd, ColdEntries, Lookup, TailNamed, ValidSchema;
    var id := s.fields[i].id;
    FieldAt(s, i);
    var y: nat :| named(y) && if named(id) then y == id else key(y) == x;
    LoneTail(s, key, named, y, x);
    var ad := [Entry(y, Lit(LUndef))];
    assert SlotLit(s, ad, i).None?;
    assert FieldAs(s, key, ad, i, x) != Lookup(ad, id);
  }

  // In particular, where the tail keys the field as translated and no other attribute there.
  lemma FieldReadExact(b: Block, key: nat -> nat, stored: nat -> nat, ads: seq<seq<Entry>>, i: nat, k: nat)
    requires BlockFor(b, key, ads) && k < |ads| && i < |b.schema.fields|
    requires TailApart(b.schema, key, ads[k], b.schema.fields[i].id)
    requires stored(b.schema.fields[i].id) == key(b.schema.fields[i].id)
    ensures FieldAtRecord(b, stored, i, k) == Lookup(ads[k], b.schema.fields[i].id)
  {
    hide BlockOf, FieldAtRecord, Lookup, ColdEntries, SlotLit, NotInSlot;
    var s, ad := b.schema, ads[k];
    ghost var recs :| BlockOf(b, recs) && RowsOf(s, key, ads, recs);
    BlockCount(b, recs);
    ValidAdDistinct(ad);
    FieldShown(b, key, stored, ads, i, k);
    SlotOrNot(s, ad, i);
    if SlotLit(s, ad, i).None? { EscapedCold(s, key, ad, i); }
  }

  lemma EscapedCold(s: Schema, key: nat -> nat, ad: seq<Entry>, i: nat)
    requires ValidSchema(s) && DistinctIds(ad) && i < |s.fields| && TailApart(s, key, ad, s.fields[i].id)
    requires SlotLit(s, ad, i).None?
    ensures Lookup(ColdEntries(s, key, ad), key(s.fields[i].id)) == Lookup(ad, s.fields[i].id)
  {
    hide ValidSchema, ColdEntries, Lookup;
    FieldAt(s, i);
    ColdLookup(s, key, ad, s.fields[i].id);
  }
}
