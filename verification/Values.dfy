/** Numeric values out of rows and columns: what a node counts as, what a tail walk finds, and the
    column reader that must agree with the ad. */
module Values {
  import opened Bytes
  import opened Wire
  import opened AdSchema
  import opened Row
  import opened ColBlock
  import opened Floats

  // A numeric value with the kind aggregates dispatch on; a bool coerces to 1/0.
  datatype ColVal = CInt(i: int) | CReal(bits: nat) | CBool(b: bool)

  function FOf(v: ColVal): (f: F64)
  {
    match v
    case CInt(i) => OfInt(i)
    case CReal(bits) => OfBits(bits)
    case CBool(b) => OfInt(if b then 1 else 0)
  }

  function NodeVal(n: Node): (r: Option<ColVal>)
  {
    match n
    case Lit(LInt(i)) => Some(CInt(i))
    case Lit(LReal(bits)) => Some(CReal(bits))
    case Lit(LBool(b)) => Some(CBool(b))
    case _ => None
  }

  // What an attribute counts as in an ad: None when absent or not a number.
  function AttrVal(ad: seq<Entry>, id: nat): (r: Option<ColVal>)
  {
    match Lookup(ad, id) case Some(n) => NodeVal(n) case None => None
  }

  // ---------------------------------------------------------------- the tail walk

  // Walk a cold tail for one id; a malformed tail ends the walk.
  method TailLookup(tail: seq<byte>, id: nat) returns (r: Option<Node>)
    ensures r == Lookup(ReadEntries(tail), id)
  {
    hide ReadEntry;
    var cold := tail;
    while cold != []
      invariant Lookup(ReadEntries(cold), id) == Lookup(ReadEntries(tail), id)
      decreases |cold|
    {
      match ReadEntry(cold) {
        case None => return None;
        case Some((e, n)) =>
          assert ReadEntries(cold)[1..] == ReadEntries(cold[n..]);
          if e.id == id {
            return Some(e.node);
          }
          cold := cold[n..];
      }
    }
    return None;
  }

  // No other attribute of the ad is keyed where id is.
  ghost predicate Unshared(key: nat -> nat, ad: seq<Entry>, id: nat)
  {
    forall j :: 0 <= j < |ad| && key(ad[j].id) == key(id) ==> ad[j].id == id
  }

  // No other attribute in the ad's tail is.
  ghost predicate TailApart(s: Schema, key: nat -> nat, ad: seq<Entry>, id: nat)
  {
    forall j :: 0 <= j < |ad| && !InSlot(s, ad[j]) && key(ad[j].id) == key(id) ==> ad[j].id == id
  }

  lemma SharedTail(s: Schema, key: nat -> nat, ad: seq<Entry>, id: nat)
    requires Unshared(key, ad, id)
    ensures TailApart(s, key, ad, id)
  {
  }

  // The cold half holds an attribute exactly when the slot half does not.
  lemma {:induction false} ColdLookup(s: Schema, key: nat -> nat, ad: seq<Entry>, id: nat)
    requires DistinctIds(ad) && TailApart(s, key, ad, id)
    ensures Lookup(ColdEntries(s, key, ad), key(id)) ==
      match Lookup(ad, id) case None => None case Some(n) => if InSlot(s, Entry(id, n)) then None else Some(n)
    decreases |ad|
  {
    hide InSlot;
    if ad != [] {
      var n := |ad| - 1;
      var e := ad[n];
      ColdLookup(s, key, ad[..n], id);
      assert ad == ad[..n] + [e];
      LookupSnoc(ad[..n], e, id);
      if InSlot(s, e) {
        assert ColdEntries(s, key, ad) == ColdEntries(s, key, ad[..n]);
      } else {
        LookupSnoc(ColdEntries(s, key, ad[..n]), Entry(key(e.id), e.node), key(id));
      }
      if e.id == id {
        assert Lookup(ad[..n], id).None?;
        assert e == Entry(id, e.node);
      }
    }
  }

  // ---------------------------------------------------------------- what a dictionary names

  // Tails are keyed by a dictionary's own numbers for the attributes it names, and by the id itself otherwise.
  ghost predicate KeyedBy(key: nat -> nat, named: nat -> bool)
  {
    && (forall id: nat {:trigger key(id)} :: !named(id) ==> key(id) == id)
    && (forall id: nat {:trigger named(id)} :: named(id) ==> id < 0x1_0000_0000 && key(id) < 0x1_0000_0000)
    && (forall a: nat, b: nat {:trigger key(a), key(b)} :: named(a) && named(b) && key(a) == key(b) ==> a == b)
  }

  // The dictionary names whatever the ad has in its tail.
  ghost predicate TailNamed(s: Schema, named: nat -> bool, ad: seq<Entry>)
  {
    forall j {:trigger ad[j]} :: 0 <= j < |ad| && !InSlot(s, ad[j]) ==> named(ad[j].id)
  }

  ghost predicate AllNamed(named: nat -> bool, ad: seq<Entry>)
  {
    forall j {:trigger ad[j]} :: 0 <= j < |ad| ==> named(ad[j].id)
  }

  lemma NamedApart(s: Schema, key: nat -> nat, named: nat -> bool, ad: seq<Entry>, id: nat)
    requires KeyedBy(key, named) && TailNamed(s, named, ad) && named(id)
    ensures TailApart(s, key, ad, id)
  {
  }

  // Looking an attribute up under x finds it: x is its key, or it has none and x is no other's.
  ghost predicate ReadsUnder(key: nat -> nat, named: nat -> bool, id: nat, x: nat)
  {
    if named(id) then x == key(id) else forall y: nat {:trigger named(y)} :: named(y) ==> key(y) != x
  }

  // The ad does not have this attribute in a slot.
  ghost predicate NotInSlot(s: Schema, ad: seq<Entry>, id: nat)
  {
    Lookup(ad, id).Some? ==> !InSlot(s, Entry(id, Lookup(ad, id).value))
  }

  lemma TailRead(s: Schema, key: nat -> nat, named: nat -> bool, ad: seq<Entry>, id: nat, x: nat)
    requires KeyedBy(key, named) && ReadsUnder(key, named, id, x) && DistinctIds(ad) && TailNamed(s, named, ad)
    requires NotInSlot(s, ad, id)
    ensures Lookup(ColdEntries(s, key, ad), x) == Lookup(ad, id)
  {
    hide InSlot, ColdEntries;
    if named(id) {
      NamedApart(s, key, named, ad, id);
      ColdLookup(s, key, ad, id);
    } else {
      var c := ColdEntries(s, key, ad);
      forall j | 0 <= j < |c| ensures c[j].id != x { ColdMember(s, key, ad, c[j]); }
    }
  }

  // A one-attribute ad that keeps the attribute in its tail, whatever the schema.
  lemma LoneTail(s: Schema, key: nat -> nat, named: nat -> bool, y: nat, x: nat)
    requires named(y) && y < 0x1_0000_0000
    ensures var ad := [Entry(y, Lit(LUndef))];
      && ValidAd(ad) && TailNamed(s, named, ad) && (forall id :: NotInSlot(s, ad, id))
      && (forall id :: Lookup(ad, id) == if id == y then Some(Lit(LUndef)) else None)
      && Lookup(ColdEntries(s, key, ad), x) == if key(y) == x then Some(Lit(LUndef)) else None
  {
    hide ColdEntries, Lookup, ValidNode;
    var e := Entry(y, Lit(LUndef));
    LiteralNode(LUndef);
    forall id ensures Lookup([e], id) == if id == y then Some(e.node) else None { LookupOne(e, id); }
    OneColdEntry(s, key, e);
    LookupOne(Entry(key(y), e.node), x);
  }

  // Looking an attribute up in the tail under x is right on every ad if and only if x is its key, or the
  // dictionary does not name it and x is no other attribute's key.
  lemma TailReadExactly(s: Schema, key: nat -> nat, named: nat -> bool, id: nat, x: nat)
    requires KeyedBy(key, named)
    ensures ReadsUnder(key, named, id, x) <==>
      forall ad {:trigger ColdEntries(s, key, ad)} :: ValidAd(ad) && TailNamed(s, named, ad) && NotInSlot(s, ad, id) ==>
        Lookup(ColdEntries(s, key, ad), x) == Lookup(ad, id)
  {
    hide ValidAd, ColdEntries, Lookup, TailNamed, NotInSlot;
    if ReadsUnder(key, named, id, x) {
      forall ad | ValidAd(ad) && TailNamed(s, named, ad) && NotInSlot(s, ad, id)
        ensures Lookup(ColdEntries(s, key, ad), x) == Lookup(ad, id)
      {
        ValidAdDistinct(ad);
        TailRead(s, key, named, ad, id, x);
      }
    } else if named(id) {
      LoneTail(s, key, named, id, x);
      assert Lookup(ColdEntries(s, key, [Entry(id, Lit(LUndef))]), x) != Lookup([Entry(id, Lit(LUndef))], id);
    } else {
      var y: nat :| named(y) && key(y) == x;
      LoneTail(s, key, named, y, x);
      assert Lookup(ColdEntries(s, key, [Entry(y, Lit(LUndef))]), x) != Lookup([Entry(y, Lit(LUndef))], id);
    }
  }

  // ---------------------------------------------------------------- blocks of ads

  // Row k of the block is the row form of ad k.
  ghost predicate RowsOf(s: Schema, key: nat -> nat, ads: seq<seq<Entry>>, recs: seq<seq<byte>>)
  {
    && |recs| == |ads|
    && forall k {:trigger recs[k]} {:trigger ads[k]} :: 0 <= k < |ads| ==>
         ValidAd(ads[k]) && RowOf(s, key, ads[k], recs[k]) && ValidEntries(ColdEntries(s, key, ads[k]))
  }

  ghost predicate BlockFor(b: Block, key: nat -> nat, ads: seq<seq<Entry>>)
  {
    exists recs :: BlockOf(b, recs) && RowsOf(b.schema, key, ads, recs)
  }

  lemma BlockFacts(b: Block, key: nat -> nat, ads: seq<seq<Entry>>)
    requires BlockFor(b, key, ads)
    ensures b.n == |ads| && ValidSchema(b.schema)
  {
    hide BlockOf, ValidSchema;
    var recs :| BlockOf(b, recs) && RowsOf(b.schema, key, ads, recs);
    BlockCount(b, recs);
  }

  // Record k's escape bit for field i, as the block stores it.
  predicate Escaped(b: Block, i: nat, k: nat) { HasBit(EscapeAt(b, k), i) }

  lemma EscapedExact(b: Block, key: nat -> nat, ads: seq<seq<Entry>>, i: nat, k: nat)
    requires BlockFor(b, key, ads) && k < |ads| && i < |b.schema.fields|
    ensures b.n == |ads| && (Escaped(b, i, k) <==> SlotLit(b.schema, ads[k], i).None?)
  {
    hide SlotLit, BlockOf;
    var recs :| BlockOf(b, recs) && RowsOf(b.schema, key, ads, recs);
    BlockCount(b, recs);
    ReadersSeeRow(b, recs, k);
    assert RowOf(b.schema, key, ads[k], recs[k]);
    assert HasBit(recs[k][..b.schema.escBytes], i) <==> SlotLit(b.schema, ads[k], i).None?;
  }

  lemma BlockCount(b: Block, recs: seq<seq<byte>>)
    requires BlockOf(b, recs)
    ensures b.n == |recs| && ValidSchema(b.schema)
  {
  }

  // Record k's tail entries, as the block stores them.
  function TailAt(b: Block, k: nat): (t: seq<byte>) { PieceAt(b.coldCat, b.coldOff, k) }

  lemma TailExact(b: Block, key: nat -> nat, ads: seq<seq<Entry>>, k: nat)
    requires BlockFor(b, key, ads) && k < |ads|
    ensures ReadEntries(TailAt(b, k)) == ColdEntries(b.schema, key, ads[k])
  {
    hide SlotLit, BlockOf, PieceAt, ReadEntries, ColdEntries, RowOf;
    var recs :| BlockOf(b, recs) && RowsOf(b.schema, key, ads, recs);
    BlockCount(b, recs);
    ReadersSeeRow(b, recs, k);
    SplitRow(b.schema, key, ads[k], recs[k]);
    EntriesRoundTrip(ColdEntries(b.schema, key, ads[k]));
  }

  // The raw bytes of an unescaped numeric slot are its literal's.
  lemma RawExact(b: Block, key: nat -> nat, ads: seq<seq<Entry>>, i: nat, k: nat)
    requires BlockFor(b, key, ads) && k < |ads| && i < |b.schema.fields| && Numeric(b.schema.fields[i])
    requires SlotLit(b.schema, ads[k], i).Some?
    ensures RawSlot(b, i, k) == Some(NumBytes(SlotLit(b.schema, ads[k], i).value, b.schema.fields[i].width))
  {
    hide SlotLit, BlockOf, RawSlot, SlotBytes, NumBytes;
    var recs :| BlockOf(b, recs) && RowsOf(b.schema, key, ads, recs);
    BlockCount(b, recs);
    RawSlotSeesRow(b, recs, i, k);
    assert RowOf(b.schema, key, ads[k], recs[k]);
    assert SlotHolds(b.schema, ads[k], recs[k][b.schema.escBytes..PrefixLen(b.schema)], i);
  }

  // ---------------------------------------------------------------- one column, one record

  // The value of a raw numeric slot.
  function SlotVal(f: Field, raw: seq<byte>): (v: ColVal)
  {
    if f.kind == KReal then CReal(GetLE(raw)) else CInt(if |raw| <= 8 then ReadInt(raw, f.uns) else 0)
  }

  // The column reader: the slot, or for an escaped record the cold tail under the id as given.
  function ColumnVal(b: Block, i: nat, id: nat, k: nat): (r: Option<ColVal>)
    requires i < |b.schema.fields|
  {
    if Escaped(b, i, k) then
      match Lookup(ReadEntries(TailAt(b, k)), id) { case Some(n) => NodeVal(n) case None => None }
    else
      match RawSlot(b, i, k) { case Some(raw) => Some(SlotVal(b.schema.fields[i], raw)) case None => None }
  }

  lemma StoredLit(s: Schema, ad: seq<Entry>, i: nat)
    requires i < |s.fields| && SlotLit(s, ad, i).Some?
    ensures Storable(s.fields[i], Lit(SlotLit(s, ad, i).value))
  {
  }

  // A slot read returns the literal that was put there.
  lemma SlotValExact(f: Field, l: Literal)
    requires ValidField(f) && Numeric(f) && ValidLiteral(l) && Storable(f, Lit(l))
    ensures Some(SlotVal(f, NumBytes(l, f.width))) == NodeVal(Lit(l))
  {
    hide GetLE, PutLE, ReadInt, PutInt;
    if f.kind == KInt {
      IntSlotExact(l.i, f.width, f.uns);
    } else {
      GetPutLE(l.bits, 8);
      Pow256Widths();
    }
  }

  // Field i as a column reader finds it: in its slot, or in the tail under the field's id as given.
  function ShownNode(s: Schema, key: nat -> nat, ad: seq<Entry>, i: nat): (r: Option<Node>)
    requires i < |s.fields|
  {
    if SlotLit(s, ad, i).Some? then Some(Lit(SlotLit(s, ad, i).value))
      else Lookup(ColdEntries(s, key, ad), s.fields[i].id)
  }

  // The ad as the columns show it, from field i on.
  function ShownAd(s: Schema, key: nat -> nat, ad: seq<Entry>, i: nat): (r: seq<Entry>)
    requires i <= |s.fields|
    decreases |s.fields| - i
  {
    if i == |s.fields| then []
    else
      (match ShownNode(s, key, ad, i) case Some(n) => [Entry(s.fields[i].id, n)] case None => []) +
        ShownAd(s, key, ad, i + 1)
  }

  lemma {:induction false} ShownLookup(s: Schema, key: nat -> nat, ad: seq<Entry>, j: nat, i: nat)
    requires ValidSchema(s) && j <= |s.fields| && i < |s.fields|
    ensures Lookup(ShownAd(s, key, ad, j), s.fields[i].id) == if j <= i then ShownNode(s, key, ad, i) else None
    decreases |s.fields| - j
  {
    hide ValidSchema, ShownNode;
    if j < |s.fields| {
      ShownLookup(s, key, ad, j + 1, i);
      FieldAt(s, i);
      FieldAt(s, j);
      var head, rest := ShownNode(s, key, ad, j), ShownAd(s, key, ad, j + 1);
      if head.Some? {
        LookupCons(Entry(s.fields[j].id, head.value), rest, s.fields[i].id);
      } else {
        assert [] + rest == rest;
      }
    }
  }

  lemma LookupCons(e: Entry, rest: seq<Entry>, id: nat)
    ensures Lookup([e] + rest, id) == if e.id == id then Some(e.node) else Lookup(rest, id)
  {
    assert ([e] + rest)[1..] == rest;
  }

  // The column reader reads the ad as shown, whatever the tail is keyed by.
  lemma ColumnShown(b: Block, key: nat -> nat, ads: seq<seq<Entry>>, i: nat, k: nat)
    requires BlockFor(b, key, ads) && k < |ads| && i < |b.schema.fields| && Numeric(b.schema.fields[i])
    ensures ColumnVal(b, i, b.schema.fields[i].id, k) ==
      AttrVal(ShownAd(b.schema, key, ads[k], 0), b.schema.fields[i].id)
  {
    hide BlockOf, RawSlot, NumBytes, SlotVal, ReadEntries, ColdEntries, TailAt, Lookup, ShownAd;
    var s, f := b.schema, b.schema.fields[i];
    ghost var recs :| BlockOf(b, recs) && RowsOf(s, key, ads, recs);
    BlockCount(b, recs);
    assert FieldOK(s, i);
    assert ValidAd(ads[k]);
    EscapedExact(b, key, ads, i, k);
    ShownLookup(s, key, ads[k], 0, i);
    if SlotLit(s, ads[k], i).Some? {
      RawExact(b, key, ads, i, k);
      SlotLitValid(s, ads[k], i);
      SlotValExact(f, SlotLit(s, ads[k], i).value);
    } else {
      TailExact(b, key, ads, k);
    }
  }

  // A field is shown as it is on an ad that did not escape it, or whose tail keys it by its own id.
  lemma ShownAgrees(s: Schema, key: nat -> nat, ad: seq<Entry>, i: nat)
    requires ValidSchema(s) && DistinctIds(ad) && i < |s.fields|
    requires SlotLit(s, ad, i).Some? || (key(s.fields[i].id) == s.fields[i].id && TailApart(s, key, ad, s.fields[i].id))
    ensures Lookup(ShownAd(s, key, ad, 0), s.fields[i].id) == Lookup(ad, s.fields[i].id)
  {
    hide ColdEntries, Lookup, ShownAd, ValidSchema;
    ShownLookup(s, key, ad, 0, i);
    FieldAt(s, i);
    if SlotLit(s, ad, i).None? { ColdLookup(s, key, ad, s.fields[i].id); }
  }

  // So column and ad agree there.
  lemma ColumnAgrees(b: Block, key: nat -> nat, ads: seq<seq<Entry>>, i: nat, k: nat)
    requires BlockFor(b, key, ads) && k < |ads| && i < |b.schema.fields| && Numeric(b.schema.fields[i])
    requires
      || SlotLit(b.schema, ads[k], i).Some?
      || (key(b.schema.fields[i].id) == b.schema.fields[i].id &&
         TailApart(b.schema, key, ads[k], b.schema.fields[i].id))
    ensures ColumnVal(b, i, b.schema.fields[i].id, k) == AttrVal(ads[k], b.schema.fields[i].id)
  {
    hide BlockOf, RowOf, ColumnVal, ShownAd, Lookup;
    ghost var recs :| BlockOf(b, recs) && RowsOf(b.schema, key, ads, recs);
    BlockCount(b, recs);
    ValidAdDistinct(ads[k]);
    ColumnShown(b, key, ads, i, k);
    ShownAgrees(b.schema, key, ads[k], i);
  }

  // What the column reader makes of an escaped attribute.
  function EscapedVal(s: Schema, key: nat -> nat, ad: seq<Entry>, id: nat): (r: Option<ColVal>)
  {
    match Lookup(ColdEntries(s, key, ad), id) case Some(n) => NodeVal(n) case None => None
  }

  lemma LiteralNode(l: Literal)
    requires ValidLiteral(l)
    ensures ValidNode(Lit(l))
  {
  }

  lemma LookupOne(e: Entry, id: nat)
    ensures Lookup([e], id) == if e.id == id then Some(e.node) else None
  {
    assert [e][1..] == [];
  }

  lemma OneColdEntry(s: Schema, key: nat -> nat, e: Entry)
    requires !InSlot(s, e)
    ensures ColdEntries(s, key, [e]) == [Entry(key(e.id), e.node)]
  {
    ColdEntriesSnoc(s, key, [], e);
    assert [] + [e] == [e];
  }

  // A number that does not fit y's slot, if y has one.
  function Misfit(s: Schema, y: nat): (l: Literal)
  {
    if y in s.byId && s.byId[y] < |s.fields| && s.fields[s.byId[y]].kind == KBool then LInt(0) else LBool(true)
  }

  lemma MisfitEscapes(s: Schema, key: nat -> nat, named: nat -> bool, y: nat, x: nat)
    requires ValidSchema(s) && named(y) && y < 0x1_0000_0000
    ensures var n := Lit(Misfit(s, y)); var ad := [Entry(y, n)];
      && ValidAd(ad) && TailNamed(s, named, ad) && !InSlot(s, ad[0]) && NodeVal(n).Some?
      && (forall id :: Lookup(ad, id) == if id == y then Some(n) else None)
      && Lookup(ColdEntries(s, key, ad), x) == if key(y) == x then Some(n) else None
  {
    hide ColdEntries, Lookup, ValidNode, ValidSchema;
    if y in s.byId { IdAt(s, y); }
    var e := Entry(y, Lit(Misfit(s, y)));
    LiteralNode(Misfit(s, y));
    forall id ensures Lookup([e], id) == if id == y then Some(e.node) else None { LookupOne(e, id); }
    OneColdEntry(s, key, e);
    LookupOne(Entry(key(y), e.node), x);
  }

  // The dictionary names the field and keys it by another number: one ad has a number there that the reader misses.
  lemma ForeignKeyMissed(s: Schema, key: nat -> nat, named: nat -> bool, i: nat)
    requires ValidSchema(s) && KeyedBy(key, named) && i < |s.fields| && key(s.fields[i].id) != s.fields[i].id
    ensures var id := s.fields[i].id; var ad := [Entry(id, Lit(Misfit(s, id)))];
      && ValidAd(ad) && TailNamed(s, named, ad) && SlotLit(s, ad, i).None?
      && AttrVal(ad, id).Some? && EscapedVal(s, key, ad, id) == None
  {
    hide ValidSchema, ColdEntries, Lookup, ValidAd;
    FieldAt(s, i);
    MisfitEscapes(s, key, named, s.fields[i].id, s.fields[i].id);
  }

  // The dictionary does not name the field and numbers another attribute as the field is numbered: an ad with that
  // attribute and without the field is read as having the field.
  lemma AnotherRead(s: Schema, key: nat -> nat, named: nat -> bool, i: nat, y: nat)
    requires ValidSchema(s) && KeyedBy(key, named) && i < |s.fields| && !named(s.fields[i].id) && named(y)
    requires key(y) == s.fields[i].id
    ensures var id := s.fields[i].id; var ad := [Entry(y, Lit(Misfit(s, y)))];
      && ValidAd(ad) && TailNamed(s, named, ad) && SlotLit(s, ad, i).None?
      && AttrVal(ad, id) == None && EscapedVal(s, key, ad, id).Some?
  {
    hide ValidSchema, ColdEntries, Lookup, ValidAd;
    MisfitEscapes(s, key, named, y, s.fields[i].id);
  }

  // The escaped-value read ignores the id translation, so it is right on every ad if and only if the field's own
  // id is its key, or the dictionary does not name the field and gives its id to no other attribute.
  lemma EscapedReadExact(s: Schema, key: nat -> nat, named: nat -> bool, i: nat)
    requires ValidSchema(s) && KeyedBy(key, named) && i < |s.fields|
    ensures ReadsUnder(key, named, s.fields[i].id, s.fields[i].id) <==>
      forall ad {:trigger SlotLit(s, ad, i)} :: ValidAd(ad) && TailNamed(s, named, ad) && SlotLit(s, ad, i).None? ==>
        EscapedVal(s, key, ad, s.fields[i].id) == AttrVal(ad, s.fields[i].id)
  {
    hide ValidAd, ColdEntries, Lookup, TailNamed, ValidSchema;
    var id := s.fields[i].id;
    if ReadsUnder(key, named, id, id) {
      forall ad | ValidAd(ad) && TailNamed(s, named, ad) && SlotLit(s, ad, i).None?
        ensures EscapedVal(s, key, ad, id) == AttrVal(ad, id)
      {
        FieldAt(s, i);
        ValidAdDistinct(ad);
        TailRead(s, key, named, ad, id, id);
      }
    } else if named(id) {
      ForeignKeyMissed(s, key, named, i);
    } else {
      var y: nat :| named(y) && key(y) == id;
      AnotherRead(s, key, named, i, y);
    }
  }

  // And so a field is shown as it is on every ad under that condition and no other.
  lemma ShownExactly(s: Schema, key: nat -> nat, named: nat -> bool, i: nat)
    requires ValidSchema(s) && KeyedBy(key, named) && i < |s.fields|
    ensures ReadsUnder(key, named, s.fields[i].id, s.fields[i].id) <==>
      forall ad {:trigger ShownAd(s, key, ad, 0)} :: ValidAd(ad) && TailNamed(s, named, ad) ==>
        AttrVal(ShownAd(s, key, ad, 0), s.fields[i].id) == AttrVal(ad, s.fields[i].id)
  {
    hide ValidAd, ColdEntries, Lookup, ShownAd, ValidSchema, SlotLit, TailNamed;
    var id := s.fields[i].id;
    if ReadsUnder(key, named, id, id) {
      forall ad | ValidAd(ad) && TailNamed(s, named, ad)
        ensures AttrVal(ShownAd(s, key, ad, 0), id) == AttrVal(ad, id)
      {
        ShownLookup(s, key, ad, 0, i);
        FieldAt(s, i);
        SlotOrNot(s, ad, i);
        if SlotLit(s, ad, i).None? {
          ValidAdDistinct(ad);
          TailRead(s, key, named, ad, id, id);
        }
      }
    } else if named(id) {
      ForeignKeyMissed(s, key, named, i);
      ShownLookup(s, key, [Entry(id, Lit(Misfit(s, id)))], 0, i);
      assert AttrVal(ShownAd(s, key, [Entry(id, Lit(Misfit(s, id)))], 0), id) == None;
    } else {
      var y: nat :| named(y) && key(y) == id;
      AnotherRead(s, key, named, i, y);
      ShownLookup(s, key, [Entry(y, Lit(Misfit(s, y)))], 0, i);
      assert AttrVal(ShownAd(s, key, [Entry(y, Lit(Misfit(s, y)))], 0), id).Some?;
    }
  }

  // A field escaped by an ad is not in its slot, and one not escaped is what the slot says.
  lemma SlotOrNot(s: Schema, ad: seq<Entry>, i: nat)
    requires ValidSchema(s) && i < |s.fields|
    ensures SlotLit(s, ad, i).None? ==> NotInSlot(s, ad, s.fields[i].id)
    ensures SlotLit(s, ad, i).Some? ==> Lookup(ad, s.fields[i].id) == Some(Lit(SlotLit(s, ad, i).value))
  {
    hide ValidSchema;
    FieldAt(s, i);
  }

  lemma ValidAdDistinct(ad: seq<Entry>)
    requires ValidAd(ad)
    ensures DistinctIds(ad) && ValidEntries(ad)
  {
  }

  // ---------------------------------------------------------------- the batch load

  // The typed loads: one machine read per width, sign-converted by the type.
  function TypedLoad(raw: seq<byte>, uns: bool): (v: int)
    requires |raw| <= 8
  {
    var u := GetLE(raw);
    GetLEBound(raw);
    Pow256Bound(|raw|);
    var w := |raw|;
    if (w == 1 || w == 2 || w == 4) && uns then u
    else if w == 1 then if u < 0x80 then u else u - 0x100
    else if w == 2 then if u < 0x8000 then u else u - 0x1_0000
    else if w == 4 then if u < 0x8000_0000 then u else u - 0x1_0000_0000
    else if w == 8 then Signed64(u)
    else ReadInt(raw, uns)
  }

  lemma TypedLoadIsRead(raw: seq<byte>, uns: bool)
    requires SlotWidth(|raw|)
    ensures TypedLoad(raw, uns) == ReadInt(raw, uns)
  {
    hide GetLE;
    Pow256Widths();
    GetLEBound(raw);
    if |raw| < 8 && !uns { SignExtend(raw); }
  }
}
