/** A block some of whose string fields are dictionaries: those fields leave the positional string region, and every
    reader takes each string from whichever side holds it. */
module DictBlock {
  import opened Bytes
  import opened Wire
  import opened Row
  import opened ColBlock
  import opened Values
  import opened StrDict

  // A record's value in a string field's slot.
  function StrVal(s: Schema, ad: seq<Entry>, i: nat): (v: Option<Str>)
    requires i < |s.fields|
  {
    if s.fields[i].kind == KString && SlotLit(s, ad, i).Some? then Some(SlotLit(s, ad, i).value.s) else None
  }

  function Column(s: Schema, ads: seq<seq<Entry>>, i: nat): (vals: seq<Option<Str>>)
    requires i < |s.fields|
    ensures |vals| == |ads| && forall k :: 0 <= k < |ads| ==> vals[k] == StrVal(s, ads[k], i)
  {
    seq(|ads|, k requires 0 <= k < |ads| => StrVal(s, ads[k], i))
  }

  lemma StrValShort(s: Schema, ad: seq<Entry>, i: nat)
    requires ValidAd(ad) && i < |s.fields| && StrVal(s, ad, i).Some?
    ensures |StrVal(s, ad, i).value| < TWO64
  {
    SlotLitValid(s, ad, i);
  }

  lemma RegionStep(s: Schema, ad: seq<Entry>, i: nat)
    requires i < |s.fields|
    ensures StringRegion(s, ad, i) == (match StrVal(s, ad, i) case Some(v) => PutEntry(v) case None => []) +
      StringRegion(s, ad, i + 1)
  {
    hide SlotLit, PutUvarint;
    StringRegionStep(s, ad, i);
    if StrVal(s, ad, i).Some? {
      var v := StrVal(s, ad, i).value;
      assert PutUvarint(|v|) + v + StringRegion(s, ad, i + 1) == PutEntry(v) + StringRegion(s, ad, i + 1);
    }
  }

  // The entry at a position of a row is skipped or taken whole.
  lemma EntryAt(rec: seq<byte>, p: nat, v: Str, rest: seq<byte>)
    requires p <= |rec| && |v| < TWO64 && rec[p..] == PutEntry(v) + rest
    ensures GetEntry(rec[p..]) == Some((v, rest)) && p + |PutEntry(v)| <= |rec| &&
      rec[p..p + |PutEntry(v)|] == PutEntry(v) && rec[p + |PutEntry(v)|..] == rest
  {
    hide PutEntry, GetEntry;
    EntryReturns(v, rest);
    var e := |PutEntry(v)|;
    assert rec[p..p + e] == rec[p..][..e] && rec[p + e..] == rec[p..][e..];
  }

  // ---------------------------------------------------------------- what leaves the positional region

  // The string region without the fields a dictionary owns.
  function KeptRegion(s: Schema, ad: seq<Entry>, owned: set<nat>, i: nat): (r: seq<byte>)
    requires i <= |s.fields|
    decreases |s.fields| - i
  {
    if i == |s.fields| then []
    else
      (if i in owned then [] else match StrVal(s, ad, i) case Some(v) => PutEntry(v) case None => []) +
        KeptRegion(s, ad, owned, i + 1)
  }

  lemma KeptStep(s: Schema, ad: seq<Entry>, owned: set<nat>, i: nat)
    requires i < |s.fields|
    ensures KeptRegion(s, ad, owned, i) ==
      (if i in owned then [] else match StrVal(s, ad, i) case Some(v) => PutEntry(v) case None => []) +
        KeptRegion(s, ad, owned, i + 1)
    ensures KeptRegion(s, ad, owned, |s.fields|) == []
  {
    hide StrVal, PutEntry;
  }

  lemma RowStrings(s: Schema, key: nat -> nat, ad: seq<Entry>, rec: seq<byte>)
    requires RowOf(s, key, ad, rec)
    ensures s.escBytes <= PrefixLen(s) <= |rec| &&
      rec[PrefixLen(s)..] == StringRegion(s, ad, 0) + EncodeEntries(ColdEntries(s, key, ad))
    ensures EscapesOf(s, ad, rec[..s.escBytes])
  {
    hide ColdEntries, StringRegion, BlobOf, EscapesOf;
  }

  lemma AssocStr(a: seq<byte>, b: seq<byte>, c: seq<byte>)
    ensures a + (b + c) == (a + b) + c && [] + a == a && a + [] == a
  {
  }

  // What the walk meets at field i: nothing to read, or the field's own entry.
  lemma WalkStep(s: Schema, ad: seq<Entry>, rec: seq<byte>, tail: seq<byte>, i: nat, p: nat)
    requires ValidAd(ad) && i < |s.fields| && p <= |rec| && rec[p..] == StringRegion(s, ad, i) + tail
    ensures StrVal(s, ad, i).None? ==> rec[p..] == StringRegion(s, ad, i + 1) + tail
    ensures StrVal(s, ad, i).Some? ==> var v := StrVal(s, ad, i).value; var q := p + |PutEntry(v)|;
      GetEntry(rec[p..]) == Some((v, rec[q..])) && p <= q <= |rec| && rec[p..q] == PutEntry(v) &&
        rec[q..] == StringRegion(s, ad, i + 1) + tail
  {
    hide StringRegion, StrVal, ValidAd, PutEntry, GetEntry;
    RegionStep(s, ad, i);
    AssocStr(StringRegion(s, ad, i + 1), [], []);
    if StrVal(s, ad, i).Some? {
      var v := StrVal(s, ad, i).value;
      StrValShort(s, ad, i);
      AssocStr(PutEntry(v), StringRegion(s, ad, i + 1), tail);
      EntryAt(rec, p, v, StringRegion(s, ad, i + 1) + tail);
    }
  }

  lemma KeepStep(s: Schema, ad: seq<Entry>, owned: set<nat>, i: nat, kept: seq<byte>, part: seq<byte>)
    requires i < |s.fields| && part == if i in owned ||
      StrVal(s, ad, i).None? then [] else PutEntry(StrVal(s, ad, i).value)
    ensures kept + KeptRegion(s, ad, owned, i) == (kept + part) + KeptRegion(s, ad, owned, i + 1)
  {
    hide StrVal, PutEntry;
    KeptStep(s, ad, owned, i);
    AssocStr(kept, part, KeptRegion(s, ad, owned, i + 1));
  }

  // A walk over a row's strings: the values, and the bytes of the fields no dictionary owns.
  method WalkStrings(s: Schema, rec: seq<byte>, owned: set<nat>, ghost key: nat -> nat, ghost ad: seq<Entry>)
    returns (vals: seq<Option<Str>>, kept: seq<byte>)
    requires ValidAd(ad) && RowOf(s, key, ad, rec)
    ensures |vals| == |s.fields| && (forall i :: 0 <= i < |s.fields| ==> vals[i] == StrVal(s, ad, i)) &&
      kept == KeptRegion(s, ad, owned, 0)
  {
    hide RowOf, StringRegion, StrVal, EncodeEntries, ColdEntries, ValidAd, PutEntry, GetEntry, KeptRegion, EscapesOf,
      HasBit;
    RowStrings(s, key, ad, rec);
    ghost var tail := EncodeEntries(ColdEntries(s, key, ad));
    vals, kept := [], [];
    var p: nat := PrefixLen(s);
    AssocStr(KeptRegion(s, ad, owned, 0), [], []);
    for i := 0 to |s.fields|
      invariant |vals| == i && (forall j :: 0 <= j < i ==> vals[j] == StrVal(s, ad, j))
      invariant p <= |rec| && rec[p..] == StringRegion(s, ad, i) + tail
      invariant kept + KeptRegion(s, ad, owned, i) == KeptRegion(s, ad, owned, 0)
    {
      WalkStep(s, ad, rec, tail, i, p);
      Unescaped(s, ad, rec[..s.escBytes], i);
      if s.fields[i].kind != KString || HasBit(rec[..s.escBytes], i) {
        KeepStep(s, ad, owned, i, kept, []);
        AssocStr(kept, [], []);
        vals := vals + [None];
      } else {
        var e := GetEntry(rec[p..]).value;
        var q := |rec| - |e.1|;
        KeepStep(s, ad, owned, i, kept, if i in owned then [] else rec[p..q]);
        AssocStr(kept, [], []);
        vals := vals + [Some(e.0)];
        if i !in owned { kept := kept + rec[p..q]; }
        p := q;
      }
    }
    KeptDone(s, ad, owned);
    AssocStr(kept, [], []);
  }

  lemma Unescaped(s: Schema, ad: seq<Entry>, esc: seq<byte>, i: nat)
    requires EscapesOf(s, ad, esc) && i < |s.fields|
    ensures StrVal(s, ad, i).Some? <==> s.fields[i].kind == KString && !HasBit(esc, i)
  {
    hide SlotLit, HasBit;
    EscapeBit(s, ad, esc, i);
  }

  lemma KeptDone(s: Schema, ad: seq<Entry>, owned: set<nat>)
    ensures KeptRegion(s, ad, owned, |s.fields|) == []
  {
  }

  // ---------------------------------------------------------------- reading around the dictionaries

  // The string of field i in a region without the owned fields, walking from field j.
  function FindKept(s: Schema, esc: seq<byte>, owned: set<nat>, region: seq<byte>, j: nat, i: nat): (r: Option<Str>)
    requires j <= |s.fields|
    decreases |s.fields| - j
  {
    if j == |s.fields| then None
    else if s.fields[j].kind != KString || HasBit(esc, j) || j in owned then FindKept(s, esc, owned, region, j + 1, i)
    else
      match GetEntry(region)
      case None => None
      case Some((v, rest)) => if j == i then Some(v) else FindKept(s, esc, owned, rest, j + 1, i)
  }

  lemma {:induction false} FindKeptExact(s: Schema, ad: seq<Entry>, esc: seq<byte>, owned: set<nat>, j: nat, i: nat)
    requires ValidAd(ad) && EscapesOf(s, ad, esc) && j <= i < |s.fields| && i !in owned && StrVal(s, ad, i).Some?
    ensures FindKept(s, esc, owned, KeptRegion(s, ad, owned, j), j, i) == StrVal(s, ad, i)
    decreases |s.fields| - j
  {
    hide StrVal, PutEntry, GetEntry, ValidAd, EscapesOf, HasBit, KeptRegion;
    KeptStep(s, ad, owned, j);
    Unescaped(s, ad, esc, j);
    AssocStr(KeptRegion(s, ad, owned, j + 1), [], []);
    if j < i { FindKeptExact(s, ad, esc, owned, j + 1, i); }
    if j !in owned && StrVal(s, ad, j).Some? {
      StrValShort(s, ad, j);
      EntryReturns(StrVal(s, ad, j).value, KeptRegion(s, ad, owned, j + 1));
    }
  }

  // ---------------------------------------------------------------- the block's dictionaries

  datatype StrDicts = StrDicts(dicts: map<nat, Info>, dictRaw: seq<byte>, codeRaw: seq<byte>)

  // A string field has a dictionary exactly when its distinct values are few enough, and then it is the field's.
  ghost predicate FieldDict(ds: StrDicts, s: Schema, ads: seq<seq<Entry>>, i: nat, d: seq<Str>)
    requires i < |s.fields|
  {
    && DictOf(d, Column(s, ads, i)) && (i in ds.dicts <==> Worthwhile(|d|, |ads|))
    && (i in ds.dicts ==> InfoFor(ds.dicts[i], ds.dictRaw, ds.codeRaw, d, Column(s, ads, i)))
  }

  ghost predicate DictsFor(ds: StrDicts, s: Schema, ads: seq<seq<Entry>>, n: nat)
    requires n <= |s.fields|
  {
    && (forall i :: i in ds.dicts ==> i < n && s.fields[i].kind == KString)
    && forall i :: 0 <= i < n && s.fields[i].kind == KString ==> exists d :: FieldDict(ds, s, ads, i, d)
  }

  lemma DictsGrow(ds: StrDicts, ds': StrDicts, s: Schema, ads: seq<seq<Entry>>, n: nat, d: seq<Str>)
    requires n < |s.fields| && DictsFor(ds, s, ads, n) && s.fields[n].kind == KString && FieldDict(ds', s, ads, n, d)
    requires ds.dictRaw <= ds'.dictRaw && ds.codeRaw <= ds'.codeRaw
    requires forall i ::
      i != n ==> (i in ds'.dicts <==> i in ds.dicts) && (i in ds.dicts ==> ds'.dicts[i] == ds.dicts[i])
    ensures DictsFor(ds', s, ads, n + 1)
  {
    hide DictOf, InfoFor;
    forall i | 0 <= i < n + 1 && s.fields[i].kind == KString ensures exists e :: FieldDict(ds', s, ads, i, e) {
      if i == n {
        assert FieldDict(ds', s, ads, i, d);
      } else {
        var e :| FieldDict(ds, s, ads, i, e);
        var x, y := ds'.dictRaw[|ds.dictRaw|..], ds'.codeRaw[|ds.codeRaw|..];
        assert ds'.dictRaw == ds.dictRaw + x && ds'.codeRaw == ds.codeRaw + y;
        if i in ds.dicts { InfoGrows(ds.dicts[i], ds.dictRaw, ds.codeRaw, e, Column(s, ads, i), x, y); }
        assert FieldDict(ds', s, ads, i, e);
      }
    }
  }

  lemma DictsSkip(ds: StrDicts, s: Schema, ads: seq<seq<Entry>>, n: nat)
    requires n < |s.fields| && DictsFor(ds, s, ads, n) && s.fields[n].kind != KString
    ensures DictsFor(ds, s, ads, n + 1)
  {
    hide FieldDict;
  }

  // Collect every string field's values, then give each field its dictionary where one is worthwhile.
  method BuildStrDicts(s: Schema, recs: seq<seq<byte>>, ghost key: nat -> nat, ghost ads: seq<seq<Entry>>)
    returns (ds: StrDicts)
    requires RowsOf(s, key, ads, recs)
    ensures DictsFor(ds, s, ads, |s.fields|)
  {
    hide RowOf, StrVal, ValidAd, KeptRegion, InfoFor, DictOf, DictsFor, Worthwhile;
    var rows: seq<seq<Option<Str>>> := [];
    for k := 0 to |recs|
      invariant |rows| == k && forall j ::
        0 <= j < k ==> |rows[j]| == |s.fields| && forall i :: 0 <= i < |s.fields| ==> rows[j][i] == StrVal(s, ads[j], i)
    {
      assert ValidAd(ads[k]);
      var vals, _ := WalkStrings(s, recs[k], {}, key, ads[k]);
      rows := rows + [vals];
    }
    ds := StrDicts(map[], [], []);
    NoDicts(ds, s, ads);
    for i := 0 to |s.fields|
      invariant DictsFor(ds, s, ads, i) && (forall j :: j in ds.dicts ==> j < i)
    {
      if s.fields[i].kind == KString {
        var vals := seq(|rows|, k requires 0 <= k < |rows| => rows[k][i]);
        assert vals == Column(s, ads, i);
        var d := DistinctFold(vals);
        ghost var was := ds;
        if Worthwhile(|d|, |recs|) {
          var f, dictRaw, codeRaw := AddDict(vals, d, ds.dictRaw, ds.codeRaw);
          ds := StrDicts(ds.dicts[i := f], dictRaw, codeRaw);
        }
        DictsGrow(was, ds, s, ads, i, d);
      } else {
        DictsSkip(ds, s, ads, i);
      }
    }
  }

  lemma NoDicts(ds: StrDicts, s: Schema, ads: seq<seq<Entry>>)
    requires ds.dicts == map[]
    ensures DictsFor(ds, s, ads, 0)
  {
  }

  // ---------------------------------------------------------------- blocks with dictionaries

  function KeptParts(s: Schema, ads: seq<seq<Entry>>, owned: set<nat>): (r: seq<seq<byte>>)
    ensures |r| == |ads| && forall k :: 0 <= k < |ads| ==> r[k] == KeptRegion(s, ads[k], owned, 0)
  {
    seq(|ads|, k requires 0 <= k < |ads| => KeptRegion(s, ads[k], owned, 0))
  }

  // b is the block of these ads but for its string stream, which holds what no dictionary owns.
  ghost predicate DictBlockFor(b: Block, ds: StrDicts, full: Block, key: nat -> nat, ads: seq<seq<Entry>>)
  {
    && BlockFor(full, key, ads) && b == full.(strCat := b.strCat, strOff := b.strOff)
    && StreamOf(b.strCat, b.strOff, KeptParts(b.schema, ads, ds.dicts.Keys)) &&
       DictsFor(ds, b.schema, ads, |b.schema.fields|)
  }

  method EncodeDictBlock(s: Schema, recs: seq<seq<byte>>, hotSet: set<nat>, ghost key: nat -> nat,
                         ghost ads: seq<seq<Entry>>)
    returns (b: Block, ds: StrDicts, ghost full: Block)
    requires ValidSchema(s) && RowsOf(s, key, ads, recs)
    ensures DictBlockFor(b, ds, full, key, ads) && b.schema == s
  {
    hide RowOf, ValidAd, KeptRegion, DictsFor, StreamOf, ValidSchema, Shaped, BlockOf;
    ds := BuildStrDicts(s, recs, key, ads);
    forall k | 0 <= k < |recs| ensures Shaped(s, recs[k]) {
      assert ValidAd(ads[k]);
      SplitRow(s, key, ads[k], recs[k]);
    }
    var whole := EncodeColumnarBlock(s, recs, hotSet);
    full := whole;
    var cat: seq<byte>, off: seq<nat> := [], [0];
    EmptyStream();
    ghost var parts := KeptParts(s, ads, ds.dicts.Keys);
    assert parts[..0] == [];
    for k := 0 to |recs|
      invariant StreamOf(cat, off, parts[..k])
    {
      assert ValidAd(ads[k]);
      var _, kept := WalkStrings(s, recs[k], ds.dicts.Keys, key, ads[k]);
      StreamAppend(cat, off, parts[..k], kept);
      assert parts[..k + 1] == parts[..k] + [kept];
      cat := cat + kept;
      off := off + [|cat|];
    }
    assert parts[..|recs|] == parts;
    b := whole.(strCat := cat, strOff := off);
  }

  lemma EmptyStream()
    ensures StreamOf([], [0], [])
  {
  }

  // Field i of record k, from its dictionary or from the region.
  function ReadString(b: Block, ds: StrDicts, i: nat, k: nat): (r: Option<Str>)
  {
    if i in ds.dicts then DictString(ds.dicts[i], ds.dictRaw, ds.codeRaw, b.n, k)
    else FindKept(b.schema, EscapeAt(b, k), ds.dicts.Keys, PieceAt(b.strCat, b.strOff, k), 0, i)
  }

  lemma DictBlockFacts(b: Block, ds: StrDicts, full: Block, key: nat -> nat, ads: seq<seq<Entry>>, k: nat)
    requires DictBlockFor(b, ds, full, key, ads) && k < |ads|
    ensures b.n == |ads| && ValidAd(ads[k]) && EscapesOf(b.schema, ads[k], EscapeAt(b, k))
    ensures PieceAt(b.strCat, b.strOff, k) == KeptRegion(b.schema, ads[k], ds.dicts.Keys, 0)
  {
    hide BlockOf, StringRegion, KeptRegion, DictsFor, EscapesOf, ColdEntries, BlobOf, EncodeEntries;
    var recs :| BlockOf(full, recs) && RowsOf(full.schema, key, ads, recs);
    BlockCount(full, recs);
    ReadersSeeRow(full, recs, k);
    assert RowOf(full.schema, key, ads[k], recs[k]);
    assert KeptParts(b.schema, ads, ds.dicts.Keys)[k] == KeptRegion(b.schema, ads[k], ds.dicts.Keys, 0);
  }

  // Whichever side holds it, the string read is the ad's.
  lemma ReadStringExact(b: Block, ds: StrDicts, full: Block, key: nat -> nat, ads: seq<seq<Entry>>, i: nat, k: nat)
    requires DictBlockFor(b, ds, full, key, ads) && k < |ads| && i < |b.schema.fields|
    requires StrVal(b.schema, ads[k], i).Some?
    ensures ReadString(b, ds, i, k) == StrVal(b.schema, ads[k], i)
  {
    hide BlockFor, StreamOf, EscapesOf, StrVal, KeptRegion, InfoFor, DictOf, DictString, FindKept, PieceAt, EscapeAt,
      ValidAd;
    DictBlockFacts(b, ds, full, key, ads, k);
    if i in ds.dicts {
      var d :| FieldDict(ds, b.schema, ads, i, d);
      forall x | 0 <= x < |ads| ensures ValidAd(ads[x]) { DictBlockFacts(b, ds, full, key, ads, x); }
      ShortEntries(b.schema, ads, i, d);
      DictStringExact(ds.dicts[i], ds.dictRaw, ds.codeRaw, d, Column(b.schema, ads, i), k);
    } else {
      FindKeptExact(b.schema, ads[k], EscapeAt(b, k), ds.dicts.Keys, 0, i);
    }
  }

  lemma ShortEntries(s: Schema, ads: seq<seq<Entry>>, i: nat, d: seq<Str>)
    requires i < |s.fields| && DictOf(d, Column(s, ads, i)) && forall x :: 0 <= x < |ads| ==> ValidAd(ads[x])
    ensures forall v :: v in d ==> |v| < TWO64
  {
    hide StrVal, ValidAd, Sorted;
    forall v | v in d ensures |v| < TWO64 {
      assert Some(v) in Column(s, ads, i);
      var x :| 0 <= x < |ads| && Column(s, ads, i)[x] == Some(v);
      StrValShort(s, ads[x], i);
    }
  }

  // Rebuilding a record's strings: each field's entry from whichever side holds it, in field order.
  method AppendStrings(b: Block, ds: StrDicts, k: nat, ghost full: Block, ghost key: nat -> nat,
                       ghost ads: seq<seq<Entry>>)
    returns (out: Option<seq<byte>>)
    requires DictBlockFor(b, ds, full, key, ads) && k < |ads|
    ensures out == Some(StringRegion(b.schema, ads[k], 0))
  {
    hide DictBlockFor, EscapesOf, StrVal, KeptRegion, StringRegion, DictString, FindKept, PieceAt, EscapeAt, ValidAd,
      PutEntry, GetEntry, HasBit;
    DictBlockFacts(b, ds, full, key, ads, k);
    var s, esc := b.schema, EscapeAt(b, k);
    ghost var ad := ads[k];
    var pos := PieceAt(b.strCat, b.strOff, k);
    var rec: seq<byte> := [];
    AssocStr(StringRegion(s, ad, 0), [], []);
    for i := 0 to |s.fields|
      invariant pos == KeptRegion(s, ad, ds.dicts.Keys, i) && rec + StringRegion(s, ad, i) == StringRegion(s, ad, 0)
    {
      RegionStep(s, ad, i);
      KeptStep(s, ad, ds.dicts.Keys, i);
      Unescaped(s, ad, esc, i);
      AssocStr(KeptRegion(s, ad, ds.dicts.Keys, i + 1), [], []);
      AssocStr(StringRegion(s, ad, i + 1), [], []);
      if s.fields[i].kind == KString && !HasBit(esc, i) {
        ghost var v := StrVal(s, ad, i).value;
        AssocStr(rec, PutEntry(v), StringRegion(s, ad, i + 1));
        if i !in ds.dicts {
          StrValShort(s, ad, i);
          EntryReturns(v, KeptRegion(s, ad, ds.dicts.Keys, i + 1));
          var e := GetEntry(pos);
          if e.None? { return None; }
          assert pos == PutEntry(v) + e.value.1;
          rec := rec + pos[..|pos| - |e.value.1|];
          pos := e.value.1;
        } else {
          ReadStringExact(b, ds, full, key, ads, i, k);
          var e := DictString(ds.dicts[i], ds.dictRaw, ds.codeRaw, b.n, k);
          if e.None? { return None; }
          rec := rec + PutEntry(e.value);
        }
      }
    }
    StringRegionEnd(s, ad);
    AssocStr(rec, [], []);
    out := Some(rec);
  }

  // ---------------------------------------------------------------- skipping a block

  // A record may satisfy a conjunct: its string does, or it has no string that says.
  predicate MayMeet(s: Schema, ad: seq<Entry>, i: nat, p: Probe)
  {
    i < |s.fields| ==> match Lookup(ad, s.fields[i].id) { case Some(Lit(LStr(v))) => Satisfies(p, v) case _ => true }
  }

  predicate MayMeetAll(probes: seq<(nat, Probe)>, s: Schema, ad: seq<Entry>)
  {
    forall q :: 0 <= q < |probes| ==> MayMeet(s, ad, probes[q].0, probes[q].1)
  }

  // A conjunct's dictionary is complete, and no record can satisfy it.
  ghost predicate RuledOut(probes: seq<(nat, Probe)>, ds: StrDicts, s: Schema, ads: seq<seq<Entry>>, q: nat)
    requires q < |probes|
  {
    var i := probes[q].0;
    && i in ds.dicts && i < |s.fields| && ds.dicts[i].noEscape
    && forall k :: 0 <= k < |ads| ==> !MayMeet(s, ads[k], i, probes[q].1)
  }

  // A block is skipped exactly when some conjunct with a complete dictionary can be satisfied by none of its records;
  // no record of a skipped block satisfies the whole conjunction.
  method DictPrunes(probes: seq<(nat, Probe)>, b: Block, ds: StrDicts, ghost full: Block, ghost key: nat -> nat,
                    ghost ads: seq<seq<Entry>>)
    returns (prune: bool)
    requires DictBlockFor(b, ds, full, key, ads) && forall q :: 0 <= q < |probes| ==> ProbeOK(probes[q].1)
    ensures prune ==> forall k :: 0 <= k < |ads| ==> !MayMeetAll(probes, b.schema, ads[k])
    ensures prune <==> exists q :: 0 <= q < |probes| && RuledOut(probes, ds, b.schema, ads, q)
  {
    hide BlockFor, StreamOf, DictBlockFor, RuledOut, MayMeetAll, Satisfies, InfoFor, ValidSchema;
    for q := 0 to |probes|
      invariant forall x :: 0 <= x < q ==> !RuledOut(probes, ds, b.schema, ads, x)
    {
      var i, p := probes[q].0, probes[q].1;
      NotRuledOut(probes, ds, b.schema, ads, q);
      if i in ds.dicts && ds.dicts[i].noEscape {
        ghost var d := TheDict(b, ds, full, key, ads, i);
        var entries := DictEntries(ds.dictRaw, ds.dicts[i].dictStart, ds.dicts[i].count);
        assert entries == Some(d);
        var out := ProbePrunes(p, entries.value);
        PruneExact(p, d, Column(b.schema, ads, i));
        ColumnRuledOut(probes, ds, b.schema, ads, q);
        if out {
          OutForAll(probes, ds, b.schema, ads, q);
          return true;
        }
      }
    }
    prune := false;
  }

  lemma OutForAll(probes: seq<(nat, Probe)>, ds: StrDicts, s: Schema, ads: seq<seq<Entry>>, q: nat)
    requires q < |probes| && RuledOut(probes, ds, s, ads, q)
    ensures forall k :: 0 <= k < |ads| ==> !MayMeetAll(probes, s, ads[k])
  {
    hide MayMeet;
  }

  lemma NotRuledOut(probes: seq<(nat, Probe)>, ds: StrDicts, s: Schema, ads: seq<seq<Entry>>, q: nat)
    requires q < |probes|
    ensures !(probes[q].0 in ds.dicts && ds.dicts[probes[q].0].noEscape) ==> !RuledOut(probes, ds, s, ads, q)
  {
    hide MayMeet;
  }

  lemma ColumnRuledOut(probes: seq<(nat, Probe)>, ds: StrDicts, s: Schema, ads: seq<seq<Entry>>, q: nat)
    requires q < |probes| && probes[q].0 in ds.dicts && probes[q].0 < |s.fields| && ds.dicts[probes[q].0].noEscape
    requires forall k :: 0 <= k < |ads| ==> Column(s, ads, probes[q].0)[k].Some?
    ensures RuledOut(probes, ds, s, ads, q) <==>
      forall k :: 0 <= k < |ads| ==> !Satisfies(probes[q].1, Column(s, ads, probes[q].0)[k].value)
  {
    hide Satisfies, Lookup;
    var i := probes[q].0;
    forall k | 0 <= k < |ads|
      ensures MayMeet(s, ads[k], i, probes[q].1) <==> Satisfies(probes[q].1, Column(s, ads, i)[k].value)
    {
      assert Column(s, ads, i)[k] == StrVal(s, ads[k], i);
      assert Lookup(ads[k], s.fields[i].id) == Some(Lit(LStr(StrVal(s, ads[k], i).value)));
    }
  }

  lemma SuffixAt(raw: seq<byte>, at: nat, e: seq<byte>)
    requires at + |e| <= |raw| && raw[at..at + |e|] == e
    ensures raw[at..] == e + raw[at + |e|..]
  {
  }

  // A complete dictionary, as its entries read.
  lemma TheDict(b: Block, ds: StrDicts, full: Block, key: nat -> nat, ads: seq<seq<Entry>>, i: nat)
    returns (d: seq<Str>)
    requires DictBlockFor(b, ds, full, key, ads) && i in ds.dicts && ds.dicts[i].noEscape
    ensures i < |b.schema.fields| && DictOf(d, Column(b.schema, ads, i)) && forall k ::
      0 <= k < |ads| ==> Column(b.schema, ads, i)[k].Some?
    ensures ds.dicts[i].dictStart <= |ds.dictRaw| &&
      GetEntries(ds.dictRaw[ds.dicts[i].dictStart..], ds.dicts[i].count) == Some(d)
  {
    hide BlockFor, StreamOf, StrVal, DictOf, CodesFor, PutEntries, GetEntries, Worthwhile, ValidAd;
    d :| FieldDict(ds, b.schema, ads, i, d);
    var f, e := ds.dicts[i], PutEntries(d);
    forall x | 0 <= x < |ads| ensures ValidAd(ads[x]) { DictBlockFacts(b, ds, full, key, ads, x); }
    ShortEntries(b.schema, ads, i, d);
    forall x | 0 <= x < |d| ensures |d[x]| < TWO64 { assert d[x] in d; }
    SuffixAt(ds.dictRaw, f.dictStart, e);
    EntriesReturn(d, ds.dictRaw[f.dictStart + |e|..]);
  }
}
