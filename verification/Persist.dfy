/** The persisted form of a columnar segment: little-endian words, length-prefixed byte runs and lists, written
    to a buffer and read back through a cursor that rejects inconsistent counts. */
module Persist {
  import opened Bytes
  import opened Row
  import opened Groups

  const MAX_LIST: nat := 0x10_0000
  const TWO32: nat := 0x1_0000_0000

  // ---------------------------------------------------------------- words, runs and lists

  function U16(v: nat): (s: seq<byte>) { PutLE(v, 2) }
  function U32(v: nat): (s: seq<byte>) { PutLE(v, 4) }
  function U64(v: nat): (s: seq<byte>) { PutLE(v, 8) }
  function Blob(b: seq<byte>): (s: seq<byte>) { U32(|b|) + b }

  // What a reader yields: a value and the bytes after it, or nothing on malformed data.
  type Parser<T> = seq<byte> -> Option<(T, seq<byte>)>

  function GetU16(s: seq<byte>): (r: Option<(nat, seq<byte>)>)
  {
    if |s| < 2 then None else Some((GetLE(s[..2]), s[2..]))
  }
  function GetU32(s: seq<byte>): (r: Option<(nat, seq<byte>)>)
  {
    if |s| < 4 then None else Some((GetLE(s[..4]), s[4..]))
  }
  function GetU64(s: seq<byte>): (r: Option<(nat, seq<byte>)>)
  {
    if |s| < 8 then None else Some((GetLE(s[..8]), s[8..]))
  }

  function GetBlob(s: seq<byte>): (r: Option<(seq<byte>, seq<byte>)>)
  {
    match GetU32(s)
    case None => None
    case Some((n, c)) => if n > |c| then None else Some((c[..n], c[n..]))
  }

  // Reading back what was written, with anything after it left over.
  ghost predicate RoundTrips<T(!new)>(put: T -> seq<byte>, parse: Parser<T>, x: T)
  {
    forall rest: seq<byte> {:trigger put(x) + rest} :: parse(put(x) + rest) == Some((x, rest))
  }

  lemma U32Trips(v: nat)
    requires v < TWO32
    ensures RoundTrips(U32, GetU32, v)
  {
    hide PutLE, GetLE;
    forall rest: seq<byte> ensures GetU32(U32(v) + rest) == Some((v, rest)) {
      Pow256Widths();
      GetPutLE(v, 4);
      assert (U32(v) + rest)[..4] == U32(v) && (U32(v) + rest)[4..] == rest;
    }
  }

  lemma U16Trips(v: nat)
    requires v < 0x1_0000
    ensures RoundTrips(U16, GetU16, v)
  {
    hide PutLE, GetLE;
    forall rest: seq<byte> ensures GetU16(U16(v) + rest) == Some((v, rest)) {
      Pow256Widths();
      GetPutLE(v, 2);
      assert (U16(v) + rest)[..2] == U16(v) && (U16(v) + rest)[2..] == rest;
    }
  }

  lemma Trip<T(!new)>(put: T -> seq<byte>, parse: Parser<T>, x: T, rest: seq<byte>)
    requires RoundTrips(put, parse, x)
    ensures parse(put(x) + rest) == Some((x, rest))
  {
  }

  lemma U32Trip(v: nat, rest: seq<byte>)
    requires v < TWO32
    ensures GetU32(U32(v) + rest) == Some((v, rest))
  {
    hide U32, GetU32, RoundTrips;
    U32Trips(v);
    Trip<nat>(U32, GetU32, v, rest);
  }

  lemma U64Trip(v: nat, rest: seq<byte>)
    requires v < TWO64
    ensures GetU64(U64(v) + rest) == Some((v, rest))
  {
    hide PutLE, GetLE;
    Pow256Widths();
    GetPutLE(v, 8);
    assert (U64(v) + rest)[..8] == U64(v) && (U64(v) + rest)[8..] == rest;
  }

  lemma BlobTrips(b: seq<byte>)
    requires |b| < TWO32
    ensures RoundTrips(Blob, GetBlob, b)
  {
    hide U32, GetU32;
    forall rest: seq<byte> ensures GetBlob(Blob(b) + rest) == Some((b, rest)) {
      assert Blob(b) + rest == U32(|b|) + (b + rest);
      U32Trip(|b|, b + rest);
      assert (b + rest)[..|b|] == b && (b + rest)[|b|..] == rest;
    }
  }

  function PutAll<T>(put: T -> seq<byte>, xs: seq<T>): (s: seq<byte>)
  {
    if xs == [] then [] else put(xs[0]) + PutAll(put, xs[1..])
  }

  function ParseN<T>(parse: Parser<T>, n: nat, s: seq<byte>): (r: Option<(seq<T>, seq<byte>)>)
  {
    if n == 0 then Some(([], s))
    else match parse(s) { case None => None case Some((x, c)) =>
      match ParseN(parse, n - 1, c) { case None => None case Some((xs, c')) => Some(([x] + xs, c')) } }
  }

  function PutList<T>(put: T -> seq<byte>, xs: seq<T>): (s: seq<byte>) { U32(|xs|) + PutAll(put, xs) }

  function ParseList<T>(parse: Parser<T>, max: nat, s: seq<byte>): (r: Option<(seq<T>, seq<byte>)>)
  {
    match GetU32(s) case None => None case Some((n, c)) => if n > max then None else ParseN(parse, n, c)
  }

  lemma {:induction false} AllTrips<T(!new)>(put: T -> seq<byte>, parse: Parser<T>, xs: seq<T>, rest: seq<byte>)
    requires forall x :: x in xs ==> RoundTrips(put, parse, x)
    ensures ParseN(parse, |xs|, PutAll(put, xs) + rest) == Some((xs, rest))
    decreases |xs|
  {
    if xs == [] {
      assert PutAll(put, xs) + rest == rest;
    } else {
      AllTrips(put, parse, xs[1..], rest);
      assert PutAll(put, xs) + rest == put(xs[0]) + (PutAll(put, xs[1..]) + rest);
      assert xs[0] in xs;
      Trip(put, parse, xs[0], PutAll(put, xs[1..]) + rest);
      assert xs == [xs[0]] + xs[1..];
    }
  }

  lemma ListTrips<T(!new)>(put: T -> seq<byte>, parse: Parser<T>, max: nat, xs: seq<T>, rest: seq<byte>)
    requires |xs| < TWO32 && |xs| <= max && forall x :: x in xs ==> RoundTrips(put, parse, x)
    ensures ParseList(parse, max, PutList(put, xs) + rest) == Some((xs, rest))
  {
    hide U32, GetU32, PutAll, ParseN, RoundTrips;
    U32Trip(|xs|, PutAll(put, xs) + rest);
    assert PutList(put, xs) + rest == U32(|xs|) + (PutAll(put, xs) + rest);
    AllTrips(put, parse, xs, rest);
  }

  // ---------------------------------------------------------------- the payload

  // A schema field by name; its layout is re-derived on read.
  datatype StoredField = StoredField(name: seq<byte>, kind: nat, width: nat, uns: nat)

  // A cold-tail id and the attribute it stood for.
  datatype ColdName = ColdName(id: nat, name: seq<byte>)

  // A field's zone, its bounds as 64-bit patterns.
  datatype StoredZone = StoredZone(idx: nat, min: nat, max: nat, escaped: nat)

  // The exceptional records of a field that escapes both ways.
  datatype StoredExc = StoredExc(idx: nat, recs: seq<nat>)

  // Where a dictionary-coded string field lives.
  datatype StoredDict = StoredDict(idx: nat, codeStart: nat, codeWidth: nat, dictStart: nat, count: nat, noEscape: nat)

  // What a block carries beside its streams: zones, escape classes, string dictionaries.
  datatype StoredMeta = StoredMeta(zones: seq<StoredZone>, escClass: seq<byte>, escAbsent: seq<byte>,
                                   exc: seq<StoredExc>, dictComp: seq<byte>, codeComp: seq<byte>,
                                   dicts: seq<StoredDict>)

  // One block's streams and offsets.
  datatype StoredBlock = StoredBlock(n: nat, bits: seq<byte>, hotCol: seq<byte>, coldNum: seq<byte>, str: seq<byte>,
                                     cold: seq<byte>, strOff: seq<nat>, coldOff: seq<nat>, meta: StoredMeta)

  // One block's selection for a group.
  datatype StoredSel = StoredSel(members: seq<byte>, exceptions: seq<nat>, blk: Option<StoredBlock>)

  datatype StoredGroup = StoredGroup(fields: seq<StoredField>, sels: seq<StoredSel>)

  datatype Payload = Payload(fields: seq<StoredField>, coldNames: seq<ColdName>, hot: seq<nat>,
                             blocks: seq<StoredBlock>, offs: seq<nat>, groups: seq<StoredGroup>)

  function PutField(f: StoredField): (s: seq<byte>) { Blob(f.name) + (U16(f.kind) + (U16(f.width) + U16(f.uns))) }
  function PutColdName(c: ColdName): (s: seq<byte>) { U32(c.id) + Blob(c.name) }
  function PutInts(xs: seq<nat>): (s: seq<byte>) { PutList(U32, xs) }

  function PutZone(z: StoredZone): (s: seq<byte>) { U32(z.idx) + (U64(z.min) + (U64(z.max) + U32(z.escaped))) }
  function PutExc(e: StoredExc): (s: seq<byte>) { U32(e.idx) + PutInts(e.recs) }
  function PutDict(d: StoredDict): (s: seq<byte>)
  {
    U32(d.idx) + (U32(d.codeStart) + (U32(d.codeWidth) + (U32(d.dictStart) + (U32(d.count) + U32(d.noEscape)))))
  }

  function PutMeta(m: StoredMeta): (s: seq<byte>)
  {
    PutList(PutZone, m.zones) + (Blob(m.escClass) + (Blob(m.escAbsent) + (PutList(PutExc, m.exc) +
      (Blob(m.dictComp) + (Blob(m.codeComp) + PutList(PutDict, m.dicts))))))
  }

  function PutBlock(b: StoredBlock): (s: seq<byte>)
  {
    U32(b.n) + (Blob(b.bits) +
      (Blob(b.hotCol) +
        (Blob(b.coldNum) +
          (Blob(b.str) + (Blob(b.cold) + (PutInts(b.strOff) + (PutInts(b.coldOff) + PutMeta(b.meta))))))))
  }

  function PutSel(e: StoredSel): (s: seq<byte>)
  {
    Blob(e.members) + (PutInts(e.exceptions) + match e.blk { case None => U32(0) case Some(b) => U32(1) + PutBlock(b) })
  }

  function PutGroup(g: StoredGroup): (s: seq<byte>) { PutList(PutField, g.fields) + PutList(PutSel, g.sels) }

  function MarshalSpec(p: Payload): (s: seq<byte>)
  {
    PutList(PutField, p.fields) + (PutList(PutColdName, p.coldNames) + (PutInts(p.hot) +
      (PutList(PutBlock, p.blocks) + (PutInts(p.offs) + PutList(PutGroup, p.groups)))))
  }

  function ParseField(s: seq<byte>): (r: Option<(StoredField, seq<byte>)>)
  {
    match GetBlob(s) { case None => None case Some((name, c)) =>
    match GetU16(c) { case None => None case Some((kind, c1)) =>
    match GetU16(c1) { case None => None case Some((width, c2)) =>
    match GetU16(c2) { case None => None case Some((uns, c3)) => Some((StoredField(name, kind, width, uns), c3)) } } } }
  }

  function ParseColdName(s: seq<byte>): (r: Option<(ColdName, seq<byte>)>)
  {
    match GetU32(s) { case None => None case Some((id, c)) =>
    match GetBlob(c) { case None => None case Some((name, c1)) => Some((ColdName(id, name), c1)) } }
  }

  function ParseInts(s: seq<byte>): (r: Option<(seq<nat>, seq<byte>)>) { ParseList(GetU32, TWO32, s) }

  function ParseZone(s: seq<byte>): (r: Option<(StoredZone, seq<byte>)>)
  {
    match GetU32(s) { case None => None case Some((idx, c)) =>
    match GetU64(c) { case None => None case Some((min, c1)) =>
    match GetU64(c1) { case None => None case Some((max, c2)) =>
    match GetU32(c2) { case None => None case Some((escaped, c3)) => Some((StoredZone(idx, min, max, escaped),
      c3)) } } } }
  }

  function ParseExc(s: seq<byte>): (r: Option<(StoredExc, seq<byte>)>)
  {
    match GetU32(s) { case None => None case Some((idx, c)) =>
    match ParseInts(c) { case None => None case Some((recs, c1)) => Some((StoredExc(idx, recs), c1)) } }
  }

  function ParseDict(s: seq<byte>): (r: Option<(StoredDict, seq<byte>)>)
  {
    match GetU32(s) { case None => None case Some((idx, c)) =>
    match GetU32(c) { case None => None case Some((codeStart, c1)) =>
    match GetU32(c1) { case None => None case Some((codeWidth, c2)) =>
    match GetU32(c2) { case None => None case Some((dictStart, c3)) =>
    match GetU32(c3) { case None => None case Some((count, c4)) =>
    match GetU32(c4) { case None => None case Some((noEscape, c5)) =>
      Some((StoredDict(idx, codeStart, codeWidth, dictStart, count, noEscape), c5)) } } } } } }
  }

  function ParseMeta(s: seq<byte>): (r: Option<(StoredMeta, seq<byte>)>)
  {
    match ParseList(ParseZone, TWO32, s) { case None => None case Some((zones, c)) =>
    match GetBlob(c) { case None => None case Some((escClass, c1)) =>
    match GetBlob(c1) { case None => None case Some((escAbsent, c2)) =>
    match ParseList(ParseExc, TWO32, c2) { case None => None case Some((exc, c3)) =>
    match GetBlob(c3) { case None => None case Some((dictComp, c4)) =>
    match GetBlob(c4) { case None => None case Some((codeComp, c5)) =>
    match ParseList(ParseDict, TWO32, c5) { case None => None case Some((dicts, c6)) =>
      Some((StoredMeta(zones, escClass, escAbsent, exc, dictComp, codeComp, dicts), c6)) } } } } } } }
  }

  function ParseBlock(s: seq<byte>): (r: Option<(StoredBlock, seq<byte>)>)
  {
    match GetU32(s) { case None => None case Some((n, c)) =>
    match GetBlob(c) { case None => None case Some((bits, c1)) =>
    match GetBlob(c1) { case None => None case Some((hotCol, c2)) =>
    match GetBlob(c2) { case None => None case Some((coldNum, c3)) =>
    match GetBlob(c3) { case None => None case Some((str, c4)) =>
    match GetBlob(c4) { case None => None case Some((cold, c5)) =>
    match ParseInts(c5) { case None => None case Some((strOff, c6)) =>
    match ParseInts(c6) { case None => None case Some((coldOff, c7)) =>
    match ParseMeta(c7) { case None => None case Some((meta, c8)) =>
      Some((StoredBlock(n, bits, hotCol, coldNum, str, cold, strOff, coldOff, meta), c8)) } } } } } } } } }
  }

  function ParseSel(s: seq<byte>): (r: Option<(StoredSel, seq<byte>)>)
  {
    match GetBlob(s) { case None => None case Some((members, c)) =>
    match ParseInts(c) { case None => None case Some((exceptions, c1)) =>
    match GetU32(c1) { case None => None case Some((flag, c2)) =>
      if flag == 0 then Some((StoredSel(members, exceptions, None), c2))
      else
        match ParseBlock(c2) { case None => None case Some((b, c3)) => Some((StoredSel(members, exceptions, Some(b)),
          c3)) } } } }
  }

  function ParseGroup(s: seq<byte>): (r: Option<(StoredGroup, seq<byte>)>)
  {
    match ParseList(ParseField, MAX_LIST, s) { case None => None case Some((fields, c)) =>
    match ParseList(ParseSel, TWO32,
      c) { case None => None case Some((sels, c1)) => Some((StoredGroup(fields, sels), c1)) } }
  }

  // ---------------------------------------------------------------- element round trips

  predicate FitField(f: StoredField) { |f.name| < TWO32 && f.kind < 0x1_0000 && f.width < 0x1_0000 && f.uns < 0x1_0000 }

  lemma FieldTrips(f: StoredField)
    requires FitField(f)
    ensures RoundTrips(PutField, ParseField, f)
  {
    hide Blob, GetBlob, U16, GetU16;
    forall rest: seq<byte> ensures ParseField(PutField(f) + rest) == Some((f, rest)) {
      hide RoundTrips;
      var a := U16(f.uns) + rest;
      var b := U16(f.width) + a;
      var c := U16(f.kind) + b;
      assert PutField(f) + rest == Blob(f.name) + c;
      BlobTrips(f.name);
      Trip(Blob, GetBlob, f.name, c);
      U16Trips(f.kind);
      Trip(U16, GetU16, f.kind, b);
      U16Trips(f.width);
      Trip(U16, GetU16, f.width, a);
      U16Trips(f.uns);
      Trip(U16, GetU16, f.uns, rest);
    }
  }

  predicate FitCold(c: ColdName) { c.id < TWO32 && |c.name| < TWO32 }

  lemma ColdNameTrips(n: ColdName)
    requires FitCold(n)
    ensures RoundTrips(PutColdName, ParseColdName, n)
  {
    hide Blob, GetBlob, U32, GetU32;
    forall rest: seq<byte> ensures ParseColdName(PutColdName(n) + rest) == Some((n, rest)) {
      hide RoundTrips;
      assert PutColdName(n) + rest == U32(n.id) + (Blob(n.name) + rest);
      U32Trips(n.id);
      Trip(U32, GetU32, n.id, Blob(n.name) + rest);
      BlobTrips(n.name);
      Trip(Blob, GetBlob, n.name, rest);
    }
  }

  predicate FitInts(xs: seq<nat>) { |xs| < TWO32 && forall i :: 0 <= i < |xs| ==> xs[i] < TWO32 }

  lemma IntsTrip(xs: seq<nat>, rest: seq<byte>)
    requires FitInts(xs)
    ensures ParseInts(PutInts(xs) + rest) == Some((xs, rest))
  {
    hide ParseList, PutList, RoundTrips, U32, GetU32;
    forall x | x in xs ensures RoundTrips(U32, GetU32, x) { U32Trips(x); }
    ListTrips(U32, GetU32, TWO32, xs, rest);
  }

  predicate FitZone(z: StoredZone) { z.idx < TWO32 && z.min < TWO64 && z.max < TWO64 && z.escaped < TWO32 }
  predicate FitExc(e: StoredExc) { e.idx < TWO32 && FitInts(e.recs) }
  predicate FitDict(d: StoredDict)
  {
    d.idx < TWO32 && d.codeStart < TWO32 && d.codeWidth < TWO32 && d.dictStart < TWO32 && d.count < TWO32 &&
      d.noEscape < TWO32
  }

  predicate FitMeta(m: StoredMeta)
  {
    && |m.zones| < TWO32 && (forall i :: 0 <= i < |m.zones| ==> FitZone(m.zones[i]))
    && |m.escClass| < TWO32 && |m.escAbsent| < TWO32 && |m.exc| < TWO32 &&
       (forall i :: 0 <= i < |m.exc| ==> FitExc(m.exc[i]))
    && |m.dictComp| < TWO32 && |m.codeComp| < TWO32 && |m.dicts| < TWO32 && forall i ::
       0 <= i < |m.dicts| ==> FitDict(m.dicts[i])
  }

  lemma ZoneTrip(z: StoredZone, rest: seq<byte>)
    requires FitZone(z)
    ensures ParseZone(PutZone(z) + rest) == Some((z, rest))
  {
    hide U32, GetU32, U64, GetU64;
    var a := U32(z.escaped) + rest;
    var b := U64(z.max) + a;
    var c := U64(z.min) + b;
    assert PutZone(z) + rest == U32(z.idx) + c;
    U32Trip(z.idx, c);
    U64Trip(z.min, b);
    U64Trip(z.max, a);
    U32Trip(z.escaped, rest);
  }

  lemma ExcTrip(e: StoredExc, rest: seq<byte>)
    requires FitExc(e)
    ensures ParseExc(PutExc(e) + rest) == Some((e, rest))
  {
    hide U32, GetU32, PutInts, ParseInts, FitInts;
    assert PutExc(e) + rest == U32(e.idx) + (PutInts(e.recs) + rest);
    U32Trip(e.idx, PutInts(e.recs) + rest);
    IntsTrip(e.recs, rest);
  }

  lemma DictTrip(d: StoredDict, rest: seq<byte>)
    requires FitDict(d)
    ensures ParseDict(PutDict(d) + rest) == Some((d, rest))
  {
    hide U32, GetU32;
    var a := U32(d.noEscape) + rest;
    var b := U32(d.count) + a;
    var c := U32(d.dictStart) + b;
    var e := U32(d.codeWidth) + c;
    var f := U32(d.codeStart) + e;
    assert PutDict(d) + rest == U32(d.idx) + f;
    U32Trip(d.idx, f);
    U32Trip(d.codeStart, e);
    U32Trip(d.codeWidth, c);
    U32Trip(d.dictStart, b);
    U32Trip(d.count, a);
    U32Trip(d.noEscape, rest);
  }

  lemma ZonesTrip(xs: seq<StoredZone>, rest: seq<byte>)
    requires |xs| < TWO32 && forall i :: 0 <= i < |xs| ==> FitZone(xs[i])
    ensures ParseList(ParseZone, TWO32, PutList(PutZone, xs) + rest) == Some((xs, rest))
  {
    hide ParseList, PutList, PutZone, ParseZone, FitZone;
    forall x | x in xs
      ensures RoundTrips(PutZone, ParseZone, x)
    {
      forall r: seq<byte> ensures ParseZone(PutZone(x) + r) == Some((x, r)) { ZoneTrip(x, r); }
    }
    hide RoundTrips;
    ListTrips(PutZone, ParseZone, TWO32, xs, rest);
  }

  lemma ExcsTrip(xs: seq<StoredExc>, rest: seq<byte>)
    requires |xs| < TWO32 && forall i :: 0 <= i < |xs| ==> FitExc(xs[i])
    ensures ParseList(ParseExc, TWO32, PutList(PutExc, xs) + rest) == Some((xs, rest))
  {
    hide ParseList, PutList, PutExc, ParseExc, FitExc;
    forall x | x in xs
      ensures RoundTrips(PutExc, ParseExc, x)
    {
      forall r: seq<byte> ensures ParseExc(PutExc(x) + r) == Some((x, r)) { ExcTrip(x, r); }
    }
    hide RoundTrips;
    ListTrips(PutExc, ParseExc, TWO32, xs, rest);
  }

  lemma DictsTrip(xs: seq<StoredDict>, rest: seq<byte>)
    requires |xs| < TWO32 && forall i :: 0 <= i < |xs| ==> FitDict(xs[i])
    ensures ParseList(ParseDict, TWO32, PutList(PutDict, xs) + rest) == Some((xs, rest))
  {
    hide ParseList, PutList, PutDict, ParseDict, FitDict;
    forall x | x in xs
      ensures RoundTrips(PutDict, ParseDict, x)
    {
      forall r: seq<byte> ensures ParseDict(PutDict(x) + r) == Some((x, r)) { DictTrip(x, r); }
    }
    hide RoundTrips;
    ListTrips(PutDict, ParseDict, TWO32, xs, rest);
  }

  lemma MetaTrip(m: StoredMeta, rest: seq<byte>)
    requires FitMeta(m)
    ensures ParseMeta(PutMeta(m) + rest) == Some((m, rest))
  {
    hide Blob, GetBlob, ParseList, PutList, PutZone, ParseZone, PutExc, ParseExc, PutDict, ParseDict, FitZone, FitExc,
      FitDict;
    var c6 := PutList(PutDict, m.dicts) + rest;
    var c5 := Blob(m.codeComp) + c6;
    var c4 := Blob(m.dictComp) + c5;
    var c3 := PutList(PutExc, m.exc) + c4;
    var c2 := Blob(m.escAbsent) + c3;
    var c1 := Blob(m.escClass) + c2;
    assert PutMeta(m) + rest == PutList(PutZone, m.zones) + c1;
    ZonesTrip(m.zones, c1);
    BlobTrip(m.escClass, c2);
    BlobTrip(m.escAbsent, c3);
    ExcsTrip(m.exc, c4);
    BlobTrip(m.dictComp, c5);
    BlobTrip(m.codeComp, c6);
    DictsTrip(m.dicts, rest);
  }

  predicate FitBlock(b: StoredBlock)
  {
    FitMeta(b.meta) && b.n < TWO32 && |b.bits| < TWO32 && |b.hotCol| < TWO32 && |b.coldNum| < TWO32 &&
      |b.str| < TWO32 && |b.cold| < TWO32 && FitInts(b.strOff) && FitInts(b.coldOff)
  }

  lemma BlobTrip(b: seq<byte>, rest: seq<byte>)
    requires |b| < TWO32
    ensures GetBlob(Blob(b) + rest) == Some((b, rest))
  {
    hide Blob, GetBlob, RoundTrips;
    BlobTrips(b);
    Trip(Blob, GetBlob, b, rest);
  }

  lemma BlockTrip(b: StoredBlock, rest: seq<byte>)
    requires FitBlock(b)
    ensures ParseBlock(PutBlock(b) + rest) == Some((b, rest))
  {
    hide Blob, GetBlob, U32, GetU32, ParseInts, PutInts, FitInts, PutMeta, ParseMeta, FitMeta;
    var c7 := PutMeta(b.meta) + rest;
    var c6 := PutInts(b.coldOff) + c7;
    var c5 := PutInts(b.strOff) + c6;
    var c4 := Blob(b.cold) + c5;
    var c3 := Blob(b.str) + c4;
    var c2 := Blob(b.coldNum) + c3;
    var c1 := Blob(b.hotCol) + c2;
    var c := Blob(b.bits) + c1;
    assert PutBlock(b) + rest == U32(b.n) + c;
    U32Trip(b.n, c);
    BlobTrip(b.bits, c1);
    BlobTrip(b.hotCol, c2);
    BlobTrip(b.coldNum, c3);
    BlobTrip(b.str, c4);
    BlobTrip(b.cold, c5);
    IntsTrip(b.strOff, c6);
    IntsTrip(b.coldOff, c7);
    MetaTrip(b.meta, rest);
  }

  predicate FitSel(e: StoredSel)
  {
    |e.members| < TWO32 && FitInts(e.exceptions) && (e.blk.Some? ==> FitBlock(e.blk.value))
  }

  lemma SelTrip(e: StoredSel, rest: seq<byte>)
    requires FitSel(e)
    ensures ParseSel(PutSel(e) + rest) == Some((e, rest))
  {
    hide Blob, GetBlob, U32, GetU32, ParseInts, PutInts, FitInts, ParseBlock, PutBlock;
    var tail := match e.blk case None => U32(0) + rest case Some(b) => U32(1) + (PutBlock(b) + rest);
    assert PutSel(e) + rest == Blob(e.members) + (PutInts(e.exceptions) + tail);
    BlobTrip(e.members, PutInts(e.exceptions) + tail);
    IntsTrip(e.exceptions, tail);
    if e.blk.Some? {
      U32Trip(1, PutBlock(e.blk.value) + rest);
      BlockTrip(e.blk.value, rest);
    } else {
      U32Trip(0, rest);
    }
  }

  predicate FitGroup(g: StoredGroup)
  {
    && |g.fields| <= MAX_LIST && |g.sels| < TWO32 && (forall i :: 0 <= i < |g.fields| ==> FitField(g.fields[i]))
    && forall i :: 0 <= i < |g.sels| ==> FitSel(g.sels[i])
  }

  lemma FieldsTrip(fs: seq<StoredField>, rest: seq<byte>)
    requires |fs| <= MAX_LIST && forall i :: 0 <= i < |fs| ==> FitField(fs[i])
    ensures ParseList(ParseField, MAX_LIST, PutList(PutField, fs) + rest) == Some((fs, rest))
  {
    hide ParseList, PutList, RoundTrips, PutField, ParseField, FitField;
    forall x | x in fs ensures RoundTrips(PutField, ParseField, x) { FieldTrips(x); }
    ListTrips(PutField, ParseField, MAX_LIST, fs, rest);
  }

  lemma GroupTrip(g: StoredGroup, rest: seq<byte>)
    requires FitGroup(g)
    ensures ParseGroup(PutGroup(g) + rest) == Some((g, rest))
  {
    hide ParseList, PutList, PutField, ParseField, PutSel, ParseSel, FitSel;
    assert PutGroup(g) + rest == PutList(PutField, g.fields) + (PutList(PutSel, g.sels) + rest);
    FieldsTrip(g.fields, PutList(PutSel, g.sels) + rest);
    forall x | x in g.sels ensures RoundTrips(PutSel, ParseSel, x) {
      forall r: seq<byte> ensures ParseSel(PutSel(x) + r) == Some((x, r)) { SelTrip(x, r); }
    }
    hide RoundTrips;
    ListTrips(PutSel, ParseSel, TWO32, g.sels, rest);
  }

  // ---------------------------------------------------------------- the whole segment

  function ParsePayload(s: seq<byte>): (r: Option<Payload>)
  {
    match ParseList(ParseField, MAX_LIST, s) { case None => None case Some((fields, c)) =>
    match ParseList(ParseColdName, MAX_LIST, c) { case None => None case Some((coldNames, c1)) =>
    match ParseInts(c1) { case None => None case Some((hot, c2)) =>
    match ParseList(ParseBlock, TWO32, c2) { case None => None case Some((blocks, c3)) =>
    match ParseInts(c3) { case None => None case Some((offs, c4)) =>
    match ParseList(ParseGroup, TWO32, c4) { case None => None case Some((groups, c5)) =>
      Some(Payload(fields, coldNames, hot, blocks, offs, groups)) } } } } } }
  }

  predicate FitPayload(p: Payload)
  {
    && |p.fields| <= MAX_LIST && (forall i :: 0 <= i < |p.fields| ==> FitField(p.fields[i]))
    && |p.coldNames| <= MAX_LIST && (forall i :: 0 <= i < |p.coldNames| ==> FitCold(p.coldNames[i]))
    && FitInts(p.hot) && FitInts(p.offs) && |p.blocks| < TWO32 &&
       (forall i :: 0 <= i < |p.blocks| ==> FitBlock(p.blocks[i]))
    && |p.groups| < TWO32 && forall i :: 0 <= i < |p.groups| ==> FitGroup(p.groups[i])
  }

  // What is written reads back as it was.
  lemma PayloadTrips(p: Payload)
    requires FitPayload(p)
    ensures ParsePayload(MarshalSpec(p)) == Some(p)
  {
    hide ParseList, PutList, PutField, ParseField, PutBlock, ParseBlock, PutGroup, ParseGroup, PutColdName,
      ParseColdName, ParseInts, PutInts, FitBlock, FitGroup, FitField, FitCold, FitInts;
    var c4 := PutList(PutGroup, p.groups);
    var c3 := PutInts(p.offs) + c4;
    var c2 := PutList(PutBlock, p.blocks) + c3;
    var c1 := PutInts(p.hot) + c2;
    var c := PutList(PutColdName, p.coldNames) + c1;
    assert c4 + [] == c4;
    FieldsTrip(p.fields, c);
    ColdNamesTrip(p.coldNames, c1);
    IntsTrip(p.hot, c2);
    BlocksTrip(p.blocks, c3);
    IntsTrip(p.offs, c4);
    GroupsTrip(p.groups, []);
  }

  lemma ColdNamesTrip(xs: seq<ColdName>, rest: seq<byte>)
    requires |xs| <= MAX_LIST && forall i :: 0 <= i < |xs| ==> FitCold(xs[i])
    ensures ParseList(ParseColdName, MAX_LIST, PutList(PutColdName, xs) + rest) == Some((xs, rest))
  {
    hide ParseList, PutList, RoundTrips, PutColdName, ParseColdName, FitCold;
    forall x | x in xs ensures RoundTrips(PutColdName, ParseColdName, x) { ColdNameTrips(x); }
    ListTrips(PutColdName, ParseColdName, MAX_LIST, xs, rest);
  }

  lemma BlocksTrip(xs: seq<StoredBlock>, rest: seq<byte>)
    requires |xs| < TWO32 && forall i :: 0 <= i < |xs| ==> FitBlock(xs[i])
    ensures ParseList(ParseBlock, TWO32, PutList(PutBlock, xs) + rest) == Some((xs, rest))
  {
    hide ParseList, PutList, PutBlock, ParseBlock, FitBlock;
    forall x | x in xs ensures RoundTrips(PutBlock, ParseBlock, x) {
      forall r: seq<byte> ensures ParseBlock(PutBlock(x) + r) == Some((x, r)) { BlockTrip(x, r); }
    }
    hide RoundTrips;
    ListTrips(PutBlock, ParseBlock, TWO32, xs, rest);
  }

  lemma GroupsTrip(xs: seq<StoredGroup>, rest: seq<byte>)
    requires |xs| < TWO32 && forall i :: 0 <= i < |xs| ==> FitGroup(xs[i])
    ensures ParseList(ParseGroup, TWO32, PutList(PutGroup, xs) + rest) == Some((xs, rest))
  {
    hide ParseList, PutList, PutGroup, ParseGroup, FitGroup;
    forall x | x in xs ensures RoundTrips(PutGroup, ParseGroup, x) {
      forall r: seq<byte> ensures ParseGroup(PutGroup(x) + r) == Some((x, r)) { GroupTrip(x, r); }
    }
    hide RoundTrips;
    ListTrips(PutGroup, ParseGroup, TWO32, xs, rest);
  }

  // ---------------------------------------------------------------- the counts that must agree

  function TotalRows(blocks: seq<StoredBlock>, n: nat): (t: nat)
    requires n <= |blocks|
  {
    if n == 0 then 0 else TotalRows(blocks, n - 1) + blocks[n - 1].n
  }

  function MemberCount(e: StoredSel): (n: nat) { if e.blk.None? then 0 else e.blk.value.n }

  // What a block says per field stays within the schema and the block.
  predicate MetaOK(m: StoredMeta, n: nat, fields: nat)
  {
    && |m.zones| <= fields && (forall i :: 0 <= i < |m.zones| ==> m.zones[i].idx < fields)
    && (|m.escClass| == 0 || |m.escClass| == fields) && (|m.escAbsent| == 0 || |m.escAbsent| == BitBytes(fields))
    && |m.exc| <= fields && (forall i :: 0 <= i < |m.exc| ==> ExcOK(m.exc[i], n, fields))
    && |m.dicts| <= fields && forall i ::
       0 <= i < |m.dicts| ==> m.dicts[i].idx < fields && (m.dicts[i].codeWidth == 1 || m.dicts[i].codeWidth == 2)
  }

  predicate ExcOK(e: StoredExc, n: nat, fields: nat)
  {
    e.idx < fields && forall j :: 0 <= j < |e.recs| ==> e.recs[j] < n
  }

  predicate SelOK(e: StoredSel, n: nat, fields: nat)
  {
    && (e.blk.Some? ==> MetaOK(e.blk.value.meta, e.blk.value.n, fields))
    && |e.members| == BitBytes(n) && PopBytes(e.members, 0, |e.members|) == MemberCount(e)
    && forall i :: 0 <= i < |e.exceptions| ==> e.exceptions[i] < n
  }

  predicate GroupOK(g: StoredGroup, blocks: seq<StoredBlock>)
  {
    |g.sels| == |blocks| && forall j :: 0 <= j < |blocks| ==> SelOK(g.sels[j], blocks[j].n, |g.fields|)
  }

  predicate Consistent(p: Payload)
  {
    && |p.hot| <= |p.fields| && TotalRows(p.blocks, |p.blocks|) == |p.offs|
    && (forall i :: 0 <= i < |p.blocks| ==> MetaOK(p.blocks[i].meta, p.blocks[i].n, |p.fields|))
    && forall i :: 0 <= i < |p.groups| ==> GroupOK(p.groups[i], p.blocks)
  }

  method Population(m: seq<byte>) returns (n: nat)
    ensures n == PopBytes(m, 0, |m|)
  {
    n := 0;
    for i := 0 to |m|
      invariant n == PopBytes(m, 0, i)
    {
      n := n + PopCount(m[i]);
    }
  }

  method CheckExc(e: StoredExc, n: nat, fields: nat) returns (ok: bool)
    ensures ok == ExcOK(e, n, fields)
  {
    if e.idx >= fields { return false; }
    for j := 0 to |e.recs|
      invariant forall i :: 0 <= i < j ==> e.recs[i] < n
    {
      if e.recs[j] >= n { return false; }
    }
    ok := true;
  }

  method CheckMeta(m: StoredMeta, n: nat, fields: nat) returns (ok: bool)
    ensures ok == MetaOK(m, n, fields)
  {
    hide ExcOK;
    if |m.zones| > fields || |m.exc| > fields || |m.dicts| > fields { return false; }
    for i := 0 to |m.zones|
      invariant forall j :: 0 <= j < i ==> m.zones[j].idx < fields
    {
      if m.zones[i].idx >= fields { return false; }
    }
    if (|m.escClass| != 0 && |m.escClass| != fields) || (|m.escAbsent| != 0 && |m.escAbsent| != BitBytes(fields)) {
      return false;
    }
    for i := 0 to |m.exc|
      invariant forall j :: 0 <= j < i ==> ExcOK(m.exc[j], n, fields)
    {
      var good := CheckExc(m.exc[i], n, fields);
      if !good { return false; }
    }
    for i := 0 to |m.dicts|
      invariant forall j ::
        0 <= j < i ==> m.dicts[j].idx < fields && (m.dicts[j].codeWidth == 1 || m.dicts[j].codeWidth == 2)
    {
      if m.dicts[i].idx >= fields || (m.dicts[i].codeWidth != 1 && m.dicts[i].codeWidth != 2) { return false; }
    }
    ok := true;
  }

  method CheckSel(e: StoredSel, n: nat, fields: nat) returns (ok: bool)
    ensures ok == SelOK(e, n, fields)
  {
    hide MetaOK;
    if e.blk.Some? {
      var good := CheckMeta(e.blk.value.meta, e.blk.value.n, fields);
      if !good { return false; }
    }
    for i := 0 to |e.exceptions|
      invariant forall j :: 0 <= j < i ==> e.exceptions[j] < n
    {
      if e.exceptions[i] >= n { return false; }
    }
    if |e.members| != BitBytes(n) { return false; }
    var pop := Population(e.members);
    ok := pop == MemberCount(e);
  }

  method CheckGroup(g: StoredGroup, blocks: seq<StoredBlock>) returns (ok: bool)
    ensures ok == GroupOK(g, blocks)
  {
    if |g.sels| != |blocks| { return false; }
    for j := 0 to |blocks|
      invariant forall i :: 0 <= i < j ==> SelOK(g.sels[i], blocks[i].n, |g.fields|)
    {
      var good := CheckSel(g.sels[j], blocks[j].n, |g.fields|);
      if !good { return false; }
    }
    ok := true;
  }

  // Read a segment's columns back, or refuse them: malformed bytes and disagreeing counts alike.
  method UnmarshalColSegment(data: seq<byte>) returns (r: Option<Payload>)
    ensures r == if ParsePayload(data).Some? && Consistent(ParsePayload(data).value) then ParsePayload(data) else None
  {
    hide ParsePayload, GroupOK, MetaOK;
    var got := ParsePayload(data);
    if got.None? { return None; }
    var p := got.value;
    if |p.hot| > |p.fields| { return None; }
    var total := 0;
    for i := 0 to |p.blocks|
      invariant total == TotalRows(p.blocks, i) && forall j ::
        0 <= j < i ==> MetaOK(p.blocks[j].meta, p.blocks[j].n, |p.fields|)
    {
      var good := CheckMeta(p.blocks[i].meta, p.blocks[i].n, |p.fields|);
      if !good { return None; }
      total := total + p.blocks[i].n;
    }
    if total != |p.offs| { return None; }
    for i := 0 to |p.groups|
      invariant forall j :: 0 <= j < i ==> GroupOK(p.groups[j], p.blocks)
    {
      var good := CheckGroup(p.groups[i], p.blocks);
      if !good { return None; }
    }
    r := Some(p);
  }

  // Once accepted, a member's rank always addresses a row of its group's block.
  lemma RankInBlock(e: StoredSel, n: nat, fields: nat, k: nat)
    requires SelOK(e, n, fields) && k < n && HasBit(e.members, k)
    ensures e.blk.Some? && Rank(e.members, k) < e.blk.value.n
  {
    hide Rank, HasBit, PopBytes;
    var m := e.members;
    RankBytes(m, 0, |m|);
    RankZero(m);
    RankMono(m, k, 8 * |m|);
  }
}
