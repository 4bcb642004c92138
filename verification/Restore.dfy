/** A segment's columns written out and opened again by another process: names become that process's ids, the
    layout is derived anew, and the blocks are restored. */
module Restore {
  import opened Bytes
  import opened Wire
  import opened Row
  import opened ColBlock
  import opened Floats
  import opened Values
  import opened Preds
  import opened Escapes
  import opened Layout
  import opened Reload
  import opened Scan
  import opened DictBlock
  import D = StrDict
  import P = Persist

  // ---------------------------------------------------------------- the schema

  // The reader's id for the attribute the writer numbered id.
  function Renumber(nameOf: nat -> seq<byte>, intern: seq<byte> -> nat): (re: nat -> nat) { id => intern(nameOf(id)) }

  function KindOf(code: nat): (k: Option<Kind>)
    ensures k.Some? ==> KindRank(k.value) == code
  {
    if code == 1 then Some(KBool) else if code == 2 then Some(KInt) else if code == 3 then Some(KReal)
    else if code == 4 then Some(KString) else None
  }

  function StoreField(f: Field, nameOf: nat -> seq<byte>): (r: P.StoredField)
  {
    P.StoredField(nameOf(f.id), KindRank(f.kind), f.width, if f.uns then 1 else 0)
  }

  function StoreFields(fs: seq<Field>, nameOf: nat -> seq<byte>): (r: seq<P.StoredField>)
    ensures |r| == |fs| && forall i :: 0 <= i < |fs| ==> r[i] == StoreField(fs[i], nameOf)
  {
    seq(|fs|, i requires 0 <= i < |fs| => StoreField(fs[i], nameOf))
  }

  function LoadField(f: P.StoredField, intern: seq<byte> -> nat): (r: Option<Spec>)
  {
    match KindOf(f.kind % 256)
    case None => None
    case Some(k) => Some(Spec(intern(f.name), k, f.width, f.uns != 0))
  }

  // The stored fields under the reader's ids, or nothing when a kind is not one of the four.
  method LoadFields(fs: seq<P.StoredField>, intern: seq<byte> -> nat) returns (r: Option<seq<Spec>>)
    ensures r.Some? <==> forall i :: 0 <= i < |fs| ==> LoadField(fs[i], intern).Some?
    ensures r.Some? ==> |r.value| == |fs| && forall i :: 0 <= i < |fs| ==> LoadField(fs[i], intern) == Some(r.value[i])
  {
    hide LoadField;
    var specs: seq<Spec> := [];
    for i := 0 to |fs|
      invariant |specs| == i && forall j :: 0 <= j < i ==> LoadField(fs[j], intern) == Some(specs[j])
    {
      var f := LoadField(fs[i], intern);
      if f.None? { return None; }
      specs := specs + [f.value];
    }
    r := Some(specs);
  }

  // A written field comes back as the same field under the reader's id.
  lemma FieldReturns(f: Field, nameOf: nat -> seq<byte>, intern: seq<byte> -> nat)
    ensures LoadField(StoreField(f, nameOf), intern) == Some(SpecOf(f).(id := Renumber(nameOf, intern)(f.id)))
  {
  }

  // ---------------------------------------------------------------- maps as lists

  // Every key once, in any order.
  ghost predicate Lists<V>(kvs: seq<(nat, V)>, m: map<nat, V>)
  {
    && (forall a, b :: 0 <= a < b < |kvs| ==> kvs[a].0 != kvs[b].0)
    && (forall a :: 0 <= a < |kvs| ==> kvs[a].0 in m && m[kvs[a].0] == kvs[a].1)
    && forall i :: i in m ==> exists a :: 0 <= a < |kvs| && kvs[a].0 == i
  }

  function Assoc<V>(kvs: seq<(nat, V)>): (m: map<nat, V>)
  {
    if kvs == [] then map[] else Assoc(kvs[..|kvs| - 1])[kvs[|kvs| - 1].0 := kvs[|kvs| - 1].1]
  }

  lemma {:induction false} AssocKeys<V>(kvs: seq<(nat, V)>, i: nat)
    ensures i in Assoc(kvs) <==> exists a :: 0 <= a < |kvs| && kvs[a].0 == i
    decreases |kvs|
  {
    if kvs != [] {
      var n := |kvs| - 1;
      AssocKeys(kvs[..n], i);
      if a :| 0 <= a < |kvs| && kvs[a].0 == i { assert a < n ==> kvs[..n][a].0 == i; }
    }
  }

  lemma {:induction false} AssocAt<V>(kvs: seq<(nat, V)>, a: nat)
    requires a < |kvs| && forall x, y :: 0 <= x < y < |kvs| ==> kvs[x].0 != kvs[y].0
    ensures kvs[a].0 in Assoc(kvs) && Assoc(kvs)[kvs[a].0] == kvs[a].1
    decreases |kvs|
  {
    if a < |kvs| - 1 { AssocAt(kvs[..|kvs| - 1], a); }
  }

  lemma AssocReturns<V>(kvs: seq<(nat, V)>, m: map<nat, V>)
    requires Lists(kvs, m)
    ensures Assoc(kvs) == m
  {
    hide Assoc;
    forall i: nat ensures i in Assoc(kvs) <==> i in m { AssocKeys(kvs, i); }
    forall i: nat | i in m ensures Assoc(kvs)[i] == m[i] {
      var a :| 0 <= a < |kvs| && kvs[a].0 == i;
      AssocAt(kvs, a);
    }
  }

  // Iterating a map, in whatever order.
  method Enumerate<V>(m: map<nat, V>) returns (kvs: seq<(nat, V)>)
    ensures Lists(kvs, m)
  {
    kvs := [];
    var left := m.Keys;
    while left != {}
      invariant left <= m.Keys && forall a ::
        0 <= a < |kvs| ==> kvs[a].0 in m && kvs[a].0 !in left && m[kvs[a].0] == kvs[a].1
      invariant forall a, b :: 0 <= a < b < |kvs| ==> kvs[a].0 != kvs[b].0
      invariant forall i :: i in m && i !in left ==> exists a :: 0 <= a < |kvs| && kvs[a].0 == i
      decreases |left|
    {
      var i :| i in left;
      ghost var was := kvs;
      kvs := kvs + [(i, m[i])];
      left := left - {i};
      forall j | j in m && j !in left ensures exists a :: 0 <= a < |kvs| && kvs[a].0 == j {
        if j == i {
          assert kvs[|was|].0 == j;
        } else {
          var a :| 0 <= a < |was| && was[a].0 == j;
          assert kvs[a].0 == j;
        }
      }
    }
  }

  // ---------------------------------------------------------------- zones and escape classes

  // A bound's 64-bit pattern gives the bound back.
  ghost predicate Patterned(bits: F64 -> nat, z: Zone)
  {
    bits(z.min) < TWO64 && bits(z.max) < TWO64 && OfBits(bits(z.min)) == z.min && OfBits(bits(z.max)) == z.max
  }

  function StoreZones(kvs: seq<(nat, Zone)>, bits: F64 -> nat): (r: seq<P.StoredZone>)
    ensures |r| == |kvs|
    ensures forall a ::
      0 <= a < |kvs| ==>
        r[a] == P.StoredZone(kvs[a].0, bits(kvs[a].1.min), bits(kvs[a].1.max), if kvs[a].1.escaped then 1 else 0)
  {
    seq(|kvs|, a requires 0 <= a < |kvs| => P.StoredZone(kvs[a].0, bits(kvs[a].1.min), bits(kvs[a].1.max),
      if kvs[a].1.escaped then 1 else 0))
  }

  function LoadZones(zs: seq<P.StoredZone>): (r: seq<(nat, Zone)>)
    ensures |r| == |zs| && forall a ::
      0 <= a < |zs| ==> r[a] == (zs[a].idx, Zone(OfBits(zs[a].min), OfBits(zs[a].max), zs[a].escaped != 0))
  {
    seq(|zs|, a requires 0 <= a < |zs| => (zs[a].idx, Zone(OfBits(zs[a].min), OfBits(zs[a].max), zs[a].escaped != 0)))
  }

  ghost predicate ZonesWritten(zs: seq<P.StoredZone>, zones: map<nat, Zone>, bits: F64 -> nat)
  {
    exists kvs: seq<(nat, Zone)> :: Lists(kvs, zones) && zs == StoreZones(kvs, bits)
  }

  lemma ZonesReturn(zs: seq<P.StoredZone>, zones: map<nat, Zone>, bits: F64 -> nat)
    requires ZonesWritten(zs, zones, bits) && forall i :: i in zones ==> Patterned(bits, zones[i])
    ensures Assoc(LoadZones(zs)) == zones
  {
    hide OfBits, Assoc;
    var kvs: seq<(nat, Zone)> :| Lists(kvs, zones) && zs == StoreZones(kvs, bits);
    forall a | 0 <= a < |kvs| ensures LoadZones(zs)[a] == kvs[a] { assert Patterned(bits, zones[kvs[a].0]); }
    assert LoadZones(zs) == kvs;
    AssocReturns(kvs, zones);
  }

  function ClassCode(c: EscClass): (b: byte)
  {
    match c case ENone => 0 case EMissing => 1 case EExcept => 2 case EMixed => 3
  }

  // A code outside the four answers nothing, like no class.
  function CodeClass(b: byte): (c: EscClass)
  {
    if b == 1 then EMissing else if b == 2 then EExcept else if b == 3 then EMixed else ENone
  }

  function StoreClasses(cls: seq<EscClass>): (r: seq<byte>)
    ensures |r| == |cls| && forall i :: 0 <= i < |cls| ==> r[i] == ClassCode(cls[i])
  {
    seq(|cls|, i requires 0 <= i < |cls| => ClassCode(cls[i]))
  }

  function LoadClasses(bs: seq<byte>): (r: seq<EscClass>)
    ensures |r| == |bs| && forall i :: 0 <= i < |bs| ==> r[i] == CodeClass(bs[i])
  {
    seq(|bs|, i requires 0 <= i < |bs| => CodeClass(bs[i]))
  }

  function StoreExcs(kvs: seq<(nat, seq<nat>)>): (r: seq<P.StoredExc>)
    ensures |r| == |kvs| && forall a :: 0 <= a < |kvs| ==> r[a] == P.StoredExc(kvs[a].0, kvs[a].1)
  {
    seq(|kvs|, a requires 0 <= a < |kvs| => P.StoredExc(kvs[a].0, kvs[a].1))
  }

  function LoadExcs(xs: seq<P.StoredExc>): (r: seq<(nat, seq<nat>)>)
    ensures |r| == |xs| && forall a :: 0 <= a < |xs| ==> r[a] == (xs[a].idx, xs[a].recs)
  {
    seq(|xs|, a requires 0 <= a < |xs| => (xs[a].idx, xs[a].recs))
  }

  // The lists in ascending field order.
  ghost predicate ExcsWritten(xs: seq<P.StoredExc>, exc: map<nat, seq<nat>>)
  {
    exists kvs: seq<(nat, seq<nat>)> ::
      Lists(kvs, exc) && xs == StoreExcs(kvs) && forall a, b :: 0 <= a < b < |kvs| ==> kvs[a].0 < kvs[b].0
  }

  lemma ClassesReturn(e: EscInfo, cls: seq<byte>, xs: seq<P.StoredExc>)
    requires cls == StoreClasses(e.cls) && ExcsWritten(xs, e.exc)
    ensures EscInfo(LoadClasses(cls), Assoc(LoadExcs(xs)), e.absent) == e
  {
    hide Assoc;
    assert LoadClasses(cls) == e.cls;
    var kvs: seq<(nat, seq<nat>)> :| Lists(kvs, e.exc) && xs == StoreExcs(kvs);
    assert LoadExcs(xs) == kvs;
    AssocReturns(kvs, e.exc);
  }

  function StoreDicts(kvs: seq<(nat, D.Info)>): (r: seq<P.StoredDict>)
    ensures |r| == |kvs|
    ensures forall a :: 0 <= a < |kvs| ==> var f := kvs[a].1;
      r[a] == P.StoredDict(kvs[a].0, f.codeStart, f.codeWidth, f.dictStart, f.count, if f.noEscape then 1 else 0)
  {
    seq(|kvs|, a requires 0 <= a < |kvs| => var f := kvs[a].1;
      P.StoredDict(kvs[a].0, f.codeStart, f.codeWidth, f.dictStart, f.count, if f.noEscape then 1 else 0))
  }

  function LoadDicts(xs: seq<P.StoredDict>): (r: seq<(nat, D.Info)>)
    ensures |r| == |xs|
    ensures forall a ::
      0 <= a < |xs| ==>
        r[a] == (xs[a].idx, D.Info(xs[a].codeStart, xs[a].codeWidth, xs[a].dictStart, xs[a].count, xs[a].noEscape != 0))
  {
    seq(|xs|, a requires 0 <= a < |xs| => (xs[a].idx,
      D.Info(xs[a].codeStart, xs[a].codeWidth, xs[a].dictStart, xs[a].count, xs[a].noEscape != 0)))
  }

  ghost predicate DictsListed(xs: seq<P.StoredDict>, dicts: map<nat, D.Info>)
  {
    exists kvs: seq<(nat, D.Info)> ::
      Lists(kvs, dicts) && xs == StoreDicts(kvs) && forall a, b :: 0 <= a < b < |kvs| ==> kvs[a].0 < kvs[b].0
  }

  lemma DictsReturn(xs: seq<P.StoredDict>, dicts: map<nat, D.Info>)
    requires DictsListed(xs, dicts)
    ensures Assoc(LoadDicts(xs)) == dicts && (xs == [] <==> dicts == map[])
  {
    hide Assoc;
    var kvs: seq<(nat, D.Info)> :| Lists(kvs, dicts) && xs == StoreDicts(kvs);
    forall a | 0 <= a < |kvs| ensures LoadDicts(xs)[a] == kvs[a] {}
    assert LoadDicts(xs) == kvs;
    AssocReturns(kvs, dicts);
    if kvs != [] { assert kvs[0].0 in dicts; }
  }

  // ---------------------------------------------------------------- blocks

  // The codec of the compressed streams.
  datatype Codec = Codec(zip: seq<byte> -> seq<byte>, unzip: seq<byte> -> seq<byte>)

  ghost predicate Lossless(c: Codec) { forall x {:trigger c.zip(x)} :: c.unzip(c.zip(x)) == x }

  // What is written of a block and its string dictionaries.
  ghost predicate BlockWritten(st: P.StoredBlock, sb: ScanBlock, ds: StrDicts, c: Codec, bits: F64 -> nat)
  {
    && st.n == sb.blk.n && st.bits == sb.blk.bits && st.hotCol == sb.blk.hotCol && st.coldNum == c.zip(sb.blk.coldCol)
    && st.str == c.zip(sb.blk.strCat) && st.cold == c.zip(sb.blk.coldCat) && st.strOff == sb.blk.strOff &&
       st.coldOff == sb.blk.coldOff
    && ZonesWritten(st.meta.zones, sb.zones, bits) && st.meta.escClass == StoreClasses(sb.esc.cls) &&
       st.meta.escAbsent == sb.esc.absent
    && ExcsWritten(st.meta.exc, sb.esc.exc) && DictsListed(st.meta.dicts, ds.dicts)
    && st.meta.dictComp == (if ds.dicts == map[] then [] else c.zip(ds.dictRaw)) &&
       st.meta.codeComp == (if ds.dicts == map[] then [] else c.zip(ds.codeRaw))
  }

  // What is kept per field stays within the schema, and no dictionary means no regions.
  ghost predicate FieldsBound(sb: ScanBlock, ds: StrDicts)
  {
    && (forall i :: i in sb.esc.exc ==> i < |sb.blk.schema.fields|) &&
       (ds.dicts == map[] ==> ds.dictRaw == [] && ds.codeRaw == [])
    && forall i ::
       i in ds.dicts ==> i < |sb.blk.schema.fields| && (ds.dicts[i].codeWidth == 1 || ds.dicts[i].codeWidth == 2)
  }

  method StoreBlock(sb: ScanBlock, ds: StrDicts, c: Codec, bits: F64 -> nat) returns (st: P.StoredBlock)
    requires FieldsBound(sb, ds)
    ensures BlockWritten(st, sb, ds, c, bits)
  {
    var zs := Enumerate(sb.zones);
    var xs := InOrder(sb.esc.exc, |sb.blk.schema.fields|);
    var fs := InOrder(ds.dicts, |sb.blk.schema.fields|);
    st := P.StoredBlock(sb.blk.n, sb.blk.bits, sb.blk.hotCol, c.zip(sb.blk.coldCol), c.zip(sb.blk.strCat),
      c.zip(sb.blk.coldCat),
                        sb.blk.strOff, sb.blk.coldOff,
                        P.StoredMeta(StoreZones(zs, bits), StoreClasses(sb.esc.cls), sb.esc.absent, StoreExcs(xs),
                                     if ds.dicts == map[] then [] else c.zip(ds.dictRaw), if ds.dicts == map[] then
                                       [] else c.zip(ds.codeRaw), StoreDicts(fs)));
  }

  // A map's entries by ascending key.
  method InOrder<V>(m: map<nat, V>, n: nat) returns (kvs: seq<(nat, V)>)
    requires forall i :: i in m ==> i < n
    ensures Lists(kvs, m) && forall a, b :: 0 <= a < b < |kvs| ==> kvs[a].0 < kvs[b].0
  {
    kvs := [];
    for i := 0 to n
      invariant forall a :: 0 <= a < |kvs| ==> kvs[a].0 < i && kvs[a].0 in m && m[kvs[a].0] == kvs[a].1
      invariant forall a, b :: 0 <= a < b < |kvs| ==> kvs[a].0 < kvs[b].0
      invariant forall j :: j in m && j < i ==> exists a :: 0 <= a < |kvs| && kvs[a].0 == j
    {
      ghost var was := kvs;
      if i in m { kvs := kvs + [(i, m[i])]; }
      forall j | j in m && j < i + 1 ensures exists a :: 0 <= a < |kvs| && kvs[a].0 == j {
        if j == i {
          assert kvs[|was|].0 == j;
        } else {
          var a :| 0 <= a < |was| && was[a].0 == j;
          assert kvs[a].0 == j;
        }
      }
    }
  }

  // A block read back under a schema and a hot set: streams as stored, the partition derived.
  function Restored(st: P.StoredBlock, s: Schema, hot: seq<nat>, c: Codec): (sb: ScanBlock)
  {
    ScanBlock(
      Block(s, st.n, st.bits, NumericFields(s, Members(hot), true, 0), st.hotCol,
        NumericFields(s, Members(hot), false, 0), c.unzip(st.coldNum),
            c.unzip(st.str), st.strOff, c.unzip(st.cold), st.coldOff),
      Assoc(LoadZones(st.meta.zones)),
      EscInfo(LoadClasses(st.meta.escClass), Assoc(LoadExcs(st.meta.exc)), st.meta.escAbsent))
  }

  function RestoredDicts(st: P.StoredBlock, c: Codec): (ds: StrDicts)
  {
    StrDicts(Assoc(LoadDicts(st.meta.dicts)), if st.meta.dicts == [] then []
      else c.unzip(st.meta.dictComp), if st.meta.dicts == [] then [] else c.unzip(st.meta.codeComp))
  }

  // Where a block's layout is kept, what comes back is the block itself under the reader's schema.
  lemma BlockReturns(st: P.StoredBlock, sb: ScanBlock, ds: StrDicts, s': Schema, re: nat -> nat, c: Codec,
                     bits: F64 -> nat)
    requires BlockWritten(st, sb, ds, c, bits) && FieldsBound(sb, ds) && Lossless(c)
    requires (forall i :: i in sb.zones ==> Patterned(bits, sb.zones[i]))
    requires LaidOut(sb.blk) && SameLayout(sb.blk.schema, s', re)
    ensures Restored(st, s', sb.blk.hot, c) == ScanBlock(sb.blk.(schema := s'), sb.zones, sb.esc) &&
      RestoredDicts(st, c) == ds
  {
    hide NumericFields, Patterned, ZonesWritten, ExcsWritten, DictsListed, SameLayout, Assoc;
    DictsReturn(st.meta.dicts, ds.dicts);
    LaidOutSame(sb.blk, s', re);
    ZonesReturn(st.meta.zones, sb.zones, bits);
    ClassesReturn(sb.esc, st.meta.escClass, st.meta.exc);
  }

  // ---------------------------------------------------------------- scans over a restored block

  lemma MissingSame(s: Schema, s': Schema, re: nat -> nat, key: nat -> nat, key': nat -> nat, ad: seq<Entry>, i: nat)
    requires SameLayout(s, s', re) && RelabelOK(s, re, key, key', ad) && i < |s.fields|
    ensures i < |s'.fields| && SlotLit(s', RekeyAd(re, ad), i) == SlotLit(s, ad, i)
    ensures Missing(s', RekeyAd(re, ad), i) == Missing(s, ad, i) &&
      Exceptional(s', RekeyAd(re, ad), i) == Exceptional(s, ad, i)
  {
    hide Lookup, SlotLit;
    SameAt(s, s', re, i);
    SlotLitSame(s, s', re, key, key', ad, i);
    LookupRekey(re, ad, s.fields[i].id);
  }

  // Field i of every ad looks the same under the reader's ids.
  ghost predicate Alike(s: Schema, s': Schema, ads: seq<seq<Entry>>, ads': seq<seq<Entry>>, i: nat)
  {
    && i < |s.fields| == |s'.fields| && |ads'| == |ads|
    && (forall k :: 0 <= k < |ads| ==> SlotLit(s', ads'[k], i) == SlotLit(s, ads[k], i))
    && (forall k :: 0 <= k < |ads| ==> Missing(s', ads'[k], i) == Missing(s, ads[k], i))
    && (forall k :: 0 <= k < |ads| ==> Exceptional(s', ads'[k], i) == Exceptional(s, ads[k], i))
  }

  lemma FieldAlike(s: Schema, s': Schema, re: nat -> nat, key: nat -> nat, key': nat -> nat, ads: seq<seq<Entry>>,
                   i: nat)
    requires SameLayout(s, s', re) && i < |s.fields|
    requires forall k :: 0 <= k < |ads| ==> RelabelOK(s, re, key, key', ads[k])
    ensures Alike(s, s', ads, RelabelAds(re, ads), i)
  {
    hide SlotLit, Missing, Exceptional, RelabelOK, RekeyAd, SameLayout;
    SameSize(s, s', re);
    forall k | 0 <= k < |ads|
      ensures SlotLit(s', RelabelAds(re, ads)[k], i) == SlotLit(s, ads[k], i) &&
        Missing(s', RelabelAds(re, ads)[k], i) == Missing(s, ads[k], i)
           && Exceptional(s', RelabelAds(re, ads)[k], i) == Exceptional(s, ads[k], i)
    {
      MissingSame(s, s', re, key, key', ads[k], i);
    }
  }

  lemma ZoneSame(z: Zone, s: Schema, s': Schema, ads: seq<seq<Entry>>, ads': seq<seq<Entry>>, i: nat)
    requires Alike(s, s', ads, ads', i) && ZoneExact(z, s, ads, i)
    ensures ZoneExact(z, s', ads', i)
  {
    hide SlotLit, Missing, Exceptional, Covers, NodeVal, FOf;
    forall k | 0 <= k < |ads| ensures (InZone(z, s', ads'[k], i) <==> InZone(z, s, ads[k], i)) {}
    forall k | 0 <= k < |ads|
      ensures (IsValue(s', ads'[k], i, z.min) <==> IsValue(s, ads[k], i, z.min)) &&
        (IsValue(s', ads'[k], i, z.max) <==> IsValue(s, ads[k], i, z.max))
    {
    }
  }

  lemma ClassSame(e: EscInfo, s: Schema, s': Schema, ads: seq<seq<Entry>>, ads': seq<seq<Entry>>, i: nat)
    requires Alike(s, s', ads, ads', i) && |e.cls| == |s.fields| && FieldExact(e, s, ads, i)
    ensures FieldExact(e, s', ads', i)
  {
    hide SlotLit, Missing, Exceptional, HasBit;
  }

  lemma ClassAt(e: EscInfo, s: Schema, ads: seq<seq<Entry>>, i: nat)
    requires EscExact(e, s, ads) && i < |s.fields|
    ensures |e.cls| == |s.fields| && FieldExact(e, s, ads, i)
  {
    hide FieldExact;
    assert e.cls[i] == e.cls[i];
  }

  lemma EscSame(e: EscInfo, s: Schema, s': Schema, ads: seq<seq<Entry>>, ads': seq<seq<Entry>>)
    requires |s'.fields| == |s.fields| && EscFor(e, s, ads)
    requires forall i: nat :: i < |s.fields| ==> Alike(s, s', ads, ads', i)
    ensures EscFor(e, s', ads')
  {
    hide FieldExact, Alike;
    if EscExact(e, s, ads) {
      forall i: nat | i < |s'.fields| ensures FieldExact(e, s', ads', i) {
        ClassAt(e, s, ads, i);
        ClassSame(e, s, s', ads, ads', i);
      }
    }
  }

  // A restored block holds the same ads under the reader's ids, with exact zones and classes.
  lemma ScanBlockReloads(sb: ScanBlock, s: Schema, s': Schema, re: nat -> nat, key: nat -> nat, key': nat -> nat,
                         ads: seq<seq<Entry>>)
    requires ScanBlockFor(sb, s, key, ads) && ValidSchema(s') && SameLayout(s, s', re)
    requires forall k :: 0 <= k < |ads| ==> RelabelOK(s, re, key, key', ads[k])
    ensures ScanBlockFor(ScanBlock(sb.blk.(schema := s'), sb.zones, sb.esc), s', key', RelabelAds(re, ads))
  {
    hide BlockFor, ZoneExact, EscFor, Alike, RelabelOK, SameLayout, ValidSchema;
    var ads' := RelabelAds(re, ads);
    BlockReloads(sb.blk, s', re, key, key', ads);
    SameSize(s, s', re);
    forall i: nat {:trigger sb.zones[i]} | i in sb.zones
      ensures i < |s'.fields| && Numeric(s'.fields[i]) && ZoneExact(sb.zones[i], s', ads', i)
    {
      SameAt(s, s', re, i);
      FieldAlike(s, s', re, key, key', ads, i);
      ZoneSame(sb.zones[i], s, s', ads, ads', i);
    }
    forall i: nat | i < |s.fields| ensures Alike(s, s', ads, ads', i) { FieldAlike(s, s', re, key, key', ads, i); }
    EscSame(sb.esc, s, s', ads, ads');
  }

  // ---------------------------------------------------------------- the cold tails' names

  function ColdNames(ids: seq<nat>, key: nat -> nat, nameOf: nat -> seq<byte>): (r: seq<P.ColdName>)
    ensures |r| == |ids| && forall a :: 0 <= a < |ids| ==> r[a] == P.ColdName(key(ids[a]), nameOf(ids[a]))
  {
    seq(|ids|, a requires 0 <= a < |ids| => P.ColdName(key(ids[a]), nameOf(ids[a])))
  }

  // The tail's id for what the reader numbers cur: the last name interned to it, else cur itself.
  function StoredOf(names: seq<P.ColdName>, intern: seq<byte> -> nat, cur: nat): (r: nat)
  {
    if names == [] then cur
    else
      var l := names[|names| - 1];
      if l.name != [] && intern(l.name) == cur then l.id else StoredOf(names[..|names| - 1], intern, cur)
  }

  // The reader's id for the tail's number x: that of the last name x was written with, else x itself.
  function CurrentOf(names: seq<P.ColdName>, intern: seq<byte> -> nat, x: nat): (r: nat)
  {
    if names == [] then x
    else
      var l := names[|names| - 1];
      if l.name != [] && l.id == x then intern(l.name) else CurrentOf(names[..|names| - 1], intern, x)
  }

  function Translate(m: map<nat, nat>, x: nat): (r: nat) { if x in m then m[x] else x }

  method LoadNames(names: seq<P.ColdName>, intern: seq<byte> -> nat)
    returns (toStored: map<nat, nat>, toCurrent: map<nat, nat>)
    ensures forall cur :: Translate(toStored, cur) == StoredOf(names, intern, cur)
    ensures forall x :: Translate(toCurrent, x) == CurrentOf(names, intern, x)
  {
    toStored, toCurrent := map[], map[];
    for i := 0 to |names|
      invariant forall cur :: Translate(toStored, cur) == StoredOf(names[..i], intern, cur)
      invariant forall x :: Translate(toCurrent, x) == CurrentOf(names[..i], intern, x)
    {
      ghost var was, were := toStored, toCurrent;
      if names[i].name != [] {
        toStored := toStored[intern(names[i].name) := names[i].id];
        toCurrent := toCurrent[names[i].id := intern(names[i].name)];
      }
      assert names[..i + 1][..i] == names[..i];
      forall cur ensures Translate(toStored, cur) == StoredOf(names[..i + 1], intern, cur) {
        assert Translate(was, cur) == StoredOf(names[..i], intern, cur);
      }
      forall x ensures Translate(toCurrent, x) == CurrentOf(names[..i + 1], intern, x) {
        assert Translate(were, x) == CurrentOf(names[..i], intern, x);
      }
    }
    assert names[..|names|] == names;
  }

  // A segment dictionary's names as such a list, by number.
  function DictNames(d: seq<seq<byte>>): (r: seq<P.ColdName>)
    ensures |r| == |d| && forall l :: 0 <= l < |d| ==> r[l] == P.ColdName(l, d[l])
  {
    seq(|d|, l requires 0 <= l < |d| => P.ColdName(l, d[l]))
  }

  // The dictionary numbers the attributes ids, in that order.
  ghost predicate DictOf(d: seq<seq<byte>>, ids: seq<nat>, key: nat -> nat, nameOf: nat -> seq<byte>)
  {
    |d| == |ids| && forall l :: 0 <= l < |d| ==> key(ids[l]) == l && nameOf(ids[l]) == d[l]
  }

  // A translation from the dictionary alone, which gives all it names.
  method SegIdRemap(d: seq<seq<byte>>, intern: seq<byte> -> nat, ghost ids: seq<nat>, ghost key: nat -> nat,
                    ghost nameOf: nat -> seq<byte>)
    returns (toStored: map<nat, nat>, toCurrent: map<nat, nat>)
    requires DictOf(d, ids, key, nameOf)
    ensures forall cur :: Translate(toStored, cur) == StoredOf(ColdNames(ids, key, nameOf), intern, cur)
    ensures forall x :: Translate(toCurrent, x) == CurrentOf(ColdNames(ids, key, nameOf), intern, x)
  {
    toStored, toCurrent := LoadNames(DictNames(d), intern);
    assert DictNames(d) == ColdNames(ids, key, nameOf);
  }

  // Every listed attribute has a name, and none is renumbered to where id goes.
  ghost predicate Named(ids: seq<nat>, nameOf: nat -> seq<byte>, re: nat -> nat, id: nat)
  {
    forall a :: 0 <= a < |ids| ==> nameOf(ids[a]) != [] && (re(ids[a]) == re(id) ==> ids[a] == id)
  }

  // The names lead the reader from its own id back to the tail's, for the attributes listed and no others.
  lemma {:induction false} NamesLead(ids: seq<nat>, key: nat -> nat, nameOf: nat -> seq<byte>, intern: seq<byte> -> nat,
                                     id: nat)
    requires Named(ids, nameOf, Renumber(nameOf, intern), id)
    ensures StoredOf(ColdNames(ids, key, nameOf), intern, intern(nameOf(id))) == if id in ids then key(id)
      else intern(nameOf(id))
    decreases |ids|
  {
    if ids != [] {
      var n := |ids| - 1;
      var names := ColdNames(ids, key, nameOf);
      NamesLead(ids[..n], key, nameOf, intern, id);
      assert names[..n] == ColdNames(ids[..n], key, nameOf);
      assert ids == ids[..n] + [ids[n]];
      assert Renumber(nameOf, intern)(ids[n]) == intern(nameOf(ids[n]));
    }
  }

  // ---------------------------------------------------------------- what was written is accepted

  lemma {:induction false} BelowCount(xs: set<nat>, n: nat)
    requires forall x :: x in xs ==> x < n
    ensures |xs| <= n
    decreases n
  {
    if n == 0 {
      assert xs == {};
    } else {
      BelowCount(xs - {n - 1}, n - 1);
    }
  }

  lemma {:induction false} KeySet<V>(kvs: seq<(nat, V)>) returns (xs: set<nat>)
    requires forall a, b :: 0 <= a < b < |kvs| ==> kvs[a].0 != kvs[b].0
    ensures |xs| == |kvs| && forall x :: x in xs <==> exists a :: 0 <= a < |kvs| && kvs[a].0 == x
    decreases |kvs|
  {
    if kvs == [] {
      xs := {};
    } else {
      var n := |kvs| - 1;
      var ys := KeySet(kvs[..n]);
      xs := ys + {kvs[n].0};
      assert kvs[n].0 !in ys;
      forall x ensures x in xs <==> exists a :: 0 <= a < |kvs| && kvs[a].0 == x {
        if a :| 0 <= a < |kvs| && kvs[a].0 == x { assert a < n ==> kvs[..n][a].0 == x; }
      }
    }
  }

  lemma KeysBelow<V>(kvs: seq<(nat, V)>, m: map<nat, V>, n: nat)
    requires Lists(kvs, m) && forall i :: i in m ==> i < n
    ensures |kvs| <= n
  {
    var xs := KeySet(kvs);
    BelowCount(xs, n);
  }

  lemma ZonesAccepted(zs: seq<P.StoredZone>, zones: map<nat, Zone>, bits: F64 -> nat, n: nat)
    requires ZonesWritten(zs, zones, bits) && forall i :: i in zones ==> i < n
    ensures |zs| <= n && forall a :: 0 <= a < |zs| ==> zs[a].idx < n
  {
    var kvs: seq<(nat, Zone)> :| Lists(kvs, zones) && zs == StoreZones(kvs, bits);
    KeysBelow(kvs, zones, n);
  }

  lemma ExcsAccepted(xs: seq<P.StoredExc>, e: EscInfo, s: Schema, ads: seq<seq<Entry>>)
    requires ExcsWritten(xs, e.exc) && EscFor(e, s, ads)
    ensures |xs| <= |s.fields| && forall a :: 0 <= a < |xs| ==> P.ExcOK(xs[a], |ads|, |s.fields|)
  {
    hide AnyMissing, AnyExceptional, AllMissing, HasBit, Exceptional;
    var kvs: seq<(nat, seq<nat>)> :| Lists(kvs, e.exc) && xs == StoreExcs(kvs);
    KeysBelow(kvs, e.exc, |s.fields|);
    forall a | 0 <= a < |xs| ensures P.ExcOK(xs[a], |ads|, |s.fields|) { ClassAt(e, s, ads, kvs[a].0); }
  }

  lemma DictsAccepted(xs: seq<P.StoredDict>, dicts: map<nat, D.Info>, n: nat)
    requires DictsListed(xs, dicts)
    requires forall i :: i in dicts ==> i < n && (dicts[i].codeWidth == 1 || dicts[i].codeWidth == 2)
    ensures |xs| <= n && forall a :: 0 <= a < |xs| ==> xs[a].idx < n && (xs[a].codeWidth == 1 || xs[a].codeWidth == 2)
  {
    var kvs: seq<(nat, D.Info)> :| Lists(kvs, dicts) && xs == StoreDicts(kvs);
    KeysBelow(kvs, dicts, n);
  }

  // What a block says per field passes the reader's checks.
  lemma WrittenAccepted(st: P.StoredBlock, sb: ScanBlock, ds: StrDicts, s: Schema, ads: seq<seq<Entry>>, c: Codec,
                        bits: F64 -> nat)
    requires BlockWritten(st, sb, ds, c, bits) && FieldsBound(sb, ds) && sb.blk.schema == s && sb.blk.n == |ads|
    requires ZonesExact(sb.zones, s, ads) && EscFor(sb.esc, s, ads)
    ensures P.MetaOK(st.meta, st.n, |s.fields|)
  {
    hide ZoneExact, FieldExact, ZonesWritten, ExcsWritten, DictsListed, Lossless;
    DictsAccepted(st.meta.dicts, ds.dicts, |s.fields|);
    ZonesAccepted(st.meta.zones, sb.zones, bits, |s.fields|);
    ExcsAccepted(st.meta.exc, sb.esc, s, ads);
  }

  // ---------------------------------------------------------------- a segment, out and back in

  function HotOf(cs: ColSeg): (hot: seq<nat>) { if cs.blocks == [] then [] else cs.blocks[0].blk.hot }

  // What is written of a segment: fields and tails by name, the first block's hot fields, the blocks, the offsets.
  ghost predicate Written(p: P.Payload, cs: ColSeg, dss: seq<StrDicts>, ids: seq<nat>, nameOf: nat -> seq<byte>,
                          c: Codec, bits: F64 -> nat)
  {
    && p.fields == StoreFields(cs.schema.fields, nameOf) && p.coldNames == ColdNames(ids, cs.key, nameOf) &&
       p.hot == HotOf(cs)
    && p.offs == cs.offs && |p.blocks| == |dss| == |cs.blocks|
    && (forall j :: 0 <= j < |cs.blocks| ==> BlockWritten(p.blocks[j], cs.blocks[j], dss[j], c, bits))
    && forall g :: 0 <= g < |p.groups| ==> P.GroupOK(p.groups[g], p.blocks)
  }

  // Some tail of these ads has an entry under x.
  ghost predicate InTails(s: Schema, key: nat -> nat, ads: seq<seq<Entry>>, x: nat)
  {
    exists k :: 0 <= k < |ads| && TailHas(ColdEntries(s, key, ads[k]), x)
  }

  ghost predicate TailHas(cold: seq<Entry>, x: nat) { exists j :: 0 <= j < |cold| && cold[j].id == x }

  // The ids a freshly encoded block notes of its tails: all they hold.
  method CollectColdIds(b: Block, ghost key: nat -> nat, ghost ads: seq<seq<Entry>>) returns (noted: set<nat>)
    requires BlockFor(b, key, ads)
    ensures forall x :: x in noted <==> InTails(b.schema, key, ads, x)
  {
    hide BlockFor, ReadEntries, TailAt, ColdEntries;
    BlockFacts(b, key, ads);
    noted := {};
    for k := 0 to b.n
      invariant forall x :: x in noted <==> exists i :: 0 <= i < k && TailHas(ColdEntries(b.schema, key, ads[i]), x)
    {
      TailExact(b, key, ads, k);
      var cold := ReadEntries(TailAt(b, k));
      var here := Ids(cold);
      assert forall x :: x in here <==> TailHas(ColdEntries(b.schema, key, ads[k]), x);
      noted := noted + here;
    }
  }

  function Ids(cold: seq<Entry>): (r: set<nat>)
    ensures forall x :: x in r <==> TailHas(cold, x)
  {
    if cold == [] then {} else
      var n := |cold| - 1;
      var r := Ids(cold[..n]) + {cold[n].id};
      assert forall x :: TailHas(cold, x) <==> TailHas(cold[..n], x) || cold[n].id == x by { SnocTail(cold); }
      r
  }

  lemma SnocTail(cold: seq<Entry>)
    requires cold != []
    ensures forall x :: TailHas(cold, x) <==> TailHas(cold[..|cold| - 1], x) || cold[|cold| - 1].id == x
  {
    var n := |cold| - 1;
    forall x | TailHas(cold[..n], x) ensures TailHas(cold, x) {
      var j :| 0 <= j < n && cold[..n][j].id == x;
      assert cold[j].id == x;
    }
    forall x | TailHas(cold, x) && cold[n].id != x ensures TailHas(cold[..n], x) {
      var j :| 0 <= j < |cold| && cold[j].id == x;
      assert cold[..n][j].id == x;
    }
  }

  ghost predicate IsLeast(m: nat, xs: set<nat>) { m in xs && forall y :: y in xs ==> m <= y }

  lemma {:induction false} HasLeast(xs: set<nat>) returns (m: nat)
    requires xs != {}
    ensures IsLeast(m, xs)
    decreases xs
  {
    var x :| x in xs;
    m := x;
    if xs != {x} {
      var l := HasLeast(xs - {x});
      if l < x { m := l; }
      forall y | y in xs ensures m <= y { assert y == x || y in xs - {x}; }
    }
  }

  ghost predicate Rising(ids: seq<nat>) { forall a, b :: 0 <= a < b < |ids| ==> ids[a] < ids[b] }

  method Least(xs: set<nat>) returns (m: nat)
    requires xs != {}
    ensures IsLeast(m, xs)
  {
    ghost var l := HasLeast(xs);
    m :| m in xs && forall y :: y in xs ==> m <= y;
  }

  // Taken in order: the ids still left are above the ids taken.
  ghost predicate Taken(ids: seq<nat>, xs: set<nat>, left: set<nat>)
  {
    left <= xs && Rising(ids) && (forall x :: x in ids <==> x in xs && x !in left) && forall x, y ::
      x in ids && y in left ==> x < y
  }

  lemma TakeLeast(ids: seq<nat>, xs: set<nat>, left: set<nat>, m: nat)
    requires Taken(ids, xs, left) && IsLeast(m, left)
    ensures Taken(ids + [m], xs, left - {m})
  {
    forall a | 0 <= a < |ids| ensures ids[a] < m { assert ids[a] in ids; }
  }

  method Ascending(xs: set<nat>) returns (ids: seq<nat>)
    ensures Rising(ids) && forall x :: x in ids <==> x in xs
  {
    hide IsLeast;
    ids := [];
    var left := xs;
    while left != {}
      invariant Taken(ids, xs, left)
      decreases |left|
    {
      var m := Least(left);
      TakeLeast(ids, xs, left, m);
      assert m in left by { LeastIn(m, left); }
      ids, left := ids + [m], left - {m};
    }
  }

  lemma LeastIn(m: nat, xs: set<nat>)
    requires IsLeast(m, xs)
    ensures m in xs
  {
  }

  // What is written: names for the noted tail ids, by ascending id, unless a dictionary travels with the segment.
  method MarshalColSegment(cs: ColSeg, dss: seq<StrDicts>, dictKeyed: bool, noted: set<nat>, groups: seq<P.StoredGroup>,
                           nameOf: nat -> seq<byte>, c: Codec, bits: F64 -> nat)
    returns (p: P.Payload, ghost ids: seq<nat>)
    requires |dss| == |cs.blocks| && forall j :: 0 <= j < |cs.blocks| ==> FieldsBound(cs.blocks[j], dss[j])
    requires !dictKeyed ==> forall x :: x in noted ==> cs.key(x) == x
    requires forall g :: 0 <= g < |groups| ==>
      |groups[g].sels| == |cs.blocks| && forall j ::
        0 <= j < |cs.blocks| ==> P.SelOK(groups[g].sels[j], cs.blocks[j].blk.n, |groups[g].fields|)
    ensures Written(p, cs, dss, ids, nameOf, c, bits)
    ensures Rising(ids) && if dictKeyed then ids == [] else forall x :: x in ids <==> x in noted
  {
    hide BlockWritten, FieldsBound, P.SelOK;
    var order := [];
    if !dictKeyed { order := Ascending(noted); }
    ids := order;
    var names := seq(|order|, a requires 0 <= a < |order| => P.ColdName(order[a], nameOf(order[a])));
    var blocks: seq<P.StoredBlock> := [];
    for j := 0 to |cs.blocks|
      invariant |blocks| == j && forall i :: 0 <= i < j ==> BlockWritten(blocks[i], cs.blocks[i], dss[i], c, bits)
    {
      var st := StoreBlock(cs.blocks[j], dss[j], c, bits);
      blocks := blocks + [st];
    }
    p := P.Payload(StoreFields(cs.schema.fields, nameOf), names, HotOf(cs), blocks, cs.offs, groups);
    forall a | 0 <= a < |ids| ensures cs.key(ids[a]) == ids[a] { assert ids[a] in ids; }
    assert names == ColdNames(ids, cs.key, nameOf);
    forall j | 0 <= j < |blocks|
      ensures blocks[j].n == cs.blocks[j].blk.n
    {
      CountWritten(blocks[j], cs.blocks[j], dss[j], c, bits);
    }
  }

  // The blocks are laid out alike over one schema, and the zone bounds have patterns.
  ghost predicate Uniform(cs: ColSeg, dss: seq<StrDicts>, bits: F64 -> nat)
  {
    |dss| == |cs.blocks| && forall j :: 0 <= j < |cs.blocks| ==>
      && FieldsBound(cs.blocks[j], dss[j]) && cs.blocks[j].blk.schema == cs.schema && LaidOut(cs.blocks[j].blk) &&
         cs.blocks[j].blk.hot == HotOf(cs)
      && forall i :: i in cs.blocks[j].zones ==> Patterned(bits, cs.blocks[j].zones[i])
  }

  // A segment as its next process holds it.
  datatype Opened = Opened(schema: Schema, blocks: seq<ScanBlock>, dicts: seq<StrDicts>, offs: seq<nat>,
                           toStored: map<nat, nat>, toCurrent: map<nat, nat>)

  method RestoreBlock(st: P.StoredBlock, s: Schema, hot: seq<nat>, c: Codec) returns (sb: ScanBlock, ds: StrDicts)
    ensures sb == Restored(st, s, hot, c) && ds == RestoredDicts(st, c)
  {
    var h, cold := LayoutColumnar(s, Members(hot));
    var zones := Fold(LoadZones(st.meta.zones));
    var exc := Fold(LoadExcs(st.meta.exc));
    sb := ScanBlock(Block(s, st.n, st.bits, h, st.hotCol, cold, c.unzip(st.coldNum), c.unzip(st.str), st.strOff,
      c.unzip(st.cold), st.coldOff),
                    zones, EscInfo(LoadClasses(st.meta.escClass), exc, st.meta.escAbsent));
    var dicts := Fold(LoadDicts(st.meta.dicts));
    ds := StrDicts(dicts, if st.meta.dicts == [] then [] else c.unzip(st.meta.dictComp), if st.meta.dicts == [] then
      [] else c.unzip(st.meta.codeComp));
  }

  method Fold<V>(kvs: seq<(nat, V)>) returns (m: map<nat, V>)
    ensures m == Assoc(kvs)
  {
    m := map[];
    for i := 0 to |kvs|
      invariant m == Assoc(kvs[..i])
    {
      m := m[kvs[i].0 := kvs[i].1];
      assert kvs[..i + 1][..i] == kvs[..i];
    }
    assert kvs[..|kvs|] == kvs;
  }

  // The reader's schema is the stored one sorted under its own ids, and has the writer's layout exactly where those
  // ids keep the order among fields of equal kind and width; then the blocks and dictionaries are the writer's.
  ghost predicate OpenedAs(o: Opened, cs: ColSeg, dss: seq<StrDicts>, ids: seq<nat>, nameOf: nat -> seq<byte>,
                           intern: seq<byte> -> nat)
  {
    && ValidSchema(o.schema) && |o.blocks| == |o.dicts| == |cs.blocks| == |dss| && o.offs == cs.offs
    && SpecsOf(o.schema.fields) == Sort(Rebound(SpecsOf(cs.schema.fields), Renumber(nameOf, intern)))
    && (SameLayout(cs.schema, o.schema, Renumber(nameOf, intern)) <==> OrderKept(cs.schema, Renumber(nameOf, intern)))
    && (OrderKept(cs.schema, Renumber(nameOf, intern)) ==> forall j :: 0 <= j < |cs.blocks| ==>
         o.blocks[j] == ScanBlock(cs.blocks[j].blk.(schema := o.schema), cs.blocks[j].zones, cs.blocks[j].esc) &&
           o.dicts[j] == dss[j])
    && (forall cur :: Translate(o.toStored, cur) == StoredOf(ColdNames(ids, cs.key, nameOf), intern, cur))
    && forall x :: Translate(o.toCurrent, x) == CurrentOf(ColdNames(ids, cs.key, nameOf), intern, x)
  }

  // The schema as its fields are kept, and numbers for their names.
  ghost predicate Readable(s: Schema, nameOf: nat -> seq<byte>, intern: seq<byte> -> nat)
  {
    && ValidSchema(s) && Ordered(SpecsOf(s.fields)) &&
       DistinctSpecs(Rebound(SpecsOf(s.fields), Renumber(nameOf, intern)))
    && forall i :: 0 <= i < |s.fields| ==> intern(nameOf(s.fields[i].id)) < 0x1_0000_0000
  }

  // Reading back what was written: never refused, and opened as the reader's names have it.
  method Reopen(data: seq<byte>, intern: seq<byte> -> nat, c: Codec, ghost p: P.Payload, ghost cs: ColSeg,
                ghost dss: seq<StrDicts>, ghost ids: seq<nat>, ghost nameOf: nat -> seq<byte>, ghost bits: F64 -> nat)
    returns (r: Option<Opened>)
    requires Written(p, cs, dss, ids, nameOf, c, bits) && Uniform(cs, dss, bits) && Lossless(c) && P.FitPayload(p)
    requires P.Consistent(p) && data == P.MarshalSpec(p)
    requires Readable(cs.schema, nameOf, intern)
    ensures r.Some? && OpenedAs(r.value, cs, dss, ids, nameOf, intern)
    ensures forall j ::
      0 <= j < |cs.blocks| ==> r.value.blocks[j] == Restored(p.blocks[j], r.value.schema, HotOf(cs), c)
  {
    hide P.MarshalSpec, P.ParsePayload, P.FitPayload, P.Consistent, Sort, Restored, RestoredDicts, FieldsBound,
      BlockWritten, StoredOf, CurrentOf, SameLayout, OrderKept, Lossless, ValidSchema, Translate, Ordered;
    P.PayloadTrips(p);
    var got := P.UnmarshalColSegment(data);
    assert got == Some(p);
    var specs := LoadFields(got.value.fields, intern);
    FieldsReturn(cs.schema, nameOf, intern);
    assert specs.Some? && specs.value == Rebound(SpecsOf(cs.schema.fields), Renumber(nameOf, intern));
    var s := LayoutSchema(specs.value);
    LayoutKeptExactly(cs.schema, s, Renumber(nameOf, intern));
    var toStored, toCurrent := LoadNames(got.value.coldNames, intern);
    var blocks: seq<ScanBlock>, dicts: seq<StrDicts> := [], [];
    for j := 0 to |got.value.blocks|
      invariant |blocks| == |dicts| == j && forall i ::
        0 <= i < j ==> blocks[i] == Restored(p.blocks[i], s, HotOf(cs), c) && dicts[i] == RestoredDicts(p.blocks[i], c)
    {
      var sb, ds := RestoreBlock(got.value.blocks[j], s, got.value.hot, c);
      blocks, dicts := blocks + [sb], dicts + [ds];
    }
    r := Some(Opened(s, blocks, dicts, got.value.offs, toStored, toCurrent));
    if OrderKept(cs.schema, Renumber(nameOf, intern)) {
      forall j | 0 <= j < |cs.blocks|
        ensures blocks[j] == ScanBlock(cs.blocks[j].blk.(schema := s), cs.blocks[j].zones, cs.blocks[j].esc) &&
          dicts[j] == dss[j]
      {
        BlockReturns(p.blocks[j], cs.blocks[j], dss[j], s, Renumber(nameOf, intern), c, bits);
      }
    }
  }

  // A columnar-native load: the payload has no names, and the segment's dictionary gives them all.
  method AttachDict(o: Opened, d: seq<seq<byte>>, intern: seq<byte> -> nat, ghost cs: ColSeg, ghost dss: seq<StrDicts>,
                    ghost ids: seq<nat>, ghost nameOf: nat -> seq<byte>)
    returns (r: Opened)
    requires OpenedAs(o, cs, dss, [], nameOf, intern) && DictOf(d, ids, cs.key, nameOf)
    ensures OpenedAs(r, cs, dss, ids, nameOf, intern) && r == o.(toStored := r.toStored, toCurrent := r.toCurrent)
  {
    hide SameLayout, OrderKept, ValidSchema, Sort, StoredOf, CurrentOf, Translate;
    var toStored, toCurrent := SegIdRemap(d, intern, ids, cs.key, nameOf);
    r := o.(toStored := toStored, toCurrent := toCurrent);
  }

  lemma FieldsReturn(s: Schema, nameOf: nat -> seq<byte>, intern: seq<byte> -> nat)
    requires ValidSchema(s) && forall i :: 0 <= i < |s.fields| ==> intern(nameOf(s.fields[i].id)) < 0x1_0000_0000
    ensures forall i :: 0 <= i < |s.fields| ==>
      LoadField(StoreFields(s.fields, nameOf)[i], intern) ==
        Some(Rebound(SpecsOf(s.fields), Renumber(nameOf, intern))[i])
    ensures forall i :: 0 <= i < |s.fields| ==> ValidSpec(Rebound(SpecsOf(s.fields), Renumber(nameOf, intern))[i])
  {
    hide SlotOff, BoolsBefore;
    forall i | 0 <= i < |s.fields|
      ensures LoadField(StoreFields(s.fields, nameOf)[i], intern) ==
        Some(Rebound(SpecsOf(s.fields), Renumber(nameOf, intern))[i])
           && ValidSpec(Rebound(SpecsOf(s.fields), Renumber(nameOf, intern))[i])
    {
      FieldReturns(s.fields[i], nameOf, intern);
      assert FieldOK(s, i);
    }
  }

  lemma {:induction false} NumericCount(s: Schema, h: set<nat>, want: bool, i: nat)
    requires i <= |s.fields|
    ensures |NumericFields(s, h, want, i)| <= |s.fields| - i
    decreases |s.fields| - i
  {
    hide Numeric;
    if i < |s.fields| { NumericCount(s, h, want, i + 1); }
  }

  function Rows(blocks: seq<ScanBlock>, n: nat): (t: nat)
    requires n <= |blocks|
  {
    if n == 0 then 0 else Rows(blocks, n - 1) + blocks[n - 1].blk.n
  }

  lemma {:induction false} RowsWritten(sts: seq<P.StoredBlock>, blocks: seq<ScanBlock>, n: nat)
    requires n <= |blocks| == |sts| && forall j :: 0 <= j < |blocks| ==> sts[j].n == blocks[j].blk.n
    ensures P.TotalRows(sts, n) == Rows(blocks, n)
    decreases n
  {
    if n > 0 { RowsWritten(sts, blocks, n - 1); }
  }

  lemma CountWritten(st: P.StoredBlock, sb: ScanBlock, ds: StrDicts, c: Codec, bits: F64 -> nat)
    requires BlockWritten(st, sb, ds, c, bits)
    ensures st.n == sb.blk.n
  {
    hide ZonesWritten, ExcsWritten, DictsListed;
  }

  // A segment whose offsets cover its blocks' records passes every check on the way back in.
  lemma WrittenConsistent(p: P.Payload, cs: ColSeg, dss: seq<StrDicts>, ids: seq<nat>, nameOf: nat -> seq<byte>,
                          c: Codec, bits: F64 -> nat, ads: seq<seq<seq<Entry>>>)
    requires Written(p, cs, dss, ids, nameOf, c, bits) && Uniform(cs, dss, bits)
    requires Rows(cs.blocks, |cs.blocks|) == |cs.offs|
    requires |ads| == |cs.blocks| && forall j :: 0 <= j < |cs.blocks| ==>
      cs.blocks[j].blk.n == |ads[j]| && ZonesExact(cs.blocks[j].zones, cs.schema, ads[j]) &&
        EscFor(cs.blocks[j].esc, cs.schema, ads[j])
    ensures P.Consistent(p)
  {
    hide BlockWritten, ZonesExact, EscFor, FieldsBound, P.MetaOK, P.GroupOK, NumericFields, Patterned;
    forall j | 0 <= j < |cs.blocks|
      ensures p.blocks[j].n == cs.blocks[j].blk.n
    {
      CountWritten(p.blocks[j], cs.blocks[j], dss[j], c, bits);
    }
    RowsWritten(p.blocks, cs.blocks, |cs.blocks|);
    NumericCount(cs.schema, Members(HotOf(cs)), true, 0);
    forall j | 0 <= j < |p.blocks| ensures P.MetaOK(p.blocks[j].meta, p.blocks[j].n, |p.fields|) {
      WrittenAccepted(p.blocks[j], cs.blocks[j], dss[j], cs.schema, ads[j], c, bits);
    }
  }

  lemma StrValSame(s: Schema, s': Schema, re: nat -> nat, key: nat -> nat, key': nat -> nat, ad: seq<Entry>, i: nat)
    requires SameLayout(s, s', re) && RelabelOK(s, re, key, key', ad) && i < |s.fields|
    ensures i < |s'.fields| && s'.fields[i].kind == s.fields[i].kind &&
      StrVal(s', RekeyAd(re, ad), i) == StrVal(s, ad, i)
  {
    hide SlotLit;
    SameAt(s, s', re, i);
    SlotLitSame(s, s', re, key, key', ad, i);
  }

  lemma {:induction false} KeptSame(s: Schema, s': Schema, re: nat -> nat, key: nat -> nat, key': nat -> nat,
                                    ad: seq<Entry>, owned: set<nat>, i: nat)
    requires SameLayout(s, s', re) && RelabelOK(s, re, key, key', ad) && i <= |s.fields|
    ensures |s'.fields| == |s.fields| && KeptRegion(s', RekeyAd(re, ad), owned, i) == KeptRegion(s, ad, owned, i)
    decreases |s.fields| - i
  {
    hide StrVal, SameLayout, RelabelOK, RekeyAd, D.PutEntry;
    SameSize(s, s', re);
    if i < |s.fields| {
      StrValSame(s, s', re, key, key', ad, i);
      KeptSame(s, s', re, key, key', ad, owned, i + 1);
    }
  }

  // A block with dictionaries comes back as the same ads' block, dictionaries and all, under the reader's ids.
  lemma DictBlockReloads(b: Block, ds: StrDicts, full: Block, s': Schema, re: nat -> nat, key: nat -> nat,
                         key': nat -> nat, ads: seq<seq<Entry>>)
    requires DictBlockFor(b, ds, full, key, ads) && ValidSchema(s') && SameLayout(b.schema, s', re)
    requires forall k :: 0 <= k < |ads| ==> RelabelOK(b.schema, re, key, key', ads[k])
    ensures DictBlockFor(b.(schema := s'), ds, full.(schema := s'), key', RelabelAds(re, ads))
  {
    hide BlockFor, StreamOf, KeptRegion, SameLayout, RelabelOK, RekeyAd, StrVal, FieldDict, ValidSchema;
    var s, ads' := b.schema, RelabelAds(re, ads);
    BlockReloads(full, s', re, key, key', ads);
    SameSize(s, s', re);
    forall k | 0 <= k < |ads|
      ensures KeptRegion(s', ads'[k], ds.dicts.Keys, 0) == KeptRegion(s, ads[k], ds.dicts.Keys, 0)
    {
      KeptSame(s, s', re, key, key', ads[k], ds.dicts.Keys, 0);
    }
    assert KeptParts(s', ads', ds.dicts.Keys) == KeptParts(s, ads, ds.dicts.Keys);
    forall i: nat | i < |s.fields|
      ensures s'.fields[i].kind == s.fields[i].kind && Column(s', ads', i) == Column(s, ads, i)
    {
      SameAt(s, s', re, i);
      forall k | 0 <= k < |ads|
        ensures Column(s', ads', i)[k] == Column(s, ads, i)[k]
      {
        StrValSame(s, s', re, key, key', ads[k], i);
      }
    }
    forall i | 0 <= i < |s'.fields| && s'.fields[i].kind == KString ensures exists d :: FieldDict(ds, s', ads', i, d) {
      var d :| FieldDict(ds, s, ads, i, d);
      FieldDictSame(ds, s, s', ads, ads', i, d);
    }
  }

  lemma FieldDictSame(ds: StrDicts, s: Schema, s': Schema, ads: seq<seq<Entry>>, ads': seq<seq<Entry>>, i: nat,
                      d: seq<D.Str>)
    requires i < |s.fields| == |s'.fields| && |ads'| == |ads| && Column(s', ads', i) == Column(s, ads, i)
    requires FieldDict(ds, s, ads, i, d)
    ensures FieldDict(ds, s', ads', i, d)
  {
    hide D.DictOf, D.InfoFor;
  }
}
