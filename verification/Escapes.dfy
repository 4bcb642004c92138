/** Escape classes: per field and block, whether an escape means a missing attribute, an out-of-slot value,
    or either; and the fields no record of the block carries. */
module Escapes {
  import opened Bytes
  import opened Wire
  import opened Row
  import opened ColBlock
  import opened Values

  datatype EscClass = ENone | EMissing | EExcept | EMixed

  // Class per field (empty when the block predates the classification), the exceptional records of mixed
  // fields, and the bitmap of fields absent from the whole block.
  datatype EscInfo = EscInfo(cls: seq<EscClass>, exc: map<nat, seq<nat>>, absent: seq<byte>)

  predicate Missing(s: Schema, ad: seq<Entry>, i: nat)
    requires i < |s.fields|
  {
    Lookup(ad, s.fields[i].id).None?
  }

  // Present, but not storable in its slot.
  predicate Exceptional(s: Schema, ad: seq<Entry>, i: nat)
    requires i < |s.fields|
  {
    Lookup(ad, s.fields[i].id).Some? && SlotLit(s, ad, i).None?
  }

  function ClassOf(missing: bool, except: bool): (c: EscClass)
  {
    if !missing && !except then ENone else if !missing then EExcept else if !except then EMissing else EMixed
  }

  ghost predicate AnyMissing(s: Schema, ads: seq<seq<Entry>>, i: nat, m: nat)
    requires i < |s.fields| && m <= |ads|
  {
    exists k :: 0 <= k < m && Missing(s, ads[k], i)
  }

  ghost predicate AnyExceptional(s: Schema, ads: seq<seq<Entry>>, i: nat, m: nat)
    requires i < |s.fields| && m <= |ads|
  {
    exists k :: 0 <= k < m && Exceptional(s, ads[k], i)
  }

  ghost predicate AllMissing(s: Schema, ads: seq<seq<Entry>>, i: nat)
    requires i < |s.fields|
  {
    forall k :: 0 <= k < |ads| ==> Missing(s, ads[k], i)
  }

  // Ascending, and exactly the exceptional records among the first m.
  ghost predicate ListOf(xs: seq<nat>, s: Schema, ads: seq<seq<Entry>>, i: nat, m: nat)
    requires i < |s.fields| && m <= |ads|
  {
    && (forall a, b :: 0 <= a < b < |xs| ==> xs[a] < xs[b])
    && (forall a :: 0 <= a < |xs| ==> xs[a] < m)
    && forall k: nat :: k < m ==> (k in xs <==> Exceptional(s, ads[k], i))
  }

  ghost predicate FieldExact(e: EscInfo, s: Schema, ads: seq<seq<Entry>>, i: nat)
    requires i < |s.fields| && |e.cls| == |s.fields|
  {
    && e.cls[i] == ClassOf(AnyMissing(s, ads, i, |ads|), AnyExceptional(s, ads, i, |ads|))
    && (e.cls[i] == EMixed ==> i in e.exc && ListOf(e.exc[i], s, ads, i, |ads|))
    && (HasBit(e.absent, i) <==> ads != [] && AllMissing(s, ads, i))
  }

  // A bitmap over the fields, or none; a list for mixed fields only.
  ghost predicate EscShape(e: EscInfo, fields: nat)
  {
    && |e.cls| == fields && (e.absent == [] || |e.absent| == BitBytes(fields))
    && forall i :: i in e.exc ==> i < fields && e.cls[i] == EMixed
  }

  ghost predicate EscExact(e: EscInfo, s: Schema, ads: seq<seq<Entry>>)
  {
    EscShape(e, |s.fields|) && forall i: nat {:trigger e.cls[i]} :: i < |s.fields| ==> FieldExact(e, s, ads, i)
  }

  // A block either carries exact classes or none at all.
  ghost predicate EscFor(e: EscInfo, s: Schema, ads: seq<seq<Entry>>)
  {
    e == EscInfo([], map[], []) || EscExact(e, s, ads)
  }

  // Is this escape a missing attribute? Not answered by a block without classes.
  method EscapeIsMissing(e: EscInfo, ghost s: Schema, ghost ads: seq<seq<Entry>>, i: nat, k: nat)
    returns (missing: bool, ok: bool)
    requires EscFor(e, s, ads) && i < |s.fields| && k < |ads|
    ensures ok && SlotLit(s, ads[k], i).None? ==> (missing <==> Missing(s, ads[k], i))
    ensures SlotLit(s, ads[k], i).None? ==> (ok <==> e.cls != [])
  {
    hide Lookup, SlotLit;
    if i >= |e.cls| { return false, false; }
    assert FieldExact(e, s, ads, i);
    match e.cls[i] {
      case EMissing => return true, true;
      case EExcept => return false, true;
      case EMixed =>
        var at := SearchFrom(e.exc[i], k);
        return !(at < |e.exc[i]| && e.exc[i][at] == k), true;
      case ENone =>
        assert !Missing(s, ads[k], i) && !Exceptional(s, ads[k], i);
        return false, false;
    }
  }

  // The first element not below k.
  method SearchFrom(xs: seq<nat>, k: nat) returns (lo: nat)
    requires forall a, b :: 0 <= a < b < |xs| ==> xs[a] < xs[b]
    ensures lo <= |xs| && ((lo < |xs| && xs[lo] == k) <==> k in xs)
  {
    lo := 0;
    var hi := |xs|;
    while lo < hi
      invariant 0 <= lo <= hi <= |xs|
      invariant forall a :: 0 <= a < lo ==> xs[a] < k
      invariant forall a :: hi <= a < |xs| ==> xs[a] >= k
    {
      var mid := (lo + hi) / 2;
      if xs[mid] >= k { hi := mid; } else { lo := mid + 1; }
    }
  }

  predicate FieldAbsentFromBlock(e: EscInfo, i: nat) { HasBit(e.absent, i) }

  lemma AbsentProves(e: EscInfo, s: Schema, ads: seq<seq<Entry>>, i: nat, k: nat)
    requires EscFor(e, s, ads) && i < |s.fields| && FieldAbsentFromBlock(e, i) && k < |ads|
    ensures Missing(s, ads[k], i)
  {
    hide Lookup, SlotLit;
    assert e.cls[i] == e.cls[i];
    assert FieldExact(e, s, ads, i);
  }

  // ---------------------------------------------------------------- classifying a block being encoded

  // Tail ids to field indexes, in whichever id space the tail was written: a field without a number there has none.
  ghost predicate ColdMap(s: Schema, key: nat -> nat, named: nat -> bool, m: map<nat, nat>)
  {
    && (forall i: nat {:trigger s.fields[i]} ::
          i < |s.fields| && named(s.fields[i].id) ==> key(s.fields[i].id) in m && m[key(s.fields[i].id)] == i)
    && (forall c :: c in m ==> m[c] < |s.fields| && named(s.fields[m[c]].id) && key(s.fields[m[c]].id) == c)
  }

  // This tail names the field.
  ghost predicate NamedIn(key: nat -> nat, named: nat -> bool, cold: seq<Entry>, id: nat)
  {
    named(id) && exists j :: 0 <= j < |cold| && cold[j].id == key(id)
  }

  // Which fields this record's tail names.
  method InCold(s: Schema, ghost key: nat -> nat, ghost named: nat -> bool, coldToField: map<nat, nat>,
                cold: seq<Entry>)
    returns (fields: set<nat>)
    requires ColdMap(s, key, named, coldToField)
    ensures forall i: nat {:trigger i in fields} ::
      i < |s.fields| ==> (i in fields <==> NamedIn(key, named, cold, s.fields[i].id))
  {
    fields := {};
    for j := 0 to |cold|
      invariant forall i: nat {:trigger i in fields} :: i < |s.fields| ==>
        (i in fields <==> named(s.fields[i].id) && exists a :: 0 <= a < j && cold[a].id == key(s.fields[i].id))
    {
      if cold[j].id in coldToField { fields := fields + {coldToField[cold[j].id]}; }
    }
  }

  // An escaped field is in the tail exactly when the record carries it, whether or not the field has a number there.
  lemma ColdIsPresent(s: Schema, key: nat -> nat, named: nat -> bool, ad: seq<Entry>, i: nat)
    requires ValidSchema(s) && DistinctIds(ad) && i < |s.fields| && SlotLit(s, ad, i).None?
    requires KeyedBy(key, named) && TailNamed(s, named, ad)
    ensures NamedIn(key, named, ColdEntries(s, key, ad), s.fields[i].id) <==> Exceptional(s, ad, i)
  {
    hide ColdEntries, ValidSchema;
    var c, id := ColdEntries(s, key, ad), s.fields[i].id;
    FieldAt(s, i);
    if NamedIn(key, named, c, id) {
      var j :| 0 <= j < |c| && c[j].id == key(id);
      ColdMember(s, key, ad, c[j]);
      var x :| 0 <= x < |ad| && !InSlot(s, ad[x]) && c[j] == Entry(key(ad[x].id), ad[x].node);
      assert named(ad[x].id) && ad[x].id == id;
      LookupAt(ad, x);
    }
    if Exceptional(s, ad, i) {
      var n := Lookup(ad, id).value;
      var x :| 0 <= x < |ad| && ad[x] == Entry(id, n);
      assert !InSlot(s, ad[x]);
      var e := Entry(key(id), n);
      assert e in c by { ColdMember(s, key, ad, e); }
    }
  }

  // What the loop knows about one field after m records.
  ghost predicate Saw(s: Schema, ads: seq<seq<Entry>>, i: nat, m: nat, missing: bool, except: bool, inSlot: bool,
                      xs: seq<nat>)
    requires i < |s.fields| && m <= |ads|
  {
    && (missing <==> AnyMissing(s, ads, i, m)) && (except <==> AnyExceptional(s, ads, i, m))
    && (inSlot <==> exists k :: 0 <= k < m && SlotLit(s, ads[k], i).Some?) && ListOf(xs, s, ads, i, m)
  }

  lemma SawStep(s: Schema, ads: seq<seq<Entry>>, i: nat, m: nat, missing: bool, except: bool, inSlot: bool,
                xs: seq<nat>)
    requires i < |s.fields| && m < |ads| && Saw(s, ads, i, m, missing, except, inSlot, xs)
    ensures SlotLit(s, ads[m], i).Some? ==> Saw(s, ads, i, m + 1, missing, except, true, xs)
    ensures SlotLit(s, ads[m], i).None? && Exceptional(s, ads[m], i) ==>
      Saw(s, ads, i, m + 1, missing, true, inSlot, xs + [m])
    ensures SlotLit(s, ads[m], i).None? && !Exceptional(s, ads[m], i) ==>
      Saw(s, ads, i, m + 1, true, except, inSlot, xs)
  {
    hide Lookup;
    assert SlotLit(s, ads[m], i).Some? ==> !Missing(s, ads[m], i) && !Exceptional(s, ads[m], i);
    hide SlotLit;
    SawMissing(s, ads, i, m);
    SawList(s, ads, i, m, xs);
    if inSlot {
      var k :| 0 <= k < m && SlotLit(s, ads[k], i).Some?;
      assert 0 <= k < m + 1 && SlotLit(s, ads[k], i).Some?;
    }
  }

  lemma SawMissing(s: Schema, ads: seq<seq<Entry>>, i: nat, m: nat)
    requires i < |s.fields| && m < |ads|
    ensures AnyMissing(s, ads, i, m + 1) <==> AnyMissing(s, ads, i, m) || Missing(s, ads[m], i)
    ensures AnyExceptional(s, ads, i, m + 1) <==> AnyExceptional(s, ads, i, m) || Exceptional(s, ads[m], i)
  {
    hide Missing, Exceptional;
  }

  lemma SawList(s: Schema, ads: seq<seq<Entry>>, i: nat, m: nat, xs: seq<nat>)
    requires i < |s.fields| && m < |ads| && ListOf(xs, s, ads, i, m)
    ensures ListOf(if Exceptional(s, ads[m], i) then xs + [m] else xs, s, ads, i, m + 1)
  {
    hide Exceptional;
    assert m !in xs;
  }

  datatype Sighting = Sighting(missing: bool, except: bool, inSlot: bool, recs: seq<nat>)

  ghost predicate SawAll(s: Schema, ads: seq<seq<Entry>>, m: nat, seen: seq<Sighting>)
    requires m <= |ads|
  {
    && |seen| == |s.fields|
    && forall i: nat {:trigger seen[i]} ::
       i < |s.fields| ==> Saw(s, ads, i, m, seen[i].missing, seen[i].except, seen[i].inSlot, seen[i].recs)
  }

  // Record k's field is in its slot, in the tail, or missing.
  function Sight(f: Sighting, escaped: bool, inCold: bool, k: nat): (r: Sighting)
  {
    if !escaped then f.(inSlot := true) else if inCold then f.(except := true, recs := f.recs + [k])
      else f.(missing := true)
  }

  lemma SightExact(s: Schema, key: nat -> nat, named: nat -> bool, ads: seq<seq<Entry>>, k: nat, i: nat, f: Sighting,
                   inCold: bool)
    requires ValidSchema(s) && k < |ads| && DistinctIds(ads[k]) && KeyedBy(key, named) && TailNamed(s, named, ads[k])
    requires i < |s.fields|
    requires Saw(s, ads, i, k, f.missing, f.except, f.inSlot, f.recs)
    requires inCold <==> NamedIn(key, named, ColdEntries(s, key, ads[k]), s.fields[i].id)
    ensures var r := Sight(f, SlotLit(s, ads[k], i).None?, inCold, k);
      Saw(s, ads, i, k + 1, r.missing, r.except, r.inSlot, r.recs)
  {
    hide Saw, SlotLit, ColdEntries, ValidSchema, KeyedBy, TailNamed, NamedIn, Exceptional;
    SawStep(s, ads, i, k, f.missing, f.except, f.inSlot, f.recs);
    if SlotLit(s, ads[k], i).None? { ColdIsPresent(s, key, named, ads[k], i); }
  }

  method ClassifyRecord(s: Schema, ghost key: nat -> nat, ghost named: nat -> bool, coldToField: map<nat, nat>,
                        rec: seq<byte>, k: nat, seen: array<Sighting>, ghost ads: seq<seq<Entry>>)
    requires ValidSchema(s) && ColdMap(s, key, named, coldToField) && k < |ads| && ValidAd(ads[k])
    requires RowOf(s, key, ads[k], rec)
    requires ValidEntries(ColdEntries(s, key, ads[k])) && KeyedBy(key, named) && TailNamed(s, named, ads[k])
    requires SawAll(s, ads, k, seen[..])
    modifies seen
    ensures SawAll(s, ads, k + 1, seen[..])
  {
    hide RowOf, Saw, SlotLit, ColdEntries, ReadEntries, ValidSchema, ValidAd, ColdMap, KeyedBy, TailNamed, NamedIn,
      Shaped, Exceptional, ColdPart, HasBit;
    SplitRow(s, key, ads[k], rec);
    EntriesRoundTrip(ColdEntries(s, key, ads[k]));
    var inCold := InCold(s, key, named, coldToField, ReadEntries(ColdPart(s, rec)));
    RowEscapes(s, key, ads[k], rec);
    AdDistinct(ads[k]);
    var esc := rec[..s.escBytes];
    ghost var was := seen[..];
    var i := 0;
    while i < |s.fields|
      invariant 0 <= i <= |s.fields| == seen.Length
      invariant forall j: nat {:trigger seen[j]} :: j < |s.fields| ==>
        seen[j] == if j < i then Sight(was[j], HasBit(esc, j), j in inCold, k) else was[j]
    {
      seen[i] := Sight(seen[i], HasBit(esc, i), i in inCold, k);
      i := i + 1;
    }
    forall j: nat | j < |s.fields|
      ensures Saw(s, ads, j, k + 1, seen[..][j].missing, seen[..][j].except, seen[..][j].inSlot, seen[..][j].recs)
    {
      assert seen[..][j] == seen[j];
      SightExact(s, key, named, ads, k, j, was[j], j in inCold);
      assert HasBit(esc, j) <==> SlotLit(s, ads[k], j).None?;
    }
  }

  lemma RowEscapes(s: Schema, key: nat -> nat, ad: seq<Entry>, rec: seq<byte>)
    requires RowOf(s, key, ad, rec)
    ensures s.escBytes <= |rec| && forall i: nat {:trigger HasBit(rec[..s.escBytes], i)} ::
      i < |s.fields| ==> (HasBit(rec[..s.escBytes], i) <==> SlotLit(s, ad, i).None?)
  {
    hide ColdEntries, StringRegion, BlobOf;
  }

  lemma AdDistinct(ad: seq<Entry>)
    requires ValidAd(ad)
    ensures DistinctIds(ad)
  {
  }

  lemma NothingSeen(s: Schema, ads: seq<seq<Entry>>, seen: seq<Sighting>)
    requires |seen| == |s.fields| && forall i :: 0 <= i < |seen| ==> seen[i] == Sighting(false, false, false, [])
    ensures SawAll(s, ads, 0, seen)
  {
    hide SlotLit, Exceptional, Missing;
  }

  // Every field's class, the exceptional records of the mixed ones, and the fields no record carries.
  method ClassifyEscapes(s: Schema, ghost key: nat -> nat, ghost named: nat -> bool, coldToField: map<nat, nat>,
                         recs: seq<seq<byte>>, ghost ads: seq<seq<Entry>>)
    returns (e: EscInfo)
    requires ValidSchema(s) && ColdMap(s, key, named, coldToField) && RowsOf(s, key, ads, recs)
    requires KeyedBy(key, named) && forall k :: 0 <= k < |ads| ==> TailNamed(s, named, ads[k])
    ensures EscExact(e, s, ads)
  {
    hide RowOf, Saw, ColdEntries, ValidSchema, ValidAd, ColdMap, KeyedBy, TailNamed, FieldExact;
    var seen := new Sighting[|s.fields|](_ => Sighting(false, false, false, []));
    NothingSeen(s, ads, seen[..]);
    var k := 0;
    while k < |recs|
      invariant 0 <= k <= |recs| && SawAll(s, ads, k, seen[..])
    {
      assert RowOf(s, key, ads[k], recs[k]);
      ClassifyRecord(s, key, named, coldToField, recs[k], k, seen, ads);
      k := k + 1;
    }
    e := Classes(s, |recs|, seen[..], ads);
  }

  method Classes(s: Schema, n: nat, seen: seq<Sighting>, ghost ads: seq<seq<Entry>>) returns (e: EscInfo)
    requires n == |ads| && SawAll(s, ads, n, seen)
    ensures EscExact(e, s, ads)
  {
    hide Saw, HasBit;
    var cls: seq<EscClass> := [];
    var exc: map<nat, seq<nat>> := map[];
    var absent := new byte[BitBytes(|s.fields|)](_ => 0);
    NoBits(absent[..], |s.fields|);
    var any := false;
    var i: nat := 0;
    while i < |s.fields|
      invariant i <= |s.fields| && |cls| == i && absent.Length == BitBytes(|s.fields|)
      invariant forall j: nat {:trigger cls[j]} :: j < i ==> cls[j] == ClassOf(seen[j].missing, seen[j].except)
      invariant forall j: nat {:trigger cls[j]} :: j < i && cls[j] == EMixed ==> j in exc && exc[j] == seen[j].recs
      invariant forall j :: j in exc ==> j < i && cls[j] == EMixed
      invariant forall j: nat {:trigger HasBit(absent[..], j)} ::
        j < |s.fields| ==> (HasBit(absent[..], j) <==> j < i && n > 0 && Gone(seen[j]))
      invariant any <==> exists j :: 0 <= j < i && n > 0 && Gone(seen[j])
    {
      var f := seen[i];
      cls := cls + [ClassOf(f.missing, f.except)];
      if ClassOf(f.missing, f.except) == EMixed { exc := exc[i := f.recs]; }
      if n > 0 && Gone(f) {
        ghost var was := absent[..];
        SetBitAt(absent, i);
        BitSet(was, i, |s.fields|);
        any := true;
      }
      i := i + 1;
    }
    e := EscInfo(cls, exc, if any then absent[..] else []);
    forall j: nat | j < |s.fields| ensures FieldExact(e, s, ads, j) {
      NoBit(j);
      assert seen[j] == seen[j];
      assert cls[j] == cls[j];
      Concluded(e, s, ads, j, seen[j]);
    }
  }

  // Escaped by every record, and only ever by being missing.
  predicate Gone(f: Sighting) { !f.inSlot && !f.except && f.missing }

  lemma Concluded(e: EscInfo, s: Schema, ads: seq<seq<Entry>>, i: nat, f: Sighting)
    requires i < |s.fields| && |e.cls| == |s.fields| && Saw(s, ads, i, |ads|, f.missing, f.except, f.inSlot, f.recs)
    requires e.cls[i] == ClassOf(f.missing, f.except) && (e.cls[i] == EMixed ==> i in e.exc && e.exc[i] == f.recs)
    requires HasBit(e.absent, i) <==> ads != [] && Gone(f)
    ensures FieldExact(e, s, ads, i)
  {
    hide Lookup, HasBit, ListOf;
    if ads != [] && AllMissing(s, ads, i) {
      assert Missing(s, ads[0], i);
      forall k | 0 <= k < |ads|
        ensures SlotLit(s, ads[k], i).None? && !Exceptional(s, ads[k], i)
      {
        assert Missing(s, ads[k], i);
      }
    }
    if Gone(f) {
      forall k | 0 <= k < |ads| ensures Missing(s, ads[k], i) {
        assert SlotLit(s, ads[k], i).None? && !Exceptional(s, ads[k], i);
      }
    }
  }

  lemma NoBit(i: nat)
    ensures !HasBit([], i)
  {
  }

  lemma NoBits(m: seq<byte>, n: nat)
    requires |m| == BitBytes(n) && forall i :: 0 <= i < |m| ==> m[i] == 0
    ensures forall k: nat {:trigger HasBit(m, k)} :: k < n ==> !HasBit(m, k)
  {
    forall k: nat | k < n ensures !HasBit(m, k) { ZeroBit(k % 8); }
  }

  lemma BitSet(was: seq<byte>, i: nat, n: nat)
    requires |was| == BitBytes(n) && i < n
    ensures forall j: nat {:trigger HasBit(SetBit(was, i), j)} ::
      j < n ==> (HasBit(SetBit(was, i), j) <==> j == i || HasBit(was, j))
  {
    hide Bit, SetBit;
    forall j: nat | j < n ensures HasBit(SetBit(was, i), j) <==> j == i || HasBit(was, j) {
      assert TestBit(SetBit(was, i), j) <==> j == i || TestBit(was, j);
    }
  }
}
