/** Group counts read off index postings: a total equal to the record count proves every per-value count, with
    or without a conjunctive range constraint decided segment by segment from zone maps. */
module GroupCounts {
  import opened Bytes
  import opened Wire
  import opened Values
  import opened Floats
  import opened Preds

  type Str = seq<byte>

  // ---------------------------------------------------------------- what is being counted

  // An archive record; a system record is not the user's data.
  datatype Row = Row(system: bool, ad: seq<Entry>)

  function GroupVal(ad: seq<Entry>, gid: nat): (v: Option<Str>)
  {
    match Lookup(ad, gid) case Some(Lit(LStr(s))) => Some(s) case _ => None
  }

  function UserCount(rows: seq<Row>): (n: nat)
  {
    if rows == [] then 0 else UserCount(rows[..|rows| - 1]) + if rows[|rows| - 1].system then 0 else 1
  }

  // A user record carrying the value.
  predicate Carries(r: Row, gid: nat, v: Str) { !r.system && GroupVal(r.ad, gid) == Some(v) }

  function ValCount(rows: seq<Row>, gid: nat, v: Str): (n: nat)
  {
    if rows == [] then 0 else ValCount(rows[..|rows| - 1], gid, v) + if Carries(rows[|rows| - 1], gid, v) then 1 else 0
  }

  // Records carrying the value that satisfy every condition.
  ghost function MatchCount(rows: seq<Row>, gid: nat, conds: seq<Probe>, v: Str): (n: nat)
    ensures n <= ValCount(rows, gid, v)
  {
    if rows == [] then 0 else
      var r := rows[|rows| - 1];
      MatchCount(rows[..|rows| - 1], gid, conds, v) + if Carries(r, gid, v) && AllProbesHold(conds, r.ad) then 1 else 0
  }

  lemma Snoc(rows: seq<Row>, r: Row, gid: nat, conds: seq<Probe>, v: Str)
    ensures UserCount(rows + [r]) == UserCount(rows) + if r.system then 0 else 1
    ensures ValCount(rows + [r], gid, v) == ValCount(rows, gid, v) + if Carries(r, gid, v) then 1 else 0
    ensures MatchCount(rows + [r], gid, conds, v) == MatchCount(rows, gid, conds, v) + if Carries(r, gid, v) &&
      AllProbesHold(conds, r.ad) then 1 else 0
  {
    hide Carries, AllProbesHold;
    assert (rows + [r])[..|rows|] == rows;
  }

  lemma NoRows(gid: nat, conds: seq<Probe>, v: Str)
    ensures UserCount([]) == 0 && ValCount([], gid, v) == 0 && MatchCount([], gid, conds, v) == 0
  {
  }

  lemma {:induction false} CountsConcat(a: seq<Row>, b: seq<Row>, gid: nat, conds: seq<Probe>, v: Str)
    ensures UserCount(a + b) == UserCount(a) + UserCount(b)
    ensures ValCount(a + b, gid, v) == ValCount(a, gid, v) + ValCount(b, gid, v)
    ensures MatchCount(a + b, gid, conds, v) == MatchCount(a, gid, conds, v) + MatchCount(b, gid, conds, v)
    decreases |b|
  {
    hide Carries, AllProbesHold, UserCount, ValCount, MatchCount;
    if b == [] {
      assert a + b == a;
      NoRows(gid, conds, v);
    } else {
      var n := |b| - 1;
      CountsConcat(a, b[..n], gid, conds, v);
      assert a + b == a + b[..n] + [b[n]] && b == b[..n] + [b[n]];
      Snoc(a + b[..n], b[n], gid, conds, v);
      Snoc(b[..n], b[n], gid, conds, v);
    }
  }

  // ---------------------------------------------------------------- sums over a count map

  function At(m: map<Str, nat>, v: Str): (n: nat) { if v in m then m[v] else 0 }

  ghost function Sum(m: map<Str, nat>): nat
  {
    if m == map[] then 0 else
      var v :| v in m;
      m[v] + Sum(m - {v})
  }

  lemma {:induction false} SumWithout(m: map<Str, nat>, v: Str)
    requires v in m
    ensures Sum(m) == m[v] + Sum(m - {v})
    decreases |m|
  {
    var u :| u in m && Sum(m) == m[u] + Sum(m - {u});
    if u != v {
      Shrinks(m, u);
      Shrinks(m, v);
      SumWithout(m - {u}, v);
      SumWithout(m - {v}, u);
      assert m - {u} - {v} == m - {v} - {u};
    }
  }

  lemma Shrinks(m: map<Str, nat>, v: Str)
    requires v in m
    ensures |m - {v}| < |m|
  {
    assert (m - {v}).Keys == m.Keys - {v};
  }

  lemma SumAdd(m: map<Str, nat>, v: Str, n: nat)
    ensures Sum(m[v := At(m, v) + n]) == Sum(m) + n
  {
    hide Sum;
    var m' := m[v := At(m, v) + n];
    SumWithout(m', v);
    if v in m {
      SumWithout(m, v);
      assert m' - {v} == m - {v};
    } else {
      assert m' - {v} == m;
    }
  }

  // The rows that do not carry a value.
  function Others(rows: seq<Row>, gid: nat, v: Str): (r: seq<Row>)
  {
    if rows == [] then []
    else if Carries(rows[|rows| - 1], gid, v) then Others(rows[..|rows| - 1], gid, v)
    else Others(rows[..|rows| - 1], gid, v) + [rows[|rows| - 1]]
  }

  lemma {:induction false} OthersCount(rows: seq<Row>, gid: nat, v: Str, u: Str)
    ensures UserCount(rows) == ValCount(rows, gid, v) + UserCount(Others(rows, gid, v))
    ensures u != v ==> ValCount(Others(rows, gid, v), gid, u) == ValCount(rows, gid, u)
    decreases |rows|
  {
    if rows != [] {
      hide GroupVal, UserCount, ValCount, MatchCount;
      var n := |rows| - 1;
      OthersCount(rows[..n], gid, v, u);
      assert rows == rows[..n] + [rows[n]];
      Snoc(rows[..n], rows[n], gid, [], v);
      Snoc(rows[..n], rows[n], gid, [], u);
      Snoc(Others(rows[..n], gid, v), rows[n], gid, [], u);
    }
  }

  // Counts that never exceed the truth sum to no more than the records, and to fewer if any falls short.
  lemma {:induction false} NeverOver(m: map<Str, nat>, rows: seq<Row>, gid: nat, u: Str)
    requires forall v :: v in m ==> m[v] <= ValCount(rows, gid, v)
    ensures Sum(m) <= UserCount(rows)
    ensures At(m, u) < ValCount(rows, gid, u) ==> Sum(m) < UserCount(rows)
    decreases |m|
  {
    if m == map[] {
      OthersCount(rows, gid, u, u);
    } else {
      hide Sum, ValCount, UserCount;
      var k :| k in m;
      SumWithout(m, k);
      Shrinks(m, k);
      var rest := Others(rows, gid, k);
      OthersCount(rows, gid, k, u);
      forall v | v in m - {k} ensures (m - {k})[v] <= ValCount(rest, gid, v) { OthersCount(rows, gid, k, v); }
      NeverOver(m - {k}, rest, gid, u);
    }
  }

  // A total equal to the record count forces every count to be exact.
  lemma SelfValidating(m: map<Str, nat>, rows: seq<Row>, gid: nat, u: Str)
    requires (forall v :: v in m ==> m[v] <= ValCount(rows, gid, v)) && Sum(m) == UserCount(rows)
    ensures At(m, u) == ValCount(rows, gid, u)
  {
    NeverOver(m, rows, gid, u);
  }

  // ---------------------------------------------------------------- reading records

  // The walk gets as far as a string group value: no condition's attribute ahead of it is other than a number.
  ghost predicate Formed(ad: seq<Entry>, gid: nat, conds: seq<Probe>)
  {
    exists p :: 0 <= p < |ad| && ad[p].id == gid && Clear(ad, conds, p) && GroupVal(ad, gid).Some?
  }

  ghost predicate Clear(ad: seq<Entry>, conds: seq<Probe>, p: nat)
    requires p <= |ad|
  {
    forall a, i :: 0 <= a < p && 0 <= i < |conds| && conds[i].id == ad[a].id ==> NodeVal(ad[a].node).Some?
  }

  // Walk one record's attributes: its group value, and whether every condition holds of a literal number. The
  // walk stops at a value it cannot judge.
  method ReadRow(ad: seq<Entry>, gid: nat, conds: seq<Probe>) returns (val: Option<Str>, matches: bool)
    requires DistinctIds(ad)
    ensures val.Some? <==> Formed(ad, gid, conds)
    ensures val.Some? ==> val == GroupVal(ad, gid) && (matches <==> AllProbesHold(conds, ad))
  {
    hide Lookup, Compare, FOf, NodeVal, Clear;
    ClearNone(ad, conds);
    val, matches := None, true;
    var seen: set<nat> := {};
    var j := 0;
    while j < |ad|
      invariant 0 <= j <= |ad|
      invariant val.Some? ==> val == GroupVal(ad, gid) && Formed(ad, gid, conds)
      invariant Clear(ad, conds, j) && (val.None? ==> forall a :: 0 <= a < j ==> ad[a].id != gid)
      invariant forall i :: i in seen <==> 0 <= i < |conds| && exists a :: 0 <= a < j && ad[a].id == conds[i].id
      invariant forall i :: i in seen ==> AttrVal(ad, conds[i].id).Some?
      invariant matches <==> forall i :: i in seen ==> ProbeHolds(conds[i], ad)
    {
      LookupAt(ad, j);
      var e := ad[j];
      if val.None? && e.id == gid {
        match e.node {
          case Lit(LStr(s)) => val := Some(s);
          case _ =>
            assert GroupVal(ad, gid).None?;
            return None, false;
        }
      }
      var c := 0;
      ghost var before := seen;
      while c < |conds|
        invariant 0 <= c <= |conds|
        invariant forall i :: i in seen <==> i in before || (0 <= i < c && conds[i].id == e.id)
        invariant forall i :: i in seen ==> AttrVal(ad, conds[i].id).Some?
        invariant matches <==> forall i :: i in seen ==> ProbeHolds(conds[i], ad)
        invariant forall i :: 0 <= i < c && conds[i].id == e.id ==> NodeVal(e.node).Some?
      {
        if c !in seen && conds[c].id == e.id {
          var f := NodeVal(e.node);
          if f.None? {
            assert !ProbeHolds(conds[c], ad);
            if val.None? { NotFormed(ad, gid, conds, j, c); }
            return val, false;
          }
          if !Compare(conds[c].test.op, FOf(f.value), conds[c].test.val) {
            assert !ProbeHolds(conds[c], ad);
            matches := false;
          } else {
            assert ProbeHolds(conds[c], ad);
          }
          seen := seen + {c};
        }
        c := c + 1;
      }
      ClearStep(ad, conds, j);
      j := j + 1;
    }
    var c := 0;
    while c < |conds|
      invariant 0 <= c <= |conds|
      invariant matches <==> forall i :: (i in seen || 0 <= i < c) && 0 <= i < |conds| ==> ProbeHolds(conds[i], ad)
    {
      if c !in seen {
        assert !ProbeHolds(conds[c], ad) by { Unseen(ad, conds[c].id); }
        matches := false;
      }
      c := c + 1;
    }
    assert matches <==> forall i :: 0 <= i < |conds| ==> ProbeHolds(conds[i], ad);
  }

  lemma ClearNone(ad: seq<Entry>, conds: seq<Probe>)
    ensures Clear(ad, conds, 0)
  {
  }

  lemma ClearStep(ad: seq<Entry>, conds: seq<Probe>, j: nat)
    requires j < |ad| && Clear(ad, conds, j)
    requires forall i :: 0 <= i < |conds| && conds[i].id == ad[j].id ==> NodeVal(ad[j].node).Some?
    ensures Clear(ad, conds, j + 1)
  {
  }

  lemma NotFormed(ad: seq<Entry>, gid: nat, conds: seq<Probe>, j: nat, c: nat)
    requires j < |ad| && c < |conds| && conds[c].id == ad[j].id && NodeVal(ad[j].node).None?
    requires forall a :: 0 <= a <= j ==> ad[a].id != gid
    ensures !Formed(ad, gid, conds)
  {
    hide NodeVal, GroupVal;
    forall p | 0 <= p < |ad| && ad[p].id == gid ensures !Clear(ad, conds, p) {}
  }

  lemma Unseen(ad: seq<Entry>, id: nat)
    requires forall a :: 0 <= a < |ad| ==> ad[a].id != id
    ensures AttrVal(ad, id).None?
  {
  }

  // So whether a record forms a group depends on the order of its attributes.
  lemma OrderMatters(gid: nat, conds: seq<Probe>, x: Str, y: Str)
    requires conds != [] && conds[0].id != gid
    ensures var c, g := Entry(conds[0].id, Lit(LStr(x))), Entry(gid, Lit(LStr(y)));
      GroupVal([c, g], gid) == GroupVal([g, c], gid) == Some(y) && !Formed([c, g], gid, conds) &&
        Formed([g, c], gid, conds)
  {
    hide Clear;
    var c, g := Entry(conds[0].id, Lit(LStr(x))), Entry(gid, Lit(LStr(y)));
    LookupAt([c, g], 1);
    LookupAt([g, c], 0);
    NotFormed([c, g], gid, conds, 0, 0);
    ClearNone([g, c], conds);
    assert [g, c][0].id == gid && Clear([g, c], conds, 0);
  }

  // ---------------------------------------------------------------- what zones prove

  datatype Range = Range(min: F64, max: F64)

  predicate Within(z: Range, v: F64) { Le(z.min, v) && Le(v, z.max) }

  predicate AlwaysHolds(t: Test, z: Range)
  {
    match t.op
    case OGt => Lt(t.val, z.min)
    case OGe => Le(t.val, z.min)
    case OLt => Lt(z.max, t.val)
    case OLe => Le(z.max, t.val)
    case OEq => Compare(OEq, z.min, t.val) && Compare(OEq, z.max, t.val)
    case ONe => false
  }

  predicate NeverHolds(t: Test, z: Range)
  {
    match t.op
    case OGt => Le(z.max, t.val)
    case OGe => Lt(z.max, t.val)
    case OLt => Le(t.val, z.min)
    case OLe => Lt(t.val, z.min)
    case OEq => Lt(t.val, z.min) || Lt(z.max, t.val)
    case ONe => false
  }

  // For a number, and any comparison but !=, always and never are said exactly where all values between the bounds
  // satisfy it and where none does.
  lemma ZoneDecidesExactly(t: Test, z: Range)
    requires Le(z.min, z.max) && !t.val.NaN? && t.op != ONe
    ensures AlwaysHolds(t, z) <==> forall v :: Within(z, v) ==> Compare(t.op, v, t.val)
    ensures NeverHolds(t, z) <==> forall v :: Within(z, v) ==> !Compare(t.op, v, t.val)
  {
    assert Within(z, z.min) && Within(z, z.max);
    if t.op == OEq && Le(z.min, t.val) && Le(t.val, z.max) { assert Within(z, t.val); }
  }

  lemma ZoneDecides(t: Test, z: Range, v: F64)
    requires Within(z, v)
    ensures AlwaysHolds(t, z) ==> Compare(t.op, v, t.val)
    ensures NeverHolds(t, z) ==> !Compare(t.op, v, t.val)
  {
  }

  // A zone entry exists only when every record of the segment holds a number within it.
  ghost predicate ZoneSound(z: Range, rows: seq<Row>, id: nat)
  {
    forall k ::
      0 <= k < |rows| && !rows[k].system ==>
        AttrVal(rows[k].ad, id).Some? && Within(z, FOf(AttrVal(rows[k].ad, id).value))
  }

  datatype Verdict = Straddle | Always | Never

  // Postings of a prefix of the segment's records; `complete` says the index could enumerate its values.
  datatype Index = Index(covered: nat, postings: map<Str, nat>, complete: bool)

  datatype SegWin = SegWin(rows: seq<Row>, idx: Option<Index>, zones: map<nat, Range>)

  ghost predicate WinOK(w: SegWin, gid: nat)
  {
    && (forall k :: 0 <= k < |w.rows| ==> DistinctIds(w.rows[k].ad))
    && (forall id :: id in w.zones ==> ZoneSound(w.zones[id], w.rows, id))
    && (w.idx.Some? ==> forall v ::
       v in w.idx.value.postings ==> w.idx.value.postings[v] <= ValCount(w.rows[..Covered(w)], gid, v))
  }

  function Covered(w: SegWin): (n: nat)
    ensures n <= |w.rows|
  {
    if w.idx.None? then 0 else if w.idx.value.covered < |w.rows| then w.idx.value.covered else |w.rows|
  }

  // Every user record satisfies the conditions, or none does, as the verdict says.
  ghost predicate Decides(v: Verdict, rows: seq<Row>, conds: seq<Probe>)
  {
    forall k :: 0 <= k < |rows| && !rows[k].system ==>
      (v.Always? ==> AllProbesHold(conds, rows[k].ad)) && (v.Never? ==> !AllProbesHold(conds, rows[k].ad))
  }

  // Some condition's zone rules every record out, and every condition before it has a zone.
  ghost predicate RuledOut(zones: map<nat, Range>, conds: seq<Probe>)
  {
    exists i ::
      0 <= i < |conds| && conds[i].id in zones && NeverHolds(conds[i].test, zones[conds[i].id]) && forall j ::
        0 <= j < i ==> conds[j].id in zones
  }

  ghost predicate Implied(zones: map<nat, Range>, conds: seq<Probe>)
  {
    forall i :: 0 <= i < |conds| ==> conds[i].id in zones && AlwaysHolds(conds[i].test, zones[conds[i].id])
  }

  ghost function VerdictOf(zones: map<nat, Range>, conds: seq<Probe>): Verdict
  {
    if RuledOut(zones, conds) then Never else if Implied(zones, conds) then Always else Straddle
  }

  // The verdict is right about every user record, and is undecided only where the zones are.
  method SegmentVerdict(w: SegWin, ghost gid: nat, conds: seq<Probe>) returns (v: Verdict)
    requires WinOK(w, gid)
    ensures Decides(v, w.rows, conds) && v == VerdictOf(w.zones, conds)
  {
    hide AttrVal, Compare, FOf, AlwaysHolds, NeverHolds, Within;
    var always := true;
    for i := 0 to |conds|
      invariant forall j :: 0 <= j < i ==> conds[j].id in w.zones && !NeverHolds(conds[j].test, w.zones[conds[j].id])
      invariant always <==> forall j :: 0 <= j < i ==> AlwaysHolds(conds[j].test, w.zones[conds[j].id])
      invariant always ==> forall k, j ::
        0 <= k < |w.rows| && !w.rows[k].system && 0 <= j < i ==> ProbeHolds(conds[j], w.rows[k].ad)
    {
      if conds[i].id !in w.zones { return Straddle; }
      var z := w.zones[conds[i].id];
      assert ZoneSound(z, w.rows, conds[i].id);
      forall k | 0 <= k < |w.rows| && !w.rows[k].system
        ensures AlwaysHolds(conds[i].test, z) ==> ProbeHolds(conds[i], w.rows[k].ad)
        ensures NeverHolds(conds[i].test, z) ==> !ProbeHolds(conds[i], w.rows[k].ad)
      {
        ZoneDecides(conds[i].test, z, FOf(AttrVal(w.rows[k].ad, conds[i].id).value));
      }
      if NeverHolds(conds[i].test, z) { return Never; }
      if !AlwaysHolds(conds[i].test, z) { always := false; }
    }
    v := if always then Always else Straddle;
  }

  // ---------------------------------------------------------------- the self-validating count

  // For every value: nothing is over-counted, and the matching count falls short by no more than the
  // attributed count does.
  ghost predicate Bounded(counts: map<Str, nat>, seen: map<Str, nat>, done: seq<Row>, gid: nat, conds: seq<Probe>,
                          v: Str)
  {
    && At(seen, v) <= ValCount(done, gid, v) && At(counts, v) <= MatchCount(done, gid, conds, v)
    && MatchCount(done, gid, conds, v) - At(counts, v) <= ValCount(done, gid, v) - At(seen, v)
  }

  ghost predicate AllBounded(counts: map<Str, nat>, seen: map<Str, nat>, done: seq<Row>, gid: nat, conds: seq<Probe>)
  {
    forall v {:trigger Bounded(counts, seen, done, gid, conds, v)} :: Bounded(counts, seen, done, gid, conds, v)
  }

  lemma {:induction false} Uniform(v: Verdict, rows: seq<Row>, gid: nat, conds: seq<Probe>, s: Str)
    requires Decides(v, rows, conds)
    ensures v.Always? ==> MatchCount(rows, gid, conds, s) == ValCount(rows, gid, s)
    ensures v.Never? ==> MatchCount(rows, gid, conds, s) == 0
    decreases |rows|
  {
    hide AllProbesHold, GroupVal;
    if rows != [] {
      assert Decides(v, rows[..|rows| - 1], conds);
      Uniform(v, rows[..|rows| - 1], gid, conds, s);
    }
  }

  // Take a decided segment's postings wholesale.
  method AddPostings(idx: Index, v: Verdict, counts0: map<Str, nat>, ghost seen0: map<Str, nat>, total0: nat)
    returns (counts: map<Str, nat>, ghost seen: map<Str, nat>, total: nat)
    requires total0 == Sum(seen0)
    ensures total == Sum(seen) == total0 + Sum(idx.postings)
    ensures forall s :: At(seen, s) == At(seen0, s) + At(idx.postings, s)
    ensures forall s :: At(counts, s) == At(counts0, s) + if v.Always? then At(idx.postings, s) else 0
  {
    hide Sum, Only;
    counts, seen, total := counts0, seen0, total0;
    var rest := idx.postings.Keys;
    OnlyEnds(idx.postings);
    while rest != {}
      invariant rest <= idx.postings.Keys && total == Sum(seen) &&
        total + Sum(Only(idx.postings, rest)) == total0 + Sum(idx.postings)
      invariant forall s :: At(seen, s) == At(seen0, s) + if s in rest then 0 else At(idx.postings, s)
      invariant forall s :: At(counts, s) == At(counts0, s) + if v.Always? && s !in rest then At(idx.postings, s) else 0
      decreases rest
    {
      var s :| s in rest;
      var n := idx.postings[s];
      SumAdd(seen, s, n);
      OnlyStep(idx.postings, rest, s);
      seen := seen[s := At(seen, s) + n];
      total := total + n;
      if v.Always? { counts := counts[s := At(counts, s) + n]; }
      rest := rest - {s};
    }
  }

  function Only(m: map<Str, nat>, keys: set<Str>): (r: map<Str, nat>) { map s | s in m && s in keys :: m[s] }

  lemma OnlyEnds(m: map<Str, nat>)
    ensures Only(m, m.Keys) == m && Sum(Only(m, {})) == 0
  {
    assert Only(m, {}) == map[];
  }

  lemma OnlyStep(m: map<Str, nat>, keys: set<Str>, s: Str)
    requires s in keys && keys <= m.Keys
    ensures Sum(Only(m, keys)) == m[s] + Sum(Only(m, keys - {s}))
  {
    SumWithout(Only(m, keys), s);
    assert Only(m, keys) - {s} == Only(m, keys - {s});
  }

  lemma PostingsBounded(w: SegWin, v: Verdict, gid: nat, conds: seq<Probe>, done: seq<Row>, counts0: map<Str, nat>,
                        seen0: map<Str, nat>, counts: map<Str, nat>, seen: map<Str, nat>)
    requires WinOK(w, gid) && w.idx.Some? && !v.Straddle? && Decides(v, w.rows, conds)
    requires AllBounded(counts0, seen0, done, gid, conds)
    requires forall s :: At(seen, s) == At(seen0, s) + At(w.idx.value.postings, s)
    requires forall s :: At(counts, s) == At(counts0, s) + if v.Always? then At(w.idx.value.postings, s) else 0
    ensures AllBounded(counts, seen, done + w.rows[..Covered(w)], gid, conds)
  {
    hide ValCount, MatchCount, ZoneSound, AllProbesHold;
    var p := w.rows[..Covered(w)];
    assert Decides(v, p, conds);
    forall s ensures Bounded(counts, seen, done + p, gid, conds, s) {
      assert Bounded(counts0, seen0, done, gid, conds, s);
      CountsConcat(done, p, gid, conds, s);
      Uniform(v, p, gid, conds, s);
      assert At(w.idx.value.postings, s) <= ValCount(p, gid, s);
    }
  }

  // Read the records from an offset on; give up at one whose group cannot be formed.
  method CountAttrWhere(rows: seq<Row>, start: nat, gid: nat, conds: seq<Probe>, skip: bool, ghost done: seq<Row>,
                        counts0: map<Str, nat>, ghost seen0: map<Str, nat>, total0: nat)
    returns (counts: map<Str, nat>, ghost seen: map<Str, nat>, total: nat, ok: bool)
    requires start <= |rows| && (forall k :: 0 <= k < |rows| ==> DistinctIds(rows[k].ad)) && total0 == Sum(seen0)
    requires AllBounded(counts0, seen0, done + rows[..start], gid, conds) && (skip ==> Decides(Never, rows, conds))
    ensures ok <==> AllFormed(rows[start..], gid, conds)
    ensures ok ==>
      total == Sum(seen) == total0 + UserCount(rows[start..]) && AllBounded(counts, seen, done + rows, gid, conds)
  {
    hide Sum, AllProbesHold, GroupVal, AllBounded, Formed, UserCount;
    NoUsers();
    assert rows[start..start] == [];
    counts, seen, total := counts0, seen0, total0;
    var k := start;
    while k < |rows|
      invariant start <= k <= |rows| && total == Sum(seen) == total0 + UserCount(rows[start..k]) &&
        AllBounded(counts, seen, done + rows[..k], gid, conds)
      invariant AllFormed(rows[start..k], gid, conds)
    {
      var r := rows[k];
      assert rows[start..k + 1] == rows[start..k] + [r];
      UserSnoc(rows[start..k], r);
      if r.system {
        SkipSystem(counts, seen, done, rows, k, gid, conds);
      } else {
        var val, matches := ReadRow(r.ad, gid, conds);
        if val.None? {
          assert rows[start..][k - start] == r;
          return counts, seen, total, false;
        }
        var v := val.value;
        SumAdd(seen, v, 1);
        ghost var was, wasSeen := counts, seen;
        seen := seen[v := At(seen, v) + 1];
        total := total + 1;
        if !skip && matches { counts := counts[v := At(counts, v) + 1]; }
        TakeRow(was, wasSeen, done, rows, k, gid, conds, v);
      }
      k := k + 1;
    }
    assert rows[..k] == rows && rows[start..k] == rows[start..];
    ok := true;
  }

  // Every user record forms a group.
  ghost predicate AllFormed(rows: seq<Row>, gid: nat, conds: seq<Probe>)
  {
    forall k :: 0 <= k < |rows| && !rows[k].system ==> Formed(rows[k].ad, gid, conds)
  }

  lemma NoUsers()
    ensures UserCount([]) == 0
  {
  }

  lemma UserSnoc(rows: seq<Row>, r: Row)
    ensures UserCount(rows + [r]) == UserCount(rows) + if r.system then 0 else 1
  {
    assert (rows + [r])[..|rows|] == rows;
  }

  lemma SkipSystem(counts: map<Str, nat>, seen: map<Str, nat>, done: seq<Row>, rows: seq<Row>, k: nat, gid: nat,
                   conds: seq<Probe>)
    requires k < |rows| && rows[k].system && AllBounded(counts, seen, done + rows[..k], gid, conds)
    ensures AllBounded(counts, seen, done + rows[..k + 1], gid, conds)
  {
    hide ValCount, MatchCount, AllProbesHold, GroupVal;
    var was, now := done + rows[..k], done + rows[..k + 1];
    assert now == was + [rows[k]];
    forall s ensures Bounded(counts, seen, now, gid, conds, s) {
      assert Bounded(counts, seen, was, gid, conds, s);
      Snoc(was, rows[k], gid, conds, s);
    }
  }

  lemma TakeRow(counts: map<Str, nat>, seen: map<Str, nat>, done: seq<Row>, rows: seq<Row>, k: nat, gid: nat,
                conds: seq<Probe>, v: Str)
    requires k < |rows| && Carries(rows[k], gid, v) && AllBounded(counts, seen, done + rows[..k], gid, conds)
    ensures var counts' := if AllProbesHold(conds, rows[k].ad) then counts[v := At(counts, v) + 1] else counts;
      AllBounded(counts', seen[v := At(seen, v) + 1], done + rows[..k + 1], gid, conds)
  {
    hide ValCount, MatchCount, AllProbesHold, GroupVal;
    var counts' := if AllProbesHold(conds, rows[k].ad) then counts[v := At(counts, v) + 1] else counts;
    var seen' := seen[v := At(seen, v) + 1];
    var was, now := done + rows[..k], done + rows[..k + 1];
    assert now == was + [rows[k]];
    forall s ensures Bounded(counts', seen', now, gid, conds, s) {
      assert Bounded(counts, seen, was, gid, conds, s);
      Snoc(was, rows[k], gid, conds, s);
    }
  }

  function AllRows(wins: seq<SegWin>): (rows: seq<Row>)
  {
    if wins == [] then [] else AllRows(wins[..|wins| - 1]) + wins[|wins| - 1].rows
  }

  // How many of a segment's records its postings answer for: those its index covers, if its verdict is uniform.
  ghost function Answered(w: SegWin, conds: seq<Probe>): (n: nat)
    ensures n <= |w.rows|
  {
    if w.idx.Some? && VerdictOf(w.zones, conds) != Straddle then Covered(w) else 0
  }

  ghost function Posted(w: SegWin, conds: seq<Probe>): (n: nat)
  {
    if w.idx.Some? && VerdictOf(w.zones, conds) != Straddle then Sum(w.idx.value.postings) else 0
  }

  // The postings used can be enumerated, and every other record forms a group.
  ghost predicate Countable(w: SegWin, gid: nat, conds: seq<Probe>)
  {
    && (w.idx.Some? && VerdictOf(w.zones, conds) != Straddle ==> w.idx.value.complete)
    && AllFormed(w.rows[Answered(w, conds)..], gid, conds)
  }

  // One segment: postings where its verdict is uniform, records for whatever they do not cover.
  method CountWindow(w: SegWin, gid: nat, conds: seq<Probe>, ghost done: seq<Row>, counts0: map<Str, nat>,
                     ghost seen0: map<Str, nat>, total0: nat)
    returns (counts: map<Str, nat>, ghost seen: map<Str, nat>, total: nat, ok: bool)
    requires WinOK(w, gid) && total0 == Sum(seen0) && AllBounded(counts0, seen0, done, gid, conds)
    ensures ok <==> Countable(w, gid, conds)
    ensures ok ==> total == Sum(seen) == total0 + Posted(w, conds) + UserCount(w.rows[Answered(w, conds)..])
    ensures ok ==> AllBounded(counts, seen, done + w.rows, gid, conds)
  {
    hide Sum, AllBounded, Decides, VerdictOf, UserCount, AllFormed;
    counts, seen, total := counts0, seen0, total0;
    var verdict := SegmentVerdict(w, gid, conds);
    var covered := 0;
    assert w.rows[..0] == [] && done + [] == done;
    if w.idx.Some? && verdict != Straddle {
      covered := Covered(w);
      if !w.idx.value.complete { return counts, seen, total, false; }
      counts, seen, total := AddPostings(w.idx.value, verdict, counts0, seen0, total0);
      PostingsBounded(w, verdict, gid, conds, done, counts0, seen0, counts, seen);
    }
    if covered < |w.rows| {
      counts, seen, total,
        ok := CountAttrWhere(w.rows, covered, gid, conds, verdict == Never, done, counts, seen, total);
    } else {
      assert w.rows[..covered] == w.rows && w.rows[covered..] == [];
      NoneFormed(gid, conds);
      ok := true;
    }
  }

  lemma NoneFormed(gid: nat, conds: seq<Probe>)
    ensures UserCount([]) == 0 && AllFormed([], gid, conds)
  {
  }

  // The postings used account for every user record they cover.
  ghost predicate Accounted(w: SegWin, conds: seq<Probe>)
  {
    Posted(w, conds) == UserCount(w.rows[..Answered(w, conds)])
  }

  ghost function AttributedIn(wins: seq<SegWin>, conds: seq<Probe>): (n: nat)
  {
    if wins == [] then 0 else
      var w := wins[|wins| - 1];
      AttributedIn(wins[..|wins| - 1], conds) + Posted(w, conds) + UserCount(w.rows[Answered(w, conds)..])
  }

  lemma WindowShort(w: SegWin, gid: nat, conds: seq<Probe>)
    requires WinOK(w, gid)
    ensures var n := Posted(w, conds) + UserCount(w.rows[Answered(w, conds)..]);
      n <= UserCount(w.rows) && (n == UserCount(w.rows) <==> Accounted(w, conds))
  {
    hide Sum, UserCount, VerdictOf, ValCount;
    var k := Answered(w, conds);
    assert w.rows[..k] + w.rows[k..] == w.rows;
    CountsConcat(w.rows[..k], w.rows[k..], gid, conds, []);
    if w.idx.Some? && VerdictOf(w.zones, conds) != Straddle {
      NeverOver(w.idx.value.postings, w.rows[..k], gid, []);
    } else {
      assert w.rows[..0] == [];
      NoUsers();
    }
  }

  // The total reaches the record count exactly when every segment's postings do.
  lemma {:induction false} AttributedShort(wins: seq<SegWin>, gid: nat, conds: seq<Probe>)
    requires forall i :: 0 <= i < |wins| ==> WinOK(wins[i], gid)
    ensures AttributedIn(wins, conds) <= UserCount(AllRows(wins))
    ensures AttributedIn(wins, conds) == UserCount(AllRows(wins)) <==>
      forall i :: 0 <= i < |wins| ==> Accounted(wins[i], conds)
    decreases |wins|
  {
    hide UserCount, Posted, Answered, Accounted, WinOK;
    if wins == [] {
      NoUsers();
    } else {
      var n := |wins| - 1;
      AttributedShort(wins[..n], gid, conds);
      WindowShort(wins[n], gid, conds);
      CountsConcat(AllRows(wins[..n]), wins[n].rows, gid, conds, []);
      assert wins == wins[..n] + [wins[n]];
    }
  }

  // Accepted exactly when every segment can be counted and every index used accounts for all it covers; and
  // then every count is exact.
  method CategoricalGroupCountsWhere(wins: seq<SegWin>, gid: nat, conds: seq<Probe>, len: nat)
    returns (counts: map<Str, nat>, ok: bool)
    requires (forall i :: 0 <= i < |wins| ==> WinOK(wins[i], gid)) && len == UserCount(AllRows(wins))
    ensures ok <==> forall i :: 0 <= i < |wins| ==> Countable(wins[i], gid, conds) && Accounted(wins[i], conds)
    ensures ok ==> forall v :: At(counts, v) == MatchCount(AllRows(wins), gid, conds, v)
  {
    hide Sum, AllBounded, UserCount, MatchCount, WinOK, Countable, Accounted, Posted, Answered;
    counts := map[];
    ghost var seen: map<Str, nat> := map[];
    var total := 0;
    NothingYet(gid, conds);
    for i := 0 to |wins|
      invariant total == Sum(seen) == AttributedIn(wins[..i], conds) &&
        AllBounded(counts, seen, AllRows(wins[..i]), gid, conds)
      invariant forall j :: 0 <= j < i ==> Countable(wins[j], gid, conds)
    {
      assert wins[..i + 1][..i] == wins[..i];
      var good: bool;
      counts, seen, total, good := CountWindow(wins[i], gid, conds, AllRows(wins[..i]), counts, seen, total);
      if !good { return map[], false; }
    }
    assert wins[..|wins|] == wins;
    AttributedShort(wins, gid, conds);
    if total != len { return map[], false; }
    forall v
      ensures At(counts, v) == MatchCount(AllRows(wins), gid, conds, v)
    {
      Validated(counts, seen, AllRows(wins), gid, conds, v);
    }
    ok := true;
  }

  lemma NothingYet(gid: nat, conds: seq<Probe>)
    ensures Sum(map[]) == 0 && AllBounded(map[], map[], [], gid, conds)
  {
  }

  lemma Validated(counts: map<Str, nat>, seen: map<Str, nat>, rows: seq<Row>, gid: nat, conds: seq<Probe>, v: Str)
    requires AllBounded(counts, seen, rows, gid, conds) && Sum(seen) == UserCount(rows)
    ensures At(counts, v) == MatchCount(rows, gid, conds, v)
  {
    hide ValCount, MatchCount, Sum, UserCount;
    forall s | s in seen
      ensures seen[s] <= ValCount(rows, gid, s)
    {
      assert Bounded(counts, seen, rows, gid, conds, s);
    }
    SelfValidating(seen, rows, gid, v);
    assert Bounded(counts, seen, rows, gid, conds, v);
  }

  // Without a constraint every count is the value's own.
  lemma {:induction false} Unconstrained(rows: seq<Row>, gid: nat, v: Str)
    ensures MatchCount(rows, gid, [], v) == ValCount(rows, gid, v)
    decreases |rows|
  {
    if rows != [] { Unconstrained(rows[..|rows| - 1], gid, v); }
  }

  // A condition on an attribute held as an expression leaves the record uncounted, whatever the evaluator makes
  // of the expression, while the record still counts among those carrying its value.
  lemma ExpressionNotCounted(rows: seq<Row>, r: Row, gid: nat, conds: seq<Probe>, v: Str, i: nat)
    requires Carries(r, gid, v) && i < |conds| && Lookup(r.ad, conds[i].id).Some?
    requires Lookup(r.ad, conds[i].id).value.Expr?
    ensures !AllProbesHold(conds, r.ad)
    ensures MatchCount(rows + [r], gid, conds, v) == MatchCount(rows, gid, conds, v) &&
      ValCount(rows + [r], gid, v) == ValCount(rows, gid, v) + 1
  {
    assert !ProbeHolds(conds[i], r.ad);
    Snoc(rows, r, gid, conds, v);
  }
}
