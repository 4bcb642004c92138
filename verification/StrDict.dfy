/** String dictionaries: a low-cardinality string field kept as its distinct values in the evaluator's order and a
    code per record, so that comparisons become integer tests and blocks can be ruled out. */
module StrDict {
  import opened Bytes

  type Str = seq<byte>

  // ---------------------------------------------------------------- the evaluator's string order

  function Lower(c: byte): (r: byte) { if 65 <= c <= 90 then c + 32 else c }

  function Folded(s: Str): (r: Str)
    ensures |r| == |s| && forall i :: 0 <= i < |s| ==> r[i] == Lower(s[i])
  {
    seq(|s|, i requires 0 <= i < |s| => Lower(s[i]))
  }

  // -1, 0 or 1: byte by byte, the shorter first.
  function Lex(a: Str, b: Str): (r: int)
    ensures -1 <= r <= 1
  {
    if a == [] || b == [] then (if |a| == |b| then 0 else if a == [] then -1 else 1)
    else if a[0] != b[0] then (if a[0] < b[0] then -1 else 1)
    else Lex(a[1..], b[1..])
  }

  lemma {:induction false} LexOrder(a: Str, b: Str, c: Str)
    ensures Lex(a, b) == 0 <==> a == b
    ensures Lex(b, a) == -Lex(a, b)
    ensures Lex(a, b) <= 0 && Lex(b, c) <= 0 ==> Lex(a, c) <= 0
    decreases |a|
  {
    if a == [] {
    } else if b == [] {
    } else {
      assert a == [a[0]] + a[1..] && b == [b[0]] + b[1..];
      if c == [] {
        LexOrder(a[1..], b[1..], []);
      } else {
        LexOrder(a[1..], b[1..], c[1..]);
      }
    }
  }

  predicate Upper(c: byte) { 'A' as int <= c as int <= 'Z' as int }

  predicate Letter(c: byte) { 'a' as int <= c as int <= 'z' as int }

  // The same byte, or one letter in both cases.
  predicate SameLetter(a: byte, b: byte)
  {
    a == b || (Upper(a) && Letter(b) && b - a == 32) || (Letter(a) && Upper(b) && a - b == 32)
  }

  lemma LowerExactly(a: byte, b: byte)
    ensures Lower(a) == Lower(b) <==> SameLetter(a, b)
    ensures !Upper(Lower(a)) && SameLetter(a, Lower(a))
  {
  }

  // Strings are equal to the operators exactly where they are the same letter by letter, and otherwise ordered as their
  // lower-case forms.
  lemma FoldExactly(a: Str, b: Str)
    ensures CompareFold(a, b) == 0 <==> |a| == |b| && forall i :: 0 <= i < |a| ==> SameLetter(a[i], b[i])
    ensures (forall i :: 0 <= i < |a| ==> !Upper(a[i])) && (forall i :: 0 <= i < |b| ==> !Upper(b[i])) ==>
      CompareFold(a, b) == Lex(a, b)
  {
    hide Lex, SameLetter, Lower, Upper;
    LexOrder(Folded(a), Folded(b), Folded(b));
    if |a| == |b| {
      forall i | 0 <= i < |a| ensures Folded(a)[i] == Folded(b)[i] <==> SameLetter(a[i], b[i]) {
        LowerExactly(a[i], b[i]);
      }
    }
    forall c: byte | !Upper(c) ensures Lower(c) == c { LowerKept(c); }
    if forall i :: 0 <= i < |a| ==> !Upper(a[i]) { assert Folded(a) == a; }
    if forall i :: 0 <= i < |b| ==> !Upper(b[i]) { assert Folded(b) == b; }
  }

  lemma LowerKept(c: byte)
    requires !Upper(c)
    ensures Lower(c) == c
  {
  }

  // Case-insensitively, as the relational operators compare strings.
  function CompareFold(a: Str, b: Str): (r: int) { Lex(Folded(a), Folded(b)) }

  lemma FoldOrder(a: Str, b: Str, c: Str)
    ensures CompareFold(b, a) == -CompareFold(a, b)
    ensures CompareFold(a, b) <= 0 && CompareFold(b, c) <= 0 ==> CompareFold(a, c) <= 0
    ensures CompareFold(a, b) <= 0 && CompareFold(b, c) < 0 ==> CompareFold(a, c) < 0
    ensures CompareFold(a, b) < 0 && CompareFold(b, c) <= 0 ==> CompareFold(a, c) < 0
    ensures a == b ==> CompareFold(a, b) == 0
  {
    hide Lex;
    var x, y, z := Folded(a), Folded(b), Folded(c);
    LexOrder(x, y, z);
    LexOrder(z, x, y);
    LexOrder(y, z, x);
    LexOrder(x, z, y);
  }

  method CompareStringsFold(a: Str, b: Str) returns (r: int)
    ensures r == CompareFold(a, b)
  {
    hide Lex;
    var n := if |b| < |a| then |b| else |a|;
    var fa, fb := Folded(a), Folded(b);
    assert fa[0..] == fa && fb[0..] == fb;
    for i := 0 to n
      invariant Lex(fa, fb) == Lex(fa[i..], fb[i..])
    {
      LexStep(fa[i..], fb[i..]);
      assert fa[i..][1..] == fa[i + 1..] && fb[i..][1..] == fb[i + 1..];
      var ca, cb := Lower(a[i]), Lower(b[i]);
      if ca != cb { return if ca < cb then -1 else 1; }
    }
    LexStep(fa[n..], fb[n..]);
    r := if |a| < |b| then -1 else if |a| > |b| then 1 else 0;
  }

  lemma LexStep(a: Str, b: Str)
    ensures Lex(a, b) ==
      if a == [] || b == [] then (if |a| == |b| then 0 else if a == [] then -1 else 1)
      else if a[0] != b[0] then (if a[0] < b[0] then -1 else 1)
      else Lex(a[1..], b[1..])
  {
  }

  // Fold order, then byte order: values equal only up to case keep distinct, adjacent places.
  predicate Less(a: Str, b: Str) { if CompareFold(a, b) != 0 then CompareFold(a, b) < 0 else Lex(a, b) < 0 }

  lemma LessOrder(a: Str, b: Str, c: Str)
    ensures a != b ==> Less(a, b) || Less(b, a)
    ensures Less(a, b) ==> !Less(b, a) && CompareFold(a, b) <= 0
    ensures Less(a, b) && Less(b, c) ==> Less(a, c)
  {
    hide Lex, CompareFold;
    FoldOrder(a, b, c);
    FoldOrder(b, c, a);
    FoldOrder(c, a, b);
    LexOrder(a, b, c);
    LexOrder(c, a, b);
    LexOrder(b, c, a);
  }

  // ---------------------------------------------------------------- the dictionary

  predicate Sorted(d: seq<Str>) { forall i, j :: 0 <= i < j < |d| ==> Less(d[i], d[j]) }

  // The values of a column, in order and once each; a record that escaped the field has none.
  ghost predicate DictOf(d: seq<Str>, vals: seq<Option<Str>>) { Sorted(d) && forall v :: v in d <==> Some(v) in vals }

  function InsertStr(d: seq<Str>, v: Str): (r: seq<Str>)
    ensures |r| == |d| + 1
  {
    if d == [] || !Less(v, d[|d| - 1]) then d + [v] else InsertStr(d[..|d| - 1], v) + [d[|d| - 1]]
  }

  function SortStrs(d: seq<Str>): (r: seq<Str>)
    ensures |r| == |d|
  {
    if d == [] then [] else InsertStr(SortStrs(d[..|d| - 1]), d[|d| - 1])
  }

  lemma {:induction false} InsertStrMember(d: seq<Str>, v: Str, x: Str)
    ensures x in InsertStr(d, v) <==> x in d || x == v
    decreases |d|
  {
    hide Less;
    if d != [] {
      assert d == d[..|d| - 1] + [d[|d| - 1]];
      if Less(v, d[|d| - 1]) { InsertStrMember(d[..|d| - 1], v, x); }
    }
  }

  lemma {:induction false} InsertStrSorted(d: seq<Str>, v: Str)
    requires Sorted(d) && v !in d
    ensures Sorted(InsertStr(d, v))
    decreases |d|
  {
    hide Less;
    if d != [] {
      var n := |d| - 1;
      LessOrder(v, d[n], v);
      if Less(v, d[n]) {
        InsertStrSorted(d[..n], v);
        var r := InsertStr(d[..n], v);
        forall i | 0 <= i < n + 1 ensures Less(r[i], d[n]) {
          InsertStrMember(d[..n], v, r[i]);
          if r[i] != v { var j :| 0 <= j < n && d[j] == r[i]; }
        }
      } else {
        forall i | 0 <= i < n ensures Less(d[i], v) { LessOrder(d[i], d[n], v); }
      }
    }
  }

  lemma {:induction false} SortStrsSorts(d: seq<Str>)
    requires forall i, j :: 0 <= i < j < |d| ==> d[i] != d[j]
    ensures Sorted(SortStrs(d)) && forall x :: x in SortStrs(d) <==> x in d
    decreases |d|
  {
    if d != [] {
      hide Sorted, InsertStr;
      var n := |d| - 1;
      SortStrsSorts(d[..n]);
      InsertStrSorted(SortStrs(d[..n]), d[n]);
      forall x ensures x in SortStrs(d) <==> x in d {
        InsertStrMember(SortStrs(d[..n]), d[n], x);
        assert d == d[..n] + [d[n]];
      }
    } else {
      assert SortStrs(d) == [];
    }
  }

  // Insertion sort in place: each value sinks past the greater ones before it.
  method SortDictFold(a: array<Str>)
    modifies a
    ensures a[..] == SortStrs(old(a[..]))
  {
    hide Less, SortStrs, InsertStr;
    ghost var start := a[..];
    SortStep(start, 0);
    for i := 0 to a.Length
      invariant a[..i] == SortStrs(start[..i]) && a[i..] == start[i..]
    {
      SortStep(start, i + 1);
      assert a[i] == a[i..][0] == start[i] && a[i..][1..] == start[i + 1..];
      Sink(a, i);
    }
    assert start[..a.Length] == start && a[..a.Length] == a[..];
  }

  // x has sunk from i to j; the values it passed moved up one.
  ghost predicate Sunk(now: seq<Str>, was: seq<Str>, i: nat, j: nat)
  {
    j <= i < |was| == |now| && now == was[..j] + [was[i]] + was[j..i] + was[i + 1..]
  }

  lemma SunkStep(now: seq<Str>, was: seq<Str>, i: nat, j: nat)
    requires Sunk(now, was, i, j) && j > 0
    ensures now[j - 1] == was[j - 1] && now[j] == was[i] && Sunk(now[j := now[j - 1]][j - 1 := now[j]], was, i, j - 1)
  {
    var next := was[..j - 1] + [was[i]] + was[j - 1..i] + was[i + 1..];
    forall q | 0 <= q < |now| ensures now[j := now[j - 1]][j - 1 := now[j]][q] == next[q] {}
  }

  method Sink(a: array<Str>, i: nat)
    requires i < a.Length
    modifies a
    ensures a[..i + 1] == InsertStr(old(a[..i]), old(a[i])) && a[i + 1..] == old(a[i..][1..])
  {
    hide Less, InsertStr, Sunk;
    ghost var was := a[..];
    var j := i;
    SunkStart(was, i);
    while j > 0 && Less(a[j], a[j - 1])
      invariant 0 <= j <= i && Sunk(a[..], was, i, j) &&
        InsertStr(was[..i], was[i]) == InsertStr(was[..j], was[i]) + was[j..i]
    {
      SunkStep(a[..], was, i, j);
      SinkStep(was, was[i], i, j);
      a[j], a[j - 1] := a[j - 1], a[j];
      j := j - 1;
    }
    SunkEnd(a[..], was, i, j);
  }

  lemma SunkStart(was: seq<Str>, i: nat)
    requires i < |was|
    ensures Sunk(was, was, i, i) && InsertStr(was[..i], was[i]) == InsertStr(was[..i], was[i]) + was[i..i]
  {
  }

  lemma SunkEnd(now: seq<Str>, was: seq<Str>, i: nat, j: nat)
    requires Sunk(now, was, i, j) && (j == 0 || !Less(now[j], now[j - 1]))
    requires InsertStr(was[..i], was[i]) == InsertStr(was[..j], was[i]) + was[j..i]
    ensures now[..i + 1] == InsertStr(was[..i], was[i]) && now[i + 1..] == was[i..][1..]
  {
    hide Less, InsertStr;
    if j > 0 { SunkStep(now, was, i, j); }
    InsertHere(was[..j], was[i]);
    assert now[..i + 1] == (was[..j] + [was[i]]) + was[j..i];
  }

  lemma SinkStep(was: seq<Str>, x: Str, i: nat, j: nat)
    requires 0 < j <= i <= |was| && Less(x, was[j - 1]) && InsertStr(was[..i], x) == InsertStr(was[..j], x) + was[j..i]
    ensures InsertStr(was[..i], x) == InsertStr(was[..j - 1], x) + was[j - 1..i]
  {
    hide Less, InsertStr;
    InsertPast(was[..j], x);
    assert was[..j][..j - 1] == was[..j - 1] && was[..j][j - 1] == was[j - 1];
    assert [was[j - 1]] + was[j..i] == was[j - 1..i];
  }

  lemma SortStep(d: seq<Str>, i: nat)
    requires i <= |d|
    ensures SortStrs(d[..i]) == if i == 0 then [] else InsertStr(SortStrs(d[..i - 1]), d[i - 1])
  {
    hide Less, InsertStr;
    if i > 0 { assert d[..i][..i - 1] == d[..i - 1]; }
  }

  lemma InsertPast(d: seq<Str>, v: Str)
    requires d != [] && Less(v, d[|d| - 1])
    ensures InsertStr(d, v) == InsertStr(d[..|d| - 1], v) + [d[|d| - 1]]
  {
  }

  lemma InsertHere(d: seq<Str>, v: Str)
    requires d == [] || !Less(v, d[|d| - 1])
    ensures InsertStr(d, v) == d + [v]
  {
  }

  // The distinct values of a column, sorted.
  method DistinctFold(vals: seq<Option<Str>>) returns (d: seq<Str>)
    ensures DictOf(d, vals)
  {
    hide Less, SortStrs, Sorted;
    var seen: set<Str> := {};
    var uniq: seq<Str> := [];
    for k := 0 to |vals|
      invariant forall v :: v in seen <==> Some(v) in vals[..k]
      invariant (forall v :: v in uniq <==> v in seen) && forall i, j :: 0 <= i < j < |uniq| ==> uniq[i] != uniq[j]
    {
      assert vals[..k + 1] == vals[..k] + [vals[k]];
      if vals[k].Some? && vals[k].value !in seen {
        seen := seen + {vals[k].value};
        uniq := uniq + [vals[k].value];
      }
    }
    assert vals[..|vals|] == vals;
    var a := new Str[|uniq|](i requires 0 <= i < |uniq| => uniq[i]);
    assert a[..] == uniq;
    SortStrsSorts(uniq);
    SortDictFold(a);
    d := a[..];
  }

  // ---------------------------------------------------------------- comparisons as code ranges

  // The first place from which values are not below the literal, or are above it.
  method SearchFold(d: seq<Str>, lit: Str, from: nat, above: bool) returns (i: nat)
    requires Sorted(d) && from <= |d| && (above ==> forall c :: 0 <= c < from ==> CompareFold(d[c], lit) <= 0)
    requires (!above ==> from == 0)
    ensures from <= i <= |d|
    ensures forall c ::
      0 <= c < |d| ==> (c >= i <==> if above then CompareFold(d[c], lit) > 0 else CompareFold(d[c], lit) >= 0)
  {
    hide Sorted, CompareFold;
    i := from;
    var j := |d|;
    while i < j
      invariant from <= i <= j <= |d|
      invariant forall c :: from <= c < i ==> if above then CompareFold(d[c], lit) <= 0 else CompareFold(d[c], lit) < 0
      invariant forall c :: j <= c < |d| ==> if above then CompareFold(d[c], lit) > 0 else CompareFold(d[c], lit) >= 0
    {
      var h := (i + j) / 2;
      var r := CompareStringsFold(d[h], lit);
      forall c | 0 <= c < |d| ensures (c <= h && r <= 0 ==> CompareFold(d[c], lit) <= r) &&
        (c >= h && r >= 0 ==> CompareFold(d[c], lit) >= r) && (c <= h && r < 0 ==> CompareFold(d[c], lit) < 0)
                                    && (c >= h && r > 0 ==> CompareFold(d[c], lit) > 0) {
        Monotone(d, lit, c, h);
      }
      if (if above then r > 0 else r >= 0) { j := h; } else { i := h + 1; }
    }
  }

  // Fold comparison with a literal rises along the dictionary.
  lemma Monotone(d: seq<Str>, lit: Str, c: nat, h: nat)
    requires Sorted(d) && c < |d| && h < |d|
    ensures -1 <= CompareFold(d[c], lit) <= 1
    ensures c <= h ==> CompareFold(d[c], lit) <= CompareFold(d[h], lit)
    ensures c >= h ==> CompareFold(d[c], lit) >= CompareFold(d[h], lit)
  {
    hide Lex, Less;
    if c < h {
      LessOrder(d[c], d[h], d[h]);
      FoldOrder(d[c], d[h], lit);
    }
    if h < c {
      LessOrder(d[h], d[c], d[c]);
      FoldOrder(d[h], d[c], lit);
    }
  }

  // The codes whose values equal the literal up to case: everything before them is below it, everything after above.
  method DictRange(d: seq<Str>, lit: Str) returns (lo: nat, hi: nat)
    requires Sorted(d)
    ensures lo <= hi <= |d|
    ensures forall c ::
      0 <= c < |d| ==> (c < lo <==> CompareFold(d[c], lit) < 0) && (c >= hi <==> CompareFold(d[c], lit) > 0)
  {
    hide Sorted, CompareFold;
    lo := SearchFold(d, lit, 0, false);
    hi := SearchFold(d, lit, lo, true);
  }

  datatype Rel = RLt | RLe | RGt | RGe | REq | RNe

  predicate FoldHolds(op: Rel, v: Str, lit: Str)
  {
    var c := CompareFold(v, lit);
    match op case RLt => c < 0 case RLe => c <= 0 case RGt => c > 0 case RGe => c >= 0 case REq => c ==
      0 case RNe => c != 0
  }

  predicate CodeHolds(op: Rel, c: nat, lo: nat, hi: nat)
  {
    match op
    case RLt => c < lo
    case RLe => c < hi
    case RGt => c >= hi
    case RGe => c >= lo
    case REq => lo <= c < hi
    case RNe => !(lo <= c < hi)
  }

  // Every relational operator on a string column is a range test on its codes.
  method CompareByCode(op: Rel, d: seq<Str>, lit: Str, codes: seq<nat>) returns (r: seq<bool>)
    requires Sorted(d) && forall k :: 0 <= k < |codes| ==> codes[k] < |d|
    ensures |r| == |codes| && forall k :: 0 <= k < |codes| ==> (r[k] <==> FoldHolds(op, d[codes[k]], lit))
  {
    hide Sorted, CompareFold;
    var lo, hi := DictRange(d, lit);
    r := [];
    for k := 0 to |codes|
      invariant |r| == k && forall j :: 0 <= j < k ==> (r[j] <==> FoldHolds(op, d[codes[j]], lit))
    {
      r := r + [CodeHolds(op, codes[k], lo, hi)];
    }
  }

  // ---------------------------------------------------------------- ruling a block out

  // An order comparison with one literal, or a match against any of several: up to case, or exactly.
  datatype Probe = Order(op: Rel, lit: Str) | AnyOf(exact: bool, lits: seq<Str>)

  predicate ProbeOK(p: Probe) { p.Order? ==> p.op.RLt? || p.op.RLe? || p.op.RGt? || p.op.RGe? }

  predicate Satisfies(p: Probe, v: Str)
  {
    match p
    case Order(op, lit) => FoldHolds(op, v, lit)
    case AnyOf(exact, lits) => exists i ::
      0 <= i < |lits| && if exact then v == lits[i] else CompareFold(v, lits[i]) == 0
  }

  // The dictionary rules the probe out exactly when none of its values satisfies it.
  method ProbePrunes(p: Probe, d: seq<Str>) returns (prune: bool)
    requires Sorted(d) && ProbeOK(p)
    ensures prune <==> forall c :: 0 <= c < |d| ==> !Satisfies(p, d[c])
  {
    hide Sorted, CompareFold;
    match p {
      case Order(op, lit) =>
        var lo, hi := DictRange(d, lit);
        prune := OrderPrunes(op, d, lit, lo, hi);
      case AnyOf(exact, lits) =>
        for i := 0 to |lits|
          invariant forall c, j ::
            0 <= c < |d| && 0 <= j < i ==> if exact then d[c] != lits[j] else CompareFold(d[c], lits[j]) != 0
        {
          var hit := LitPresent(exact, d, lits[i]);
          if hit {
            ghost var c :| 0 <= c < |d| && if exact then d[c] == lits[i] else CompareFold(d[c], lits[i]) == 0;
            assert Satisfies(p, d[c]);
            return false;
          }
        }
        prune := true;
    }
  }

  method OrderPrunes(op: Rel, d: seq<Str>, lit: Str, lo: nat, hi: nat) returns (prune: bool)
    requires op.RLt? || op.RLe? || op.RGt? || op.RGe?
    requires lo <= hi <= |d|
    requires forall c ::
      0 <= c < |d| ==> (c < lo <==> CompareFold(d[c], lit) < 0) && (c >= hi <==> CompareFold(d[c], lit) > 0)
    ensures prune <==> forall c :: 0 <= c < |d| ==> !FoldHolds(op, d[c], lit)
  {
    hide CompareFold;
    prune := match op case RLt => lo == 0 case RLe => hi == 0 case RGt => hi == |d| case _ => lo == |d|;
    if !prune {
      var c := if op.RLt? || op.RLe? then 0 else |d| - 1;
      assert FoldHolds(op, d[c], lit);
    }
  }

  // Only the codes equal up to case can hold the literal itself.
  method LitPresent(exact: bool, d: seq<Str>, lit: Str) returns (hit: bool)
    requires Sorted(d)
    ensures hit <==> exists c :: 0 <= c < |d| && if exact then d[c] == lit else CompareFold(d[c], lit) == 0
  {
    hide Sorted, CompareFold;
    var lo, hi := DictRange(d, lit);
    if lo == hi {
      forall c | 0 <= c < |d| ensures d[c] != lit { FoldOrder(d[c], lit, lit); }
      return false;
    }
    if !exact {
      assert CompareFold(d[lo], lit) == 0 by { assert !(lo < lo) && !(lo >= hi); }
      return true;
    }
    for j := lo to hi
      invariant forall c :: lo <= c < j ==> d[c] != lit
    {
      if d[j] == lit { return true; }
    }
    forall c | 0 <= c < |d| && d[c] == lit ensures lo <= c < hi { FoldOrder(d[c], lit, lit); }
    hit := false;
  }

  // A block every record of which holds a value is ruled out exactly when none of its records satisfies the probe.
  lemma PruneExact(p: Probe, d: seq<Str>, vals: seq<Option<Str>>)
    requires DictOf(d, vals) && forall k :: 0 <= k < |vals| ==> vals[k].Some?
    ensures (forall c :: 0 <= c < |d| ==> !Satisfies(p, d[c])) <==>
      forall k :: 0 <= k < |vals| ==> !Satisfies(p, vals[k].value)
  {
    hide Sorted, Satisfies;
    if forall k :: 0 <= k < |vals| ==> !Satisfies(p, vals[k].value) {
      forall c | 0 <= c < |d| ensures !Satisfies(p, d[c]) {
        assert d[c] in d;
        var k :| 0 <= k < |vals| && vals[k] == Some(d[c]);
      }
    }
    if forall c :: 0 <= c < |d| ==> !Satisfies(p, d[c]) {
      forall k | 0 <= k < |vals| ensures !Satisfies(p, vals[k].value) {
        assert Some(vals[k].value) in vals;
        var c :| 0 <= c < |d| && d[c] == vals[k].value;
      }
    }
  }

  // ---------------------------------------------------------------- entries and codes as bytes

  const MAX_CARDINALITY := 0x1_0000
  const MIN_REPEAT := 2

  predicate Worthwhile(distinct: nat, n: nat) { 0 < distinct < MAX_CARDINALITY && distinct * MIN_REPEAT <= n }

  // A dictionary pays where there is a value, a value occurs twice on average, and two bytes hold every code.
  lemma WorthwhileExactly(distinct: nat, n: nat)
    ensures Worthwhile(distinct, n) <==> 1 <= distinct <= n / 2 && distinct <= 0xFFFF
  {
  }

  function PutEntry(v: Str): (r: seq<byte>) { PutUvarint(|v|) + v }

  function PutEntries(d: seq<Str>): (r: seq<byte>)
  {
    if d == [] then [] else PutEntry(d[0]) + PutEntries(d[1..])
  }

  function GetEntry(s: seq<byte>): (r: Option<(Str, seq<byte>)>)
  {
    match GetUvarint(s)
    case None => None
    case Some((l, m)) => if m + l > |s| then None else Some((s[m..m + l], s[m + l..]))
  }

  function GetEntries(s: seq<byte>, count: nat): (r: Option<seq<Str>>)
    decreases count
  {
    if count == 0 then Some([])
    else
      match GetEntry(s)
      case None => None
      case Some((v, rest)) => match GetEntries(rest, count - 1) case None => None case Some(d) => Some([v] + d)
  }

  lemma EntryReturns(v: Str, rest: seq<byte>)
    requires |v| < TWO64
    ensures GetEntry(PutEntry(v) + rest) == Some((v, rest))
  {
    hide PutUvarint, GetUvarint;
    var m := |PutUvarint(|v|)|;
    var s := PutEntry(v) + rest;
    assert s == PutUvarint(|v|) + (v + rest);
    UvarintRoundTrip(|v|, v + rest);
    assert s[m..m + |v|] == v && s[m + |v|..] == rest;
  }

  lemma {:induction false} EntriesReturn(d: seq<Str>, rest: seq<byte>)
    requires forall i :: 0 <= i < |d| ==> |d[i]| < TWO64
    ensures GetEntries(PutEntries(d) + rest, |d|) == Some(d)
    decreases |d|
  {
    if d != [] {
      hide PutEntry, GetEntry;
      EntriesReturn(d[1..], rest);
      EntryReturns(d[0], PutEntries(d[1..]) + rest);
      assert PutEntries(d) + rest == PutEntry(d[0]) + (PutEntries(d[1..]) + rest);
      assert [d[0]] + d[1..] == d;
    }
  }

  // Read a field's entries from the dictionary region.
  method DictEntries(region: seq<byte>, start: nat, count: nat) returns (d: Option<seq<Str>>)
    ensures d == if start > |region| then None else GetEntries(region[start..], count)
  {
    if start > |region| { return None; }
    var p := region[start..];
    var out: seq<Str> := [];
    assert forall x: seq<Str> :: [] + x == x;
    for j := 0 to count
      invariant GetEntries(region[start..], count) ==
        match GetEntries(p, count - j) case None => None case Some(x) => Some(out + x)
    {
      var e := GetEntry(p);
      if e.None? { return None; }
      assert forall x: seq<Str> :: out + ([e.value.0] + x) == (out + [e.value.0]) + x;
      p := e.value.1;
      out := out + [e.value.0];
    }
    assert out + [] == out;
    d := Some(out);
  }

  // Record k's code.
  function CodeAt(codes: seq<byte>, w: nat, k: nat): (c: nat)
    requires (w == 1 || w == 2) && w * k + w <= |codes|
  {
    if w == 1 then codes[k] else
      var low: nat, high: nat := codes[2 * k], codes[2 * k + 1];
      low + 256 * high
  }

  function PutCode(c: nat, w: nat): (r: seq<byte>)
    requires w == 1 || w == 2
    ensures |r| == w
  {
    if w == 1 then [c % 256] else [c % 256, c / 256 % 256]
  }

  // Every record with a value has the code of that value.
  ghost predicate CodesFor(codes: seq<byte>, w: nat, d: seq<Str>, vals: seq<Option<Str>>, n: nat)
    requires n <= |vals|
  {
    && (w == 1 || w == 2) && |codes| == w * n
    && forall k :: 0 <= k < n && vals[k].Some? ==> CodeAt(codes, w, k) < |d| && d[CodeAt(codes, w, k)] == vals[k].value
  }

  lemma CodesSnoc(codes: seq<byte>, w: nat, d: seq<Str>, vals: seq<Option<Str>>, n: nat, c: nat)
    requires n < |vals| && CodesFor(codes, w, d, vals, n) && (vals[n].Some? ==> c < |d| && d[c] == vals[n].value)
    requires c < if w == 1 then 256 else MAX_CARDINALITY
    ensures CodesFor(codes + PutCode(c, w), w, d, vals, n + 1)
  {
    var all := codes + PutCode(c, w);
    forall k | 0 <= k < n + 1 && vals[k].Some?
      ensures CodeAt(all, w, k) < |d| && d[CodeAt(all, w, k)] == vals[k].value
    {
      if k < n { assert CodeAt(all, w, k) == CodeAt(codes, w, k); } else { assert CodeAt(all, w, k) == c; }
    }
  }

  // One code per record; an escaped record's is never read.
  method PutCodes(d: seq<Str>, vals: seq<Option<Str>>, w: nat) returns (codes: seq<byte>)
    requires DictOf(d, vals) && (w == 1 || w == 2) && |d| <= (if w == 1 then 256 else MAX_CARDINALITY)
    ensures CodesFor(codes, w, d, vals, |vals|)
  {
    hide Sorted, PutCode, CodeAt;
    var index := IndexOf(d);
    codes := [];
    for k := 0 to |vals|
      invariant CodesFor(codes, w, d, vals, k)
    {
      var c: nat := 0;
      if vals[k].Some? {
        assert vals[k] in vals;
        c := index[vals[k].value];
      }
      CodesSnoc(codes, w, d, vals, k, c);
      codes := codes + PutCode(c, w);
    }
  }

  method IndexOf(d: seq<Str>) returns (index: map<Str, nat>)
    ensures forall v :: v in d ==> v in index && index[v] < |d| && d[index[v]] == v
  {
    index := map[];
    for c := 0 to |d|
      invariant forall v :: v in d[..c] ==> v in index && index[v] < c && d[index[v]] == v
    {
      assert d[..c + 1] == d[..c] + [d[c]];
      index := index[d[c] := c];
    }
    assert d[..|d|] == d;
  }

  // ---------------------------------------------------------------- a field's place in the two regions

  datatype Info = Info(codeStart: nat, codeWidth: nat, dictStart: nat, count: nat, noEscape: bool)

  // The field's dictionary and codes, as the regions hold them.
  ghost predicate InfoFor(f: Info, dictRaw: seq<byte>, codeRaw: seq<byte>, d: seq<Str>, vals: seq<Option<Str>>)
  {
    && DictOf(d, vals) && f.count == |d| && f.dictStart + |PutEntries(d)| <= |dictRaw| &&
       dictRaw[f.dictStart..f.dictStart + |PutEntries(d)|] == PutEntries(d)
    && (f.codeWidth == 1 || f.codeWidth == 2) && f.codeStart + f.codeWidth * |vals| <= |codeRaw|
    && CodesFor(codeRaw[f.codeStart..f.codeStart + f.codeWidth * |vals|], f.codeWidth, d, vals, |vals|)
    && (f.noEscape <==> forall k :: 0 <= k < |vals| ==> vals[k].Some?)
  }

  // Fields added later leave it where it is.
  lemma InfoGrows(f: Info, dictRaw: seq<byte>, codeRaw: seq<byte>, d: seq<Str>, vals: seq<Option<Str>>, x: seq<byte>,
                  y: seq<byte>)
    requires InfoFor(f, dictRaw, codeRaw, d, vals)
    ensures InfoFor(f, dictRaw + x, codeRaw + y, d, vals)
  {
    hide DictOf, CodesFor, PutEntries;
    var e := f.codeStart + f.codeWidth * |vals|;
    assert (codeRaw + y)[f.codeStart..e] == codeRaw[f.codeStart..e];
    assert (dictRaw + x)[f.dictStart..f.dictStart + |PutEntries(d)|] ==
      dictRaw[f.dictStart..f.dictStart + |PutEntries(d)|];
  }

  // Give a field its dictionary at the end of both regions.
  method AddDict(vals: seq<Option<Str>>, d: seq<Str>, dictRaw0: seq<byte>, codeRaw0: seq<byte>)
    returns (f: Info, dictRaw: seq<byte>, codeRaw: seq<byte>)
    requires DictOf(d, vals) && Worthwhile(|d|, |vals|)
    ensures InfoFor(f, dictRaw, codeRaw, d, vals) && dictRaw0 <= dictRaw && codeRaw0 <= codeRaw
  {
    hide DictOf, CodesFor, PutEntries;
    var noEscape := true;
    for k := 0 to |vals|
      invariant noEscape <==> forall j :: 0 <= j < k ==> vals[j].Some?
    {
      if vals[k].None? { noEscape := false; }
    }
    var w := if |d| > 256 then 2 else 1;
    var codes := PutCodes(d, vals, w);
    CodesLength(codes, w, d, vals);
    f := Info(|codeRaw0|, w, |dictRaw0|, |d|, noEscape);
    dictRaw, codeRaw := dictRaw0 + PutEntries(d), codeRaw0 + codes;
    SliceBack(codeRaw0, codes);
    SliceBack(dictRaw0, PutEntries(d));
  }

  lemma SliceBack(a: seq<byte>, b: seq<byte>)
    ensures (a + b)[|a|..|a| + |b|] == b
  {
  }

  lemma CodesLength(codes: seq<byte>, w: nat, d: seq<Str>, vals: seq<Option<Str>>)
    requires CodesFor(codes, w, d, vals, |vals|)
    ensures |codes| == w * |vals|
  {
  }

  // Record k's string through its field's dictionary.
  function DictString(f: Info, dictRaw: seq<byte>, codeRaw: seq<byte>, n: nat, k: nat): (r: Option<Str>)
  {
    if f.dictStart > |dictRaw| || f.codeStart + f.codeWidth * n > |codeRaw| || k >= n ||
      (f.codeWidth != 1 && f.codeWidth != 2) then None
    else
      match GetEntries(dictRaw[f.dictStart..], f.count)
      case None => None
      case Some(d) =>
        var c := CodeAt(codeRaw[f.codeStart..f.codeStart + f.codeWidth * n], f.codeWidth, k);
        if c < |d| then Some(d[c]) else None
  }

  // The dictionary answers with the record's own value.
  lemma DictStringExact(f: Info, dictRaw: seq<byte>, codeRaw: seq<byte>, d: seq<Str>, vals: seq<Option<Str>>, k: nat)
    requires InfoFor(f, dictRaw, codeRaw, d, vals) && k < |vals| && vals[k].Some? && forall v :: v in d ==> |v| < TWO64
    ensures DictString(f, dictRaw, codeRaw, |vals|, k) == vals[k]
  {
    hide DictOf, PutEntries, GetEntries;
    var e := PutEntries(d);
    var rest := dictRaw[f.dictStart + |e|..];
    assert dictRaw[f.dictStart..] == e + rest;
    forall i | 0 <= i < |d| ensures |d[i]| < TWO64 { assert d[i] in d; }
    EntriesReturn(d, rest);
  }
}
