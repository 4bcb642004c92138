/** Deriving group schemas from a sample: candidates by identical presence, widened by absorbing near patterns
    under a ceiling on partial holders. */
module GroupSchema {
  import opened Wire
  import opened Groups
  import opened MergePolicy

  // ---------------------------------------------------------------- presence

  // The sampled ads holding every, or some, of these attributes.
  ghost function HoldAll(samples: seq<seq<Entry>>, ids: seq<nat>): set<nat>
  {
    set i: nat | i < |samples| && forall id :: id in ids ==> HasAttr(samples[i], id)
  }

  ghost function HoldSome(samples: seq<seq<Entry>>, ids: seq<nat>): set<nat>
  {
    set i: nat | i < |samples| && exists id :: id in ids && HasAttr(samples[i], id)
  }

  // The ads carrying one attribute: what two attributes must share to be grouped.
  function Pattern(samples: seq<seq<Entry>>, id: nat): (p: set<nat>)
  {
    set i: nat | i < |samples| && HasAttr(samples[i], id)
  }

  // How many ads hold some but not all.
  ghost function Partial(samples: seq<seq<Entry>>, ids: seq<nat>): nat
  {
    |HoldSome(samples, ids) - HoldAll(samples, ids)|
  }

  lemma HoldConcat(samples: seq<seq<Entry>>, a: seq<nat>, b: seq<nat>)
    ensures HoldAll(samples, a + b) == HoldAll(samples, a) * HoldAll(samples, b)
    ensures HoldSome(samples, a + b) == HoldSome(samples, a) + HoldSome(samples, b)
  {
    hide HasAttr;
    assert forall id :: id in a + b <==> id in a || id in b;
  }

  lemma HoldSame(samples: seq<seq<Entry>>, a: seq<nat>, b: seq<nat>)
    requires forall id :: id in a <==> id in b
    ensures HoldAll(samples, a) == HoldAll(samples, b) && HoldSome(samples, a) == HoldSome(samples, b)
  {
    hide HasAttr;
  }

  // Dropping members can only shrink the partial holders.
  lemma PartialShrinks(samples: seq<seq<Entry>>, ids: seq<nat>, sub: seq<nat>)
    requires forall id :: id in sub ==> id in ids
    ensures Partial(samples, sub) <= Partial(samples, ids)
  {
    hide HasAttr;
    assert HoldSome(samples, sub) <= HoldSome(samples, ids);
    assert HoldAll(samples, ids) <= HoldAll(samples, sub);
    SubsetSize(HoldSome(samples, sub) - HoldAll(samples, sub), HoldSome(samples, ids) - HoldAll(samples, ids));
  }

  // ---------------------------------------------------------------- sorting member ids

  function InsertId(s: seq<nat>, x: nat): (r: seq<nat>)
    ensures |r| == |s| + 1
  {
    if s == [] || s[|s| - 1] < x then s + [x] else InsertId(s[..|s| - 1], x) + [s[|s| - 1]]
  }

  function SortIds(s: seq<nat>): (r: seq<nat>)
    ensures |r| == |s|
  {
    if s == [] then [] else InsertId(SortIds(s[..|s| - 1]), s[|s| - 1])
  }

  lemma {:induction false} InsertIdMember(s: seq<nat>, x: nat, y: nat)
    ensures y in InsertId(s, x) <==> y in s || y == x
    decreases |s|
  {
    if s != [] {
      assert s == s[..|s| - 1] + [s[|s| - 1]];
      if s[|s| - 1] >= x { InsertIdMember(s[..|s| - 1], x, y); }
    }
  }

  lemma {:induction false} InsertIdSorted(s: seq<nat>, x: nat)
    requires Increasing(s) && x !in s
    ensures Increasing(InsertId(s, x))
    decreases |s|
  {
    if s != [] {
      var n := |s| - 1;
      assert s[n] in s;
      if s[n] > x {
        InsertIdSorted(s[..n], x);
        var r := InsertId(s[..n], x);
        forall i | 0 <= i < |r| ensures r[i] < s[n] {
          InsertIdMember(s[..n], x, r[i]);
          if r[i] in s[..n] { var j :| 0 <= j < n && s[j] == r[i]; }
        }
      }
    }
  }

  predicate NoRepeats(s: seq<nat>) { forall i, j :: 0 <= i < j < |s| ==> s[i] != s[j] }

  lemma {:induction false} SortIdsSorts(s: seq<nat>)
    requires NoRepeats(s)
    ensures Increasing(SortIds(s)) && forall y :: y in SortIds(s) <==> y in s
    decreases |s|
  {
    if s != [] {
      var n := |s| - 1;
      SortIdsSorts(s[..n]);
      assert s[n] !in s[..n];
      InsertIdSorted(SortIds(s[..n]), s[n]);
      forall y ensures y in SortIds(s) <==> y in s {
        InsertIdMember(SortIds(s[..n]), s[n], y);
        assert s == s[..n] + [s[n]];
      }
    }
  }

  // ---------------------------------------------------------------- the slice a widened group grows in

  // What a candidate's own id slice reads after a group grown from it was appended to and sorted: while the
  // growth fits the slice's capacity it happens in the candidate's own array.
  function AfterAppend(ids: seq<nat>, cap: nat, absorbed: seq<nat>): (r: seq<nat>)
    ensures |r| == |ids|
  {
    if absorbed != [] && |ids| + |absorbed| <= cap then SortIds(ids + absorbed)[..|ids|] else ids
  }

  // The candidate keeps its ids exactly when nothing was absorbed in place ahead of them.
  predicate Undisturbed(ids: seq<nat>, cap: nat, absorbed: seq<nat>)
  {
    absorbed == [] || |ids| + |absorbed| > cap || forall x, a :: x in ids && a in absorbed ==> x < a
  }

  lemma AfterExactly(ids: seq<nat>, cap: nat, absorbed: seq<nat>)
    requires Increasing(ids) && NoRepeats(ids + absorbed)
    ensures AfterAppend(ids, cap, absorbed) == ids <==> Undisturbed(ids, cap, absorbed)
    ensures !Undisturbed(ids, cap, absorbed) ==> exists a :: a in absorbed && a in AfterAppend(ids, cap, absorbed)
    ensures forall a :: a in AfterAppend(ids, cap, absorbed) ==> a in ids || a in absorbed
  {
    hide SortIds;
    if absorbed != [] && |ids| + |absorbed| <= cap {
      var all := SortIds(ids + absorbed);
      var pre := all[..|ids|];
      SortIdsSorts(ids + absorbed);
      assert forall a :: a in pre ==> a in all;
      if forall x, a :: x in ids && a in absorbed ==> x < a {
        AllLarger(ids, absorbed);
      } else if forall a :: a in absorbed ==> a !in pre {
        PrefixIsIds(ids, absorbed, all);
      }
      if pre == ids { PrefixSmaller(ids, absorbed, all); }
    }
  }

  // Larger ids sort behind.
  lemma AllLarger(ids: seq<nat>, absorbed: seq<nat>)
    requires Increasing(ids) && NoRepeats(ids + absorbed) && forall x, a :: x in ids && a in absorbed ==> x < a
    ensures SortIds(ids + absorbed)[..|ids|] == ids
  {
    hide SortIds;
    var tail := SortIds(absorbed);
    assert NoRepeats(absorbed) by {
      forall i, j | 0 <= i < j < |absorbed| ensures absorbed[i] != absorbed[j] {
        assert (ids + absorbed)[|ids| + i] == absorbed[i] && (ids + absorbed)[|ids| + j] == absorbed[j];
      }
    }
    SortIdsSorts(absorbed);
    SortIdsSorts(ids + absorbed);
    forall i, j | 0 <= i < j < |ids + tail| ensures (ids + tail)[i] < (ids + tail)[j] {
      if i < |ids| <= j { assert tail[j - |ids|] in absorbed && ids[i] in ids; }
    }
    IncreasingUnique(SortIds(ids + absorbed), ids + tail);
  }

  // A sorted list whose head is exactly the ids has everything else behind them.
  lemma PrefixSmaller(ids: seq<nat>, absorbed: seq<nat>, all: seq<nat>)
    requires Increasing(all) && |all| == |ids| + |absorbed| && all[..|ids|] == ids && NoRepeats(ids + absorbed)
    requires forall y :: y in all <==> y in ids + absorbed
    ensures forall x, a :: x in ids && a in absorbed ==> x < a
  {
    forall x, a | x in ids && a in absorbed ensures x < a {
      var i :| 0 <= i < |ids| && ids[i] == x;
      assert a in ids + absorbed;
      var j :| 0 <= j < |all| && all[j] == a;
      assert a !in ids by {
        var p :| 0 <= p < |absorbed| && absorbed[p] == a;
        forall q | 0 <= q < |ids|
          ensures ids[q] != a
        {
          assert (ids + absorbed)[q] == ids[q] && (ids + absorbed)[|ids| + p] == a;
        }
      }
      assert all[i] == ids[i];
      HeadIs(ids, all, j);
    }
  }

  lemma HeadIs(ids: seq<nat>, all: seq<nat>, j: nat)
    requires |ids| <= |all| && all[..|ids|] == ids
    ensures j < |ids| ==> all[j] in ids
  {
    if j < |ids| { assert all[j] == all[..|ids|][j]; }
  }

  // A head of the right length with no absorbed id in it is the ids.
  lemma PrefixIsIds(ids: seq<nat>, absorbed: seq<nat>, all: seq<nat>)
    requires Increasing(ids) && Increasing(all) && |all| == |ids| + |absorbed|
    requires (forall y :: y in all <==> y in ids + absorbed)
    requires forall a :: a in absorbed ==> a !in all[..|ids|]
    ensures all[..|ids|] == ids
  {
    var pre := all[..|ids|];
    forall y | y in pre ensures y in ids { assert y in all; }
    IncreasingSize(pre);
    IncreasingSize(ids);
    assert IdSet(pre) <= IdSet(ids);
    SubsetFull(IdSet(pre), IdSet(ids));
    forall y ensures y in pre <==> y in ids { assert y in IdSet(pre) <==> y in IdSet(ids); }
    IncreasingUnique(pre, ids);
  }

  lemma IncreasingSize(s: seq<nat>)
    requires Increasing(s)
    ensures |IdSet(s)| == |s|
  {
    IdSetSize(s);
  }

  // ---------------------------------------------------------------- candidates

  // Attributes with one presence pattern, in a slice of some capacity.
  datatype Cand = Cand(ids: seq<nat>, cap: nat, pat: set<nat>)

  ghost predicate CandOK(samples: seq<seq<Entry>>, c: Cand)
  {
    c.ids != [] && Increasing(c.ids) && |c.ids| <= c.cap && forall id :: id in c.ids ==> Pattern(samples, id) == c.pat
  }

  ghost predicate Apart(lists: seq<seq<nat>>)
  {
    forall i, j, id :: 0 <= i < |lists| && 0 <= j < |lists| && id in lists[i] && id in lists[j] ==> i == j
  }

  ghost predicate Somewhere(lists: seq<seq<nat>>, id: nat) { exists g :: 0 <= g < |lists| && id in lists[g] }

  function IdsOf(cands: seq<Cand>): (r: seq<seq<nat>>)
    ensures |r| == |cands| && forall i :: 0 <= i < |cands| ==> r[i] == cands[i].ids
  {
    seq(|cands|, i requires 0 <= i < |cands| => cands[i].ids)
  }

  ghost predicate CandsOK(samples: seq<seq<Entry>>, cands: seq<Cand>)
  {
    (forall i :: 0 <= i < |cands| ==> CandOK(samples, cands[i])) && Apart(IdsOf(cands))
  }

  // Exact co-occurrence leaves no partial holder.
  lemma ExactHolds(samples: seq<seq<Entry>>, c: Cand)
    requires CandOK(samples, c)
    ensures HoldAll(samples, c.ids) == c.pat && HoldSome(samples, c.ids) == c.pat && Partial(samples, c.ids) == 0
  {
    hide HasAttr;
    assert c.ids[0] in c.ids;
    forall i: nat | i < |samples|
      ensures i in c.pat <==> HasAttr(samples[i], c.ids[0])
    {
      assert Pattern(samples, c.ids[0]) == c.pat;
    }
    forall i: nat, id | i < |samples| && id in c.ids
      ensures HasAttr(samples[i], id) <==> i in c.pat
    {
      assert i in Pattern(samples, id) <==> i in c.pat;
    }
    forall i
      ensures i in HoldAll(samples, c.ids) <==> i in c.pat
    {
      if i in c.pat { assert i in Pattern(samples, c.ids[0]); }
    }
    forall i
      ensures i in HoldSome(samples, c.ids) <==> i in c.pat
    {
      if i in c.pat { assert i in Pattern(samples, c.ids[0]); }
    }
    assert HoldSome(samples, c.ids) - HoldAll(samples, c.ids) == {};
  }

  function Jaccard(a: set<nat>, b: set<nat>): (r: real)
  {
    if |a + b| == 0 then 0.0 else |a * b| as real / |a + b| as real
  }

  // Nearness is symmetric and between none and one: one for the same non-empty pattern alone, none for patterns with no
  // ad in common alone.
  lemma JaccardMeans(a: set<nat>, b: set<nat>)
    ensures 0.0 <= Jaccard(a, b) <= 1.0 && Jaccard(a, b) == Jaccard(b, a)
    ensures (Jaccard(a, b) == 1.0 <==> a == b && a != {}) && (Jaccard(a, b) == 0.0 <==> a * b == {})
    ensures Jaccard(a, b) * |a + b| as real == |a * b| as real
  {
    var meet, all := a * b, a + b;
    assert b * a == meet && b + a == all;
    PartSize(meet, all);
    if all == {} {
      assert meet == {};
    } else {
      Ratio(|meet|, |all|);
      if |meet| == |all| { assert meet == all; assert a == b; }
      if a == b { assert meet == all == a; }
    }
  }

  lemma PartSize(a: set<nat>, b: set<nat>)
    requires a <= b
    ensures |a| <= |b| && (|a| == |b| ==> a == b)
  {
    assert b == a + (b - a);
  }

  lemma Ratio(m: nat, n: nat)
    requires m <= n && n > 0
    ensures 0.0 <= m as real / n as real <= 1.0 && (m as real / n as real == 1.0 <==> m == n)
    ensures (m as real / n as real == 0.0 <==> m == 0) && (m as real / n as real) * n as real == m as real
  {
  }

  // A widened group: its members sorted, and the ads holding every one of them.
  datatype Wide = Wide(ids: seq<nat>, pat: set<nat>)

  ghost predicate WideOK(samples: seq<seq<Entry>>, w: Wide, maxPartial: real)
  {
    && w.ids != [] && Increasing(w.ids) && w.pat == HoldAll(samples, w.ids)
    && (Partial(samples, w.ids) == 0 || Partial(samples, w.ids) as real <= maxPartial * |samples| as real)
  }

  // How near two patterns must be, and how many partial holders are borne.
  datatype Limits = Limits(n: nat, minJaccard: real, maxPartial: real)

  datatype Growth = Growth(ids: seq<nat>, union: set<nat>, inter: set<nat>)

  // A group grown this far takes in an unused candidate near its leader's pattern, if the partial holders
  // would stay within the ceiling.
  predicate TakesIn(leader: Cand, g: Growth, c: Cand, lim: Limits)
  {
    && Jaccard(leader.pat, c.pat) >= lim.minJaccard
    && (lim.n > 0 ==> (|g.union + c.pat| - |g.inter * c.pat|) as real / lim.n as real <= lim.maxPartial)
  }

  // The group led by candidate i once candidates below j have been looked at.
  function GrownTo(cands: seq<Cand>, i: nat, used: seq<bool>, lim: Limits, j: nat): (g: Growth)
    requires i < j <= |cands| == |used|
  {
    if j == i + 1 then Growth([], cands[i].pat, cands[i].pat) else
      var g := GrownTo(cands, i, used, lim, j - 1); var c := cands[j - 1];
      if !used[j - 1] && TakesIn(cands[i], g, c, lim) then Growth(g.ids + c.ids, g.union + c.pat, g.inter * c.pat)
        else g
  }

  predicate Joins(cands: seq<Cand>, i: nat, used: seq<bool>, lim: Limits, j: nat)
    requires i < |cands| == |used| && j < |cands|
  {
    i < j && !used[j] && TakesIn(cands[i], GrownTo(cands, i, used, lim, j), cands[j], lim)
  }

  // The group as grown: its patterns' intersection and union are the ads holding all and some of its members,
  // no id is in it twice, its partial holders stay within the ceiling, and its ids are those that joined.
  lemma {:induction false} GrowthMeans(samples: seq<seq<Entry>>, cands: seq<Cand>, i: nat, used: seq<bool>, lim: Limits,
                                       j: nat)
    requires i < j <= |cands| == |used| && CandsOK(samples, cands) && lim.n == |samples| > 0
    ensures var g := GrownTo(cands, i, used, lim, j); var ids := cands[i].ids + g.ids;
      && g.inter == HoldAll(samples, ids) && g.union == HoldSome(samples, ids) && NoRepeats(ids)
      && WithinCeiling(samples, ids, lim)
      && forall id :: id in g.ids <==> Joined(cands, i, used, lim, j, id)
    decreases j
  {
    hide HoldAll, HoldSome, NoRepeats, TakesIn, WithinCeiling, CandOK;
    var c := cands[i];
    GrowthStarts(samples, c, lim);
    if j == i + 1 {
      assert c.ids + [] == c.ids;
      ExactHolds(samples, c);
    } else {
      var g, d := GrownTo(cands, i, used, lim, j - 1), cands[j - 1];
      GrowthMeans(samples, cands, i, used, lim, j - 1);
      if !used[j - 1] && TakesIn(c, g, d, lim) {
        Grown(samples, cands, c.ids, g.ids, j - 1);
        StaysWithin(samples, c, g, d, lim);
        NoRepeatsGrow(samples, cands, i, g.ids, j - 1);
      }
      forall id
        ensures Joined(cands, i, used, lim, j, id) <==>
          Joined(cands, i, used, lim, j - 1, id) || (Joins(cands, i, used, lim, j - 1) && id in d.ids)
      {
        JoinedStep(cands, i, used, lim, j - 1, id);
      }
    }
  }

  ghost predicate WithinCeiling(samples: seq<seq<Entry>>, ids: seq<nat>, lim: Limits)
  {
    Partial(samples, ids) == 0 || Partial(samples, ids) as real <= lim.maxPartial * lim.n as real
  }

  // Some candidate below j joined the group and has this id.
  ghost predicate Joined(cands: seq<Cand>, i: nat, used: seq<bool>, lim: Limits, j: nat, id: nat)
    requires i < j <= |cands| == |used|
  {
    exists k :: 0 <= k < j && Joins(cands, i, used, lim, k) && id in cands[k].ids
  }

  lemma JoinedStep(cands: seq<Cand>, i: nat, used: seq<bool>, lim: Limits, j: nat, id: nat)
    requires i < j < |cands| == |used|
    ensures Joined(cands, i, used, lim, j + 1, id) <==>
      Joined(cands, i, used, lim, j, id) || (Joins(cands, i, used, lim, j) && id in cands[j].ids)
  {
    hide Joins;
  }

  lemma GrowthStarts(samples: seq<seq<Entry>>, c: Cand, lim: Limits)
    requires CandOK(samples, c)
    ensures c.ids != [] && NoRepeats(c.ids) && WithinCeiling(samples, c.ids, lim)
  {
    hide HoldAll, HoldSome;
    ExactHolds(samples, c);
  }

  lemma StaysWithin(samples: seq<seq<Entry>>, c: Cand, g: Growth, d: Cand, lim: Limits)
    requires TakesIn(c, g, d, lim) && lim.n == |samples| > 0 && c.ids != []
    requires g.inter * d.pat == HoldAll(samples, c.ids + (g.ids + d.ids))
    requires g.union + d.pat == HoldSome(samples, c.ids + (g.ids + d.ids))
    ensures WithinCeiling(samples, c.ids + (g.ids + d.ids), lim)
  {
    hide HoldAll, HoldSome, Partial, Jaccard;
    PartialCount(samples, c.ids + (g.ids + d.ids));
    DivideOut(|g.union + d.pat| - |g.inter * d.pat|, lim.n, lim.maxPartial);
  }

  // Grow one group from candidate i by absorbing later unused candidates of nearly its pattern, as long as
  // the partial holders stay within the ceiling.
  method Absorb(cands: seq<Cand>, i: nat, used0: seq<bool>, lim: Limits)
    returns (absorbed: seq<nat>, inter: set<nat>, used: seq<bool>)
    requires i < |cands| == |used0| && used0[i]
    ensures absorbed == GrownTo(cands, i, used0, lim, |cands|).ids &&
      inter == GrownTo(cands, i, used0, lim, |cands|).inter
    ensures |used| == |used0| && forall j ::
      0 <= j < |used| ==> (used[j] <==> used0[j] || Joins(cands, i, used0, lim, j))
  {
    hide Jaccard, GrownTo, Joins, TakesIn;
    absorbed, used := [], used0;
    var c := cands[i];
    inter := c.pat;
    var union := c.pat;
    var j := i + 1;
    NotYet(cands, i, used0, lim);
    while j < |cands|
      invariant i < j <= |cands| && |used| == |used0| &&
        Growth(absorbed, union, inter) == GrownTo(cands, i, used0, lim, j)
      invariant forall k :: 0 <= k < |used| ==> (used[k] <==> used0[k] || (k < j && Joins(cands, i, used0, lim, k)))
    {
      GrownStep(cands, i, used0, lim, j);
      TakenIn(c, Growth(absorbed, union, inter), cands[j], lim);
      if !used[j] && Jaccard(c.pat, cands[j].pat) >= lim.minJaccard {
        var nu, ni := union + cands[j].pat, inter * cands[j].pat;
        var partial := |nu| - |ni|;
        if lim.n == 0 || partial as real / lim.n as real <= lim.maxPartial {
          union, inter := nu, ni;
          absorbed := absorbed + cands[j].ids;
          used := used[j := true];
        }
      }
      j := j + 1;
    }
  }

  lemma NotYet(cands: seq<Cand>, i: nat, used: seq<bool>, lim: Limits)
    requires i < |cands| == |used|
    ensures GrownTo(cands, i, used, lim, i + 1) == Growth([], cands[i].pat, cands[i].pat)
    ensures forall k :: 0 <= k <= i ==> !Joins(cands, i, used, lim, k)
  {
  }

  lemma GrownStep(cands: seq<Cand>, i: nat, used: seq<bool>, lim: Limits, j: nat)
    requires i < j < |cands| == |used|
    ensures var g, c := GrownTo(cands, i, used, lim, j), cands[j];
      && (Joins(cands, i, used, lim, j) <==> !used[j] && TakesIn(cands[i], g, c, lim))
      && GrownTo(cands, i, used, lim, j + 1) == if Joins(cands, i, used, lim, j) then
         Growth(g.ids + c.ids, g.union + c.pat, g.inter * c.pat) else g
  {
    hide TakesIn;
  }

  lemma TakenIn(leader: Cand, g: Growth, c: Cand, lim: Limits)
    ensures TakesIn(leader, g, c, lim) <==>
      Jaccard(leader.pat, c.pat) >= lim.minJaccard &&
        (lim.n == 0 || (|g.union + c.pat| - |g.inter * c.pat|) as real / lim.n as real <= lim.maxPartial)
  {
    hide Jaccard;
  }

  lemma JoinedUsed(cands: seq<Cand>, i: nat, used: seq<bool>, lim: Limits, used': seq<bool>)
    requires i < |cands| == |used| == |used'|
    requires forall j :: 0 <= j < |used| ==> (used'[j] <==> used[j] || Joins(cands, i, used, lim, j))
    ensures forall id ::
      Joined(cands, i, used, lim, |cands|, id) <==>
        exists j :: 0 <= j < |cands| && used'[j] && !used[j] && id in cands[j].ids
  {
    hide GrownTo, TakesIn;
  }

  lemma DivideOut(p: int, n: nat, m: real)
    requires n > 0 && p as real / n as real <= m
    ensures p as real <= m * n as real
  {
  }

  // Taking in a candidate takes the intersection and the union of the patterns.
  lemma Grown(samples: seq<seq<Entry>>, cands: seq<Cand>, ids: seq<nat>, absorbed: seq<nat>, j: nat)
    requires CandsOK(samples, cands) && j < |cands|
    ensures HoldAll(samples, ids + (absorbed + cands[j].ids)) == HoldAll(samples, ids + absorbed) * cands[j].pat
    ensures HoldSome(samples, ids + (absorbed + cands[j].ids)) == HoldSome(samples, ids + absorbed) + cands[j].pat
  {
    hide HoldAll, HoldSome;
    assert ids + (absorbed + cands[j].ids) == ids + absorbed + cands[j].ids;
    HoldConcat(samples, ids + absorbed, cands[j].ids);
    ExactHolds(samples, cands[j]);
  }

  lemma PartialCount(samples: seq<seq<Entry>>, ids: seq<nat>)
    requires ids != []
    ensures |HoldSome(samples, ids)| - |HoldAll(samples, ids)| == Partial(samples, ids)
  {
    hide HasAttr;
    var s, a := HoldSome(samples, ids), HoldAll(samples, ids);
    forall i | i in a ensures i in s { assert ids[0] in ids; }
    assert s == (s - a) + a;
  }

  lemma NoRepeatsGrow(samples: seq<seq<Entry>>, cands: seq<Cand>, i: nat, absorbed: seq<nat>, j: nat)
    requires i < j < |cands| && CandsOK(samples, cands) && NoRepeats(cands[i].ids + absorbed)
    requires forall id :: id in absorbed ==> exists k :: 0 <= k < j && id in cands[k].ids
    ensures NoRepeats(cands[i].ids + (absorbed + cands[j].ids))
  {
    var lists := IdsOf(cands);
    var left, more := cands[i].ids + absorbed, cands[j].ids;
    assert CandOK(samples, cands[j]);
    assert cands[i].ids + (absorbed + more) == left + more && lists[j] == more;
    forall id | id in left ensures id !in more {
      if id in cands[i].ids {
        assert id in lists[i];
      } else {
        var k :| 0 <= k < j && id in cands[k].ids;
        assert id in lists[k];
      }
    }
    forall a, b | 0 <= a < b < |left + more| ensures (left + more)[a] != (left + more)[b] {
      if a < |left| <= b { assert left[a] in left && more[b - |left|] in more; }
    }
  }

  function WideIds(out: seq<Wide>): (r: seq<seq<nat>>)
    ensures |r| == |out| && forall i :: 0 <= i < |out| ==> r[i] == out[i].ids
  {
    seq(|out|, i requires 0 <= i < |out| => out[i].ids)
  }

  // Candidate j went to group owner[j]; a leader's absorbed ids belong to candidates that absorbed nothing.
  ghost predicate Owned(cands: seq<Cand>, out: seq<Wide>, used: seq<bool>, owner: seq<nat>, absorbed: seq<seq<nat>>)
  {
    && |used| == |owner| == |absorbed| == |cands|
    && (forall j ::
       0 <= j < |cands| && used[j] ==> owner[j] < |out| && forall id :: id in cands[j].ids ==> id in out[owner[j]].ids)
    && (forall g, id ::
       0 <= g < |out| && id in out[g].ids ==> exists j ::
         0 <= j < |cands| && used[j] && owner[j] == g && id in cands[j].ids)
    && (forall j :: 0 <= j < |cands| ==> NoRepeats(cands[j].ids + absorbed[j]) && (!used[j] ==> absorbed[j] == []))
    && (forall j, id ::
       0 <= j < |cands| && id in absorbed[j] ==> exists k ::
         0 <= k < |cands| && k != j && used[k] && absorbed[k] == [] && id in cands[k].ids)
  }

  lemma CandsApart(samples: seq<seq<Entry>>, cands: seq<Cand>)
    requires CandsOK(samples, cands)
    ensures Apart(IdsOf(cands))
  {
  }

  datatype Widening = Widening(out: seq<Wide>, used: seq<bool>, absorbed: seq<seq<nat>>)

  // The group candidate i leads, when no earlier one took it in.
  function Widened(cands: seq<Cand>, lim: Limits, st: Widening, i: nat): (r: Widening)
    requires i < |cands| == |st.used| == |st.absorbed|
    ensures |r.used| == |r.absorbed| == |cands|
  {
    if st.used[i] then st else
      var used := st.used[i := true]; var g := GrownTo(cands, i, used, lim, |cands|);
      Widening(st.out + [Wide(SortIds(cands[i].ids + g.ids), g.inter)],
               seq(|cands|, j requires 0 <= j < |cands| => used[j] || Joins(cands, i, used, lim, j)),
                 st.absorbed[i := g.ids])
  }

  // The widening after the first i candidates.
  function WidenedTo(cands: seq<Cand>, lim: Limits, i: nat): (r: Widening)
    requires i <= |cands|
    ensures |r.used| == |r.absorbed| == |cands|
  {
    if i == 0 then Widening([], seq(|cands|, j => false), seq(|cands|, j => []))
      else Widened(cands, lim, WidenedTo(cands, lim, i - 1), i - 1)
  }

  method GrowGroup(cands: seq<Cand>, i: nat, ghost out: seq<Wide>, used: seq<bool>, ghost absorbed: seq<seq<nat>>,
                   lim: Limits, ghost samples: seq<seq<Entry>>, ghost owner: seq<nat>)
    returns (w: Wide, more: seq<nat>, used': seq<bool>, ghost owner': seq<nat>)
    requires CandsOK(samples, cands) && lim.n == |samples| > 0 && i < |cands| == |used| == |owner| == |absorbed|
    requires !used[i]
    requires Owned(cands, out, used, owner, absorbed)
    ensures |used'| == |owner'| == |cands| && used'[i] && (forall j :: 0 <= j < |used| && used[j] ==> used'[j])
    ensures Owned(cands, out + [w], used', owner', absorbed[i := more]) && WideOK(samples, w, lim.maxPartial)
    ensures Widening(out + [w], used', absorbed[i := more]) == Widened(cands, lim, Widening(out, used, absorbed), i)
  {
    hide WideOK, Owned, SortIds, Apart, NoRepeats, CandOK, HoldAll, Partial, GrownTo, Joins;
    var inter;
    more, inter, used' := Absorb(cands, i, used[i := true], lim);
    GrowthMeans(samples, cands, i, used[i := true], lim, |cands|);
    JoinedUsed(cands, i, used[i := true], lim, used');
    w := Wide(SortIds(cands[i].ids + more), inter);
    WidenedOK(samples, cands[i], more, inter, lim.maxPartial);
    owner' := Reowned(owner, used, used', |out|);
    TakeGroup(cands, out, used, owner, absorbed, i, more, used', owner', inter);
  }

  // Greedy from the highest-ranked candidate down; each absorbed pattern leaves the pool.
  method MergeNearPatterns(cands: seq<Cand>, lim: Limits, ghost samples: seq<seq<Entry>>)
    returns (out: seq<Wide>, absorbed: seq<seq<nat>>)
    requires CandsOK(samples, cands) && lim.n == |samples| > 0
    ensures out == WidenedTo(cands, lim, |cands|).out && absorbed == WidenedTo(cands, lim, |cands|).absorbed
    ensures forall g :: 0 <= g < |out| ==> WideOK(samples, out[g], lim.maxPartial)
    ensures Apart(WideIds(out)) && forall id :: Somewhere(WideIds(out), id) <==> Somewhere(IdsOf(cands), id)
    ensures |absorbed| == |cands| && forall j :: 0 <= j < |cands| ==> NoRepeats(cands[j].ids + absorbed[j])
    ensures forall j, id ::
      0 <= j < |cands| && id in absorbed[j] ==> exists k ::
        0 <= k < |cands| && k != j && absorbed[k] == [] && id in cands[k].ids
  {
    hide CandsOK, WideOK, Owned, SortIds, Apart, NoRepeats, Widened;
    CandsApart(samples, cands);
    out := [];
    var used := seq(|cands|, j => false);
    absorbed := seq(|cands|, j => []);
    ghost var owner := seq(|cands|, j => 0);
    Unowned(samples, cands);
    var i := 0;
    while i < |cands|
      invariant 0 <= i <= |cands| && |used| == |cands| && |absorbed| == |cands| && (forall j :: 0 <= j < i ==> used[j])
      invariant |owner| == |cands| && Owned(cands, out, used, owner, absorbed) && forall g ::
        0 <= g < |out| ==> WideOK(samples, out[g], lim.maxPartial)
      invariant Widening(out, used, absorbed) == WidenedTo(cands, lim, i)
    {
      if !used[i] {
        var w, more;
        w, more, used, owner := GrowGroup(cands, i, out, used, absorbed, lim, samples, owner);
        out, absorbed := out + [w], absorbed[i := more];
      } else {
        AlreadyTaken(cands, lim, Widening(out, used, absorbed), i);
      }
      i := i + 1;
    }
    OwnedApart(cands, out, used, owner, absorbed);
    OwnedFacts(cands, out, used, owner, absorbed);
  }

  lemma AlreadyTaken(cands: seq<Cand>, lim: Limits, st: Widening, i: nat)
    requires i < |cands| == |st.used| == |st.absorbed| && st.used[i]
    ensures Widened(cands, lim, st, i) == st
  {
  }

  lemma OwnedFacts(cands: seq<Cand>, out: seq<Wide>, used: seq<bool>, owner: seq<nat>, absorbed: seq<seq<nat>>)
    requires Owned(cands, out, used, owner, absorbed)
    ensures |absorbed| == |cands| && forall j :: 0 <= j < |cands| ==> NoRepeats(cands[j].ids + absorbed[j])
    ensures forall j, id ::
      0 <= j < |cands| && id in absorbed[j] ==> exists k ::
        0 <= k < |cands| && k != j && absorbed[k] == [] && id in cands[k].ids
  {
    hide NoRepeats;
  }

  ghost function Reowned(owner: seq<nat>, used: seq<bool>, used': seq<bool>, g: nat): (r: seq<nat>)
    requires |owner| == |used| == |used'|
    ensures |r| == |owner| && forall j :: 0 <= j < |r| ==> r[j] == if used'[j] && !used[j] then g else owner[j]
  {
    seq(|owner|, j requires 0 <= j < |owner| => if used'[j] && !used[j] then g else owner[j])
  }

  lemma Unowned(samples: seq<seq<Entry>>, cands: seq<Cand>)
    requires CandsOK(samples, cands)
    ensures Owned(cands, [], seq(|cands|, j => false), seq(|cands|, j => 0), seq(|cands|, j => []))
  {
    forall j | 0 <= j < |cands|
      ensures NoRepeats(cands[j].ids + [])
    {
      assert CandOK(samples, cands[j]);
      assert cands[j].ids + [] == cands[j].ids;
    }
  }

  lemma WidenedOK(samples: seq<seq<Entry>>, c: Cand, more: seq<nat>, inter: set<nat>, maxPartial: real)
    requires CandOK(samples, c) && NoRepeats(c.ids + more) && inter == HoldAll(samples, c.ids + more)
    requires Partial(samples, c.ids + more) == 0 ||
      Partial(samples, c.ids + more) as real <= maxPartial * |samples| as real
    ensures WideOK(samples, Wide(SortIds(c.ids + more), inter), maxPartial)
  {
    hide HoldAll, HoldSome, SortIds;
    SortIdsSorts(c.ids + more);
    HoldSame(samples, SortIds(c.ids + more), c.ids + more);
  }

  lemma TakeGroup(cands: seq<Cand>, out: seq<Wide>, used: seq<bool>, owner: seq<nat>, absorbed: seq<seq<nat>>, i: nat,
                  more: seq<nat>, used': seq<bool>, owner': seq<nat>, inter: set<nat>)
    requires |used| == |owner| == |absorbed| == |cands| && Owned(cands, out, used, owner, absorbed) && i < |cands|
    requires !used[i] && NoRepeats(cands[i].ids + more)
    requires |used'| == |used| && (forall j :: 0 <= j < |used| && used[j] ==> used'[j]) && used'[i]
    requires owner' == Reowned(owner, used, used', |out|)
    requires forall id ::
      id in more <==> exists j :: 0 <= j < |cands| && used'[j] && !used[i := true][j] && id in cands[j].ids
    ensures Owned(cands, out + [Wide(SortIds(cands[i].ids + more), inter)], used', owner', absorbed[i := more])
  {
    hide SortIds;
    SortIdsSorts(cands[i].ids + more);
    var w := Wide(SortIds(cands[i].ids + more), inter);
    var out', absorbed' := out + [w], absorbed[i := more];
    forall j | 0 <= j < |cands| && used'[j]
      ensures owner'[j] < |out'| && forall id :: id in cands[j].ids ==> id in out'[owner'[j]].ids
    {
      if !used[j] {
        forall id | id in cands[j].ids ensures id in w.ids { assert id in cands[i].ids + more; }
      }
    }
    forall g, id | 0 <= g < |out'| && id in out'[g].ids
      ensures exists j :: 0 <= j < |cands| && used'[j] && owner'[j] == g && id in cands[j].ids
    {
      if g < |out| {
        var j :| 0 <= j < |cands| && used[j] && owner[j] == g && id in cands[j].ids;
        assert used'[j] && owner'[j] == g;
      } else {
        assert id in cands[i].ids + more;
        if id in cands[i].ids { assert owner'[i] == g; }
      }
    }
    forall j, id | 0 <= j < |cands| && id in absorbed'[j]
      ensures exists k :: 0 <= k < |cands| && k != j && used'[k] && absorbed'[k] == [] && id in cands[k].ids
    {
      if j == i {
        var k :| 0 <= k < |cands| && used'[k] && !used[i := true][k] && id in cands[k].ids;
        assert k != i && !used[k] && absorbed[k] == [];
      } else {
        var k :| 0 <= k < |cands| && k != j && used[k] && absorbed[k] == [] && id in cands[k].ids;
        assert k != i;
      }
    }
  }

  lemma OwnedApart(cands: seq<Cand>, out: seq<Wide>, used: seq<bool>, owner: seq<nat>, absorbed: seq<seq<nat>>)
    requires |used| == |cands| && Owned(cands, out, used, owner, absorbed) && Apart(IdsOf(cands))
    requires forall j :: 0 <= j < |cands| ==> used[j]
    ensures Apart(WideIds(out)) && forall id :: Somewhere(WideIds(out), id) <==> Somewhere(IdsOf(cands), id)
  {
    var lists, groups := IdsOf(cands), WideIds(out);
    forall g, h, id | 0 <= g < |groups| && 0 <= h < |groups| && id in groups[g] && id in groups[h] ensures g == h {
      var j :| 0 <= j < |cands| && used[j] && owner[j] == g && id in cands[j].ids;
      var k :| 0 <= k < |cands| && used[k] && owner[k] == h && id in cands[k].ids;
      assert id in lists[j] && id in lists[k];
    }
    forall id ensures Somewhere(groups, id) <==> Somewhere(lists, id) {
      if j :| 0 <= j < |lists| && id in lists[j] { assert id in groups[owner[j]]; }
      if g :| 0 <= g < |groups| && id in groups[g] {
        var j :| 0 <= j < |cands| && used[j] && owner[j] == g && id in cands[j].ids;
        assert id in lists[j];
      }
    }
  }

  // ---------------------------------------------------------------- what is left when the widening is not adopted

  // The exact candidates as they read afterwards.
  function After(cands: seq<Cand>, absorbed: seq<seq<nat>>): (r: seq<seq<nat>>)
    requires |absorbed| == |cands|
    ensures |r| == |cands| && forall j ::
      0 <= j < |cands| ==> r[j] == AfterAppend(cands[j].ids, cands[j].cap, absorbed[j])
  {
    seq(|cands|, j requires 0 <= j < |cands| => AfterAppend(cands[j].ids, cands[j].cap, absorbed[j]))
  }

  // Widening sorts in the candidates' own arrays, so falling back to them gives disjoint groups exactly when
  // no candidate took in, within its capacity, an id smaller than one of its own.
  lemma FallbackApartExactly(samples: seq<seq<Entry>>, cands: seq<Cand>, absorbed: seq<seq<nat>>)
    requires CandsOK(samples, cands) && |absorbed| == |cands|
    requires forall j :: 0 <= j < |cands| ==> NoRepeats(cands[j].ids + absorbed[j])
    requires forall j, id ::
      0 <= j < |cands| && id in absorbed[j] ==> exists k ::
        0 <= k < |cands| && k != j && absorbed[k] == [] && id in cands[k].ids
    ensures Apart(After(cands, absorbed)) <==>
      forall j :: 0 <= j < |cands| ==> Undisturbed(cands[j].ids, cands[j].cap, absorbed[j])
  {
    hide AfterAppend, Undisturbed, CandOK;
    var after, lists := After(cands, absorbed), IdsOf(cands);
    forall j | 0 <= j < |cands|
      ensures after[j] == cands[j].ids <==> Undisturbed(cands[j].ids, cands[j].cap, absorbed[j])
      ensures !Undisturbed(cands[j].ids, cands[j].cap, absorbed[j]) ==> exists a :: a in absorbed[j] && a in after[j]
      ensures absorbed[j] == [] ==> after[j] == cands[j].ids
    {
      CandSorted(samples, cands[j]);
      AfterExactly(cands[j].ids, cands[j].cap, absorbed[j]);
      NothingAbsorbed(cands[j].ids, cands[j].cap);
    }
    if forall j :: 0 <= j < |cands| ==> Undisturbed(cands[j].ids, cands[j].cap, absorbed[j]) {
      assert after == lists;
    } else {
      var j :| 0 <= j < |cands| && !Undisturbed(cands[j].ids, cands[j].cap, absorbed[j]);
      var a :| a in absorbed[j] && a in after[j];
      var k :| 0 <= k < |cands| && k != j && absorbed[k] == [] && a in cands[k].ids;
      assert a in after[k];
    }
  }

  lemma CandSorted(samples: seq<seq<Entry>>, c: Cand)
    requires CandOK(samples, c)
    ensures Increasing(c.ids)
  {
  }

  lemma NothingAbsorbed(ids: seq<nat>, cap: nat)
    ensures AfterAppend(ids, cap, []) == ids
  {
  }

  // Three ids in a slice of four, one smaller id absorbed: the candidate loses its last id to it.
  lemma SpoiledCandidate()
    ensures AfterAppend([5, 7, 9], 4, [1]) == [1, 5, 7] && SortIds([5, 7, 9] + [1]) == [1, 5, 7, 9]
  {
    hide SortIds, InsertId;
    SortStep([], 5);
    SortStep([5], 7);
    SortStep([5, 7], 9);
    SortStep([5, 7, 9], 1);
    InsertStep([], 5, 1);
    InsertStep([5], 7, 1);
    InsertStep([5, 7], 9, 1);
    InsertTail([], 1);
    InsertTail([], 5);
    InsertTail([5], 7);
    InsertTail([5, 7], 9);
    assert SortIds([]) == [];
    assert [] + [5] == [5] && [5] + [7] == [5, 7] && [5, 7] + [9] == [5, 7, 9] && [5, 7, 9] + [1] == [5, 7, 9, 1];
  }

  lemma SortStep(s: seq<nat>, x: nat)
    ensures SortIds(s + [x]) == InsertId(SortIds(s), x)
  {
    assert (s + [x])[..|s|] == s;
  }

  lemma InsertStep(s: seq<nat>, y: nat, x: nat)
    requires x <= y
    ensures InsertId(s + [y], x) == InsertId(s, x) + [y]
  {
    assert (s + [y])[..|s|] == s;
  }

  lemma InsertTail(s: seq<nat>, x: nat)
    requires s == [] || s[|s| - 1] < x
    ensures InsertId(s, x) == s + [x]
  {
  }

  // ---------------------------------------------------------------- from a sample to groups

  // Which sampled ads carry each attribute the base schema does not.
  method Presence(samples: seq<seq<Entry>>, base: set<nat>) returns (present: map<nat, set<nat>>)
    ensures forall id :: id in present <==> id !in base && Pattern(samples, id) != {}
    ensures forall id :: id in present ==> present[id] == Pattern(samples, id)
  {
    present := map[];
    var i := 0;
    while i < |samples|
      invariant 0 <= i <= |samples| && PresentTo(present, samples, base, i, 0)
    {
      var j := 0;
      while j < |samples[i]|
        invariant 0 <= j <= |samples[i]| && PresentTo(present, samples, base, i, j)
      {
        var id := samples[i][j].id;
        if id !in base {
          PresentStep(present, samples, base, i, j);
          present := present[id := (if id in present then present[id] else {}) + {i}];
        } else {
          PresentSkip(present, samples, base, i, j);
        }
        j := j + 1;
      }
      PresentNext(present, samples, base, i);
      i := i + 1;
    }
    forall id ensures Seen(samples, id, |samples|, 0) == Pattern(samples, id) { SeenAll(samples, id); }
  }

  // The ads before i, and i itself if one of its first j entries is the attribute.
  ghost function Seen(samples: seq<seq<Entry>>, id: nat, i: nat, j: nat): set<nat>
    requires i <= |samples| && (i < |samples| ==> j <= |samples[i]|)
  {
    set k: nat | k < |samples| &&
      ((k < i && HasAttr(samples[k], id)) ||
        (k == i && exists a :: 0 <= a < j && a < |samples[i]| && samples[i][a].id == id))
  }

  ghost predicate PresentTo(present: map<nat, set<nat>>, samples: seq<seq<Entry>>, base: set<nat>, i: nat, j: nat)
    requires i <= |samples| && (i < |samples| ==> j <= |samples[i]|)
  {
    && (forall id {:trigger id in present} :: id in present <==> id !in base && Seen(samples, id, i, j) != {})
    && (forall id {:trigger present[id]} :: id in present ==> present[id] == Seen(samples, id, i, j))
  }

  lemma SeenStep(samples: seq<seq<Entry>>, id: nat, i: nat, j: nat)
    requires i < |samples| && j < |samples[i]|
    ensures Seen(samples, id, i, j + 1) == Seen(samples, id, i, j) + if samples[i][j].id == id then {i} else {}
  {
    hide HasAttr;
  }

  lemma PresentStep(present: map<nat, set<nat>>, samples: seq<seq<Entry>>, base: set<nat>, i: nat, j: nat)
    requires i < |samples| && j < |samples[i]| && PresentTo(present, samples, base, i, j) && samples[i][j].id !in base
    ensures var id := samples[i][j].id;
      PresentTo(present[id := (if id in present then present[id] else {}) + {i}], samples, base, i, j + 1)
  {
    hide Seen;
    forall x
      ensures Seen(samples, x, i, j + 1) == Seen(samples, x, i, j) + if samples[i][j].id == x then {i} else {}
    {
      SeenStep(samples, x, i, j);
    }
  }

  lemma PresentSkip(present: map<nat, set<nat>>, samples: seq<seq<Entry>>, base: set<nat>, i: nat, j: nat)
    requires i < |samples| && j < |samples[i]| && PresentTo(present, samples, base, i, j) && samples[i][j].id in base
    ensures PresentTo(present, samples, base, i, j + 1)
  {
    hide Seen;
    forall x
      ensures Seen(samples, x, i, j + 1) == Seen(samples, x, i, j) + if samples[i][j].id == x then {i} else {}
    {
      SeenStep(samples, x, i, j);
    }
  }

  lemma PresentNext(present: map<nat, set<nat>>, samples: seq<seq<Entry>>, base: set<nat>, i: nat)
    requires i < |samples| && PresentTo(present, samples, base, i, |samples[i]|)
    ensures PresentTo(present, samples, base, i + 1, 0)
  {
    forall x ensures Seen(samples, x, i + 1, 0) == Seen(samples, x, i, |samples[i]|) { SeenRow(samples, x, i); }
  }

  lemma SeenRow(samples: seq<seq<Entry>>, id: nat, i: nat)
    requires i < |samples|
    ensures Seen(samples, id, i + 1, 0) == Seen(samples, id, i, |samples[i]|)
  {
    assert HasAttr(samples[i], id) <==> exists a :: 0 <= a < |samples[i]| && samples[i][a].id == id;
  }

  lemma SeenAll(samples: seq<seq<Entry>>, id: nat)
    ensures Seen(samples, id, |samples|, 0) == Pattern(samples, id)
  {
  }

  function Kept(ids: seq<nat>, storable: nat -> bool): (r: seq<nat>)
    ensures forall id :: id in r ==> id in ids && storable(id)
  {
    if ids == [] then []
    else if storable(ids[|ids| - 1]) then Kept(ids[..|ids| - 1], storable) + [ids[|ids| - 1]]
    else Kept(ids[..|ids| - 1], storable)
  }

  // ---------------------------------------------------------------- ranking

  // What a group would make columnar.
  function Cells(w: Wide): (n: nat) { |w.ids| * |w.pat| }

  function First(w: Wide): (id: nat) { if w.ids == [] then 0 else w.ids[0] }

  // More cells first, then more members, then the lower first id.
  predicate Ahead(a: Wide, b: Wide)
  {
    if Cells(a) != Cells(b) then Cells(a) > Cells(b)
    else if |a.ids| != |b.ids| then |a.ids| > |b.ids|
    else First(a) < First(b)
  }

  lemma AheadOrder(a: Wide, b: Wide, c: Wide)
    ensures !Ahead(b, a) && !Ahead(c, b) ==> !Ahead(c, a)
    ensures Ahead(a, b) ==> !Ahead(b, a)
  {
    hide Cells, First;
  }

  function RankInsert(s: seq<Wide>, w: Wide): (r: seq<Wide>)
    ensures |r| == |s| + 1
  {
    if s == [] || !Ahead(w, s[|s| - 1]) then s + [w] else RankInsert(s[..|s| - 1], w) + [s[|s| - 1]]
  }

  function Rank(s: seq<Wide>): (r: seq<Wide>)
    ensures |r| == |s|
  {
    if s == [] then [] else RankInsert(Rank(s[..|s| - 1]), s[|s| - 1])
  }

  ghost predicate RankedDown(s: seq<Wide>) { forall i, j :: 0 <= i < j < |s| ==> !Ahead(s[j], s[i]) }

  lemma {:induction false} RankInsertMember(s: seq<Wide>, w: Wide, x: Wide)
    ensures x in RankInsert(s, w) <==> x in s || x == w
    decreases |s|
  {
    hide Ahead;
    if s != [] {
      RankInsertMember(s[..|s| - 1], w, x);
      assert s == s[..|s| - 1] + [s[|s| - 1]];
    }
  }

  lemma {:induction false} RankInsertDown(s: seq<Wide>, w: Wide)
    requires RankedDown(s)
    ensures RankedDown(RankInsert(s, w))
    decreases |s|
  {
    hide Ahead;
    if s != [] {
      var n := |s| - 1;
      var l := s[n];
      AheadOrder(w, l, l);
      if Ahead(w, l) {
        RankInsertDown(s[..n], w);
        var r := RankInsert(s[..n], w);
        forall i | 0 <= i < |r| ensures !Ahead(l, r[i]) {
          RankInsertMember(s[..n], w, r[i]);
          if r[i] in s[..n] { var j :| 0 <= j < n && s[j] == r[i]; }
        }
      } else {
        forall i | 0 <= i <= n ensures !Ahead(w, s[i]) { AheadOrder(s[i], l, w); }
      }
    }
  }

  // Two lists that share no id stay apart however they are inserted.
  lemma {:induction false} RankInsertApart(s: seq<Wide>, w: Wide)
    requires Apart(WideIds(s + [w]))
    ensures Apart(WideIds(RankInsert(s, w)))
    decreases |s|
  {
    hide Ahead;
    if s != [] && Ahead(w, s[|s| - 1]) {
      var n := |s| - 1;
      var l, r := s[n], RankInsert(s[..n], w);
      var all := WideIds(s + [w]);
      var part := WideIds(s[..n] + [w]);
      forall i, j, id | 0 <= i < |part| && 0 <= j < |part| && id in part[i] && id in part[j] ensures i == j {
        assert part[i] == all[if i < n then i else n + 1] && part[j] == all[if j < n then j else n + 1];
      }
      RankInsertApart(s[..n], w);
      forall i, id | 0 <= i < |r| && id in r[i].ids ensures id !in l.ids {
        RankInsertMember(s[..n], w, r[i]);
        if r[i] in s[..n] {
          var k :| 0 <= k < n && s[k] == r[i];
          assert all[k] == r[i].ids && all[n] == l.ids;
        } else {
          assert all[n + 1] == r[i].ids && all[n] == l.ids;
        }
      }
      SnocApart(r, l);
    }
  }

  lemma SnocApart(r: seq<Wide>, l: Wide)
    requires Apart(WideIds(r)) && forall i, id :: 0 <= i < |r| && id in r[i].ids ==> id !in l.ids
    ensures Apart(WideIds(r + [l]))
  {
    var all, was := WideIds(r + [l]), WideIds(r);
    forall i, j, id | 0 <= i < |all| && 0 <= j < |all| && id in all[i] && id in all[j] ensures i == j {
      if i < |r| && j < |r| { assert id in was[i] && id in was[j]; }
    }
  }

  // Ranking permutes the groups and puts no group ahead of a better one.
  // No fewer cells; of as many, no fewer members; of as many, no later first member.
  ghost predicate NotBehind(a: Wide, b: Wide)
  {
    && |a.ids| * |a.pat| >= |b.ids| * |b.pat|
    && (|a.ids| * |a.pat| == |b.ids| * |b.pat| ==> |a.ids| >= |b.ids|)
    && (|a.ids| * |a.pat| == |b.ids| * |b.pat| && |a.ids| == |b.ids| && a.ids != [] && b.ids != [] ==>
          a.ids[0] <= b.ids[0])
  }

  lemma {:induction false} RankRanks(s: seq<Wide>)
    ensures RankedDown(Rank(s)) && forall x :: x in Rank(s) <==> x in s
    ensures Apart(WideIds(s)) ==> Apart(WideIds(Rank(s)))
    decreases |s|
  {
    hide RankInsert, Apart, RankedDown;
    if s == [] {
      assert RankedDown([]) by { RankedNone(); }
    } else {
      var n := |s| - 1;
      var r := Rank(s[..n]);
      RankRanks(s[..n]);
      RankInsertDown(r, s[n]);
      forall x ensures x in Rank(s) <==> x in s { RankInsertMember(r, s[n], x); assert s == s[..n] + [s[n]]; }
      if Apart(WideIds(s)) {
        LastApart(s, r);
        RankInsertApart(r, s[n]);
      }
    }
  }

  lemma RankOrder(s: seq<Wide>, i: nat, j: nat)
    requires i < j < |Rank(s)|
    ensures NotBehind(Rank(s)[i], Rank(s)[j])
  {
    hide Rank;
    RankRanks(s);
    assert !Ahead(Rank(s)[j], Rank(s)[i]);
  }

  lemma RankedNone()
    ensures RankedDown([])
  {
  }

  lemma LastApart(s: seq<Wide>, r: seq<Wide>)
    requires s != [] && Apart(WideIds(s)) && (Apart(WideIds(s[..|s| - 1])) ==> Apart(WideIds(r)))
    requires forall x :: x in r ==> x in s[..|s| - 1]
    ensures Apart(WideIds(r + [s[|s| - 1]])) && Apart(WideIds(s[..|s| - 1]))
  {
    var n, all := |s| - 1, WideIds(s);
    var part := WideIds(s[..n]);
    assert forall i :: 0 <= i < n ==> part[i] == all[i];
    forall i, id | 0 <= i < |r| && id in r[i].ids ensures id !in s[n].ids {
      assert r[i] in r && r[i] in s[..n];
      var k :| 0 <= k < n && s[..n][k] == r[i];
      assert id in all[k] && all[n] == s[n].ids;
    }
    SnocApart(r, s[n]);
  }

  // No group left out beats one taken.
  lemma TopIsBest(s: seq<Wide>, i: nat, j: nat)
    requires i < j < |s|
    ensures Cells(Rank(s)[i]) >= Cells(Rank(s)[j])
  {
    hide Rank, Cells;
    RankRanks(s);
  }

  // On its own a merge never gains: the ads holding everything are fewer than those holding either part.
  lemma MergeNeverGains(a: Wide, b: Wide)
    ensures Cells(Wide(a.ids + b.ids, a.pat * b.pat)) <= Cells(a) + Cells(b)
  {
    var i := |a.pat * b.pat|;
    SubsetSize(a.pat * b.pat, a.pat);
    SubsetSize(a.pat * b.pat, b.pat);
    MulMono(|a.ids|, i, |a.pat|);
    MulMono(|b.ids|, i, |b.pat|);
    assert |a.ids + b.ids| * i == |a.ids| * i + |b.ids| * i;
  }

  lemma MulMono(n: nat, x: nat, y: nat)
    requires x <= y
    ensures n * x <= n * y
  {
  }

  function TopCells(s: seq<Wide>, k: nat): (n: nat)
  {
    if k == 0 || s == [] then 0 else Cells(s[0]) + TopCells(s[1..], k - 1)
  }

  function AsWide(cands: seq<Cand>): (r: seq<Wide>)
    ensures |r| == |cands| && forall i :: 0 <= i < |r| ==> r[i] == Wide(cands[i].ids, cands[i].pat)
  {
    seq(|cands|, i requires 0 <= i < |cands| => Wide(cands[i].ids, cands[i].pat))
  }

  // The members of each group come from one list, in order, and no two groups from the same one.
  ghost predicate Drawn(groups: seq<seq<nat>>, lists: seq<seq<nat>>, src: seq<nat>)
  {
    && |src| == |groups| &&
       (forall g ::
         0 <= g < |src| ==> src[g] < |lists| && groups[g] != [] && forall id :: id in groups[g] ==> id in lists[src[g]])
    && (forall g, h :: 0 <= g < h < |src| ==> src[g] < src[h])
  }

  function KeptLists(lists: seq<seq<nat>>, storable: nat -> bool): (r: seq<seq<nat>>)
  {
    if lists == [] then [] else
      var ids := Kept(lists[|lists| - 1], storable);
      KeptLists(lists[..|lists| - 1], storable) + if ids == [] then [] else [ids]
  }

  function UpTo(lists: seq<seq<nat>>, k: nat): (r: seq<seq<nat>>) { if k < |lists| then lists[..k] else lists }

  // Keep the storable members of the first k lists, dropping a list none of whose members can be stored.
  method TakeTop(lists: seq<seq<nat>>, k: nat, storable: nat -> bool)
    returns (groups: seq<seq<nat>>, ghost src: seq<nat>)
    ensures Drawn(groups, lists, src) && |groups| <= k && groups == KeptLists(UpTo(lists, k), storable)
  {
    hide Drawn, Kept;
    groups, src := [], [];
    DrawnNone(lists);
    var n := if k < |lists| then k else |lists|;
    assert lists[..n] == UpTo(lists, k);
    for i := 0 to n
      invariant Drawn(groups, lists, src) && |groups| <= i && forall g :: 0 <= g < |src| ==> src[g] < i
      invariant groups == KeptLists(lists[..i], storable)
    {
      assert lists[..i + 1][..i] == lists[..i];
      var ids := Kept(lists[i], storable);
      if ids != [] {
        DrawnSnoc(groups, lists, src, ids, i);
        groups, src := groups + [ids], src + [i];
      }
    }
  }

  lemma DrawnNone(lists: seq<seq<nat>>)
    ensures Drawn([], lists, [])
  {
  }

  lemma DrawnSnoc(groups: seq<seq<nat>>, lists: seq<seq<nat>>, src: seq<nat>, ids: seq<nat>, i: nat)
    requires Drawn(groups, lists, src) && i < |lists| && ids != [] && (forall id :: id in ids ==> id in lists[i])
    requires forall g :: 0 <= g < |src| ==> src[g] < i
    ensures Drawn(groups + [ids], lists, src + [i])
  {
  }

  lemma {:induction false} KeptIncreasing(ids: seq<nat>, storable: nat -> bool)
    requires Increasing(ids)
    ensures Increasing(Kept(ids, storable))
    decreases |ids|
  {
    if ids != [] {
      var n := |ids| - 1;
      KeptIncreasing(ids[..n], storable);
      forall i | 0 <= i < |Kept(ids[..n], storable)| ensures Kept(ids[..n], storable)[i] < ids[n] {
        assert Kept(ids[..n], storable)[i] in ids[..n];
      }
    }
  }

  // Lists in order give groups in order.
  lemma {:induction false} KeptListsIncreasing(lists: seq<seq<nat>>, storable: nat -> bool)
    requires forall i :: 0 <= i < |lists| ==> Increasing(lists[i])
    ensures forall g :: 0 <= g < |KeptLists(lists, storable)| ==> Increasing(KeptLists(lists, storable)[g])
    decreases |lists|
  {
    if lists != [] {
      hide Increasing, Kept;
      KeptListsIncreasing(lists[..|lists| - 1], storable);
      KeptIncreasing(lists[|lists| - 1], storable);
    }
  }

  lemma TopIncreasing(lists: seq<seq<nat>>, k: nat, storable: nat -> bool)
    requires forall i :: 0 <= i < |lists| ==> Increasing(lists[i])
    ensures forall g ::
      0 <= g < |KeptLists(UpTo(lists, k), storable)| ==> Increasing(KeptLists(UpTo(lists, k), storable)[g])
  {
    hide Increasing, KeptLists;
    KeptListsIncreasing(UpTo(lists, k), storable);
  }

  lemma {:induction false} KeptAll(ids: seq<nat>, storable: nat -> bool)
    requires forall id :: id in ids ==> storable(id)
    ensures Kept(ids, storable) == ids
    decreases |ids|
  {
    if ids != [] {
      var n := |ids| - 1;
      KeptAll(ids[..n], storable);
      assert ids == ids[..n] + [ids[n]];
    }
  }

  lemma {:induction false} KeptListsAll(lists: seq<seq<nat>>, storable: nat -> bool)
    requires forall i, id :: 0 <= i < |lists| && id in lists[i] ==> storable(id)
    requires forall i :: 0 <= i < |lists| ==> lists[i] != []
    ensures KeptLists(lists, storable) == lists
    decreases |lists|
  {
    if lists != [] {
      hide Kept;
      var n := |lists| - 1;
      assert lists == lists[..n] + [lists[n]];
      KeptListsAll(lists[..n], storable);
      KeptAll(lists[n], storable);
    }
  }

  lemma DrawnApart(groups: seq<seq<nat>>, lists: seq<seq<nat>>, src: seq<nat>)
    requires Drawn(groups, lists, src) && Apart(lists)
    ensures Apart(groups)
  {
    forall g, h, id | 0 <= g < |groups| && 0 <= h < |groups| && id in groups[g] && id in groups[h] ensures g == h {
      assert id in lists[src[g]] && id in lists[src[h]];
    }
  }

  // Derive up to k groups from ranked candidates. The widening is adopted exactly when its best k cover more
  // cells than the candidates' best k. Adopted widenings are disjoint with partial holders under the ceiling;
  // the exact candidates are disjoint and without partial holders, unless a widening that was not adopted
  // disturbed their slices.
  method DeriveGroups(cands: seq<Cand>, k: nat, lim: Limits, storable: nat -> bool, ghost samples: seq<seq<Entry>>)
    returns (groups: seq<seq<nat>>, adopted: bool, absorbed: seq<seq<nat>>)
    requires CandsOK(samples, cands) && lim.n == |samples| > 0
    ensures absorbed == if lim.minJaccard > 0.0 then WidenedTo(cands, lim, |cands|).absorbed else seq(|cands|, j => [])
    ensures var out := Rank(WidenedTo(cands, lim, |cands|).out);
      && (adopted <==> lim.minJaccard > 0.0 && out != [] && TopCells(out, k) > TopCells(AsWide(cands), k))
      && groups == KeptLists(UpTo(if adopted then WideIds(out) else After(cands, absorbed), k), storable)
    ensures |groups| <= k && forall g, id :: 0 <= g < |groups| && id in groups[g] ==> Somewhere(IdsOf(cands), id)
    ensures forall g :: 0 <= g < |groups| ==> groups[g] != [] && Increasing(groups[g])
    ensures !adopted && |cands| <= k && (forall id :: Somewhere(IdsOf(cands), id) ==> storable(id)) ==>
      (Apart(groups) <==> forall j :: 0 <= j < |cands| ==> Undisturbed(cands[j].ids, cands[j].cap, absorbed[j]))
    ensures adopted || (forall j :: 0 <= j < |cands| ==> Undisturbed(cands[j].ids, cands[j].cap, absorbed[j])) ==>
      Apart(groups)
    ensures adopted ==> forall g ::
      0 <= g < |groups| ==>
        Partial(samples, groups[g]) == 0 || Partial(samples, groups[g]) as real <= lim.maxPartial * lim.n as real
    ensures !adopted && (forall j :: 0 <= j < |cands| ==> Undisturbed(cands[j].ids, cands[j].cap, absorbed[j])) ==>
      forall g :: 0 <= g < |groups| ==> Partial(samples, groups[g]) == 0
  {
    hide CandsOK, Apart, Undisturbed, AfterAppend, Partial, NoRepeats, Rank, RankedDown, WidenedTo, TopCells, KeptLists,
      UpTo, WideOK;
    adopted, absorbed := false, seq(|cands|, j => []);
    ghost var src;
    CandsApart(samples, cands);
    NotWidened(samples, cands);
    if lim.minJaccard > 0.0 {
      var out;
      out, absorbed := MergeNearPatterns(cands, lim, samples);
      RankRanks(out);
      var ranked := Rank(out);
      if |ranked| > 0 && TopCells(ranked, k) > TopCells(AsWide(cands), k) {
        adopted := true;
        groups, src := TakeTop(WideIds(ranked), k, storable);
        DrawnApart(groups, WideIds(ranked), src);
        Adopted(samples, cands, out, ranked, groups, src, lim);
        forall i | 0 <= i < |ranked|
          ensures Increasing(ranked[i].ids)
        {
          WideSorted(samples, out, ranked[i], lim.maxPartial);
        }
        TopIncreasing(WideIds(ranked), k, storable);
        return;
      }
    }
    var lists := After(cands, absorbed);
    groups, src := TakeTop(lists, k, storable);
    Fallback(samples, cands, absorbed, lists, groups, src);
    forall j | 0 <= j < |lists| ensures Increasing(lists[j]) { AfterSorted(samples, cands, absorbed, j); }
    TopIncreasing(lists, k, storable);
    if |cands| <= k && forall id :: Somewhere(IdsOf(cands), id) ==> storable(id) {
      AllStorable(samples, cands, absorbed, k, storable);
      FallbackApartExactly(samples, cands, absorbed);
    }
  }

  lemma WideSorted(samples: seq<seq<Entry>>, out: seq<Wide>, w: Wide, maxPartial: real)
    requires (forall g :: 0 <= g < |out| ==> WideOK(samples, out[g], maxPartial)) && w in out
    ensures Increasing(w.ids)
  {
    hide Partial, HoldAll;
    var g :| 0 <= g < |out| && out[g] == w;
    assert WideOK(samples, out[g], maxPartial);
  }

  lemma AfterSorted(samples: seq<seq<Entry>>, cands: seq<Cand>, absorbed: seq<seq<nat>>, j: nat)
    requires CandsOK(samples, cands) && |absorbed| == |cands| && j < |cands| && NoRepeats(cands[j].ids + absorbed[j])
    ensures Increasing(AfterAppend(cands[j].ids, cands[j].cap, absorbed[j]))
  {
    hide Pattern;
    SortIdsSorts(cands[j].ids + absorbed[j]);
    assert CandOK(samples, cands[j]);
  }

  // With every member storable the fallback lists are the groups.
  lemma AllStorable(samples: seq<seq<Entry>>, cands: seq<Cand>, absorbed: seq<seq<nat>>, k: nat, storable: nat -> bool)
    requires CandsOK(samples, cands) && |absorbed| == |cands| <= k
    requires forall j :: 0 <= j < |cands| ==> NoRepeats(cands[j].ids + absorbed[j])
    requires forall j, id ::
      0 <= j < |cands| && id in absorbed[j] ==> exists k ::
        0 <= k < |cands| && k != j && absorbed[k] == [] && id in cands[k].ids
    requires forall id :: Somewhere(IdsOf(cands), id) ==> storable(id)
    ensures KeptLists(UpTo(After(cands, absorbed), k), storable) == After(cands, absorbed)
  {
    hide KeptLists, AfterAppend, Pattern, NoRepeats, Undisturbed;
    var after, own := After(cands, absorbed), IdsOf(cands);
    forall j, id | 0 <= j < |after| && id in after[j] ensures storable(id) {
      CandSorted(samples, cands[j]);
      AfterExactly(cands[j].ids, cands[j].cap, absorbed[j]);
      if id in cands[j].ids {
        assert id in own[j];
      } else {
        var m :| 0 <= m < |cands| && m != j && absorbed[m] == [] && id in cands[m].ids;
        assert id in own[m];
      }
    }
    forall j | 0 <= j < |after|
      ensures after[j] != []
    {
      assert CandOK(samples, cands[j]) && |after[j]| == |cands[j].ids|;
    }
    KeptListsAll(after, storable);
  }

  lemma Adopted(samples: seq<seq<Entry>>, cands: seq<Cand>, out: seq<Wide>, ranked: seq<Wide>, groups: seq<seq<nat>>,
                src: seq<nat>, lim: Limits)
    requires (forall g :: 0 <= g < |out| ==> WideOK(samples, out[g], lim.maxPartial))
    requires (forall x :: x in ranked ==> x in out) && lim.n == |samples|
    requires Drawn(groups, WideIds(ranked), src)
    requires forall id :: Somewhere(WideIds(out), id) ==> Somewhere(IdsOf(cands), id)
    ensures forall g ::
      0 <= g < |groups| ==>
        Partial(samples, groups[g]) == 0 || Partial(samples, groups[g]) as real <= lim.maxPartial * lim.n as real
    ensures forall g, id :: 0 <= g < |groups| && id in groups[g] ==> Somewhere(IdsOf(cands), id)
  {
    hide Partial, WideOK;
    forall g | 0 <= g < |groups|
      ensures Partial(samples, groups[g]) == 0 || Partial(samples, groups[g]) as real <= lim.maxPartial * lim.n as real
      ensures forall id :: id in groups[g] ==> Somewhere(IdsOf(cands), id)
    {
      var w := ranked[src[g]];
      assert w in ranked;
      var o :| 0 <= o < |out| && out[o] == w;
      WidePartial(samples, w, groups[g], lim.maxPartial);
      forall id | id in groups[g] ensures Somewhere(IdsOf(cands), id) { assert id in WideIds(out)[o]; }
    }
  }

  lemma NotWidened(samples: seq<seq<Entry>>, cands: seq<Cand>)
    requires CandsOK(samples, cands)
    ensures forall j ::
      0 <= j < |cands| ==> NoRepeats(cands[j].ids + []) && AfterAppend(cands[j].ids, cands[j].cap, []) == cands[j].ids
  {
    forall j | 0 <= j < |cands| ensures NoRepeats(cands[j].ids + []) {
      assert CandOK(samples, cands[j]) && cands[j].ids + [] == cands[j].ids;
    }
  }

  // Attributes with identical presence, one list a pattern.
  method ByPattern(present: map<nat, set<nat>>) returns (lists: map<set<nat>, seq<nat>>)
    ensures forall p ::
      p in lists ==> lists[p] != [] && NoRepeats(lists[p]) && forall id ::
        id in lists[p] ==> id in present && present[id] == p
    ensures forall id :: id in present ==> present[id] in lists && id in lists[present[id]]
  {
    lists := map[];
    var rest := present.Keys;
    while rest != {}
      invariant rest <= present.Keys
      invariant forall p ::
        p in lists ==> lists[p] != [] && NoRepeats(lists[p]) && forall id ::
          id in lists[p] ==> id in present && id !in rest && present[id] == p
      invariant forall id :: id in present && id !in rest ==> present[id] in lists && id in lists[present[id]]
      decreases rest
    {
      var id :| id in rest;
      var p := present[id];
      lists := lists[p := (if p in lists then lists[p] else []) + [id]];
      rest := rest - {id};
    }
  }

  // The exact candidates: every attribute outside the base schema, once, with those of its own presence.
  method ExactCandidates(samples: seq<seq<Entry>>, base: set<nat>, growCap: nat -> nat) returns (cands: seq<Cand>)
    requires forall n: nat {:trigger growCap(n)} :: growCap(n) >= n
    ensures CandsOK(samples, cands)
    ensures forall id :: Somewhere(IdsOf(cands), id) <==> id !in base && Pattern(samples, id) != {}
  {
    hide Pattern, Made;
    var present := Presence(samples, base);
    var lists := ByPattern(present);
    cands := [];
    var rest := lists.Keys;
    NothingMade(lists);
    while rest != {}
      invariant rest <= lists.Keys && Made(cands, lists, rest)
      decreases rest
    {
      var p :| p in rest;
      MakeOne(cands, lists, rest, p, growCap(|lists[p]|));
      cands := cands + [Cand(SortIds(lists[p]), growCap(|lists[p]|), p)];
      rest := rest - {p};
    }
    AllMade(samples, present, lists, cands);
  }

  // One candidate for each pattern taken so far, its ids the pattern's own, sorted.
  ghost predicate Made(cands: seq<Cand>, lists: map<set<nat>, seq<nat>>, rest: set<set<nat>>)
  {
    && (forall i ::
       0 <= i < |cands| ==>
         cands[i].pat in lists && cands[i].pat !in rest && cands[i].ids == SortIds(lists[cands[i].pat]) &&
           |cands[i].ids| <= cands[i].cap)
    && (forall i, j :: 0 <= i < j < |cands| ==> cands[i].pat != cands[j].pat)
    && forall p :: p in lists && p !in rest ==> exists i :: 0 <= i < |cands| && cands[i].pat == p
  }

  lemma NothingMade(lists: map<set<nat>, seq<nat>>)
    ensures Made([], lists, lists.Keys)
  {
  }

  lemma MakeOne(cands: seq<Cand>, lists: map<set<nat>, seq<nat>>, rest: set<set<nat>>, p: set<nat>, cap: nat)
    requires Made(cands, lists, rest) && p in rest && p in lists && |lists[p]| <= cap
    ensures Made(cands + [Cand(SortIds(lists[p]), cap, p)], lists, rest - {p})
  {
    hide SortIds;
    var now := cands + [Cand(SortIds(lists[p]), cap, p)];
    forall q | q in lists && q !in rest - {p} ensures exists i :: 0 <= i < |now| && now[i].pat == q {
      if q == p {
        assert now[|cands|].pat == p;
      } else {
        var i :| 0 <= i < |cands| && cands[i].pat == q;
        assert now[i].pat == q;
      }
    }
  }

  lemma AllMade(samples: seq<seq<Entry>>, present: map<nat, set<nat>>, lists: map<set<nat>, seq<nat>>, cands: seq<Cand>)
    requires Made(cands, lists, {}) && forall id :: id in present ==> present[id] == Pattern(samples, id)
    requires forall p ::
      p in lists ==> lists[p] != [] && NoRepeats(lists[p]) && forall id ::
        id in lists[p] ==> id in present && present[id] == p
    requires forall id :: id in present ==> present[id] in lists && id in lists[present[id]]
    ensures CandsOK(samples, cands) && forall id :: Somewhere(IdsOf(cands), id) <==> id in present
  {
    hide Pattern, SortIds, NoRepeats;
    var own := IdsOf(cands);
    forall i | 0 <= i < |cands|
      ensures CandOK(samples, cands[i]) && forall id :: id in own[i] <==> id in lists[cands[i].pat]
    {
      SortIdsSorts(lists[cands[i].pat]);
    }
    forall i, j, id | 0 <= i < |own| && 0 <= j < |own| && id in own[i] && id in own[j] ensures i == j {
      assert present[id] == cands[i].pat && present[id] == cands[j].pat;
    }
    forall id ensures Somewhere(own, id) <==> id in present {
      if id in present {
        var i :| 0 <= i < |cands| && cands[i].pat == present[id];
        assert id in own[i];
      }
    }
  }

  lemma WidePartial(samples: seq<seq<Entry>>, w: Wide, sub: seq<nat>, maxPartial: real)
    requires WideOK(samples, w, maxPartial) && forall id :: id in sub ==> id in w.ids
    ensures Partial(samples, sub) == 0 || Partial(samples, sub) as real <= maxPartial * |samples| as real
  {
    hide Partial;
    PartialShrinks(samples, w.ids, sub);
  }

  lemma Fallback(samples: seq<seq<Entry>>, cands: seq<Cand>, absorbed: seq<seq<nat>>, lists: seq<seq<nat>>,
                 groups: seq<seq<nat>>, src: seq<nat>)
    requires CandsOK(samples, cands) && |absorbed| == |cands| == |lists| && Drawn(groups, lists, src)
    requires forall j :: 0 <= j < |cands| ==> NoRepeats(cands[j].ids + absorbed[j])
    requires forall j, id ::
      0 <= j < |cands| && id in absorbed[j] ==> exists k ::
        0 <= k < |cands| && k != j && absorbed[k] == [] && id in cands[k].ids
    requires forall j :: 0 <= j < |cands| ==> lists[j] == AfterAppend(cands[j].ids, cands[j].cap, absorbed[j])
    ensures forall g, id :: 0 <= g < |groups| && id in groups[g] ==> Somewhere(IdsOf(cands), id)
    ensures (forall j :: 0 <= j < |cands| ==> Undisturbed(cands[j].ids, cands[j].cap, absorbed[j])) ==>
      Apart(groups) && forall g :: 0 <= g < |groups| ==> Partial(samples, groups[g]) == 0
  {
    hide CandOK, Apart, Undisturbed, AfterAppend, Partial, NoRepeats;
    var own := IdsOf(cands);
    forall g, id | 0 <= g < |groups| && id in groups[g] ensures Somewhere(own, id) {
      var j := src[g];
      CandSorted(samples, cands[j]);
      AfterExactly(cands[j].ids, cands[j].cap, absorbed[j]);
      if id in cands[j].ids {
        assert id in own[j];
      } else {
        var k :| 0 <= k < |cands| && k != j && absorbed[k] == [] && id in cands[k].ids;
        assert id in own[k];
      }
    }
    if forall j :: 0 <= j < |cands| ==> Undisturbed(cands[j].ids, cands[j].cap, absorbed[j]) {
      forall j | 0 <= j < |cands| ensures lists[j] == own[j] {
        CandSorted(samples, cands[j]);
        AfterExactly(cands[j].ids, cands[j].cap, absorbed[j]);
      }
      assert lists == own;
      DrawnApart(groups, lists, src);
      forall g | 0 <= g < |groups| ensures Partial(samples, groups[g]) == 0 {
        ExactHolds(samples, cands[src[g]]);
        PartialShrinks(samples, cands[src[g]].ids, groups[g]);
      }
    }
  }
}
