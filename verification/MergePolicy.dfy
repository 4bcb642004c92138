/** The merge pass of an append-only archive: which adjacent run to merge next, and what a whole pass keeps. */
module MergePolicy {
  import opened Bytes

  // ---------------------------------------------------------------- options

  datatype Opts = Opts(target: int, trigger: int, maxSegmentBytes: int, minMergeBytes: int, maxRun: int,
                       keepRecent: int, maxMerges: int, maxBytes: int)

  function WithDefaults(o: Opts): (r: Opts)
    ensures r.target > 0 && r.trigger >= r.target && r.maxSegmentBytes > 0 && r.minMergeBytes > 0
    ensures r.maxRun >= 2 && r.keepRecent >= 0 && r.maxMerges > 0 && r.maxBytes > 0
    ensures (o.target > 0 ==> r.target == o.target) && (o.trigger > r.target ==> r.trigger == o.trigger)
    ensures (o.maxSegmentBytes > 0 ==> r.maxSegmentBytes == o.maxSegmentBytes)
    ensures (o.minMergeBytes > 0 ==> r.minMergeBytes == o.minMergeBytes) && (o.maxRun > 1 ==> r.maxRun == o.maxRun)
    ensures (o.keepRecent >= 0 ==> r.keepRecent == o.keepRecent) && (o.maxMerges > 0 ==> r.maxMerges == o.maxMerges)
    ensures (o.maxBytes > 0 ==> r.maxBytes == o.maxBytes)
  {
    var target := if o.target <= 0 then 8192 else o.target;
    Opts(target,
         if o.trigger <= target then target + target / 4 else o.trigger,
         if o.maxSegmentBytes <= 0 then 0x4000_0000 else o.maxSegmentBytes,
         if o.minMergeBytes <= 0 then 0x400_0000 else o.minMergeBytes,
         if o.maxRun <= 1 then 64 else o.maxRun,
         if o.keepRecent < 0 then 16 else o.keepRecent,
         if o.maxMerges <= 0 then 64 else o.maxMerges,
         if o.maxBytes <= 0 then 0x1_0000_0000 else o.maxBytes)
  }

  // An option out of its range takes the default: 8192 segments, a quarter more to begin with, 1 GiB, 64 MiB, runs of
  // 64, the newest 16 left alone, 64 merges and 4 GiB a pass.
  lemma Defaults(o: Opts)
    requires o.target <= 0 && o.trigger <= 0 && o.maxSegmentBytes <= 0 && o.minMergeBytes <= 0 && o.maxRun <= 1
    requires o.keepRecent < 0 && o.maxMerges <= 0 && o.maxBytes <= 0
    ensures WithDefaults(o) == Opts(8192, 10240, 1024 * 1024 * 1024, 64 * 1024 * 1024, 64, 16, 64, 4096 * 1024 * 1024)
  {
  }

  // ---------------------------------------------------------------- segments in their slots

  datatype Seg = Seg(used: nat, recs: seq<nat>)

  // A slot a merge may touch: filled, not open, not empty.
  predicate Sealed(segs: seq<Option<Seg>>, act: nat, i: nat)
  {
    i < |segs| && i != act && segs[i].Some? && segs[i].value.used > 0
  }

  // The sealed slots below n, in append order.
  function SealedTo(segs: seq<Option<Seg>>, act: nat, n: nat): (r: seq<nat>)
    requires n <= |segs|
    ensures Increasing(r) && forall i: nat :: i in r <==> i < n && Sealed(segs, act, i)
  {
    if n == 0 then [] else
      var r := SealedTo(segs, act, n - 1);
      assert forall j :: 0 <= j < |r| ==> r[j] in r;
      if Sealed(segs, act, n - 1) then r + [n - 1] else r
  }

  function SealedSlots(segs: seq<Option<Seg>>, act: nat): (r: seq<nat>) { SealedTo(segs, act, |segs|) }

  predicate Increasing(s: seq<nat>) { forall i, j :: 0 <= i < j < |s| ==> s[i] < s[j] }

  lemma {:induction false} IncreasingUnique(a: seq<nat>, b: seq<nat>)
    requires Increasing(a) && Increasing(b) && forall i :: i in a <==> i in b
    ensures a == b
    decreases |a|
  {
    if a == [] {
      HeadIn(b);
    } else {
      assert a[|a| - 1] in b && b != [];
      var x, y := a[|a| - 1], b[|b| - 1];
      assert y in a;
      LastIsMax(a, y);
      LastIsMax(b, x);
      var a', b' := a[..|a| - 1], b[..|b| - 1];
      assert a == a' + [x] && b == b' + [x];
      forall i ensures i in a' <==> i in b' { NotLast(a, i); NotLast(b, i); }
      IncreasingUnique(a', b');
    }
  }

  lemma HeadIn(s: seq<nat>)
    ensures s == [] || s[0] in s
  {
  }

  lemma LastIsMax(s: seq<nat>, x: nat)
    requires Increasing(s) && x in s
    ensures x <= s[|s| - 1]
  {
  }

  lemma NotLast(s: seq<nat>, i: nat)
    requires Increasing(s) && s != []
    ensures i in s[..|s| - 1] <==> i in s && i != s[|s| - 1]
  {
    assert s == s[..|s| - 1] + [s[|s| - 1]];
  }

  // The records of the listed slots, end to end.
  function LogOf(segs: seq<Option<Seg>>, slots: seq<nat>): (r: seq<nat>)
  {
    if slots == [] then [] else
      LogOf(segs, slots[..|slots| - 1]) + RecsIn(segs, slots[|slots| - 1])
  }

  function RecsIn(segs: seq<Option<Seg>>, i: nat): (r: seq<nat>)
  {
    if i < |segs| && segs[i].Some? then segs[i].value.recs else []
  }

  function UsedIn(segs: seq<Option<Seg>>, i: nat): (n: nat)
  {
    if i < |segs| && segs[i].Some? then segs[i].value.used else 0
  }

  function BytesOf(segs: seq<Option<Seg>>, slots: seq<nat>): (n: nat)
  {
    if slots == [] then 0 else BytesOf(segs, slots[..|slots| - 1]) + UsedIn(segs, slots[|slots| - 1])
  }

  lemma LogStep(segs: seq<Option<Seg>>, slots: seq<nat>, i: nat)
    ensures LogOf(segs, slots + [i]) == LogOf(segs, slots) + RecsIn(segs, i)
  {
    assert (slots + [i])[..|slots|] == slots;
  }

  lemma {:induction false} LogConcat(segs: seq<Option<Seg>>, a: seq<nat>, b: seq<nat>)
    ensures LogOf(segs, a + b) == LogOf(segs, a) + LogOf(segs, b)
    decreases |b|
  {
    hide RecsIn, LogOf;
    if b == [] {
      LogNil(segs);
      assert a + b == a;
    } else {
      var c, x := b[..|b| - 1], b[|b| - 1];
      LogConcat(segs, a, c);
      LogStep(segs, c, x);
      LogStep(segs, a + c, x);
      assert c + [x] == b && (a + c) + [x] == a + b;
    }
  }

  lemma {:induction false} LogSame(segs: seq<Option<Seg>>, segs': seq<Option<Seg>>, slots: seq<nat>)
    requires forall i :: i in slots ==> RecsIn(segs, i) == RecsIn(segs', i)
    ensures LogOf(segs, slots) == LogOf(segs', slots)
    decreases |slots|
  {
    if slots != [] { LogSame(segs, segs', slots[..|slots| - 1]); }
  }

  // ---------------------------------------------------------------- picking a run

  // A run of neighbours among the sealed slots, leaving the newest alone, within the size caps.
  ghost predicate GoodRun(segs: seq<Option<Seg>>, act: nat, o: Opts, remaining: int, a: nat, b: nat)
  {
    var sealed := SealedSlots(segs, act);
    && a + 2 <= b <= |sealed| && b - a <= o.maxRun && b + o.keepRecent <= |sealed| && |sealed| > o.target
    && BytesOf(segs, sealed[a..b]) <= o.maxSegmentBytes && (remaining > 0 ==> BytesOf(segs, sealed[a..b]) <= remaining)
  }

  lemma BytesSnoc(segs: seq<Option<Seg>>, s: seq<nat>, i: nat)
    ensures BytesOf(segs, s + [i]) == BytesOf(segs, s) + UsedIn(segs, i)
  {
    assert (s + [i])[..|s|] == s;
  }

  function Clamp(o: Opts, total: nat, remaining: int): (r: (int, int))
    requires o.target > 0
    ensures r.0 <= r.1 <= o.maxSegmentBytes && (remaining > 0 ==> r.1 <= remaining)
  {
    var want := if total / o.target < o.minMergeBytes then o.minMergeBytes else total / o.target;
    var want1 := if want > o.maxSegmentBytes then o.maxSegmentBytes else want;
    var sizeCap := if 0 < remaining < o.maxSegmentBytes then remaining else o.maxSegmentBytes;
    (if want1 > sizeCap then sizeCap else want1, sizeCap)
  }

  // There is something to pick from: above the target, and two slots besides the newest.
  predicate Considered(segs: seq<Option<Seg>>, act: nat, o: Opts)
  {
    |SealedSlots(segs, act)| > o.target && o.keepRecent + 2 <= |SealedSlots(segs, act)|
  }

  // A growing run goes on past m: neither large enough nor at a cap.
  ghost predicate Grows(segs: seq<Option<Seg>>, sealed: seq<nat>, o: Opts, limits: (int, int), a: nat, m: nat)
    requires a < m < |sealed|
  {
    && (BytesOf(segs, sealed[a..m]) < limits.0 || m - a < 2)
    && BytesOf(segs, sealed[a..m]) + UsedIn(segs, sealed[m]) <= limits.1 && m - a < o.maxRun
  }

  // The run starts at the oldest slot below the wanted size and is grown as far as the caps and the wanted
  // size let it; it is empty when every eligible slot already has that size.
  ghost predicate Chosen(segs: seq<Option<Seg>>, act: nat, o: Opts, remaining: int, a: nat, b: nat)
    requires o.target > 0 && o.keepRecent >= 0
  {
    var sealed := SealedSlots(segs, act); var limits := Clamp(o, BytesOf(segs, sealed), remaining);
    && a <= b && b + o.keepRecent <= |sealed|
    && (forall x: nat :: x < a || (a == b && x + o.keepRecent < |sealed|) ==> UsedIn(segs, sealed[x]) >= limits.0)
    && (a < b ==> UsedIn(segs, sealed[a]) < limits.0)
    && (forall m: nat {:trigger Grows(segs, sealed, o, limits, a, m)} ::
       a < m < b ==> Grows(segs, sealed, o, limits, a, m))
    && (a < b && b + o.keepRecent < |sealed| ==> !Grows(segs, sealed, o, limits, a, b))
  }

  // That leaves no choice.
  lemma ChosenUnique(segs: seq<Option<Seg>>, act: nat, o: Opts, remaining: int, a: nat, b: nat, a': nat, b': nat)
    requires o.target > 0 && o.keepRecent >= 0 && Chosen(segs, act, o, remaining, a, b)
    requires Chosen(segs, act, o, remaining, a', b')
    ensures a < b || a' < b' ==> a == a' && b == b'
  {
    hide SealedSlots, BytesOf, Clamp, Grows, UsedIn;
  }

  // The least size for a merge, and one segment's share of the whole.
  ghost predicate LargeEnough(segs: seq<Option<Seg>>, act: nat, o: Opts, bytes: nat)
    requires o.target > 0
  {
    bytes >= o.minMergeBytes && bytes >= BytesOf(segs, SealedSlots(segs, act)) / o.target
  }

  // No room for this many bytes in one segment, or in what is left of the pass.
  ghost predicate OverCap(o: Opts, remaining: int, bytes: nat)
  {
    bytes > o.maxSegmentBytes || 0 < remaining < bytes
  }

  ghost predicate AtCap(o: Opts, remaining: int, bytes: nat)
  {
    bytes >= o.maxSegmentBytes || 0 < remaining <= bytes
  }

  // What the options and the segments alone say of the run.
  ghost predicate RunSized(segs: seq<Option<Seg>>, act: nat, o: Opts, remaining: int, a: nat, b: nat)
    requires o.target > 0 && o.keepRecent >= 0 && a <= b && b + o.keepRecent <= |SealedSlots(segs, act)|
  {
    var sealed := SealedSlots(segs, act);
    // every segment passed over is already of that size, or at a cap
    && (forall x: nat {:trigger sealed[x]} :: x < a || (a == b && x + o.keepRecent < |sealed|) ==>
          LargeEnough(segs, act, o, UsedIn(segs, sealed[x])) || AtCap(o, remaining, UsedIn(segs, sealed[x])))
    // the run begins at one that is not
    && (a < b ==> !LargeEnough(segs, act, o, UsedIn(segs, sealed[a])))
    // it ends at the newest kept, at the longest run, at a cap, or large enough
    && (a < b && b + o.keepRecent < |sealed| ==>
          b - a >= o.maxRun || OverCap(o, remaining, BytesOf(segs, sealed[a..b]) + UsedIn(segs, sealed[b])) ||
          (b - a >= 2 && LargeEnough(segs, act, o, BytesOf(segs, sealed[a..b]))))
    // and is not large enough without its last
    && (a + 2 <= b ==> !LargeEnough(segs, act, o, BytesOf(segs, sealed[a..b - 1])))
  }

  lemma WantedSize(o: Opts, total: nat, remaining: int, bytes: nat)
    requires o.target > 0
    ensures var goal, limits := bytes >= o.minMergeBytes && bytes >= total / o.target, Clamp(o, total, remaining);
      && (bytes < limits.0 ==> !goal) && (bytes >= limits.0 ==> goal || AtCap(o, remaining, bytes))
      && (bytes > limits.1 <==> OverCap(o, remaining, bytes))
  {
  }

  lemma ChosenSized(segs: seq<Option<Seg>>, act: nat, o: Opts, remaining: int, a: nat, b: nat)
    requires o.target > 0 && o.keepRecent >= 0 && Chosen(segs, act, o, remaining, a, b)
    ensures RunSized(segs, act, o, remaining, a, b)
  {
    hide SealedSlots, BytesOf, Clamp, UsedIn, AtCap, OverCap;
    var sealed := SealedSlots(segs, act);
    var total := BytesOf(segs, sealed);
    var limits := Clamp(o, total, remaining);
    forall x: nat | x < a || (a == b && x + o.keepRecent < |sealed|)
      ensures LargeEnough(segs, act, o, UsedIn(segs, sealed[x])) || AtCap(o, remaining, UsedIn(segs, sealed[x]))
    {
      WantedSize(o, total, remaining, UsedIn(segs, sealed[x]));
    }
    if a < b {
      WantedSize(o, total, remaining, UsedIn(segs, sealed[a]));
      if b + o.keepRecent < |sealed| { ChosenStops(segs, act, o, remaining, a, b); }
      if a + 2 <= b {
        assert Grows(segs, sealed, o, limits, a, b - 1);
        OneByte(segs, sealed, a);
        WantedSize(o, total, remaining, BytesOf(segs, sealed[a..b - 1]));
      }
    }
  }

  lemma OneByte(segs: seq<Option<Seg>>, sealed: seq<nat>, a: nat)
    requires a < |sealed|
    ensures BytesOf(segs, sealed[a..a + 1]) == UsedIn(segs, sealed[a])
  {
    NoBytes(segs);
    BytesSnoc(segs, [], sealed[a]);
    assert [] + [sealed[a]] == sealed[a..a + 1];
  }

  lemma ChosenStops(segs: seq<Option<Seg>>, act: nat, o: Opts, remaining: int, a: nat, b: nat)
    requires o.target > 0 && o.keepRecent >= 0 && Chosen(segs, act, o, remaining, a, b) && a < b
    requires b + o.keepRecent < |SealedSlots(segs, act)|
    ensures var sealed := SealedSlots(segs, act);
      b - a >= o.maxRun || OverCap(o, remaining, BytesOf(segs, sealed[a..b]) + UsedIn(segs, sealed[b])) ||
        (b - a >= 2 && LargeEnough(segs, act, o, BytesOf(segs, sealed[a..b])))
  {
    hide BytesOf, Clamp, SealedTo;
    var sealed := SealedSlots(segs, act);
    var total, bytes, next := BytesOf(segs, sealed), BytesOf(segs, sealed[a..b]), UsedIn(segs, sealed[b]);
    assert next > 0 by { assert sealed[b] in sealed; }
    WantedSize(o, total, remaining, bytes);
    WantedSize(o, total, remaining, bytes + next);
  }

  // Nothing to merge: too few, or the only run there is has fewer than two segments.
  ghost predicate NoRun(segs: seq<Option<Seg>>, act: nat, o: Opts, remaining: int)
    requires o.target > 0 && o.keepRecent >= 0
  {
    Considered(segs, act, o) ==> exists a: nat, b: nat {:trigger Chosen(segs, act, o, remaining, a, b)} ::
      Chosen(segs, act, o, remaining, a, b) && b - a < 2
  }

  // The run under construction after i slots.
  ghost predicate Picking(segs: seq<Option<Seg>>, sealed: seq<nat>, o: Opts, limits: (int, int), a: nat, b: nat, i: nat)
  {
    && a <= b <= i <= |sealed| && (a < b ==> b == i) && b - a <= o.maxRun
    && (a < b ==> BytesOf(segs, sealed[a..b]) <= limits.1)
    && (forall x: nat :: x < a || (a == b && x < i) ==> UsedIn(segs, sealed[x]) >= limits.0)
    && (a < b ==> UsedIn(segs, sealed[a]) < limits.0)
    && (forall m: nat {:trigger Grows(segs, sealed, o, limits, a, m)} ::
       a < m < b ==> Grows(segs, sealed, o, limits, a, m))
  }

  lemma PickSkip(segs: seq<Option<Seg>>, sealed: seq<nat>, o: Opts, limits: (int, int), a: nat, i: nat)
    requires Picking(segs, sealed, o, limits, a, a, i) && i < |sealed| && UsedIn(segs, sealed[i]) >= limits.0
    ensures Picking(segs, sealed, o, limits, a, a, i + 1)
  {
  }

  lemma PickBegin(segs: seq<Option<Seg>>, sealed: seq<nat>, o: Opts, limits: (int, int), a: nat, i: nat)
    requires Picking(segs, sealed, o, limits, a, a, i) && i < |sealed| && UsedIn(segs, sealed[i]) < limits.0 <= limits.1
    requires o.maxRun >= 1
    ensures Picking(segs, sealed, o, limits, i, i + 1, i + 1) &&
      BytesOf(segs, sealed[i..i + 1]) == UsedIn(segs, sealed[i])
  {
    hide BytesOf, UsedIn, Grows;
    NoBytes(segs);
    BytesSnoc(segs, [], sealed[i]);
    assert [] + [sealed[i]] == sealed[i..i + 1];
  }

  lemma PickGrow(segs: seq<Option<Seg>>, sealed: seq<nat>, o: Opts, limits: (int, int), a: nat, b: nat)
    requires a < b < |sealed| && Picking(segs, sealed, o, limits, a, b, b) && Grows(segs, sealed, o, limits, a, b)
    ensures Picking(segs, sealed, o, limits, a, b + 1, b + 1)
    ensures BytesOf(segs, sealed[a..b + 1]) == BytesOf(segs, sealed[a..b]) + UsedIn(segs, sealed[b])
  {
    hide BytesOf, UsedIn;
    BytesSnoc(segs, sealed[a..b], sealed[b]);
    assert sealed[a..b] + [sealed[b]] == sealed[a..b + 1];
  }

  lemma PickDone(segs: seq<Option<Seg>>, act: nat, o: Opts, remaining: int, a: nat, b: nat, i: nat)
    requires o.target > 0 && o.keepRecent >= 0 && Considered(segs, act, o)
    requires i + o.keepRecent <= |SealedSlots(segs, act)|
    requires var sealed := SealedSlots(segs, act); var limits := Clamp(o, BytesOf(segs, sealed), remaining);
      && Picking(segs, sealed, o, limits, a, b, i)
      && (i + o.keepRecent < |sealed| ==> a < b && !Grows(segs, sealed, o, limits, a, b))
    ensures Chosen(segs, act, o, remaining, a, b) && (b - a >= 2 ==> GoodRun(segs, act, o, remaining, a, b))
  {
    hide SealedSlots, BytesOf, Clamp, UsedIn, Grows;
  }

  // The oldest adjacent run worth merging.
  method NextMergeRun(segs: seq<Option<Seg>>, act: nat, o: Opts, remaining: int) returns (a: nat, b: nat, ok: bool)
    requires o.target > 0 && o.maxRun >= 2 && o.keepRecent >= 0
    ensures ok ==> GoodRun(segs, act, o, remaining, a, b)
    ensures if Considered(segs, act, o) then Chosen(segs, act, o, remaining, a, b) else a == b
    ensures Considered(segs, act, o) ==> RunSized(segs, act, o, remaining, a, b)
    ensures ok <==> a + 2 <= b
  {
    hide SealedSlots, BytesOf, Clamp, UsedIn, Picking, Chosen, GoodRun, RunSized;
    a, b, ok := 0, 0, false;
    var sealed := SealedSlots(segs, act);
    if |sealed| <= o.target || o.keepRecent >= |sealed| { return; }
    var eligible := |sealed| - o.keepRecent;
    if eligible < 2 { return; }
    var (want, sizeCap) := Clamp(o, BytesOf(segs, sealed), remaining);
    var bytes: nat := 0;
    var i := 0;
    PickNone(segs, sealed, o, (want, sizeCap));
    while i < eligible
      invariant 0 <= i <= eligible && Picking(segs, sealed, o, (want, sizeCap), a, b, i)
      invariant a <= b && (a < b ==> b == i && bytes == BytesOf(segs, sealed[a..b]) && (bytes < want || b - a < 2))
    {
      var sz := UsedIn(segs, sealed[i]);
      if a == b && sz >= want {
        PickSkip(segs, sealed, o, (want, sizeCap), a, i);
        i := i + 1;
        continue;
      }
      if b > a && (bytes + sz > sizeCap || b - a >= o.maxRun) { break; }
      if a == b {
        PickBegin(segs, sealed, o, (want, sizeCap), a, i);
        a, b, bytes := i, i, 0;
      } else {
        PickGrow(segs, sealed, o, (want, sizeCap), a, b);
      }
      b, bytes, i := b + 1, bytes + sz, i + 1;
      if bytes >= want && b - a >= 2 { break; }
    }
    PickDone(segs, act, o, remaining, a, b, i);
    ChosenSized(segs, act, o, remaining, a, b);
    ok := b - a >= 2;
  }

  lemma PickNone(segs: seq<Option<Seg>>, sealed: seq<nat>, o: Opts, limits: (int, int))
    requires o.maxRun >= 0
    ensures Picking(segs, sealed, o, limits, 0, 0, 0)
  {
  }

  lemma NoBytes(segs: seq<Option<Seg>>)
    ensures BytesOf(segs, []) == 0
  {
  }

  // ---------------------------------------------------------------- one merge

  // The run's first slot takes the output; the others empty.
  function Merged(segs: seq<Option<Seg>>, run: seq<nat>, used: nat): (r: seq<Option<Seg>>)
    requires run != []
    ensures |r| == |segs|
  {
    seq(|segs|, i requires 0 <= i < |segs| =>
      if i == run[0] then Some(Seg(used, LogOf(segs, run))) else if i in run then None else segs[i])
  }

  lemma IncreasingSlice(s: seq<nat>, a: nat, b: nat, i: nat)
    requires Increasing(s) && a < b <= |s|
    ensures i in s <==> i in s[..a] || i in s[a..b] || i in s[b..]
    ensures i in s[a..b] ==> i !in s[..a] && i !in s[b..]
    ensures s[a] in s[a..b] && s[a] !in s[..a] && s[a] !in s[b..]
  {
    assert s == s[..a] + s[a..b] + s[b..];
    assert s[a..b][0] == s[a];
  }

  lemma SkipIncreasing(s: seq<nat>, a: nat, b: nat)
    requires Increasing(s) && a < b <= |s|
    ensures Increasing(s[..a] + [s[a]] + s[b..])
  {
    var t := s[..a] + [s[a]] + s[b..];
    forall i, j | 0 <= i < j < |t| ensures t[i] < t[j] {
      var i', j' := if i <= a then i else i + b - a - 1, if j <= a then j else j + b - a - 1;
      assert t[i] == s[i'] && t[j] == s[j'];
    }
  }

  // The sealed slots of the result: the run has become its first slot.
  lemma MergedSealed(segs: seq<Option<Seg>>, act: nat, a: nat, b: nat, used: nat)
    requires a < b <= |SealedSlots(segs, act)| && used > 0
    ensures var sealed := SealedSlots(segs, act);
      SealedSlots(Merged(segs, sealed[a..b], used), act) == sealed[..a] + [sealed[a]] + sealed[b..]
  {
    hide LogOf, SealedTo;
    var sealed := SealedSlots(segs, act);
    var run := sealed[a..b];
    var segs' := Merged(segs, run, used);
    var after, t := SealedSlots(segs', act), sealed[..a] + [sealed[a]] + sealed[b..];
    SkipIncreasing(sealed, a, b);
    assert run[0] == sealed[a] && sealed[a] in sealed;
    forall i: nat ensures i in after <==> i in t { IncreasingSlice(sealed, a, b, i); }
    IncreasingUnique(after, t);
  }

  // Merging moves no record and keeps their order.
  lemma MergedLog(segs: seq<Option<Seg>>, act: nat, a: nat, b: nat, used: nat)
    requires a < b <= |SealedSlots(segs, act)| && used > 0
    ensures var sealed := SealedSlots(segs, act); var segs' := Merged(segs, sealed[a..b], used);
      LogOf(segs', SealedSlots(segs', act)) == LogOf(segs, sealed)
  {
    hide SealedSlots, LogOf, Merged;
    var sealed := SealedSlots(segs, act);
    var run := sealed[a..b];
    var segs' := Merged(segs, run, used);
    MergedSealed(segs, act, a, b, used);
    MergedRecs(segs, act, a, b, used);
    LogSame(segs, segs', sealed[..a]);
    LogSame(segs, segs', sealed[b..]);
    LogConcat(segs', sealed[..a] + [sealed[a]], sealed[b..]);
    LogConcat(segs', sealed[..a], [sealed[a]]);
    LogConcat(segs, sealed[..a] + run, sealed[b..]);
    LogConcat(segs, sealed[..a], run);
    assert sealed[..a] + run + sealed[b..] == sealed;
  }

  lemma MergedRecs(segs: seq<Option<Seg>>, act: nat, a: nat, b: nat, used: nat)
    requires a < b <= |SealedSlots(segs, act)|
    ensures var sealed := SealedSlots(segs, act); var segs' := Merged(segs, sealed[a..b], used);
      && (forall i :: i in sealed[..a] || i in sealed[b..] ==> RecsIn(segs', i) == RecsIn(segs, i))
      && LogOf(segs', [sealed[a]]) == LogOf(segs, sealed[a..b])
  {
    hide SealedTo;
    var sealed := SealedSlots(segs, act);
    var segs' := Merged(segs, sealed[a..b], used);
    assert sealed[a..b][0] == sealed[a] && sealed[a] in sealed;
    forall i | i in sealed[..a] || i in sealed[b..] ensures RecsIn(segs', i) == RecsIn(segs, i) {
      IncreasingSlice(sealed, a, b, i);
    }
    assert LogOf(segs', [sealed[a]]) == LogOf(segs', []) + RecsIn(segs', sealed[a]) by {
      assert [sealed[a]][..0] == [];
    }
  }

  // ---------------------------------------------------------------- the pass

  // Among the newest of the sealed slots.
  ghost predicate Recent(sealed: seq<nat>, keep: nat, i: nat) { keep <= |sealed| && i in sealed[|sealed| - keep..] }

  datatype PassState = PassState(segs: seq<Option<Seg>>, moved: nat)

  // One merge of a pass: the chosen run, of two segments or more, becomes the output.
  ghost predicate MergeStep(s: PassState, t: PassState, act: nat, o: Opts, out: Option<nat>)
    requires o.target > 0 && o.keepRecent >= 0
  {
    out.Some? && Considered(s.segs, act, o) && exists a: nat, b: nat :: Takes(s, t, act, o, out.value, a, b)
  }

  ghost predicate Takes(s: PassState, t: PassState, act: nat, o: Opts, used: nat, a: nat, b: nat)
    requires o.target > 0 && o.keepRecent >= 0
  {
    && a + 2 <= b <= |SealedSlots(s.segs, act)| && Chosen(s.segs, act, o, o.maxBytes - s.moved, a, b)
    && t.segs == Merged(s.segs, SealedSlots(s.segs, act)[a..b], used)
    && t.moved == s.moved + BytesOf(s.segs, SealedSlots(s.segs, act)[a..b])
  }

  lemma StepDone(s: PassState, t: PassState, act: nat, o: Opts, out: Option<nat>, a: nat, b: nat)
    requires o.target > 0 && o.keepRecent >= 0 && out.Some? && Considered(s.segs, act, o)
    requires Takes(s, t, act, o, out.value, a, b)
    ensures MergeStep(s, t, act, o, out)
  {
    hide Takes, Considered;
  }

  lemma NothingFound(segs: seq<Option<Seg>>, act: nat, o: Opts, remaining: int, a: nat, b: nat)
    requires o.target > 0 && o.keepRecent >= 0 && b - a < 2
    requires Considered(segs, act, o) ==> Chosen(segs, act, o, remaining, a, b)
    ensures NoRun(segs, act, o, remaining)
  {
    hide Considered, Chosen;
  }

  // What every merge of a pass leaves alone.
  ghost predicate Kept(was: seq<Option<Seg>>, now: seq<Option<Seg>>, act: nat, keepRecent: nat)
  {
    var before, after := SealedSlots(was, act), SealedSlots(now, act);
    && |now| == |was| && LogOf(now, after) == LogOf(was, before)
    && (act < |was| ==> now[act] == was[act])
    && |after| <= |before| && (keepRecent <= |before| ==> keepRecent <= |after|)
    && (keepRecent <= |before| ==> after[|after| - keepRecent..] == before[|before| - keepRecent..])
    && (forall i: nat {:trigger Recent(before, keepRecent, i)} ::
       Recent(before, keepRecent, i) ==> i < |was| && now[i] == was[i])
    && (forall i: nat :: i < |was| && i != act && !Sealed(was, act, i) ==> now[i] == was[i])
    && (EmptyOK(was, act) ==> EmptyOK(now, act))
  }

  // A segment with no bytes has no records.
  ghost predicate EmptyOK(segs: seq<Option<Seg>>, act: nat)
  {
    forall i: nat :: i < |segs| && i != act && segs[i].Some? && segs[i].value.used == 0 ==> segs[i].value.recs == []
  }

  class Archive {
    var segs: seq<Option<Seg>>
    const act: nat

    constructor (segs: seq<Option<Seg>>, act: nat)
      ensures this.segs == segs && this.act == act
    {
      this.segs, this.act := segs, act;
    }

    // Replace the run by one segment holding its records; the environment says whether the rewrite and its
    // commit succeed and how large the output is.
    method MergeSegments(run: seq<nat>, out: Option<nat>) returns (ok: bool)
      requires |run| >= 2 && forall i :: i in run ==> Sealed(segs, act, i)
      modifies this
      ensures ok == out.Some?
      ensures segs == if ok then Merged(old(segs), run, out.value) else old(segs)
    {
      hide LogOf, RecsIn;
      if out.None? { return false; }
      var recs: seq<nat> := [];
      LogNil(segs);
      for i := 0 to |run|
        invariant recs == LogOf(segs, run[..i]) && segs == old(segs)
      {
        assert run[..i + 1] == run[..i] + [run[i]];
        LogStep(segs, run[..i], run[i]);
        recs := recs + RecsIn(segs, run[i]);
      }
      assert run[..|run|] == run;
      var now := segs;
      assert run[0] in run;
      now := now[run[0] := Some(Seg(out.value, recs))];
      for i := 1 to |run|
        invariant |now| == |segs| && segs == old(segs)
        invariant forall k :: 0 <= k < |now| ==>
          now[k] == if k == run[0] then Some(Seg(out.value, recs)) else if k in run[..i] then None else segs[k]
      {
        assert run[i] in run;
        assert run[..i + 1] == run[..i] + [run[i]];
        if run[i] != run[0] { now := now[run[i] := None]; }
      }
      assert run[..|run|] == run;
      segs := now;
      assert segs == Merged(old(segs), run, out.value);
      ok := true;
    }

    // Merge cold runs from the trigger down to the target, within the pass's budgets.
    method MergePass(opts: Opts, outs: nat -> Option<nat>)
      returns (merges: nat, moved: nat, ghost trace: seq<PassState>)
      requires forall i: nat {:trigger outs(i)} :: outs(i).Some? ==> outs(i).value > 0
      modifies this
      ensures var o := WithDefaults(opts);
        && merges <= o.maxMerges && moved <= o.maxBytes
        && (|SealedSlots(old(segs), act)| < o.trigger ==> merges == 0)
        && |SealedSlots(segs, act)| + merges <= |SealedSlots(old(segs), act)|
        && Kept(old(segs), segs, act, o.keepRecent)
        && |trace| == merges + 1 && trace[0] == PassState(old(segs), 0) && trace[merges] == PassState(segs, moved)
        && (forall i: nat {:trigger trace[i]} :: i < merges ==> MergeStep(trace[i], trace[i + 1], act, o, outs(i)))
        && (|SealedSlots(old(segs), act)| >= o.trigger ==>
             merges == o.maxMerges || moved == o.maxBytes || outs(merges).None? ||
               NoRun(segs, act, o, o.maxBytes - moved))
    {
      hide SealedSlots, LogOf, BytesOf, Kept, Chosen, Considered, Merged, MergeStep, NoRun, RunSized, WithDefaults,
        SealedTo;
      var o := WithDefaults(opts);
      merges, moved, trace := 0, 0, [PassState(segs, 0)];
      KeptSelf(segs, act, o.keepRecent);
      if |SealedSlots(segs, act)| < o.trigger { return; }
      while merges < o.maxMerges && moved < o.maxBytes
        invariant merges <= o.maxMerges && moved <= o.maxBytes
        invariant |SealedSlots(segs, act)| + merges <= |SealedSlots(old(segs), act)|
        invariant Kept(old(segs), segs, act, o.keepRecent)
        invariant |trace| == merges + 1 && trace[0] == PassState(old(segs), 0) &&
          trace[merges] == PassState(segs, moved)
        invariant forall i: nat {:trigger trace[i]} :: i < merges ==> MergeStep(trace[i], trace[i + 1], act, o, outs(i))
        decreases o.maxMerges - merges
      {
        var a, b, found := NextMergeRun(segs, act, o, o.maxBytes - moved);
        if !found {
          NothingFound(segs, act, o, o.maxBytes - moved, a, b);
          break;
        }
        var run := SealedSlots(segs, act)[a..b];
        var runBytes := BytesOf(segs, run);
        RunSealed(segs, act, a, b);
        ghost var was := segs;
        var ok := MergeSegments(run, outs(merges));
        if !ok { break; }
        MergeKept(was, act, a, b, outs(merges).value, o.keepRecent);
        KeptTrans(old(segs), was, segs, act, o.keepRecent);
        StepDone(PassState(was, moved), PassState(segs, moved + runBytes), act, o, outs(merges), a, b);
        trace := trace + [PassState(segs, moved + runBytes)];
        merges, moved := merges + 1, moved + runBytes;
      }
    }
  }

  lemma RunSealed(segs: seq<Option<Seg>>, act: nat, a: nat, b: nat)
    requires a <= b <= |SealedSlots(segs, act)|
    ensures forall i :: i in SealedSlots(segs, act)[a..b] ==> Sealed(segs, act, i)
  {
    var sealed := SealedSlots(segs, act);
    forall i | i in sealed[a..b] ensures i in sealed {}
  }

  lemma KeptSelf(segs: seq<Option<Seg>>, act: nat, keepRecent: nat)
    ensures Kept(segs, segs, act, keepRecent)
  {
    hide LogOf;
    var sealed := SealedSlots(segs, act);
    forall i: nat | Recent(sealed, keepRecent, i)
      ensures i < |segs|
    {
      assert i in sealed;
      assert Sealed(segs, act, i);
    }
  }

  lemma KeptTrans(a: seq<Option<Seg>>, b: seq<Option<Seg>>, c: seq<Option<Seg>>, act: nat, keepRecent: nat)
    requires Kept(a, b, act, keepRecent) && Kept(b, c, act, keepRecent)
    ensures Kept(a, c, act, keepRecent)
  {
    hide LogOf, SealedSlots, SealedTo;
    forall i: nat | i < |a| && i != act && !Sealed(a, act, i) ensures c[i] == a[i] {
      assert b[i] == a[i];
      assert !Sealed(b, act, i);
    }
    var p, q := SealedSlots(a, act), SealedSlots(b, act);
    forall i: nat | Recent(p, keepRecent, i) ensures i < |a| && c[i] == a[i] {
      assert Recent(q, keepRecent, i);
    }
  }

  lemma MergeKept(segs: seq<Option<Seg>>, act: nat, a: nat, b: nat, used: nat, keepRecent: nat)
    requires a + 2 <= b && b + keepRecent <= |SealedSlots(segs, act)| && used > 0
    ensures var segs' := Merged(segs, SealedSlots(segs, act)[a..b], used);
      Kept(segs, segs', act, keepRecent) && |SealedSlots(segs', act)| + (b - a - 1) == |SealedSlots(segs, act)|
  {
    hide LogOf, SealedTo, SealedSlots, Merged;
    var sealed := SealedSlots(segs, act);
    var segs' := Merged(segs, sealed[a..b], used);
    var after := SealedSlots(segs', act);
    MergedSealed(segs, act, a, b, used);
    MergedLog(segs, act, a, b, used);
    if EmptyOK(segs, act) { MergedEmpty(segs, act, a, b, used); }
    var k := |sealed| - keepRecent;
    assert after[|after| - keepRecent..] == sealed[k..];
    forall i: nat | i < |segs| && (i == act || !Sealed(segs, act, i))
      ensures segs'[i] == segs[i]
    {
      UntouchedSlot(segs, act, a, b, used, i);
    }
    forall i: nat | Recent(sealed, keepRecent, i) ensures i < |segs| && segs'[i] == segs[i] {
      assert i in sealed[b..] by { assert sealed[b..][k - b..] == sealed[k..]; }
      UntouchedSlot(segs, act, a, b, used, i);
    }
  }

  lemma UntouchedSlot(segs: seq<Option<Seg>>, act: nat, a: nat, b: nat, used: nat, i: nat)
    requires a < b <= |SealedSlots(segs, act)|
    requires i in SealedSlots(segs, act)[b..] || (i < |segs| && (i == act || !Sealed(segs, act, i)))
    ensures i < |segs| && Merged(segs, SealedSlots(segs, act)[a..b], used)[i] == segs[i]
  {
    hide LogOf, SealedTo;
    var sealed := SealedSlots(segs, act);
    var run := sealed[a..b];
    IncreasingSlice(sealed, a, b, i);
    assert run[0] == sealed[a] && run[0] in run;
  }

  lemma MergedEmpty(segs: seq<Option<Seg>>, act: nat, a: nat, b: nat, used: nat)
    requires a < b <= |SealedSlots(segs, act)| && used > 0 && EmptyOK(segs, act)
    ensures EmptyOK(Merged(segs, SealedSlots(segs, act)[a..b], used), act)
  {
    hide LogOf, SealedSlots;
  }

  // With the open segment last, the whole log is the sealed log and then the open one.
  lemma OpenLast(segs: seq<Option<Seg>>, act: nat)
    requires act + 1 == |segs| && EmptyOK(segs, act)
    ensures AllRecs(segs, |segs|) == LogOf(segs, SealedSlots(segs, act)) + RecsIn(segs, act)
  {
    hide LogOf, EmptyOK, AllRecs, SealedTo;
    AllIsSealed(segs, act, act);
    SealedLast(segs, act);
    AllLast(segs);
  }

  lemma SealedLast(segs: seq<Option<Seg>>, act: nat)
    requires act + 1 == |segs|
    ensures SealedSlots(segs, act) == SealedTo(segs, act, act)
  {
  }

  lemma AllLast(segs: seq<Option<Seg>>)
    requires segs != []
    ensures AllRecs(segs, |segs|) == AllRecs(segs, |segs| - 1) + RecsIn(segs, |segs| - 1)
  {
  }

  function AllRecs(segs: seq<Option<Seg>>, n: nat): (r: seq<nat>)
  {
    if n == 0 then [] else AllRecs(segs, n - 1) + RecsIn(segs, n - 1)
  }

  lemma {:induction false} AllIsSealed(segs: seq<Option<Seg>>, act: nat, n: nat)
    requires n <= act < |segs| && EmptyOK(segs, act)
    ensures AllRecs(segs, n) == LogOf(segs, SealedTo(segs, act, n))
    decreases n
  {
    hide LogOf, SealedTo, AllRecs, RecsIn, EmptyOK, Increasing, Sealed;
    if n > 0 {
      AllIsSealed(segs, act, n - 1);
      AllStep(segs, n - 1);
      SealedStep(segs, act, n - 1);
      LogStep(segs, SealedTo(segs, act, n - 1), n - 1);
    } else {
      NoneSealed(segs, act);
    }
  }

  lemma NoneSealed(segs: seq<Option<Seg>>, act: nat)
    ensures AllRecs(segs, 0) == [] && SealedTo(segs, act, 0) == [] && LogOf(segs, []) == []
  {
  }

  lemma AllStep(segs: seq<Option<Seg>>, n: nat)
    ensures AllRecs(segs, n + 1) == AllRecs(segs, n) + RecsIn(segs, n)
  {
  }

  // An empty segment that is not sealed holds no records.
  lemma SealedStep(segs: seq<Option<Seg>>, act: nat, n: nat)
    requires n < act < |segs| && EmptyOK(segs, act)
    ensures if Sealed(segs, act, n) then SealedTo(segs, act, n + 1) == SealedTo(segs, act, n) + [n]
      else SealedTo(segs, act, n + 1) == SealedTo(segs, act, n) && RecsIn(segs, n) == []
  {
  }

  lemma LogNil(segs: seq<Option<Seg>>)
    ensures LogOf(segs, []) == []
  {
  }

  // So a pass leaves the whole log as it was.
  lemma WholeLogKept(was: seq<Option<Seg>>, now: seq<Option<Seg>>, act: nat, keepRecent: nat)
    requires Kept(was, now, act, keepRecent) && act + 1 == |was| && EmptyOK(was, act)
    ensures AllRecs(now, |now|) == AllRecs(was, |was|)
  {
    hide AllRecs, LogOf, SealedSlots;
    OpenLast(was, act);
    OpenLast(now, act);
  }
}
