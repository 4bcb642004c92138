/** The versioned store under the scans: a write appends a version and stamps the one it replaces, a delete stamps
    alone, and a snapshot at any sequence number is the writes up to it, replayed. */
module Snapshots {
  import opened Bytes
  import opened Wire
  import opened Preds
  import opened Scan
  import opened Folds

  // ---------------------------------------------------------------- versions and writes

  const SEQ_MAX: nat := 0xFFFF_FFFF_FFFF_FFFF

  type Key = seq<byte>

  datatype Version = Version(key: Key, rec: Rec)

  datatype Write = Put(key: Key, ad: seq<Entry>, len: nat) | Delete(key: Key)

  datatype Commit = Commit(seqno: nat, write: Write)

  // What the writes numbered s0 or below leave.
  function Replay(log: seq<Commit>, s0: nat): (m: map<Key, seq<Entry>>)
  {
    if log == [] then map[]
    else
      var m, c := Replay(log[..|log| - 1], s0), log[|log| - 1];
      if c.seqno > s0 then m
      else match c.write case Put(key, ad, _) => m[key := ad] case Delete(key) => m - {key}
  }

  predicate Current(v: Version, key: Key) { v.rec.superseded == SEQ_MAX && v.key == key }

  // The newest version of the key that nothing has replaced.
  function FindCurrent(vs: seq<Version>, key: Key): (i: Option<nat>)
    ensures i.Some? ==> i.value < |vs| && Current(vs[i.value], key)
    ensures i.None? ==> forall j :: 0 <= j < |vs| ==> !Current(vs[j], key)
  {
    if vs == [] then None
    else if Current(vs[|vs| - 1], key) then Some(|vs| - 1)
    else FindCurrent(vs[..|vs| - 1], key)
  }

  function Stamp(v: Version, seqno: nat): (r: Version) { v.(rec := v.rec.(superseded := seqno)) }

  // The key's current version, if it has one, is replaced as of this number.
  function Superseded(vs: seq<Version>, key: Key, seqno: nat): (r: seq<Version>)
    ensures |r| == |vs|
  {
    match FindCurrent(vs, key) case None => vs case Some(i) => vs[i := Stamp(vs[i], seqno)]
  }

  function Fresh(key: Key, ad: seq<Entry>, len: nat, seqno: nat): (v: Version)
  {
    Version(key, Rec(false, seqno, SEQ_MAX, ad, len))
  }

  function Written(vs: seq<Version>, c: Commit): (r: seq<Version>)
  {
    match c.write
    case Put(key, ad, len) => Superseded(vs, key, c.seqno) + [Fresh(key, ad, len, c.seqno)]
    case Delete(key) => Superseded(vs, key, c.seqno)
  }

  // ---------------------------------------------------------------- what every write keeps

  ghost predicate InOrder(log: seq<Commit>)
  {
    && (forall i {:trigger log[i]} :: 0 <= i < |log| ==> 0 < log[i].seqno < SEQ_MAX)
    && forall i, j :: 0 <= i < j < |log| ==> log[i].seqno <= log[j].seqno
  }

  // No number beyond q is in use.
  ghost predicate UpTo(vs: seq<Version>, q: nat)
  {
    forall i {:trigger vs[i]} ::
      0 <= i < |vs| ==> vs[i].rec.born <= q && (vs[i].rec.superseded <= q || vs[i].rec.superseded == SEQ_MAX)
  }

  ghost predicate InView(vs: seq<Version>, s0: nat, i: nat) { i < |vs| && Visible(vs[i].rec, s0) }

  // A snapshot shows each key at most once, and shows exactly this map.
  ghost predicate ShowsMap(vs: seq<Version>, s0: nat, m: map<Key, seq<Entry>>)
  {
    && (forall i: nat, j: nat {:trigger InView(vs, s0, i), InView(vs, s0, j)} ::
          InView(vs, s0, i) && InView(vs, s0, j) && vs[i].key == vs[j].key ==> i == j)
    && (forall i: nat {:trigger InView(vs, s0, i)} ::
          InView(vs, s0, i) ==> vs[i].key in m && m[vs[i].key] == vs[i].rec.ad)
    && forall key {:trigger key in m} :: key in m ==> exists i: nat :: InView(vs, s0, i) && vs[i].key == key
  }

  ghost predicate Logged(vs: seq<Version>, log: seq<Commit>)
  {
    && InOrder(log) && UpTo(vs, LastSeq(log))
    && forall s0: nat {:trigger Replay(log, s0)} :: s0 < SEQ_MAX ==> ShowsMap(vs, s0, Replay(log, s0))
  }

  function LastSeq(log: seq<Commit>): (q: nat) { if log == [] then 0 else log[|log| - 1].seqno }

  lemma NothingLogged()
    ensures Logged([], [])
  {
  }

  // Nobody reading before the write sees it.
  lemma BeforeWrite(vs: seq<Version>, c: Commit, s0: nat, i: nat)
    requires s0 < c.seqno < SEQ_MAX
    ensures InView(Written(vs, c), s0, i) <==> InView(vs, s0, i)
    ensures InView(vs, s0, i) ==> Written(vs, c)[i].key == vs[i].key && Written(vs, c)[i].rec.ad == vs[i].rec.ad
  {
  }

  // From the write on, a version shows exactly where nothing replaces it.
  lemma FromWrite(vs: seq<Version>, q: nat, s0: nat, i: nat)
    requires UpTo(vs, q) && q <= s0 < SEQ_MAX && i < |vs|
    ensures InView(vs, s0, i) <==> vs[i].rec.superseded == SEQ_MAX
  {
  }

  lemma WrittenUpTo(vs: seq<Version>, q: nat, c: Commit)
    requires UpTo(vs, q) && q <= c.seqno < SEQ_MAX
    ensures UpTo(Written(vs, c), c.seqno)
  {
  }

  // At most one version of a key is current, so stamping it leaves none.
  lemma NoneCurrent(vs: seq<Version>, key: Key, seqno: nat, j: nat)
    requires seqno < SEQ_MAX && j < |vs|
    requires forall i: nat, i': nat :: i < |vs| && i' < |vs| && Current(vs[i], key) && Current(vs[i'], key) ==> i == i'
    ensures vs[j].key == key ==> Superseded(vs, key, seqno)[j].rec.superseded != SEQ_MAX
    ensures vs[j].key != key ==> Superseded(vs, key, seqno)[j] == vs[j]
    ensures Superseded(vs, key, seqno)[j].key == vs[j].key && Superseded(vs, key, seqno)[j].rec.ad == vs[j].rec.ad
  {
  }

  lemma OneCurrent(vs: seq<Version>, q: nat, s0: nat, m: map<Key, seq<Entry>>, key: Key)
    requires UpTo(vs, q) && q <= s0 < SEQ_MAX && ShowsMap(vs, s0, m)
    ensures forall i: nat, i': nat :: i < |vs| && i' < |vs| && Current(vs[i], key) && Current(vs[i'], key) ==> i == i'
  {
    forall i: nat, i': nat | i < |vs| && i' < |vs| && Current(vs[i], key) && Current(vs[i'], key) ensures i == i' {
      FromWrite(vs, q, s0, i);
      FromWrite(vs, q, s0, i');
    }
  }

  lemma WrittenLonger(vs: seq<Version>, c: Commit)
    ensures |vs| <= |Written(vs, c)| <= |vs| + 1
  {
  }

  lemma StillShown(vs: seq<Version>, c: Commit, s0: nat, m: map<Key, seq<Entry>>)
    requires ShowsMap(vs, s0, m) && s0 < c.seqno < SEQ_MAX
    ensures ShowsMap(Written(vs, c), s0, m)
  {
    hide Written, Visible;
    forall i: nat ensures InView(Written(vs, c), s0, i) <==> InView(vs, s0, i) { BeforeWrite(vs, c, s0, i); }
    assert |vs| <= |Written(vs, c)| by { WrittenLonger(vs, c); }
    forall i: nat | InView(vs, s0, i)
      ensures Written(vs, c)[i].key == vs[i].key && Written(vs, c)[i].rec.ad == vs[i].rec.ad
    {
      BeforeWrite(vs, c, s0, i);
    }
  }

  lemma DeleteShown(vs: seq<Version>, q: nat, key: Key, seqno: nat, s0: nat, m: map<Key, seq<Entry>>)
    requires UpTo(vs, q) && q <= seqno <= s0 < SEQ_MAX && ShowsMap(vs, s0, m)
    ensures ShowsMap(Superseded(vs, key, seqno), s0, m - {key})
  {
    hide Superseded, FindCurrent, Visible;
    var vs' := Superseded(vs, key, seqno);
    WrittenUpTo(vs, q, Commit(seqno, Delete(key)));
    assert Written(vs, Commit(seqno, Delete(key))) == vs';
    OneCurrent(vs, q, s0, m, key);
    forall i: nat | i < |vs|
      ensures InView(vs', s0, i) <==> InView(vs, s0, i) && vs[i].key != key
      ensures vs'[i].key == vs[i].key && vs'[i].rec.ad == vs[i].rec.ad
    {
      NoneCurrent(vs, key, seqno, i);
      FromWrite(vs, q, s0, i);
      FromWrite(vs', seqno, s0, i);
    }
  }

  lemma PutShown(vs: seq<Version>, m: map<Key, seq<Entry>>, v: Version, s0: nat)
    requires ShowsMap(vs, s0, m) && v.key !in m && v.rec.born <= s0 < v.rec.superseded
    ensures ShowsMap(vs + [v], s0, m[v.key := v.rec.ad])
  {
    var vs', m' := vs + [v], m[v.key := v.rec.ad];
    forall i: nat ensures InView(vs', s0, i) <==> InView(vs, s0, i) || i == |vs| {}
    forall key | key in m' ensures exists i: nat :: InView(vs', s0, i) && vs'[i].key == key {
      if key == v.key {
        assert InView(vs', s0, |vs|);
      } else {
        var i: nat :| InView(vs, s0, i) && vs[i].key == key;
        assert InView(vs', s0, i);
      }
    }
  }

  // A write keeps every snapshot exact: those before it as they were, those from it on with the write.
  lemma WriteKeeps(vs: seq<Version>, log: seq<Commit>, c: Commit)
    requires Logged(vs, log) && LastSeq(log) <= c.seqno && 0 < c.seqno < SEQ_MAX
    ensures Logged(Written(vs, c), log + [c])
  {
    hide ShowsMap, UpTo, Written, InOrder;
    var log' := log + [c];
    assert InOrder(log') by { OrderSnoc(log, c); }
    WrittenUpTo(vs, LastSeq(log), c);
    forall s0: nat | s0 < SEQ_MAX ensures ShowsMap(Written(vs, c), s0, Replay(log', s0)) {
      var m := Replay(log, s0);
      assert log'[..|log|] == log;
      if s0 < c.seqno {
        StillShown(vs, c, s0, m);
      } else {
        LaterShown(vs, log, c, s0);
      }
    }
  }

  lemma OrderSnoc(log: seq<Commit>, c: Commit)
    requires InOrder(log) && LastSeq(log) <= c.seqno && 0 < c.seqno < SEQ_MAX
    ensures InOrder(log + [c])
  {
  }

  lemma LaterShown(vs: seq<Version>, log: seq<Commit>, c: Commit, s0: nat)
    requires Logged(vs, log) && LastSeq(log) <= c.seqno <= s0 < SEQ_MAX
    ensures ShowsMap(Written(vs, c), s0, Replay(log + [c], s0))
  {
    hide ShowsMap, UpTo, InOrder, Superseded;
    var m := Replay(log, s0);
    assert (log + [c])[..|log|] == log;
    DeleteShown(vs, LastSeq(log), c.write.key, c.seqno, s0, m);
    if c.write.Put? {
      var m' := m - {c.write.key};
      PutShown(Superseded(vs, c.write.key, c.seqno), m', Fresh(c.write.key, c.write.ad, c.write.len, c.seqno), s0);
      assert m'[c.write.key := c.write.ad] == m[c.write.key := c.write.ad];
    }
  }

  // ---------------------------------------------------------------- counting a snapshot

  function RecsOf(vs: seq<Version>): (rs: seq<Rec>)
    ensures |rs| == |vs| && forall i :: 0 <= i < |vs| ==> rs[i] == vs[i].rec
  {
    seq(|vs|, i requires 0 <= i < |vs| => vs[i].rec)
  }

  // The keys whose ad satisfies every predicate.
  function Holding(m: map<Key, seq<Entry>>, preds: seq<Pred>): (ks: set<Key>)
  {
    set key | key in m && HoldsAll(preds, m[key])
  }

  ghost function MatchSet(rs: seq<Rec>, s0: nat, preds: seq<Pred>): set<nat>
  {
    set i: nat | i < |rs| && Matches(rs[i], s0, preds)
  }

  lemma {:induction false} CountSet(rs: seq<Rec>, s0: nat, preds: seq<Pred>)
    ensures CountMatching(rs, s0, preds) == |MatchSet(rs, s0, preds)|
    decreases |rs|
  {
    hide Matches;
    if rs != [] {
      var n := |rs| - 1;
      CountSet(rs[..n], s0, preds);
      var more := if Matches(rs[n], s0, preds) then {n} else {};
      assert MatchSet(rs, s0, preds) == MatchSet(rs[..n], s0, preds) + more;
      assert MatchSet(rs[..n], s0, preds) !! more;
    } else {
      assert MatchSet(rs, s0, preds) == {};
    }
  }

  // Two sets a pairing takes into each other one to one.
  lemma {:induction false} PairedSize(a: set<nat>, b: set<Key>, f: nat -> Key)
    requires forall i :: i in a ==> f(i) in b
    requires forall k :: k in b ==> exists i :: i in a && f(i) == k
    requires forall i, j :: i in a && j in a && f(i) == f(j) ==> i == j
    ensures |a| == |b|
    decreases a
  {
    if i :| i in a {
      PairedSize(a - {i}, b - {f(i)}, f);
    } else {
      assert b == {};
    }
  }

  lemma ShownCount(vs: seq<Version>, s0: nat, m: map<Key, seq<Entry>>, preds: seq<Pred>)
    requires ShowsMap(vs, s0, m)
    ensures CountMatching(RecsOf(vs), s0, preds) == |Holding(m, preds)|
  {
    hide CountMatching, HoldsAll, Visible;
    var a, b := MatchSet(RecsOf(vs), s0, preds), Holding(m, preds);
    CountSet(RecsOf(vs), s0, preds);
    var f := (i: nat) => if i < |vs| then vs[i].key else [];
    forall i | i in a ensures f(i) in b && InView(vs, s0, i) { assert InView(vs, s0, i); }
    forall k | k in b ensures exists i :: i in a && f(i) == k {
      var i: nat :| InView(vs, s0, i) && vs[i].key == k;
      assert i in a && f(i) == k;
    }
    PairedSize(a, b, f);
  }

  // The count at a snapshot is the number of records that the writes up to it leave and the predicates accept.
  lemma SnapshotCount(vs: seq<Version>, log: seq<Commit>, s0: nat, preds: seq<Pred>)
    requires Logged(vs, log) && s0 < SEQ_MAX
    ensures CountMatching(RecsOf(vs), s0, preds) == |Holding(Replay(log, s0), preds)|
  {
    hide ShowsMap, CountMatching, UpTo, InOrder;
    ShownCount(vs, s0, Replay(log, s0), preds);
  }

  // ---------------------------------------------------------------- segments

  // A segment with the counters its writes keep: bytes in use, bytes replaced, first birth and last replacement.
  datatype Arena = Arena(vers: seq<Version>, used: nat, dead: nat, minSeq: nat, maxSup: nat)

  function Size(vs: seq<Version>): (n: nat) { if vs == [] then 0 else Size(vs[..|vs| - 1]) + vs[|vs| - 1].rec.len }

  function DeadSize(vs: seq<Version>): (n: nat)
  {
    if vs == [] then 0
    else DeadSize(vs[..|vs| - 1]) + if vs[|vs| - 1].rec.superseded == SEQ_MAX then 0 else vs[|vs| - 1].rec.len
  }

  ghost predicate ArenaOK(a: Arena)
  {
    && a.used == Size(a.vers) && a.dead == DeadSize(a.vers) && a.maxSup < SEQ_MAX
    && (forall i {:trigger a.vers[i]} :: 0 <= i < |a.vers| ==> VersionOK(a, a.vers[i].rec))
    && (if a.vers == [] then a.minSeq == 0
        else exists i {:trigger a.vers[i]} :: 0 <= i < |a.vers| && a.vers[i].rec.born == a.minSeq)
    && (a.maxSup == 0 || exists i {:trigger a.vers[i]} :: 0 <= i < |a.vers| && a.vers[i].rec.superseded == a.maxSup)
  }

  predicate VersionOK(a: Arena, r: Rec)
  {
    !r.marker && 0 < r.len && 0 < a.minSeq <= r.born && (r.superseded <= a.maxSup || r.superseded == SEQ_MAX)
  }

  function Appended(a: Arena, v: Version): (r: Arena)
  {
    Arena(a.vers + [v], a.used + v.rec.len, a.dead,
          if a.minSeq == 0 || v.rec.born < a.minSeq then v.rec.born else a.minSeq, a.maxSup)
  }

  function Stamped(a: Arena, i: nat, seqno: nat): (r: Arena)
    requires i < |a.vers|
  {
    Arena(a.vers[i := Stamp(a.vers[i], seqno)], a.used, a.dead + a.vers[i].rec.len, a.minSeq,
          if seqno > a.maxSup then seqno else a.maxSup)
  }

  lemma SizeSnoc(vs: seq<Version>, v: Version)
    ensures Size(vs + [v]) == Size(vs) + v.rec.len
    ensures DeadSize(vs + [v]) == DeadSize(vs) + if v.rec.superseded == SEQ_MAX then 0 else v.rec.len
  {
    assert (vs + [v])[..|vs|] == vs;
  }

  lemma AppendedOK(a: Arena, v: Version)
    requires ArenaOK(a) && !v.rec.marker && v.rec.len > 0 && v.rec.born > 0 && v.rec.superseded == SEQ_MAX
    ensures ArenaOK(Appended(a, v))
  {
    hide Size, DeadSize;
    SizeSnoc(a.vers, v);
    var b := Appended(a, v);
    forall i | 0 <= i < |b.vers| ensures VersionOK(b, b.vers[i].rec) {
      if i < |a.vers| { assert VersionOK(a, a.vers[i].rec); }
    }
    if b.minSeq == v.rec.born {
      assert b.vers[|a.vers|] == v;
    } else {
      var i :| 0 <= i < |a.vers| && a.vers[i].rec.born == a.minSeq;
      assert b.vers[i] == a.vers[i];
    }
    if a.maxSup != 0 {
      var i :| 0 <= i < |a.vers| && a.vers[i].rec.superseded == a.maxSup;
      assert b.vers[i] == a.vers[i];
    }
  }

  lemma {:induction false} StampedSize(vs: seq<Version>, i: nat, seqno: nat)
    requires i < |vs| && vs[i].rec.superseded == SEQ_MAX && seqno < SEQ_MAX
    ensures var vs' := vs[i := Stamp(vs[i], seqno)];
      Size(vs') == Size(vs) && DeadSize(vs') == DeadSize(vs) + vs[i].rec.len
    decreases |vs|
  {
    var n := |vs| - 1;
    var vs' := vs[i := Stamp(vs[i], seqno)];
    if i < n {
      assert vs'[..n] == vs[..n][i := Stamp(vs[i], seqno)];
      StampedSize(vs[..n], i, seqno);
    } else {
      assert vs'[..n] == vs[..n];
    }
  }

  lemma StampedOK(a: Arena, i: nat, seqno: nat)
    requires ArenaOK(a) && i < |a.vers| && a.vers[i].rec.superseded == SEQ_MAX && seqno < SEQ_MAX
    ensures ArenaOK(Stamped(a, i, seqno))
  {
    hide Size, DeadSize;
    StampedSize(a.vers, i, seqno);
    var a' := Stamped(a, i, seqno);
    forall j | 0 <= j < |a'.vers| ensures VersionOK(a', a'.vers[j].rec) { assert VersionOK(a, a.vers[j].rec); }
    var f :| 0 <= f < |a.vers| && a.vers[f].rec.born == a.minSeq;
    assert a'.vers[f].rec.born == a'.minSeq;
    if seqno > a.maxSup {
      assert a'.vers[i].rec.superseded == a'.maxSup;
    } else if a.maxSup != 0 {
      var l :| 0 <= l < |a.vers| && a.vers[l].rec.superseded == a.maxSup;
      assert a'.vers[l] == a.vers[l];
    }
  }

  lemma {:induction false} AllDead(vs: seq<Version>, i: nat)
    requires DeadSize(vs) >= Size(vs) && i < |vs| && forall j {:trigger vs[j]} :: 0 <= j < |vs| ==> vs[j].rec.len > 0
    ensures vs[i].rec.superseded != SEQ_MAX
    decreases |vs|
  {
    var n := |vs| - 1;
    DeadAtMost(vs[..n]);
    if i < n { AllDead(vs[..n], i); }
  }

  lemma {:induction false} DeadAtMost(vs: seq<Version>)
    ensures DeadSize(vs) <= Size(vs)
    decreases |vs|
  {
    if vs != [] { DeadAtMost(vs[..|vs| - 1]); }
  }

  // Whether a scan at this snapshot has to open the segment, by its counters alone.
  predicate VisibleAt(a: Arena, s0: nat) { a.minSeq <= s0 && (a.dead < a.used || a.maxSup > s0) }

  // A segment that is passed over has nothing the snapshot shows.
  lemma SkipSound(a: Arena, s0: nat, preds: seq<Pred>)
    requires ArenaOK(a) && !VisibleAt(a, s0) && s0 < SEQ_MAX
    ensures CountMatching(RecsOf(a.vers), s0, preds) == 0
  {
    hide CountMatching, HoldsAll, Size, DeadSize;
    var rs := RecsOf(a.vers);
    forall i | 0 <= i < |rs| ensures !Matches(rs[i], s0, preds) {
      assert VersionOK(a, a.vers[i].rec);
      if a.dead >= a.used { AllDead(a.vers, i); }
    }
    CountNone(rs, s0, preds);
  }

  // And it is passed over exactly where all of it was born later, or all of it was replaced by then.
  lemma SkipExactly(a: Arena, s0: nat)
    requires ArenaOK(a) && a.vers != [] && s0 < SEQ_MAX
    ensures !VisibleAt(a, s0) <==>
      || (forall i :: 0 <= i < |a.vers| ==> a.vers[i].rec.born > s0)
      || (forall i :: 0 <= i < |a.vers| ==> a.vers[i].rec.superseded <= s0)
  {
    hide Size, DeadSize;
    var f :| 0 <= f < |a.vers| && a.vers[f].rec.born == a.minSeq;
    forall i | 0 <= i < |a.vers|
      ensures VersionOK(a, a.vers[i].rec) && (a.dead >= a.used ==> a.vers[i].rec.superseded != SEQ_MAX)
    {
      if a.dead >= a.used { AllDead(a.vers, i); }
    }
    if forall i :: 0 <= i < |a.vers| ==> a.vers[i].rec.superseded <= s0 { NoneAlive(a.vers); }
  }

  lemma {:induction false} NoneAlive(vs: seq<Version>)
    requires forall i :: 0 <= i < |vs| ==> vs[i].rec.superseded != SEQ_MAX
    ensures DeadSize(vs) == Size(vs)
    decreases |vs|
  {
    if vs != [] { NoneAlive(vs[..|vs| - 1]); }
  }

  function Flat(segs: seq<Arena>): (vs: seq<Version>)
  {
    if segs == [] then [] else Flat(segs[..|segs| - 1]) + segs[|segs| - 1].vers
  }

  lemma RecsConcat(a: seq<Version>, b: seq<Version>)
    ensures RecsOf(a + b) == RecsOf(a) + RecsOf(b)
  {
  }

  // Windows over these segments count what the segments hold.
  lemma {:induction false} WindowsOver(wins: seq<Window>, segs: seq<Arena>, s0: nat, preds: seq<Pred>)
    requires |wins| == |segs| && forall i :: 0 <= i < |wins| ==> Records(wins[i]) == RecsOf(segs[i].vers)
    ensures WindowsCount(wins, s0, preds) == CountMatching(RecsOf(Flat(segs)), s0, preds)
    decreases |wins|
  {
    hide Records, CountMatching;
    if wins != [] {
      var n := |wins| - 1;
      WindowsOver(wins[..n], segs[..n], s0, preds);
      RecsConcat(Flat(segs[..n]), segs[n].vers);
      CountConcat(RecsOf(Flat(segs[..n])), RecsOf(segs[n].vers), s0, preds);
    } else {
      CountNone([], s0, preds);
    }
  }

  lemma FlatSnoc(segs: seq<Arena>, a: Arena)
    ensures Flat(segs + [a]) == Flat(segs) + a.vers
  {
    assert (segs + [a])[..|segs|] == segs;
  }

  lemma {:induction false} FlatConcat(a: seq<Arena>, b: seq<Arena>)
    ensures Flat(a + b) == Flat(a) + Flat(b)
    decreases |b|
  {
    hide Flat;
    if b == [] {
      EmptyFlat();
      assert a + b == a;
    } else {
      var most, last := b[..|b| - 1], b[|b| - 1];
      FlatConcat(a, most);
      assert b == most + [last] && a + b == (a + most) + [last];
      FlatSnoc(most, last);
      FlatSnoc(a + most, last);
    }
  }

  lemma FlatOne(a: Arena)
    ensures Flat([a]) == a.vers
  {
    assert [a][..0] == [];
  }

  lemma SplitAt(segs: seq<Arena>, si: nat)
    requires si < |segs|
    ensures segs == segs[..si] + [segs[si]] + segs[si + 1..]
  {
  }

  lemma FlatAt(segs: seq<Arena>, si: nat)
    requires si < |segs|
    ensures Flat(segs) == Flat(segs[..si]) + segs[si].vers + Flat(segs[si + 1..])
  {
    hide Flat;
    var a, x, b := segs[..si], segs[si], segs[si + 1..];
    SplitAt(segs, si);
    calc {
      Flat(segs);
      Flat(a + [x] + b);
      { FlatConcat(a + [x], b); }
      Flat(a + [x]) + Flat(b);
      { FlatConcat(a, [x]); }
      Flat(a) + Flat([x]) + Flat(b);
      { FlatOne(x); }
      Flat(a) + x.vers + Flat(b);
    }
  }

  lemma UpdateWithin(a: seq<Version>, b: seq<Version>, c: seq<Version>, i: nat, v: Version)
    requires i < |b|
    ensures (a + b + c)[|a| + i := v] == a + b[i := v] + c && (a + b + c)[|a| + i] == b[i]
  {
  }

  // Replacing one version in its segment replaces it in the whole.
  lemma FlatStamped(segs: seq<Arena>, si: nat, vi: nat, seqno: nat)
    requires si < |segs| && vi < |segs[si].vers|
    ensures var at, vs := |Flat(segs[..si])| + vi, Flat(segs);
      && at < |vs| && vs[at] == segs[si].vers[vi]
      && Flat(segs[si := Stamped(segs[si], vi, seqno)]) == vs[at := Stamp(vs[at], seqno)]
  {
    hide Flat, Stamp;
    var segs' := segs[si := Stamped(segs[si], vi, seqno)];
    FlatAt(segs, si);
    FlatAt(segs', si);
    assert segs'[..si] == segs[..si] && segs'[si + 1..] == segs[si + 1..];
    UpdateWithin(Flat(segs[..si]), segs[si].vers, Flat(segs[si + 1..]), vi, Stamp(segs[si].vers[vi], seqno));
  }

  lemma FlatAppended(segs: seq<Arena>, v: Version)
    requires segs != []
    ensures Flat(segs[|segs| - 1 := Appended(segs[|segs| - 1], v)]) == Flat(segs) + [v]
  {
    var n := |segs| - 1;
    assert segs[n := Appended(segs[n], v)][..n] == segs[..n];
  }

  // With at most one current version, wherever it is found is where it is.
  lemma FoundIs(vs: seq<Version>, key: Key, at: nat)
    requires at < |vs| && Current(vs[at], key)
    requires forall i: nat, i': nat :: i < |vs| && i' < |vs| && Current(vs[i], key) && Current(vs[i'], key) ==> i == i'
    ensures FindCurrent(vs, key) == Some(at)
  {
  }

  lemma {:induction false} FlatMember(segs: seq<Arena>, i: nat) returns (si: nat, vi: nat)
    requires i < |Flat(segs)|
    ensures si < |segs| && vi < |segs[si].vers| && segs[si].vers[vi] == Flat(segs)[i]
    decreases |segs|
  {
    var n := |segs| - 1;
    var m := |Flat(segs[..n])|;
    if i < m { si, vi := FlatMember(segs[..n], i); } else { si, vi := n, i - m; }
  }

  // ---------------------------------------------------------------- the table

  // What the store answers when a record needs room.
  datatype Room = Fits | Opens | Fails

  class Table {
    var segs: seq<Arena>
    var commitSeq: nat
    var count: nat
    ghost var log: seq<Commit>

    // Its segments hold the versions its writes made, none past q, and it counts the records they leave.
    ghost predicate ValidAt(q: nat)
      reads this
    {
      && (forall i :: 0 <= i < |segs| ==> ArenaOK(segs[i])) && Logged(Flat(segs), log)
      && LastSeq(log) <= q < SEQ_MAX && count == |Replay(log, SEQ_MAX - 1)|
    }

    ghost predicate Valid()
      reads this
    {
      ValidAt(commitSeq)
    }

    constructor ()
      ensures Valid() && log == [] && commitSeq == 0
    {
      segs, commitSeq, count, log := [], 0, 0, [];
      new;
      NothingLogged();
    }

    // The key's current version, in the open segment or a sealed one.
    method Locate(key: Key) returns (si: nat, vi: nat, found: bool)
      ensures found ==> si < |segs| && vi < |segs[si].vers| && Current(segs[si].vers[vi], key)
      ensures !found ==> forall i, j :: 0 <= i < |segs| && 0 <= j < |segs[i].vers| ==> !Current(segs[i].vers[j], key)
    {
      var n := |segs|;
      while n > 0
        invariant 0 <= n <= |segs|
        invariant forall i, j :: n <= i < |segs| && 0 <= j < |segs[i].vers| ==> !Current(segs[i].vers[j], key)
      {
        n := n - 1;
        var m := |segs[n].vers|;
        while m > 0
          invariant 0 <= m <= |segs[n].vers|
          invariant forall j :: m <= j < |segs[n].vers| ==> !Current(segs[n].vers[j], key)
        {
          m := m - 1;
          if Current(segs[n].vers[m], key) { return n, m, true; }
        }
      }
      return 0, 0, false;
    }

    // The current version of the key, if there is one, is stamped where it lies.
    method Supersede(key: Key, seqno: nat) returns (found: bool)
      requires ValidAt(seqno)
      modifies this`segs
      ensures Flat(segs) == Superseded(old(Flat(segs)), key, seqno)
      ensures (forall i :: 0 <= i < |segs| ==> ArenaOK(segs[i])) && |segs| == old(|segs|)
      ensures (found <==> key in Replay(log, SEQ_MAX - 1)) && (!found ==> segs == old(segs))
    {
      hide Flat, ArenaOK, ShowsMap, UpTo, InOrder, FindCurrent, Stamped, Stamp;
      var si, vi;
      si, vi, found := Locate(key);
      ghost var vs := Flat(segs);
      LiveIsCurrent(vs, log, key);
      OneCurrent(vs, LastSeq(log), SEQ_MAX - 1, Replay(log, SEQ_MAX - 1), key);
      if found {
        FlatStamped(segs, si, vi, seqno);
        FoundIs(vs, key, |Flat(segs[..si])| + vi);
        StampedOK(segs[si], vi, seqno);
        segs := segs[si := Stamped(segs[si], vi, seqno)];
      } else {
        NotFound(segs, key);
      }
    }

    // The record goes to the end of the open segment, or of a new one.
    method WriteRecord(v: Version, room: Room)
      requires !v.rec.marker && v.rec.len > 0 && v.rec.born > 0 && v.rec.superseded == SEQ_MAX
      requires forall i :: 0 <= i < |segs| ==> ArenaOK(segs[i])
      modifies this`segs
      ensures Flat(segs) == old(Flat(segs)) + [v] && forall i :: 0 <= i < |segs| ==> ArenaOK(segs[i])
    {
      hide Flat, ArenaOK, Appended;
      if segs == [] || room.Opens? {
        var empty := Arena([], 0, 0, 0, 0);
        EmptyOK();
        FlatConcat(segs, [empty]);
        FlatOne(empty);
        segs := segs + [empty];
      }
      var n := |segs| - 1;
      FlatAppended(segs, v);
      AppendedOK(segs[n], v);
      segs := segs[n := Appended(segs[n], v)];
    }

    // One write at this number. A record there is no room for leaves everything as it was, and so does deleting what is
    // not there.
    method Apply(w: Write, room: Room, seqno: nat) returns (done: bool)
      requires ValidAt(seqno) && 0 < seqno && (w.Put? ==> w.len > 0)
      modifies this
      ensures ValidAt(seqno) && commitSeq == old(commitSeq)
      ensures done <==> if w.Put? then room != Fails else w.key in Replay(old(log), SEQ_MAX - 1)
      ensures log == if done then old(log) + [Commit(seqno, w)] else old(log)
      ensures !done ==> segs == old(segs) && count == old(count)
    {
      hide Flat, ArenaOK, Logged, Superseded, Replay;
      if w.Put? && room.Fails? { return false; }
      ghost var c := Commit(seqno, w);
      WriteKeeps(Flat(segs), log, c);
      CountAfter(log, c);
      LastIs(log, c);
      var found := Supersede(w.key, seqno);
      if w.Put? {
        WriteRecord(Fresh(w.key, w.ad, w.len, seqno), room);
        count := if found then count else count + 1;
      } else if found {
        LiveSome(log, w.key);
        count := count - 1;
      } else {
        return false;
      }
      log := log + [c];
      done := true;
    }

    // A batch commits at one fresh number: a snapshot has all of it or none.
    method ApplyBatch(ws: seq<Write>, rooms: seq<Room>)
      requires Valid() && |rooms| == |ws| && commitSeq + 1 < SEQ_MAX
      requires forall i :: 0 <= i < |ws| && ws[i].Put? ==> ws[i].len > 0
      modifies this
      ensures Valid() && commitSeq == old(commitSeq) + 1
      ensures forall s0: nat :: s0 < commitSeq ==> Replay(log, s0) == Replay(old(log), s0)
    {
      hide Flat, ArenaOK, Logged, Replay;
      var seqno := commitSeq + 1;
      for i := 0 to |ws|
        invariant ValidAt(seqno) && commitSeq == old(commitSeq)
        invariant forall s0: nat :: s0 < seqno ==> Replay(log, s0) == Replay(old(log), s0)
      {
        ghost var was := log;
        var done := Apply(ws[i], rooms[i], seqno);
        forall s0: nat | s0 < seqno ensures Replay(log, s0) == Replay(was, s0) {
          LaterHidden(was, Commit(seqno, ws[i]), s0);
        }
      }
      commitSeq := seqno;
    }

    // The segments a scan at this snapshot opens show what the writes up to it leave.
    method Snapshot(s0: nat) returns (wins: seq<Arena>)
      requires Valid() && s0 < SEQ_MAX
      ensures forall a :: a in wins ==> a in segs
      ensures forall preds :: CountMatching(RecsOf(Flat(wins)), s0, preds) == |Holding(Replay(log, s0), preds)|
    {
      hide Flat, ArenaOK, Logged, Replay, CountMatching, Holding, VisibleAt;
      wins := [];
      EmptyFlat();
      for i := 0 to |segs|
        invariant forall a :: a in wins ==> a in segs
        invariant forall preds ::
          CountMatching(RecsOf(Flat(wins)), s0, preds) == CountMatching(RecsOf(Flat(segs[..i])), s0, preds)
      {
        ghost var was := wins;
        if VisibleAt(segs[i], s0) { wins := wins + [segs[i]]; }
        forall preds
          ensures CountMatching(RecsOf(Flat(wins)), s0, preds) == CountMatching(RecsOf(Flat(segs[..i + 1])), s0, preds)
        {
          assert segs[..i + 1] == segs[..i] + [segs[i]];
          CountSnoc(was, segs[i], s0, preds);
          CountSnoc(segs[..i], segs[i], s0, preds);
          if !VisibleAt(segs[i], s0) { SkipSound(segs[i], s0, preds); }
        }
      }
      assert segs[..|segs|] == segs;
      forall preds ensures CountMatching(RecsOf(Flat(wins)), s0, preds) == |Holding(Replay(log, s0), preds)| {
        SnapshotCount(Flat(segs), log, s0, preds);
      }
    }

    // The version of the key a snapshot shows, if it shows one.
    method GetAt(key: Key, s0: nat) returns (r: Option<seq<Entry>>)
      requires Valid() && s0 < SEQ_MAX
      ensures r == if key in Replay(log, s0) then Some(Replay(log, s0)[key]) else None
    {
      hide Flat, ArenaOK, Replay, UpTo, InOrder;
      assert ShowsMap(Flat(segs), s0, Replay(log, s0));
      for si := 0 to |segs|
        invariant forall i, j :: 0 <= i < si && 0 <= j < |segs[i].vers| ==> !Answers(segs[i].vers[j], key, s0)
      {
        for vi := 0 to |segs[si].vers|
          invariant forall j :: 0 <= j < vi ==> !Answers(segs[si].vers[j], key, s0)
        {
          if Answers(segs[si].vers[vi], key, s0) {
            FlatStamped(segs, si, vi, 0);
            assert InView(Flat(segs), s0, |Flat(segs[..si])| + vi);
            return Some(segs[si].vers[vi].rec.ad);
          }
        }
      }
      if key in Replay(log, s0) {
        ghost var i: nat :| InView(Flat(segs), s0, i) && Flat(segs)[i].key == key;
        ghost var si, vi := FlatMember(segs, i);
      }
      return None;
    }
  }

  predicate Answers(v: Version, key: Key, s0: nat) { v.key == key && v.rec.born <= s0 && v.rec.superseded > s0 }

  lemma LaterHidden(log: seq<Commit>, c: Commit, s0: nat)
    requires s0 < c.seqno
    ensures Replay(log + [c], s0) == Replay(log, s0)
  {
    assert (log + [c])[..|log|] == log;
  }

  lemma EmptyFlat()
    ensures Flat([]) == []
  {
  }

  lemma CountSnoc(segs: seq<Arena>, a: Arena, s0: nat, preds: seq<Pred>)
    ensures CountMatching(RecsOf(Flat(segs + [a])), s0, preds) ==
      CountMatching(RecsOf(Flat(segs)), s0, preds) + CountMatching(RecsOf(a.vers), s0, preds)
  {
    hide Flat, CountMatching;
    FlatConcat(segs, [a]);
    FlatOne(a);
    RecsConcat(Flat(segs), a.vers);
    CountConcat(RecsOf(Flat(segs)), RecsOf(a.vers), s0, preds);
  }

  lemma LastIs(log: seq<Commit>, c: Commit)
    ensures LastSeq(log + [c]) == c.seqno
  {
  }

  lemma LiveSome(log: seq<Commit>, key: Key)
    requires key in Replay(log, SEQ_MAX - 1)
    ensures |Replay(log, SEQ_MAX - 1)| > 0
  {
    hide Replay;
    assert key in Replay(log, SEQ_MAX - 1).Keys;
  }

  lemma EmptyOK()
    ensures ArenaOK(Arena([], 0, 0, 0, 0))
  {
  }

  lemma NotFound(segs: seq<Arena>, key: Key)
    requires forall i, j :: 0 <= i < |segs| && 0 <= j < |segs[i].vers| ==> !Current(segs[i].vers[j], key)
    ensures FindCurrent(Flat(segs), key) == None
  {
    hide Flat, Current;
    var at := FindCurrent(Flat(segs), key);
    if at.Some? {
      var si, vi := FlatMember(segs, at.value);
    }
  }

  // A key the writes leave has a current version, and no other has.
  lemma LiveIsCurrent(vs: seq<Version>, log: seq<Commit>, key: Key)
    requires Logged(vs, log) && LastSeq(log) < SEQ_MAX
    ensures key in Replay(log, SEQ_MAX - 1) <==> exists i: nat :: i < |vs| && Current(vs[i], key)
    ensures key in Replay(log, SEQ_MAX - 1) <==> FindCurrent(vs, key).Some?
  {
    hide FindCurrent, Replay;
    var m := Replay(log, SEQ_MAX - 1);
    assert ShowsMap(vs, SEQ_MAX - 1, m);
    if key in m {
      var i: nat :| InView(vs, SEQ_MAX - 1, i) && vs[i].key == key;
      FromWrite(vs, LastSeq(log), SEQ_MAX - 1, i);
      assert Current(vs[i], key);
    }
    if i: nat :| i < |vs| && Current(vs[i], key) {
      FromWrite(vs, LastSeq(log), SEQ_MAX - 1, i);
      assert InView(vs, SEQ_MAX - 1, i);
    }
  }

  lemma MapSizes(m: map<Key, seq<Entry>>, key: Key, ad: seq<Entry>)
    ensures |m[key := ad]| == if key in m then |m| else |m| + 1
    ensures |m - {key}| == if key in m then |m| - 1 else |m|
  {
    assert m[key := ad].Keys == m.Keys + {key};
    assert (m - {key}).Keys == m.Keys - {key};
  }

  lemma CountAfter(log: seq<Commit>, c: Commit)
    requires c.seqno < SEQ_MAX
    ensures var m := Replay(log, SEQ_MAX - 1);
      |Replay(log + [c], SEQ_MAX - 1)| == |m| + if c.write.Put? then (if c.write.key in m then 0 else 1)
        else (if c.write.key in m then -1 else 0)
  {
    assert (log + [c])[..|log|] == log;
    MapSizes(Replay(log, SEQ_MAX - 1), c.write.key, if c.write.Put? then c.write.ad else []);
  }

  // ---------------------------------------------------------------- the whole collection

  // A shard whose windows are over the segments a snapshot of its writes opens.
  ghost predicate ShardOf(sh: Shard, log: seq<Commit>)
  {
    forall preds ::
      WindowsCount(sh.wins, sh.snapshot, preds) == |Holding(Replay(log, sh.snapshot), preds)|
  }

  lemma WindowsShow(sh: Shard, segs: seq<Arena>, log: seq<Commit>)
    requires |sh.wins| == |segs| && forall i :: 0 <= i < |segs| ==> Records(sh.wins[i]) == RecsOf(segs[i].vers)
    requires forall preds ::
      CountMatching(RecsOf(Flat(segs)), sh.snapshot, preds) == |Holding(Replay(log, sh.snapshot), preds)|
    ensures ShardOf(sh, log)
  {
    hide Records, Flat, CountMatching, Holding, Replay, WindowsCount;
    forall preds ensures WindowsCount(sh.wins, sh.snapshot, preds) == |Holding(Replay(log, sh.snapshot), preds)| {
      WindowsOver(sh.wins, segs, sh.snapshot, preds);
    }
  }

  function LiveCount(logs: seq<seq<Commit>>, snaps: seq<nat>, preds: seq<Pred>): (n: nat)
    requires |logs| == |snaps|
  {
    if logs == [] then 0
    else
      var n := |logs| - 1;
      LiveCount(logs[..n], snaps[..n], preds) + |Holding(Replay(logs[n], snaps[n]), preds)|
  }

  function SnapsOf(shards: seq<Shard>): (r: seq<nat>)
    ensures |r| == |shards| && forall i :: 0 <= i < |shards| ==> r[i] == shards[i].snapshot
  {
    seq(|shards|, i requires 0 <= i < |shards| => shards[i].snapshot)
  }

  // The row-walk count of the collection is the number of records that each shard's writes up to its snapshot leave
  // and the predicates accept.
  lemma {:induction false} CollectionCount(shards: seq<Shard>, logs: seq<seq<Commit>>, preds: seq<Pred>)
    requires |logs| == |shards| && forall i :: 0 <= i < |shards| ==> ShardOf(shards[i], logs[i])
    ensures RowCount(shards, preds) == LiveCount(logs, SnapsOf(shards), preds)
    decreases |shards|
  {
    hide Replay, Holding, WindowsCount;
    if shards != [] {
      var n := |shards| - 1;
      CollectionCount(shards[..n], logs[..n], preds);
      assert SnapsOf(shards)[..n] == SnapsOf(shards[..n]);
      assert ShardOf(shards[n], logs[n]);
    }
  }
}
