/** Group columns: a selection of one base block's records, reached through a membership bitmap whose
    prefix-popcount table turns a record index into a row of the group's own block. */
module Groups {
  import opened Bytes
  import opened Wire
  import opened Row
  import opened ColBlock
  import opened Values
  import opened Fields

  // ---------------------------------------------------------------- bit ranks

  function PopCount(x: nat): (n: nat)
    decreases x
  {
    if x == 0 then 0 else x % 2 + PopCount(x / 2)
  }

  // How many of the first j bits of a bitset are set.
  function Rank(m: seq<byte>, j: nat): (n: nat)
    ensures n <= j
  {
    if j == 0 then 0 else Rank(m, j - 1) + if HasBit(m, j - 1) then 1 else 0
  }

  function PopBytes(m: seq<byte>, lo: nat, hi: nat): (n: nat)
    requires lo <= hi <= |m|
    decreases hi - lo
  {
    if lo == hi then 0 else PopBytes(m, lo, hi - 1) + PopCount(m[hi - 1])
  }

  // Bits below j of one value.
  function LowBits(x: nat, j: nat): (n: nat)
  {
    if j == 0 then 0 else LowBits(x, j - 1) + if Bit(x, j - 1) then 1 else 0
  }

  lemma {:induction false} LowBitsHalf(x: nat, j: nat)
    requires j > 0
    ensures LowBits(x, j) == x % 2 + LowBits(x / 2, j - 1)
    decreases j
  {
    if j > 1 { LowBitsHalf(x, j - 1); }
  }

  // Masking to the low j bits and counting is counting the low j bits.
  lemma {:induction false} PopMasked(x: nat, j: nat)
    ensures PopCount(x % Pow2(j)) == LowBits(x, j)
    decreases j
  {
    if j > 0 {
      var p := Pow2(j - 1);
      LowBitsHalf(x, j);
      PopMasked(x / 2, j - 1);
      var y := x % Pow2(j);
      assert y % 2 == x % 2 && y / 2 == (x / 2) % p by { HalveMod(x, p); }
      if y == 0 { assert (x / 2) % p == 0; }
    }
  }

  lemma HalveMod(x: nat, p: nat)
    requires p > 0
    ensures (x % (2 * p)) % 2 == x % 2 && (x % (2 * p)) / 2 == (x / 2) % p
  {
    var h, b := x / 2, x % 2;
    var q, r := h / p, h % p;
    assert x == 2 * (q * p + r) + b;
    assert 2 * (q * p) == (2 * p) * q;
    ModUnique(x, 2 * p, q, 2 * r + b);
  }

  lemma ByteBits(x: byte)
    ensures PopCount(x) == LowBits(x, 8)
  {
    hide PopCount, LowBits;
    assert Pow2(4) == 16 && Pow2(8) == 256;
    PopMasked(x, 8);
    assert x % 256 == x;
  }

  // A rank is whole bytes, then the low bits of one more.
  lemma {:induction false} RankSplit(m: seq<byte>, i: nat, j: nat)
    requires i < |m| && j <= 8
    ensures Rank(m, 8 * i + j) == Rank(m, 8 * i) + LowBits(m[i], j)
    decreases j
  {
    if j > 0 {
      RankSplit(m, i, j - 1);
      var k := 8 * i + (j - 1);
      assert k / 8 == i && k % 8 == j - 1;
    }
  }

  lemma RankByte(m: seq<byte>, i: nat)
    requires i < |m|
    ensures Rank(m, 8 * (i + 1)) == Rank(m, 8 * i) + PopCount(m[i])
  {
    hide Rank, LowBits, PopCount, Bit;
    RankSplit(m, i, 8);
    ByteBits(m[i]);
  }

  lemma {:induction false} RankBytes(m: seq<byte>, lo: nat, hi: nat)
    requires lo <= hi <= |m|
    ensures Rank(m, 8 * hi) == Rank(m, 8 * lo) + PopBytes(m, lo, hi)
    decreases hi - lo
  {
    if lo < hi {
      hide Rank, LowBits, PopCount, Bit;
      RankBytes(m, lo, hi - 1);
      RankByte(m, hi - 1);
    }
  }

  lemma {:induction false} RankMono(m: seq<byte>, i: nat, j: nat)
    requires i <= j
    ensures Rank(m, i) <= Rank(m, j)
    ensures i < j && HasBit(m, i) ==> Rank(m, i) < Rank(m, j)
    decreases j
  {
    if i < j { RankMono(m, i, j - 1); }
  }

  // ---------------------------------------------------------------- the group block

  datatype GroupBlock = GroupBlock(members: seq<byte>, rank: seq<nat>, exceptions: seq<nat>, blk: Option<Block>)

  // rank[i] counts the members among the first 64i records.
  ghost predicate RankTable(m: seq<byte>, rank: seq<nat>, n: nat)
  {
    |rank| == n / 64 + 1 && forall i :: 0 <= i < |rank| ==> rank[i] == Rank(m, 64 * i)
  }

  method BuildRank(m: seq<byte>, n: nat) returns (rank: seq<nat>)
    requires |m| == BitBytes(n)
    ensures RankTable(m, rank, n)
  {
    hide Rank;
    rank := [];
    var acc: nat := 0;
    RankZero(m);
    for i := 0 to n / 64 + 1
      invariant |rank| == i && acc == Rank(m, 64 * i)
      invariant forall x :: 0 <= x < i ==> rank[x] == Rank(m, 64 * x)
    {
      rank := rank + [acc];
      var j := 8 * i;
      while j < 8 * (i + 1) && j < |m|
        invariant 8 * i <= j <= 8 * (i + 1)
        invariant acc == Rank(m, 8 * j)
      {
        RankBytes(m, j, j + 1);
        acc := acc + PopCount(m[j]);
        j := j + 1;
      }
      RankBeyond(m, 8 * j, 64 * (i + 1));
    }
  }

  lemma RankZero(m: seq<byte>)
    ensures Rank(m, 0) == 0
  {
  }

  lemma {:induction false} RankBeyond(m: seq<byte>, i: nat, j: nat)
    requires i <= j && (i < j ==> 8 * |m| <= i)
    ensures Rank(m, j) == Rank(m, i)
    decreases j
  {
    if i < j { RankBeyond(m, i, j - 1); }
  }

  // A base record index to its row in the group's block: the prefix table to the last 64-boundary, whole
  // bytes after it, then the low bits of the last byte.
  method Index(gb: GroupBlock, n: nat, k: nat) returns (r: Option<nat>)
    requires |gb.members| == BitBytes(n) && RankTable(gb.members, gb.rank, n)
    ensures r == if gb.blk.Some? && HasBit(gb.members, k) then Some(Rank(gb.members, k)) else None
  {
    hide Rank, Bit, PopCount, PopBytes;
    var m := gb.members;
    if gb.blk.None? || k / 8 >= |m| || !Bit(m[k / 8], k % 8) {
      return None;
    }
    assert k / 64 <= n / 64 by { BitInTable(n, k); }
    var c := gb.rank[k / 64];
    var i := 8 * (k / 64);
    while i < k / 8
      invariant 8 * (k / 64) <= i <= k / 8
      invariant c == Rank(m, 8 * i)
    {
      RankBytes(m, i, i + 1);
      assert PopBytes(m, i, i + 1) == PopCount(m[i]) by { PopOne(m, i); }
      c := c + PopCount(m[i]);
      i := i + 1;
    }
    RankSplit(m, k / 8, k % 8);
    PopMasked(m[k / 8], k % 8);
    c := c + PopCount(m[k / 8] % Pow2(k % 8));
    return Some(c);
  }

  lemma BitInTable(n: nat, k: nat)
    requires k / 8 < BitBytes(n)
    ensures k / 64 <= n / 64
  {
    assert k / 8 <= (n + 7) / 8 - 1;
    assert k / 8 <= n / 8;
    assert k / 64 == (k / 8) / 8 && n / 64 == (n / 8) / 8;
  }

  lemma PopOne(m: seq<byte>, i: nat)
    requires i < |m|
    ensures PopBytes(m, i, i + 1) == PopCount(m[i])
  {
    assert PopBytes(m, i, i) == 0;
  }

  // The rank is a bijection from members onto 0..total: increasing, so injective, and onto.
  lemma RankInjective(m: seq<byte>, k: nat, k': nat)
    requires HasBit(m, k) && HasBit(m, k') && Rank(m, k) == Rank(m, k')
    ensures k == k'
  {
    if k < k' { RankMono(m, k, k'); } else if k' < k { RankMono(m, k', k); }
  }

  lemma {:induction false} RankOnto(m: seq<byte>, n: nat, r: nat) returns (k: nat)
    requires r < Rank(m, n)
    ensures k < n && HasBit(m, k) && Rank(m, k) == r
    decreases n
  {
    if r < Rank(m, n - 1) {
      k := RankOnto(m, n - 1, r);
    } else {
      k := n - 1;
    }
  }

  // ---------------------------------------------------------------- membership

  // A group: its own schema, whose field ids are exactly its member attributes.
  datatype Group = Group(schema: Schema, ids: seq<nat>)

  ghost predicate ValidGroup(g: Group)
  {
    && ValidSchema(g.schema) && g.ids != []
    && (forall i, j :: 0 <= i < j < |g.ids| ==> g.ids[i] != g.ids[j])
    && (forall id :: id in g.ids <==> id in g.schema.byId)
  }

  predicate HasAttr(ad: seq<Entry>, id: nat) { Lookup(ad, id).Some? }

  // How many of the ad's attributes are in the set.
  function Have(ad: seq<Entry>, ids: set<nat>): (n: nat)
  {
    if ad == [] then 0 else Have(ad[..|ad| - 1], ids) + if ad[|ad| - 1].id in ids then 1 else 0
  }

  function IdSet(ids: seq<nat>): (r: set<nat>) { set i | i in ids }

  function Present(ad: seq<Entry>, ids: set<nat>): (r: set<nat>) { set id | id in ids && HasAttr(ad, id) }

  // Attribute ids are distinct, so the count is the number of members present.
  lemma {:induction false} HaveIsPresent(ad: seq<Entry>, ids: set<nat>)
    requires DistinctIds(ad)
    ensures Have(ad, ids) == |Present(ad, ids)|
    decreases |ad|
  {
    hide Lookup, Present;
    if ad == [] {
      NoAttrs(ids);
    } else {
      HaveIsPresent(ad[..|ad| - 1], ids);
      PresentStep(ad, ids);
    }
  }

  lemma PresentStep(ad: seq<Entry>, ids: set<nat>)
    requires DistinctIds(ad) && ad != []
    ensures |Present(ad, ids)| == |Present(ad[..|ad| - 1], ids)| + if ad[|ad| - 1].id in ids then 1 else 0
  {
    hide Lookup;
    var n := |ad| - 1;
    var e := ad[n];
    assert ad == ad[..n] + [e];
    forall id ensures HasAttr(ad, id) <==> HasAttr(ad[..n], id) || id == e.id { LookupSnoc(ad[..n], e, id); }
    assert !HasAttr(ad[..n], e.id) by { FreshLast(ad); }
    if e.id in ids {
      assert Present(ad, ids) == Present(ad[..n], ids) + {e.id};
    } else {
      assert Present(ad, ids) == Present(ad[..n], ids);
    }
  }

  lemma NoAttrs(ids: set<nat>)
    ensures Present([], ids) == {}
  {
  }

  lemma FreshLast(ad: seq<Entry>)
    requires DistinctIds(ad) && ad != []
    ensures Lookup(ad[..|ad| - 1], ad[|ad| - 1].id).None?
  {
  }

  lemma SubsetFull(a: set<nat>, b: set<nat>)
    requires a <= b && |a| == |b|
    ensures a == b
  {
    if a != b {
      var x :| x in b && x !in a;
      assert a <= b - {x};
      SubsetSize(a, b - {x});
    }
  }

  lemma SubsetSize(a: set<nat>, b: set<nat>)
    requires a <= b
    ensures |a| <= |b|
  {
    if a != {} {
      var x :| x in a;
      SubsetSize(a - {x}, b - {x});
    }
  }

  lemma {:induction false} IdSetSize(ids: seq<nat>)
    requires forall i, j :: 0 <= i < j < |ids| ==> ids[i] != ids[j]
    ensures |IdSet(ids)| == |ids|
  {
    if ids != [] {
      var n := |ids| - 1;
      IdSetSize(ids[..n]);
      assert IdSet(ids) == IdSet(ids[..n]) + {ids[n]};
      assert ids[n] !in IdSet(ids[..n]);
    }
  }

  // Whole membership, no membership, or an exception: decided by the count.
  predicate Whole(ad: seq<Entry>, g: Group) { forall id :: id in g.ids ==> HasAttr(ad, id) }

  predicate Nothing(ad: seq<Entry>, g: Group) { forall id :: id in g.ids ==> !HasAttr(ad, id) }

  lemma HaveDecides(ad: seq<Entry>, g: Group)
    requires DistinctIds(ad) && ValidGroup(g)
    ensures Have(ad, IdSet(g.ids)) == |g.ids| <==> Whole(ad, g)
    ensures Have(ad, IdSet(g.ids)) == 0 <==> Nothing(ad, g)
    ensures !(Whole(ad, g) && Nothing(ad, g))
  {
    hide HasAttr, Have, ValidSchema;
    var ids := IdSet(g.ids);
    HaveIsPresent(ad, ids);
    IdSetSize(g.ids);
    if |Present(ad, ids)| == |g.ids| {
      SubsetFull(Present(ad, ids), ids);
      forall id | id in g.ids ensures HasAttr(ad, id) { assert id in Present(ad, ids); }
    }
    if Whole(ad, g) {
      forall id | id in ids ensures id in Present(ad, ids) { assert id in g.ids; }
      assert Present(ad, ids) == ids;
    }
    if |Present(ad, ids)| == 0 {
      forall id | id in g.ids ensures !HasAttr(ad, id) { assert id !in Present(ad, ids); }
    }
    if Nothing(ad, g) {
      forall id | id in ids ensures id !in Present(ad, ids) { assert id in g.ids; }
      assert Present(ad, ids) == {};
    }
    assert g.ids[0] in g.ids;
  }

  // The attributes a record's base row leaves out: the members of every group it holds wholly.
  method GroupSkipSet(groups: seq<Group>, ad: seq<Entry>) returns (skip: set<nat>)
    requires DistinctIds(ad) && forall i :: 0 <= i < |groups| ==> ValidGroup(groups[i])
    ensures skip == SkipSet(groups, ad)
  {
    hide ValidGroup, Whole, Have;
    skip := {};
    for i := 0 to |groups|
      invariant skip == SkipSet(groups[..i], ad)
    {
      HaveDecides(ad, groups[i]);
      assert groups[..i + 1][..i] == groups[..i];
      if Have(ad, IdSet(groups[i].ids)) == |groups[i].ids| {
        skip := skip + IdSet(groups[i].ids);
      }
    }
    assert groups[..|groups|] == groups;
  }

  function SkipSet(groups: seq<Group>, ad: seq<Entry>): (skip: set<nat>)
    ensures forall id :: id in skip <==> exists i :: 0 <= i < |groups| && Whole(ad, groups[i]) && id in groups[i].ids
  {
    if groups == [] then {}
    else
      var n := |groups| - 1;
      SkipSet(groups[..n], ad) + if Whole(ad, groups[n]) then IdSet(groups[n].ids) else {}
  }

  // ---------------------------------------------------------------- building a selection

  // The ads of the whole members, in record order.
  function MemberAds(g: Group, ads: seq<seq<Entry>>): (r: seq<seq<Entry>>)
    ensures |r| <= |ads|
  {
    if ads == [] then []
    else
      var n := |ads| - 1;
      MemberAds(g, ads[..n]) + if Whole(ads[n], g) then [ads[n]] else []
  }

  ghost predicate MembersOf(m: seq<byte>, g: Group, ads: seq<seq<Entry>>)
  {
    |m| == BitBytes(|ads|) && forall k: nat {:trigger HasBit(m, k)} ::
      k < |ads| ==> (HasBit(m, k) <==> Whole(ads[k], g))
  }

  // Exactly the records holding some but not all of the group, ascending.
  ghost predicate ExceptionsOf(ex: seq<nat>, g: Group, ads: seq<seq<Entry>>)
  {
    && (forall i, j :: 0 <= i < j < |ex| ==> ex[i] < ex[j])
    && (forall k :: k in ex ==> k < |ads|)
    && (forall k: nat :: k < |ads| ==> (k in ex <==> !Whole(ads[k], g) && !Nothing(ads[k], g)))
  }

  ghost predicate GroupBlockFor(gb: GroupBlock, g: Group, key: nat -> nat, ads: seq<seq<Entry>>)
  {
    && MembersOf(gb.members, g, ads)
    && RankTable(gb.members, gb.rank, |ads|)
    && ExceptionsOf(gb.exceptions, g, ads)
    && (gb.blk.Some? <==> MemberAds(g, ads) != [])
    && (gb.blk.Some? ==> gb.blk.value.schema == g.schema && BlockFor(gb.blk.value, key, MemberAds(g, ads)))
  }

  // The member at base index k sits at its rank in the group's block.
  lemma {:induction false} MemberAtRank(m: seq<byte>, g: Group, ads: seq<seq<Entry>>, n: nat, k: nat)
    requires MembersOf(m, g, ads) && k < n <= |ads| && HasBit(m, k)
    ensures |MemberAds(g, ads[..n])| == Rank(m, n)
    ensures Rank(m, k) < |MemberAds(g, ads[..n])| && MemberAds(g, ads[..n])[Rank(m, k)] == ads[k]
    decreases n
  {
    hide HasBit, Whole;
    MemberCount(m, g, ads, n);
    assert ads[..n][..n - 1] == ads[..n - 1];
    if k < n - 1 {
      MemberAtRank(m, g, ads, n - 1, k);
    } else {
      MemberCount(m, g, ads, n - 1);
      assert HasBit(m, k) <==> Whole(ads[k], g);
    }
  }

  lemma {:induction false} MemberCount(m: seq<byte>, g: Group, ads: seq<seq<Entry>>, n: nat)
    requires MembersOf(m, g, ads) && n <= |ads|
    ensures |MemberAds(g, ads[..n])| == Rank(m, n)
    decreases n
  {
    hide HasBit, Whole;
    if n > 0 {
      MemberCount(m, g, ads, n - 1);
      assert ads[..n][..n - 1] == ads[..n - 1];
      assert HasBit(m, n - 1) <==> Whole(ads[n - 1], g);
    }
  }

  lemma EncodedMember(g: Group, key: nat -> nat, mads: seq<seq<Entry>>, rows: seq<seq<byte>>, ad: seq<Entry>,
                      row: seq<byte>)
    requires RowsOf(g.schema, key, mads, rows) && ValidAd(ad) && RowOf(g.schema, key, ad, row)
    requires ValidEntries(ColdEntries(g.schema, key, ad))
    ensures RowsOf(g.schema, key, mads + [ad], rows + [row])
  {
    hide RowOf, ColdEntries, ValidAd, ValidEntries;
  }

  lemma {:induction false} WithoutNone(ad: seq<Entry>)
    ensures Without(ad, {}) == ad
    decreases |ad|
  {
    if ad != [] { WithoutNone(ad[..|ad| - 1]); }
  }

  lemma RowsShaped(s: Schema, key: nat -> nat, ads: seq<seq<Entry>>, rows: seq<seq<byte>>)
    requires RowsOf(s, key, ads, rows)
    ensures forall k :: 0 <= k < |rows| ==> Shaped(s, rows[k])
  {
    hide Shaped, ColdEntries;
    forall k | 0 <= k < |rows| ensures Shaped(s, rows[k]) {
      assert RowOf(s, key, ads[k], rows[k]);
      SplitRow(s, key, ads[k], rows[k]);
    }
  }

  // Classify every record of a base block by how much of the group it holds, and encode the whole members.
  method BuildGroupBlock(g: Group, key: nat -> nat, ads: seq<seq<Entry>>) returns (gb: GroupBlock)
    requires ValidGroup(g)
    requires forall k :: 0 <= k < |ads| ==> ValidAd(ads[k]) && ValidEntries(ColdEntries(g.schema, key, ads[k]))
    ensures GroupBlockFor(gb, g, key, ads)
  {
    hide HasBit, Whole, Nothing, ValidGroup, Have, ColdEntries, ValidEntries, ValidEntry, RowsOf, MembersOf,
      ExceptionsOf, MemberAds, SoFar;
    var bits := new byte[BitBytes(|ads|)](_ => 0);
    var ex: seq<nat> := [];
    var rows: seq<seq<byte>> := [];
    assert ads[..0] == [];
    assert MemberAds(g, []) == [] && ExceptionsOf([], g, []) by { NothingYet(g); }
    NoMembers(bits[..], g, ads);
    NoRows(g.schema, key);
    var k: nat := 0;
    while k < |ads|
      invariant 0 <= k <= |ads| && bits.Length == BitBytes(|ads|)
      invariant SoFar(bits[..], g, ads, k)
      invariant ExceptionsOf(ex, g, ads[..k])
      invariant RowsOf(g.schema, key, MemberAds(g, ads[..k]), rows)
    {
      var ad := ads[k];
      HaveDecides(ad, g);
      var have := Have(ad, IdSet(g.ids));
      ghost var was := bits[..];
      MemberAdsStep(g, ads, k);
      ExceptionsStep(ex, g, ads, k);
      if have == 0 {
      } else if have == |g.ids| {
        SetBitAt(bits, k);
        var row := EncodeMember(g, key, ad);
        EncodedMember(g, key, MemberAds(g, ads[..k]), rows, ad, row);
        rows := rows + [row];
      } else {
        ex := ex + [k];
      }
      SoFarStep(was, bits[..], g, ads, k);
      k := k + 1;
    }
    assert ads[..|ads|] == ads;
    SoFarDone(bits[..], g, ads);
    var rank := BuildRank(bits[..], |ads|);
    var blk: Option<Block> := None;
    RowsCount(g.schema, key, MemberAds(g, ads), rows);
    if rows != [] {
      RowsShaped(g.schema, key, MemberAds(g, ads), rows);
      GroupSchemaValid(g);
      var b := EncodeColumnarBlock(g.schema, rows, {});
      blk := Some(b);
    }
    gb := GroupBlock(bits[..], rank, ex, blk);
  }

  lemma NothingYet(g: Group)
    ensures MemberAds(g, []) == [] && ExceptionsOf([], g, [])
  {
  }

  lemma MemberAdsStep(g: Group, ads: seq<seq<Entry>>, k: nat)
    requires k < |ads|
    ensures MemberAds(g, ads[..k + 1]) == if Whole(ads[k], g) then MemberAds(g, ads[..k]) + [ads[k]]
      else MemberAds(g, ads[..k])
  {
    hide Whole;
    assert ads[..k + 1][..k] == ads[..k];
  }

  lemma ExceptionsStep(ex: seq<nat>, g: Group, ads: seq<seq<Entry>>, k: nat)
    requires k < |ads| && ExceptionsOf(ex, g, ads[..k])
    ensures ExceptionsOf(if Whole(ads[k], g) || Nothing(ads[k], g) then ex else ex + [k], g, ads[..k + 1])
  {
    hide Whole, Nothing;
    var ex' := if Whole(ads[k], g) || Nothing(ads[k], g) then ex else ex + [k];
    forall j: nat | j < k + 1 ensures j in ex' <==> !Whole(ads[j], g) && !Nothing(ads[j], g) {
      if j < k { assert ads[..k][j] == ads[j]; }
    }
    forall i, j | 0 <= i < j < |ex'| ensures ex'[i] < ex'[j] {
      if j == |ex| { assert ex[i] in ex; }
    }
    assert forall j :: j in ex' ==> j in ex || j == k;
    assert ads[..k + 1] == ads[..k] + [ads[k]];
  }

  lemma GroupSchemaValid(g: Group)
    requires ValidGroup(g)
    ensures ValidSchema(g.schema)
  {
  }

  lemma RowsCount(s: Schema, key: nat -> nat, ads: seq<seq<Entry>>, rows: seq<seq<byte>>)
    requires RowsOf(s, key, ads, rows)
    ensures |rows| == |ads|
  {
  }

  method EncodeMember(g: Group, key: nat -> nat, ad: seq<Entry>) returns (row: seq<byte>)
    requires ValidGroup(g) && ValidAd(ad)
    ensures RowOf(g.schema, key, ad, row)
  {
    WithoutNone(ad);
    row := EncodeExcept(g.schema, ad, {}, key);
  }

  ghost predicate SoFar(m: seq<byte>, g: Group, ads: seq<seq<Entry>>, n: nat)
    requires n <= |ads|
  {
    |m| == BitBytes(|ads|) && forall k: nat {:trigger HasBit(m, k)} ::
      k < |ads| ==> (HasBit(m, k) <==> k < n && Whole(ads[k], g))
  }

  lemma NoMembers(m: seq<byte>, g: Group, ads: seq<seq<Entry>>)
    requires |m| == BitBytes(|ads|) && forall i :: 0 <= i < |m| ==> m[i] == 0
    ensures SoFar(m, g, ads, 0)
  {
    forall k: nat | k < |ads| ensures !HasBit(m, k) { ZeroBit(k % 8); }
  }

  lemma NoRows(s: Schema, key: nat -> nat)
    ensures RowsOf(s, key, [], [])
  {
  }

  lemma SoFarStep(was: seq<byte>, now: seq<byte>, g: Group, ads: seq<seq<Entry>>, k: nat)
    requires k < |ads| && SoFar(was, g, ads, k)
    requires now == if Whole(ads[k], g) then SetBit(was, k) else was
    ensures SoFar(now, g, ads, k + 1)
  {
    hide Whole, Bit, SetBit;
    forall j: nat | j < |ads| ensures HasBit(now, j) <==> j < k + 1 && Whole(ads[j], g) {
      assert HasBit(was, j) <==> j < k && Whole(ads[j], g);
      if Whole(ads[k], g) { assert TestBit(now, j) <==> j == k || TestBit(was, j); }
    }
  }

  lemma SoFarDone(m: seq<byte>, g: Group, ads: seq<seq<Entry>>)
    requires SoFar(m, g, ads, |ads|)
    ensures MembersOf(m, g, ads) && |m| == BitBytes(|ads|)
  {
    hide HasBit, Whole;
  }

  // ---------------------------------------------------------------- reading a group attribute

  // Binary search of the ascending exception list.
  method IsException(ex: seq<nat>, k: nat) returns (r: bool)
    requires forall i, j :: 0 <= i < j < |ex| ==> ex[i] < ex[j]
    ensures r <==> k in ex
  {
    var lo, hi := 0, |ex|;
    while lo < hi
      invariant 0 <= lo <= hi <= |ex|
      invariant forall i :: 0 <= i < lo ==> ex[i] < k
      invariant forall i :: hi <= i < |ex| ==> ex[i] >= k
    {
      var mid := (lo + hi) / 2;
      if ex[mid] >= k { hi := mid; } else { lo := mid + 1; }
    }
    r := lo < |ex| && ex[lo] == k;
  }

  // Groups do not share attributes, with each other or with the base schema.
  ghost predicate Disjoint(base: Schema, groups: seq<Group>)
  {
    && (forall i, id :: 0 <= i < |groups| && id in groups[i].ids ==> id !in base.byId)
    && (forall i, j, id ::
       0 <= i < |groups| && 0 <= j < |groups| && id in groups[i].ids && id in groups[j].ids ==> i == j)
  }

  // The ads as the base rows keep them: without the attributes of wholly held groups.
  function BaseAds(groups: seq<Group>, ads: seq<seq<Entry>>): (r: seq<seq<Entry>>)
    ensures |r| == |ads| && forall k :: 0 <= k < |ads| ==> r[k] == Without(ads[k], SkipSet(groups, ads[k]))
  {
    seq(|ads|, k requires 0 <= k < |ads| => Without(ads[k], SkipSet(groups, ads[k])))
  }

  // A whole member, and only a whole member, has a row in the group's block: its rank.
  lemma MemberRow(gb: GroupBlock, g: Group, key: nat -> nat, ads: seq<seq<Entry>>, k: nat)
    requires GroupBlockFor(gb, g, key, ads) && k < |ads|
    ensures Whole(ads[k], g) <==> gb.blk.Some? && HasBit(gb.members, k)
    ensures Whole(ads[k], g) ==>
      Rank(gb.members, k) < |MemberAds(g, ads)| && MemberAds(g, ads)[Rank(gb.members, k)] == ads[k]
  {
    hide HasBit, Whole, Rank, BlockFor, MemberAds, ExceptionsOf, RankTable;
    assert HasBit(gb.members, k) <==> Whole(ads[k], g);
    assert ads[..|ads|] == ads;
    if HasBit(gb.members, k) { MemberAtRank(gb.members, g, ads, |ads|, k); }
  }

  lemma NothingHeld(ad: seq<Entry>, g: Group, id: nat)
    requires Nothing(ad, g) && id in g.ids
    ensures Lookup(ad, id).None?
  {
    assert !HasAttr(ad, id);
  }

  lemma FieldInGroup(g: Group, fi: nat)
    requires ValidGroup(g) && fi < |g.schema.fields|
    ensures g.schema.fields[fi].id in g.ids
  {
    FieldAt(g.schema, fi);
  }

  // A partial holder's group attributes are still in the base tail, because only whole members left it.
  lemma ExceptionRead(base: Block, groups: seq<Group>, gi: nat, key: nat -> nat, stored: nat -> nat,
                      ads: seq<seq<Entry>>, id: nat, k: nat)
    requires gi < |groups| && Disjoint(base.schema, groups) && BlockFor(base, key, BaseAds(groups, ads)) && k < |ads|
    requires id in groups[gi].ids && !Whole(ads[k], groups[gi]) && Unshared(key, ads[k], id) && stored(id) == key(id)
    ensures TailNode(base, stored, id, k) == Lookup(ads[k], id)
  {
    hide Whole, BlockFor, Lookup, TailNode;
    var skip := SkipSet(groups, ads[k]);
    assert id !in skip;
    WithoutUnshared(key, ads[k], skip, id);
    TailNodeExact(base, key, stored, BaseAds(groups, ads), id, k);
    LookupWithout(ads[k], skip, id);
  }

  lemma WithoutUnshared(key: nat -> nat, ad: seq<Entry>, skip: set<nat>, id: nat)
    requires Unshared(key, ad, id)
    ensures Unshared(key, Without(ad, skip), id)
  {
    forall j | 0 <= j < |Without(ad, skip)|
      ensures Without(ad, skip)[j] in ad
    {
      WithoutMember(ad, skip, Without(ad, skip)[j]);
    }
  }

  lemma {:induction false} WithoutMember(ad: seq<Entry>, skip: set<nat>, e: Entry)
    ensures e in Without(ad, skip) <==> e in ad && e.id !in skip
    decreases |ad|
  {
    if ad != [] {
      WithoutMember(ad[..|ad| - 1], skip, e);
      assert ad == ad[..|ad| - 1] + [ad[|ad| - 1]];
    }
  }

  lemma {:induction false} WithoutDistinct(ad: seq<Entry>, skip: set<nat>)
    requires DistinctIds(ad)
    ensures DistinctIds(Without(ad, skip))
    decreases |ad|
  {
    if ad != [] {
      var n := |ad| - 1;
      WithoutDistinct(ad[..n], skip);
      forall e | e in Without(ad[..n], skip) ensures e.id != ad[n].id { WithoutMember(ad[..n], skip, e); }
    }
  }
}
