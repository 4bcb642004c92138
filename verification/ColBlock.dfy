/** The sealed form of a run of rows: bitsets kept per record, every numeric field transposed into a
    contiguous column, string regions and cold tails concatenated behind per-record offsets. */
module ColBlock {
  import opened Bytes
  import opened Wire
  import opened AdSchema
  import opened Row

  datatype Block = Block(
    schema: Schema, n: nat,
    bits: seq<byte>,                          // [escape bitmap][bool bitset] per record
    hot: seq<nat>, hotCol: seq<byte>,         // uncompressed numeric columns
    cold: seq<nat>, coldCol: seq<byte>,       // the compressed column group, as decompressed
    strCat: seq<byte>, strOff: seq<nat>,
    coldCat: seq<byte>, coldOff: seq<nat>)

  function Stride(s: Schema): (n: nat) { s.escBytes + s.boolBytes }

  // ---------------------------------------------------------------- column layout

  // The numeric fields from i on that are (or are not) in the hot set, in field order.
  function NumericFields(s: Schema, hotSet: set<nat>, want: bool, i: nat): (cols: seq<nat>)
    requires i <= |s.fields|
    ensures forall p :: 0 <= p < |cols| ==> i <= cols[p] < |s.fields| && Numeric(s.fields[cols[p]])
    decreases |s.fields| - i
  {
    if i == |s.fields| then []
    else (if Numeric(s.fields[i]) && (i in hotSet) == want then [i] else []) + NumericFields(s, hotSet, want, i + 1)
  }

  ghost predicate ColumnsOK(s: Schema, cols: seq<nat>)
  {
    && (forall p :: 0 <= p < |cols| ==> cols[p] < |s.fields| && Numeric(s.fields[cols[p]]))
    && (forall p, q :: 0 <= p < q < |cols| ==> cols[p] != cols[q])
  }

  function WidthOf(s: Schema, i: nat): (w: nat) { if i < |s.fields| then s.fields[i].width else 0 }

  // Where column p of n records starts.
  function ColStart(s: Schema, cols: seq<nat>, n: nat, p: nat): (o: nat)
    requires p <= |cols|
  {
    if p == 0 then 0 else ColStart(s, cols, n, p - 1) + n * WidthOf(s, cols[p - 1])
  }

  // The position of field i among the columns, if it has one.
  function ColIndex(cols: seq<nat>, i: nat): (r: Option<nat>)
    ensures r.Some? ==> r.value < |cols| && cols[r.value] == i
    ensures r.None? ==> i !in cols
  {
    if cols == [] then None
    else if cols[|cols| - 1] == i then Some(|cols| - 1)
    else ColIndex(cols[..|cols| - 1], i)
  }

  lemma {:induction false} ColStartMono(s: Schema, cols: seq<nat>, n: nat, p: nat, q: nat)
    requires p <= q <= |cols|
    ensures ColStart(s, cols, n, p) <= ColStart(s, cols, n, q)
    decreases q
  {
    if p < q {
      ColStartMono(s, cols, n, p, q - 1);
      assert n * WidthOf(s, cols[q - 1]) >= 0;
    }
  }

  // Record k's slot in column p.
  function SlotPos(s: Schema, cols: seq<nat>, n: nat, p: nat, k: nat): (o: nat)
    requires p < |cols|
  {
    ColStart(s, cols, n, p) + k * WidthOf(s, cols[p])
  }

  lemma SlotPosInside(s: Schema, cols: seq<nat>, n: nat, p: nat, k: nat)
    requires p < |cols| && k < n
    ensures ColStart(s, cols, n, p) <= SlotPos(s, cols, n, p, k)
    ensures SlotPos(s, cols, n, p, k) +
      WidthOf(s, cols[p]) <= ColStart(s, cols, n, p + 1) <= ColStart(s, cols, n, |cols|)
  {
    var w := WidthOf(s, cols[p]);
    MulAtMost(k + 1, n, w);
    assert (k + 1) * w == k * w + w;
    ColStartMono(s, cols, n, p + 1, |cols|);
  }

  // Distinct (column, record) slots do not overlap.
  lemma SlotPosDisjoint(s: Schema, cols: seq<nat>, n: nat, p: nat, k: nat, p': nat, k': nat)
    requires p < |cols| && p' < |cols| && k < n && k' < n && (p, k) != (p', k')
    ensures
      || SlotPos(s, cols, n, p, k) + WidthOf(s, cols[p]) <= SlotPos(s, cols, n, p', k')
      || SlotPos(s, cols, n, p', k') + WidthOf(s, cols[p']) <= SlotPos(s, cols, n, p, k)
  {
    hide ColStart, SlotPos, WidthOf;
    SlotPosInside(s, cols, n, p, k);
    SlotPosInside(s, cols, n, p', k');
    if p < p' {
      ColStartMono(s, cols, n, p + 1, p');
    } else if p' < p {
      ColStartMono(s, cols, n, p' + 1, p);
    } else if k < k' {
      SlotPosStep(s, cols, n, p, k, k');
    } else {
      SlotPosStep(s, cols, n, p, k', k);
    }
  }

  lemma SlotPosStep(s: Schema, cols: seq<nat>, n: nat, p: nat, k: nat, k': nat)
    requires p < |cols| && k < k'
    ensures SlotPos(s, cols, n, p, k) + WidthOf(s, cols[p]) <= SlotPos(s, cols, n, p, k')
  {
    hide ColStart, WidthOf;
    var w := WidthOf(s, cols[p]);
    MulAtMost(k + 1, k', w);
    assert (k + 1) * w == k * w + w;
  }

  function Blob(s: Schema, rec: seq<byte>): (b: seq<byte>)
  {
    if PrefixLen(s) <= |rec| then rec[s.escBytes..PrefixLen(s)] else []
  }

  // Record k's bytes in column p of a region.
  function ColSlot(s: Schema, cols: seq<nat>, n: nat, region: seq<byte>, p: nat, k: nat): (b: seq<byte>)
    requires p < |cols|
  {
    var o := SlotPos(s, cols, n, p, k);
    var w := WidthOf(s, cols[p]);
    if o + w <= |region| then region[o..o + w] else []
  }

  // The first m records' slots are in place.
  ghost predicate Transposed(s: Schema, cols: seq<nat>, recs: seq<seq<byte>>, region: seq<byte>, m: nat)
    requires m <= |recs|
  {
    && (forall x :: 0 <= x < |cols| ==> cols[x] < |s.fields|)
    && |region| == ColStart(s, cols, |recs|, |cols|)
    && forall p: nat, k: nat {:trigger ColSlot(s, cols, |recs|, region, p, k)} :: p < |cols| && k < m ==>
         ColSlot(s, cols, |recs|, region, p, k) == SlotBytes(s, Blob(s, recs[k]), cols[p])
  }

  // Copy one row's numeric fields into their columns.
  method ScatterRow(s: Schema, cols: seq<nat>, ghost recs: seq<seq<byte>>, region: array<byte>, n: nat, k: nat,
                    r: seq<byte>)
    requires ValidSchema(s) && ColumnsOK(s, cols) && k < n == |recs| && r == recs[k] && PrefixLen(s) <= |r|
    requires Transposed(s, cols, recs, region[..], k)
    modifies region
    ensures Transposed(s, cols, recs, region[..], k + 1)
  {
    hide SlotBytes, ColStart, ValidSchema, Blob;
    ghost var before := region[..];
    var p := 0;
    while p < |cols|
      invariant 0 <= p <= |cols| && region.Length == |before|
      invariant forall q: nat, j: nat {:trigger ColSlot(s, cols, n, region[..], q, j)} ::
        q < |cols| && j < n && (j < k || (j == k && q < p)) ==>
        ColSlot(s, cols, n, region[..], q, j) == SlotBytes(s, Blob(s, recs[j]), cols[q])
    {
      var f := s.fields[cols[p]];
      SlotInside(s, cols[p]);
      SlotPosInside(s, cols, n, p, k);
      var o := SlotPos(s, cols, n, p, k);
      ghost var was := region[..];
      var src := r[s.escBytes + f.off..s.escBytes + f.off + f.width];
      CopyInto(region, o, src);
      forall q: nat, j: nat | q < |cols| && j < n && (j < k || (j == k && q < p + 1))
        ensures ColSlot(s, cols, n, region[..], q, j) == SlotBytes(s, Blob(s, recs[j]), cols[q])
      {
        ScatterFrame(s, cols, n, was, region[..], p, k, src, q, j);
        assert src == SlotBytes(s, Blob(s, r), cols[p]) by { SlotOfRow(s, r, cols[p]); }
      }
      p := p + 1;
    }
  }

  lemma SlotOfRow(s: Schema, r: seq<byte>, i: nat)
    requires ValidSchema(s) && i < |s.fields| && Numeric(s.fields[i]) && PrefixLen(s) <= |r|
    ensures s.escBytes + s.fields[i].off + s.fields[i].width <= |r|
    ensures SlotBytes(s, Blob(s, r), i) ==
      r[s.escBytes + s.fields[i].off..s.escBytes + s.fields[i].off + s.fields[i].width]
  {
    hide SlotOff, BoolsBefore, ValidSchema;
    SlotInside(s, i);
    var f, e := s.fields[i], s.escBytes;
    SliceSlice(r, e, PrefixLen(s), f.off, f.off + f.width);
  }

  lemma SliceSlice(r: seq<byte>, a: nat, b: nat, c: nat, d: nat)
    requires c <= d && a + d <= b <= |r|
    ensures r[a..b][c..d] == r[a + c..a + d]
  {
    var x, y := r[a..b][c..d], r[a + c..a + d];
    forall i | 0 <= i < d - c ensures x[i] == y[i] { assert x[i] == r[a..b][c + i] == r[a + (c + i)]; }
  }

  lemma ScatterFrame(s: Schema, cols: seq<nat>, n: nat, was: seq<byte>, now: seq<byte>, p: nat, k: nat, src: seq<byte>,
                     q: nat, j: nat)
    requires p < |cols| && q < |cols| && k < n && j < n && |src| == WidthOf(s, cols[p])
    requires |was| == ColStart(s, cols, n, |cols|) && SlotPos(s, cols, n, p, k) + |src| <= |was|
    requires now == was[..SlotPos(s, cols, n, p, k)] + src + was[SlotPos(s, cols, n, p, k) + |src|..]
    ensures ColSlot(s, cols, n, now, q, j) == if (p, k) == (q, j) then src else ColSlot(s, cols, n, was, q, j)
  {
    hide ColStart, SlotPos;
    SlotPosInside(s, cols, n, q, j);
    var o, w := SlotPos(s, cols, n, q, j), WidthOf(s, cols[q]);
    Overwrite(was, SlotPos(s, cols, n, p, k), src, o, o + w);
    if (p, k) != (q, j) {
      SlotPosDisjoint(s, cols, n, p, k, q, j);
    }
  }

  method CopyInto(dst: array<byte>, at: nat, src: seq<byte>)
    requires at + |src| <= dst.Length
    modifies dst
    ensures dst[..] == old(dst[..at]) + src + old(dst[at + |src|..])
  {
    forall i | 0 <= i < |src| { dst[at + i] := src[i]; }
  }

  // ---------------------------------------------------------------- splitting a row

  // The end of the string region: one length-prefixed string per unescaped string field.
  function StringsEnd(s: Schema, rec: seq<byte>, i: nat, p: nat): (r: Option<nat>)
    requires i <= |s.fields| && p <= |rec|
    ensures r.Some? ==> p <= r.value <= |rec|
    decreases |s.fields| - i
  {
    if i == |s.fields| then Some(p)
    else if s.fields[i].kind == KString && !HasBit(rec[..if s.escBytes <= |rec| then s.escBytes else 0], i) then
      match GetUvarint(rec[p..])
      case None => None
      case Some((l, m)) => if p + m + l > |rec| then None else StringsEnd(s, rec, i + 1, p + m + l)
    else StringsEnd(s, rec, i + 1, p)
  }

  // A row whose regions can be told apart.
  predicate Shaped(s: Schema, rec: seq<byte>)
  {
    PrefixLen(s) <= |rec| && StringsEnd(s, rec, 0, PrefixLen(s)).Some?
  }

  function StrPart(s: Schema, rec: seq<byte>): (b: seq<byte>)
    requires Shaped(s, rec)
  {
    rec[PrefixLen(s)..StringsEnd(s, rec, 0, PrefixLen(s)).value]
  }

  function ColdPart(s: Schema, rec: seq<byte>): (b: seq<byte>)
    requires Shaped(s, rec)
  {
    rec[StringsEnd(s, rec, 0, PrefixLen(s)).value..]
  }

  // Walking the string region finds where the strings end and the tail begins.
  lemma {:induction false} StringsEndOfRow(s: Schema, ad: seq<Entry>, rec: seq<byte>, rest: seq<byte>, i: nat, p: nat)
    requires ValidAd(ad) && i <= |s.fields| && PrefixLen(s) <= p <= |rec|
    requires EscapesOf(s, ad, rec[..s.escBytes]) && rec[p..] == StringRegion(s, ad, i) + rest
    ensures StringsEnd(s, rec, i, p) == Some(p + |StringRegion(s, ad, i)|)
    decreases |s.fields| - i
  {
    hide SlotLit, GetUvarint, PutUvarint, StringRegion, ValidAd, EscapesOf, HasBit, StringsEnd;
    if i < |s.fields| {
      StringRegionStep(s, ad, i);
      EscapeBit(s, ad, rec[..s.escBytes], i);
      if s.fields[i].kind == KString && SlotLit(s, ad, i).Some? {
        var str := SlotLit(s, ad, i).value.s;
        var m := |PutUvarint(|str|)|;
        assert |str| < TWO64 by { SlotLitValid(s, ad, i); }
        assert rec[p..] == PutUvarint(|str|) + str + (StringRegion(s, ad, i + 1) + rest);
        StringAt(rec, p, str, StringRegion(s, ad, i + 1) + rest);
        StringsEndStep(s, rec, i, p, |str|, m);
        StringsEndOfRow(s, ad, rec, rest, i + 1, p + m + |str|);
      } else {
        StringsEndSkip(s, rec, i, p);
        StringsEndOfRow(s, ad, rec, rest, i + 1, p);
      }
    } else {
      assert StringRegion(s, ad, i) == [] by { StringRegionEnd(s, ad); }
      StringsEndLast(s, rec, p);
    }
  }

  lemma StringsEndStep(s: Schema, rec: seq<byte>, i: nat, p: nat, l: nat, m: nat)
    requires i < |s.fields| && s.escBytes <= |rec| && p + m + l <= |rec|
    requires s.fields[i].kind == KString && !HasBit(rec[..s.escBytes], i) && GetUvarint(rec[p..]) == Some((l, m))
    ensures StringsEnd(s, rec, i, p) == StringsEnd(s, rec, i + 1, p + m + l)
  {
    hide GetUvarint, HasBit;
  }

  lemma StringsEndSkip(s: Schema, rec: seq<byte>, i: nat, p: nat)
    requires i < |s.fields| && s.escBytes <= |rec| && p <= |rec|
    requires s.fields[i].kind != KString || HasBit(rec[..s.escBytes], i)
    ensures StringsEnd(s, rec, i, p) == StringsEnd(s, rec, i + 1, p)
  {
    hide GetUvarint, HasBit;
  }

  lemma StringsEndLast(s: Schema, rec: seq<byte>, p: nat)
    requires p <= |rec|
    ensures StringsEnd(s, rec, |s.fields|, p) == Some(p)
  {
  }

  lemma EscapeBit(s: Schema, ad: seq<Entry>, esc: seq<byte>, i: nat)
    requires EscapesOf(s, ad, esc) && i < |s.fields|
    ensures HasBit(esc, i) <==> SlotLit(s, ad, i).None?
  {
  }

  lemma StringRegionEnd(s: Schema, ad: seq<Entry>)
    ensures StringRegion(s, ad, |s.fields|) == []
  {
  }

  // The row form of an ad splits into its strings and its encoded cold entries.
  lemma SplitRow(s: Schema, key: nat -> nat, ad: seq<Entry>, rec: seq<byte>)
    requires ValidAd(ad) && RowOf(s, key, ad, rec)
    ensures Shaped(s, rec)
    ensures StrPart(s, rec) == StringRegion(s, ad, 0)
    ensures ColdPart(s, rec) == EncodeEntries(ColdEntries(s, key, ad))
  {
    hide SlotLit, StringRegion, StringsEnd, EncodeEntries, ColdEntries, BlobOf;
    var cold := EncodeEntries(ColdEntries(s, key, ad));
    StringsEndOfRow(s, ad, rec, cold, 0, PrefixLen(s));
    var q, e := PrefixLen(s), PrefixLen(s) + |StringRegion(s, ad, 0)|;
    assert rec[q..e] == rec[q..][..e - q];
    assert rec[e..] == rec[q..][e - q..];
  }

  // ---------------------------------------------------------------- building a block

  // Pieces laid end to end behind cumulative offsets.
  ghost predicate StreamOf(cat: seq<byte>, off: seq<nat>, parts: seq<seq<byte>>)
  {
    && |off| == |parts| + 1 && off[|parts|] == |cat|
    && forall k {:trigger parts[k]} {:trigger off[k]} :: 0 <= k < |parts| ==>
         off[k] <= off[k + 1] <= |cat| && cat[off[k]..off[k + 1]] == parts[k]
  }

  lemma StreamAppend(cat: seq<byte>, off: seq<nat>, parts: seq<seq<byte>>, x: seq<byte>)
    requires StreamOf(cat, off, parts)
    ensures StreamOf(cat + x, off + [|cat + x|], parts + [x])
  {
    var cat', off', parts' := cat + x, off + [|cat + x|], parts + [x];
    forall k {:trigger parts'[k]} | 0 <= k < |parts'|
      ensures off'[k] <= off'[k + 1] <= |cat'| && cat'[off'[k]..off'[k + 1]] == parts'[k]
    {
      if k < |parts| {
        assert parts'[k] == parts[k];
        assert cat'[off[k]..off[k + 1]] == cat[off[k]..off[k + 1]];
      }
    }
  }

  function StrParts(s: Schema, recs: seq<seq<byte>>): (ps: seq<seq<byte>>)
    requires forall k :: 0 <= k < |recs| ==> Shaped(s, recs[k])
    ensures |ps| == |recs| && forall k :: 0 <= k < |recs| ==> ps[k] == StrPart(s, recs[k])
  {
    seq(|recs|, k requires 0 <= k < |recs| => StrPart(s, recs[k]))
  }

  function ColdParts(s: Schema, recs: seq<seq<byte>>): (ps: seq<seq<byte>>)
    requires forall k :: 0 <= k < |recs| ==> Shaped(s, recs[k])
    ensures |ps| == |recs| && forall k :: 0 <= k < |recs| ==> ps[k] == ColdPart(s, recs[k])
  {
    seq(|recs|, k requires 0 <= k < |recs| => ColdPart(s, recs[k]))
  }

  function BitsAt(s: Schema, bits: seq<byte>, k: nat): (b: seq<byte>)
  {
    var o := k * Stride(s);
    if o + Stride(s) <= |bits| then bits[o..o + Stride(s)] else []
  }

  ghost predicate BitsOf(s: Schema, bits: seq<byte>, recs: seq<seq<byte>>)
  {
    && |bits| == |recs| * Stride(s)
    && forall k: nat {:trigger BitsAt(s, bits, k)} ::
       k < |recs| ==> Stride(s) <= |recs[k]| && BitsAt(s, bits, k) == recs[k][..Stride(s)]
  }

  lemma BitsAppend(s: Schema, bits: seq<byte>, recs: seq<seq<byte>>, r: seq<byte>)
    requires BitsOf(s, bits, recs) && Stride(s) <= |r|
    ensures BitsOf(s, bits + r[..Stride(s)], recs + [r])
  {
    hide BitsAt, Stride;
    var n, w := |recs|, Stride(s);
    var bits' := bits + r[..w];
    assert (n + 1) * w == n * w + w;
    forall k: nat | k < n + 1 ensures Stride(s) <= |(recs + [r])[k]| && BitsAt(s, bits', k) == (recs + [r])[k][..w] {
      BitsAtAppend(s, bits, r[..w], n, k);
      if k < n { assert BitsAt(s, bits, k) == recs[k][..w]; }
    }
  }

  lemma BitsAtAppend(s: Schema, bits: seq<byte>, row: seq<byte>, n: nat, k: nat)
    requires |bits| == n * Stride(s) && |row| == Stride(s) && k <= n
    ensures BitsAt(s, bits + row, k) == if k == n then row else BitsAt(s, bits, k)
  {
    hide Stride;
    var w := Stride(s);
    if k < n {
      MulAtMost(k + 1, n, w);
      assert (k + 1) * w == k * w + w;
      assert (bits + row)[k * w..k * w + w] == bits[k * w..k * w + w];
    } else {
      assert (bits + row)[n * w..n * w + w] == row;
    }
  }

  function Members(cols: seq<nat>): (r: set<nat>) { set i | i in cols }

  // The partition a layout of the block's own hot fields gives back.
  predicate LaidOut(b: Block)
  {
    && b.hot == NumericFields(b.schema, Members(b.hot), true, 0)
    && b.cold == NumericFields(b.schema, Members(b.hot), false, 0)
  }

  // b holds exactly these rows.
  ghost predicate BlockOf(b: Block, recs: seq<seq<byte>>)
  {
    var s := b.schema;
    && ValidSchema(s) && b.n == |recs| && LaidOut(b)
    && (forall k :: 0 <= k < |recs| ==> Shaped(s, recs[k]))
    && ColumnsOK(s, b.hot) && ColumnsOK(s, b.cold)
    && (forall i: nat :: i < |s.fields| && Numeric(s.fields[i]) ==> i in b.hot || i in b.cold)
    && Transposed(s, b.hot, recs, b.hotCol, |recs|)
    && Transposed(s, b.cold, recs, b.coldCol, |recs|)
    && BitsOf(s, b.bits, recs)
    && StreamOf(b.strCat, b.strOff, StrParts(s, recs))
    && StreamOf(b.coldCat, b.coldOff, ColdParts(s, recs))
  }

  lemma {:induction false} NumericFieldsOK(s: Schema, hotSet: set<nat>, want: bool, i: nat)
    requires i <= |s.fields|
    ensures ColumnsOK(s, NumericFields(s, hotSet, want, i))
    decreases |s.fields| - i
  {
    hide Numeric;
    if i < |s.fields| { NumericFieldsOK(s, hotSet, want, i + 1); }
  }

  lemma {:induction false} NumericFieldsHas(s: Schema, hotSet: set<nat>, want: bool, i: nat, j: nat)
    requires i <= j < |s.fields| && Numeric(s.fields[j]) && (j in hotSet) == want
    ensures j in NumericFields(s, hotSet, want, i)
    decreases |s.fields| - i
  {
    hide Numeric;
    if i < j { NumericFieldsHas(s, hotSet, want, i + 1, j); }
  }

  // The partition depends only on which fields are numeric and which of those are hot.
  lemma {:induction false} NumericFieldsAgree(s: Schema, s': Schema, h: set<nat>, h': set<nat>, want: bool, i: nat)
    requires |s'.fields| == |s.fields| && i <= |s.fields|
    requires forall j: nat {:trigger s.fields[j]} {:trigger s'.fields[j]} ::
      j < |s.fields| ==> (Numeric(s'.fields[j]) <==> Numeric(s.fields[j]))
    requires forall j: nat :: j < |s.fields| && Numeric(s.fields[j]) ==> (j in h <==> j in h')
    ensures NumericFields(s', h', want, i) == NumericFields(s, h, want, i)
    decreases |s.fields| - i
  {
    hide Numeric;
    if i < |s.fields| { NumericFieldsAgree(s, s', h, h', want, i + 1); }
  }

  lemma {:induction false} NumericFieldsIn(s: Schema, h: set<nat>, want: bool, i: nat, j: nat)
    requires i <= |s.fields| && j in NumericFields(s, h, want, i)
    ensures (j in h) == want
    decreases |s.fields| - i
  {
    hide Numeric;
    if i < |s.fields| && !(Numeric(s.fields[i]) && (i in h) == want && i == j) {
      NumericFieldsIn(s, h, want, i + 1, j);
    }
  }

  // Laying out from the resulting hot fields changes nothing.
  lemma HotStable(s: Schema, h: set<nat>, want: bool)
    ensures NumericFields(s, Members(NumericFields(s, h, true, 0)), want, 0) == NumericFields(s, h, want, 0)
  {
    hide NumericFields, Numeric;
    var hot := NumericFields(s, h, true, 0);
    forall j: nat | j < |s.fields| && Numeric(s.fields[j]) ensures j in h <==> j in Members(hot) {
      if j in h { NumericFieldsHas(s, h, true, 0, j); }
      if j in hot { NumericFieldsIn(s, h, true, 0, j); }
    }
    NumericFieldsAgree(s, s, h, Members(hot), want, 0);
  }

  // Where each column of a region starts.
  method ColumnStarts(s: Schema, cols: seq<nat>, n: nat) returns (start: map<nat, nat>, total: nat)
    requires ColumnsOK(s, cols)
    ensures total == ColStart(s, cols, n, |cols|) && forall i :: i in start ==> i in cols
    ensures forall p :: 0 <= p < |cols| ==> cols[p] in start && start[cols[p]] == ColStart(s, cols, n, p)
  {
    hide WidthOf, ColStart;
    start, total := map[], 0;
    ColStartStep(s, cols, n, 0);
    for p := 0 to |cols|
      invariant total == ColStart(s, cols, n, p) && forall i :: i in start ==> i in cols
      invariant forall q :: 0 <= q < p ==> cols[q] in start && start[cols[q]] == ColStart(s, cols, n, q)
    {
      start := start[cols[p] := total];
      total := total + n * WidthOf(s, cols[p]);
      ColStartStep(s, cols, n, p + 1);
    }
  }

  lemma ColStartStep(s: Schema, cols: seq<nat>, n: nat, p: nat)
    requires p <= |cols|
    ensures ColStart(s, cols, n, p) == if p == 0 then 0 else ColStart(s, cols, n, p - 1) + n * WidthOf(s, cols[p - 1])
  {
    hide WidthOf;
  }

  // One pass splits the numeric fields into hot and cold, in field order.
  method LayoutColumnar(s: Schema, hotSet: set<nat>) returns (hot: seq<nat>, cold: seq<nat>)
    ensures hot == NumericFields(s, hotSet, true, 0) && cold == NumericFields(s, hotSet, false, 0)
  {
    hide Numeric, NumericFields;
    hot, cold := [], [];
    for i := 0 to |s.fields|
      invariant hot + NumericFields(s, hotSet, true, i) == NumericFields(s, hotSet, true, 0)
      invariant cold + NumericFields(s, hotSet, false, i) == NumericFields(s, hotSet, false, 0)
    {
      NumericFieldsStep(s, hotSet, true, i);
      NumericFieldsStep(s, hotSet, false, i);
      if Numeric(s.fields[i]) {
        if i in hotSet {
          MoveOver(hot, i, NumericFields(s, hotSet, true, i + 1));
          hot := hot + [i];
        } else {
          MoveOver(cold, i, NumericFields(s, hotSet, false, i + 1));
          cold := cold + [i];
        }
      }
    }
    NumericFieldsStep(s, hotSet, true, |s.fields|);
    NumericFieldsStep(s, hotSet, false, |s.fields|);
  }

  lemma MoveOver(a: seq<nat>, x: nat, b: seq<nat>)
    ensures (a + [x]) + b == a + ([x] + b)
  {
  }

  lemma NumericFieldsStep(s: Schema, hotSet: set<nat>, want: bool, i: nat)
    requires i <= |s.fields|
    ensures NumericFields(s, hotSet, want, i) ==
      if i == |s.fields| then []
      else if Numeric(s.fields[i]) && (i in hotSet) == want then [i] + NumericFields(s, hotSet, want, i + 1)
        else NumericFields(s, hotSet, want, i + 1)
  {
  }

  // Every numeric field has its column, hot or cold.
  lemma NumericFieldsAll(s: Schema, hotSet: set<nat>)
    ensures forall j: nat {:trigger s.fields[j]} :: j < |s.fields| && Numeric(s.fields[j]) ==>
      j in NumericFields(s, hotSet, true, 0) || j in NumericFields(s, hotSet, false, 0)
  {
    hide NumericFields, Numeric;
    forall j: nat {:trigger s.fields[j]} | j < |s.fields| && Numeric(s.fields[j])
      ensures j in NumericFields(s, hotSet, true, 0) || j in NumericFields(s, hotSet, false, 0)
    {
      NumericFieldsHas(s, hotSet, j in hotSet, 0, j);
    }
  }

  lemma PrefixSteps(s: Schema, recs: seq<seq<byte>>, k: nat)
    requires k < |recs| && forall j :: 0 <= j < |recs| ==> Shaped(s, recs[j])
    ensures recs[..k + 1] == recs[..k] + [recs[k]]
    ensures StrParts(s, recs[..k + 1]) == StrParts(s, recs[..k]) + [StrPart(s, recs[k])]
    ensures ColdParts(s, recs[..k + 1]) == ColdParts(s, recs[..k]) + [ColdPart(s, recs[k])]
  {
    hide Shaped, StrPart, ColdPart;
  }

  // Transposition: rows in, columns and streams out, holding exactly those rows.
  method EncodeColumnarBlock(s: Schema, recs: seq<seq<byte>>, hotSet: set<nat>) returns (b: Block)
    requires ValidSchema(s) && forall k :: 0 <= k < |recs| ==> Shaped(s, recs[k])
    ensures BlockOf(b, recs) && b.schema == s
    ensures b.hot == NumericFields(s, hotSet, true, 0) && b.cold == NumericFields(s, hotSet, false, 0)
  {
    hide Members, ValidSchema, ColumnsOK, Transposed, StreamOf, BitsOf, StrPart, ColdPart, StringsEnd, NumericFields,
      ColStart, PrefixLen, BoolsBefore;
    var hot, cold := LayoutColumnar(s, hotSet);
    NumericFieldsOK(s, hotSet, true, 0);
    NumericFieldsOK(s, hotSet, false, 0);
    NumericFieldsAll(s, hotSet);
    HotStable(s, hotSet, true);
    HotStable(s, hotSet, false);
    var n := |recs|;
    var _, hotLen := ColumnStarts(s, hot, n);
    var _, coldLen := ColumnStarts(s, cold, n);
    var hotArr := new byte[hotLen](_ => 0);
    var coldArr := new byte[coldLen](_ => 0);
    EmptyTransposed(s, hot, recs, hotArr[..]);
    EmptyTransposed(s, cold, recs, coldArr[..]);
    var bits: seq<byte>, strCat: seq<byte>, coldCat: seq<byte> := [], [], [];
    var strOff: seq<nat>, coldOff: seq<nat> := [0], [0];
    EmptyStreams(s, recs);
    var k := 0;
    while k < n
      invariant 0 <= k <= n
      invariant Transposed(s, hot, recs, hotArr[..], k)
      invariant Transposed(s, cold, recs, coldArr[..], k)
      invariant BitsOf(s, bits, recs[..k])
      invariant StreamOf(strCat, strOff, StrParts(s, recs[..k]))
      invariant StreamOf(coldCat, coldOff, ColdParts(s, recs[..k]))
    {
      var r := recs[k];
      ShapedStride(s, r);
      bits := bits + r[..s.escBytes + s.boolBytes];
      ScatterRow(s, hot, recs, hotArr, n, k, r);
      ScatterRow(s, cold, recs, coldArr, n, k, r);
      PrefixSteps(s, recs, k);
      BitsAppend(s, bits[..|bits| - Stride(s)], recs[..k], r);
      StreamAppend(strCat, strOff, StrParts(s, recs[..k]), StrPart(s, r));
      StreamAppend(coldCat, coldOff, ColdParts(s, recs[..k]), ColdPart(s, r));
      strCat := strCat + StrPart(s, r);
      strOff := strOff + [|strCat|];
      coldCat := coldCat + ColdPart(s, r);
      coldOff := coldOff + [|coldCat|];
      k := k + 1;
    }
    assert recs[..n] == recs;
    b := Block(s, n, bits, hot, hotArr[..], cold, coldArr[..], strCat, strOff, coldCat, coldOff);
  }

  lemma ShapedStride(s: Schema, r: seq<byte>)
    requires ValidSchema(s) && Shaped(s, r)
    ensures Stride(s) <= PrefixLen(s) <= |r|
  {
    BoolsInPrefix(s);
  }

  lemma EmptyTransposed(s: Schema, cols: seq<nat>, recs: seq<seq<byte>>, region: seq<byte>)
    requires ColumnsOK(s, cols) && |region| == ColStart(s, cols, |recs|, |cols|)
    ensures Transposed(s, cols, recs, region, 0)
  {
  }

  lemma EmptyStreams(s: Schema, recs: seq<seq<byte>>)
    ensures BitsOf(s, [], recs[..0])
    ensures StreamOf([], [0], StrParts(s, recs[..0])) && StreamOf([], [0], ColdParts(s, recs[..0]))
  {
  }

  // ---------------------------------------------------------------- reading a block

  // Record k's escape bitmap.
  function EscapeAt(b: Block, k: nat): (e: seq<byte>)
  {
    var x := BitsAt(b.schema, b.bits, k);
    if b.schema.escBytes <= |x| then x[..b.schema.escBytes] else []
  }

  // A numeric field's raw bytes for record k, from whichever region holds the column.
  function RawSlot(b: Block, i: nat, k: nat): (r: Option<seq<byte>>)
  {
    match ColIndex(b.hot, i)
    case Some(p) => Some(ColSlot(b.schema, b.hot, b.n, b.hotCol, p, k))
    case None =>
      match ColIndex(b.cold, i)
      case Some(p) => Some(ColSlot(b.schema, b.cold, b.n, b.coldCol, p, k))
      case None => None
  }

  function PieceAt(cat: seq<byte>, off: seq<nat>, k: nat): (p: seq<byte>)
  {
    if k + 1 < |off| && off[k] <= off[k + 1] <= |cat| then cat[off[k]..off[k + 1]] else []
  }

  // What each reader sees of record k is that part of row k.
  lemma ReadersSeeRow(b: Block, recs: seq<seq<byte>>, k: nat)
    requires BlockOf(b, recs) && k < b.n
    ensures EscapeAt(b, k) == recs[k][..b.schema.escBytes]
    ensures BitsAt(b.schema, b.bits, k) == recs[k][..Stride(b.schema)]
    ensures PieceAt(b.strCat, b.strOff, k) == StrPart(b.schema, recs[k])
    ensures PieceAt(b.coldCat, b.coldOff, k) == ColdPart(b.schema, recs[k])
  {
    hide Transposed, StrPart, ColdPart, StringsEnd, BoolsBefore, SlotOff, ValidSchema;
    var s := b.schema;
    ShapedStride(s, recs[k]);
    var x := BitsAt(s, b.bits, k);
    assert x == recs[k][..Stride(s)];
    assert StrParts(s, recs)[k] == StrPart(s, recs[k]);
    assert ColdParts(s, recs)[k] == ColdPart(s, recs[k]);
  }

  lemma RawSlotSeesRow(b: Block, recs: seq<seq<byte>>, i: nat, k: nat)
    requires BlockOf(b, recs) && k < b.n && i < |b.schema.fields| && Numeric(b.schema.fields[i])
    ensures RawSlot(b, i, k) == Some(SlotBytes(b.schema, Blob(b.schema, recs[k]), i))
  {
    hide StreamOf, BitsOf, ColSlot, SlotBytes, Blob, ValidSchema, Shaped, StrPart, ColdPart;
    var s := b.schema;
    var p := ColIndex(b.hot, i);
    if p.Some? {
      assert ColSlot(s, b.hot, |recs|, b.hotCol, p.value, k) == SlotBytes(s, Blob(s, recs[k]), b.hot[p.value]);
    } else {
      var q := ColIndex(b.cold, i);
      assert ColSlot(s, b.cold, |recs|, b.coldCol, q.value, k) == SlotBytes(s, Blob(s, recs[k]), b.cold[q.value]);
    }
  }

  // ---------------------------------------------------------------- rebuilding a row

  // The slots of these fields hold the target row's bytes.
  ghost predicate Gathered(s: Schema, blob: seq<byte>, target: seq<byte>, done: set<nat>)
  {
    forall i: nat {:trigger SlotBytes(s, blob, i)} ::
      i in done && i < |s.fields| ==> SlotBytes(s, blob, i) == SlotBytes(s, target, i)
  }

  lemma GatherFrame(s: Schema, was: seq<byte>, now: seq<byte>, target: seq<byte>, done: set<nat>, i: nat)
    requires ValidSchema(s) && i < |s.fields| && Numeric(s.fields[i]) && |was| == s.fixedLen && |target| == s.fixedLen
    requires s.fields[i].off + s.fields[i].width <= s.fixedLen
    requires now == was[..s.fields[i].off] + SlotBytes(s, target, i) + was[s.fields[i].off + s.fields[i].width..]
    requires Gathered(s, was, target, done)
    ensures Gathered(s, now, target, done + {i}) && |now| == s.fixedLen
    ensures s.boolBytes <= s.fixedLen && now[..s.boolBytes] == was[..s.boolBytes]
  {
    hide SlotOff, BoolsBefore, ValidSchema;
    SlotInside(s, i);
    var x := SlotBytes(s, target, i);
    assert |x| == s.fields[i].width;
    Overwrite(was, s.fields[i].off, x, 0, s.boolBytes);
    assert now[..s.boolBytes] == now[0..s.boolBytes] && was[..s.boolBytes] == was[0..s.boolBytes];
    forall j: nat | j in done + {i} && j < |s.fields| ensures SlotBytes(s, now, j) == SlotBytes(s, target, j) {
      if j != i {
        assert SlotBytes(s, was, j) == SlotBytes(s, target, j);
        if Numeric(s.fields[j]) {
          SlotInside(s, j);
          if i < j { SlotsDisjoint(s, i, j); } else { SlotsDisjoint(s, j, i); }
          Overwrite(was, s.fields[i].off, x, s.fields[j].off, s.fields[j].off + s.fields[j].width);
        }
      } else {
        Overwrite(was, s.fields[i].off, x, 0, 0);
      }
    }
  }

  // One gather per column of a region.
  method GatherColumns(s: Schema, cols: seq<nat>, region: seq<byte>, n: nat, k: nat, blob: array<byte>,
                       ghost recs: seq<seq<byte>>, ghost done: set<nat>)
    requires ValidSchema(s) && ColumnsOK(s, cols) && k < n == |recs| && PrefixLen(s) <= |recs[k]|
    requires Transposed(s, cols, recs, region, n)
    requires blob.Length == s.fixedLen && Gathered(s, blob[..], Blob(s, recs[k]), done)
    modifies blob
    ensures Gathered(s, blob[..], Blob(s, recs[k]), done + Members(cols))
    ensures s.boolBytes <= s.fixedLen && blob[..s.boolBytes] == old(blob[..s.boolBytes])
  {
    hide SlotOff, BoolsBefore, ValidSchema, ColStart, Gathered, SlotBytes, SlotPos;
    BoolsInPrefix(s);
    var p := 0;
    assert done + Members(cols[..0]) == done;
    while p < |cols|
      invariant 0 <= p <= |cols|
      invariant Gathered(s, blob[..], Blob(s, recs[k]), done + Members(cols[..p]))
      invariant blob[..s.boolBytes] == old(blob[..s.boolBytes])
    {
      var i := cols[p];
      var f := s.fields[i];
      SlotInside(s, i);
      SlotPosInside(s, cols, n, p, k);
      var o := SlotPos(s, cols, n, p, k);
      ghost var was := blob[..];
      assert ColSlot(s, cols, n, region, p, k) == SlotBytes(s, Blob(s, recs[k]), i);
      CopyInto(blob, f.off, region[o..o + f.width]);
      GatherFrame(s, was, blob[..], Blob(s, recs[k]), done + Members(cols[..p]), i);
      assert done + Members(cols[..p + 1]) == (done + Members(cols[..p])) + {i};
      p := p + 1;
    }
    assert cols[..|cols|] == cols;
  }

  // Rebuilding: escape and bool bits, one gather per column, then the record's string and tail pieces.
  method Reconstruct(b: Block, k: nat, ghost recs: seq<seq<byte>>) returns (rec: seq<byte>)
    requires BlockOf(b, recs) && k < b.n
    ensures rec == recs[k]
  {
    hide SlotOff, BoolsBefore, ValidSchema, ColStart, Gathered, StringsEnd, ColumnsOK, Transposed, BitsOf, StreamOf;
    var s := b.schema;
    ShapedStride(s, recs[k]);
    BoolsInPrefix(s);
    ReadersSeeRow(b, recs, k);
    var bits := BitsAt(s, b.bits, k);
    var blob := new byte[s.fixedLen](_ => 0);
    CopyInto(blob, 0, bits[s.escBytes..]);
    assert blob[..s.boolBytes] == bits[s.escBytes..];
    assert Gathered(s, blob[..], Blob(s, recs[k]), {}) by { NothingGathered(s, blob[..], Blob(s, recs[k])); }
    GatherColumns(s, b.hot, b.hotCol, b.n, k, blob, recs, {});
    GatherColumns(s, b.cold, b.coldCol, b.n, k, blob, recs, {} + Members(b.hot));
    rec := bits[..s.escBytes] + blob[..] + PieceAt(b.strCat, b.strOff, k) + PieceAt(b.coldCat, b.coldOff, k);
    RebuiltRow(b, recs, k, blob[..], {} + Members(b.hot) + Members(b.cold));
  }

  lemma NothingGathered(s: Schema, blob: seq<byte>, target: seq<byte>)
    ensures Gathered(s, blob, target, {})
  {
  }

  lemma RebuiltRow(b: Block, recs: seq<seq<byte>>, k: nat, blob: seq<byte>, done: set<nat>)
    requires BlockOf(b, recs) && k < b.n && |blob| == b.schema.fixedLen && PrefixLen(b.schema) <= |recs[k]|
    requires b.schema.boolBytes <= b.schema.fixedLen && Gathered(b.schema, blob, Blob(b.schema, recs[k]), done)
    requires done == {} + Members(b.hot) + Members(b.cold)
    requires blob[..b.schema.boolBytes] == recs[k][b.schema.escBytes..Stride(b.schema)]
    ensures recs[k] == recs[k][..b.schema.escBytes] + blob + StrPart(b.schema, recs[k]) + ColdPart(b.schema, recs[k])
  {
    hide SlotOff, BoolsBefore, ColStart, StringsEnd, ColumnsOK, Transposed, BitsOf, StreamOf;
    var s, r := b.schema, recs[k];
    var target := Blob(s, r);
    assert target[..s.boolBytes] == r[s.escBytes..Stride(s)];
    forall i: nat | i < |s.fields| ensures SlotBytes(s, blob, i) == SlotBytes(s, target, i) {
      if Numeric(s.fields[i]) { assert i in done; }
    }
    SlotsTile(s, blob, target, |s.fields|);
    assert blob == target;
    var e := StringsEnd(s, r, 0, PrefixLen(s)).value;
    assert r == r[..s.escBytes] + r[s.escBytes..PrefixLen(s)] + r[PrefixLen(s)..e] + r[e..];
  }
}
