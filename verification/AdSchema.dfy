/** A segment's schema and the row form of one ad under it:
    [escape bitmap][numeric blob][string region][cold tail]. */
module AdSchema {
  import opened Bytes

  // ---------------------------------------------------------------- integer slots

  predicate SlotWidth(w: nat) { w == 1 || w == 2 || w == 4 || w == 6 || w == 8 }

  predicate IntFits(v: int, w: nat, uns: bool)
  {
    if uns then
      v >= 0 && (w == 1 ==> v <= 0xFF) && (w == 2 ==> v <= 0xFFFF) &&
      (w == 4 ==> v <= 0xFFFF_FFFF) && (w == 6 ==> v <= 0xFFFF_FFFF_FFFF)
    else
      (w == 1 ==> -0x80 <= v <= 0x7F) && (w == 2 ==> -0x8000 <= v <= 0x7FFF) &&
      (w == 4 ==> -0x8000_0000 <= v <= 0x7FFF_FFFF) && (w == 6 ==> -0x8000_0000_0000 <= v <= 0x7FFF_FFFF_FFFF)
  }

  // The low w bytes of the two's-complement pattern.
  function PutInt(v: int, w: nat): (s: seq<byte>)
    ensures |s| == w
  {
    PutLE(v % TWO64, w)
  }

  // Zero-extension, or sign-extension by shifting the pattern to the top and arithmetically back.
  function ReadInt(s: seq<byte>, uns: bool): (v: int)
    requires |s| <= 8
  {
    var u := GetLE(s);
    GetLEBound(s);
    Pow256Bound(|s|);
    if uns || |s| == 8 then Signed64(u)
    else
      var p := Pow2(64 - 8 * |s|);
      Signed64((u * p) % TWO64) / p
  }

  lemma {:induction false} Pow256Bound(w: nat)
    requires w <= 8
    ensures Pow256(w) <= TWO64
    decreases 8 - w
  {
    Pow256Widths();
    if w < 8 { Pow256Bound(w + 1); }
  }

  lemma {:induction false} Pow2Add(a: nat, b: nat)
    ensures Pow2(a + b) == Pow2(a) * Pow2(b)
    decreases a
  {
    if a > 0 {
      Pow2Add(a - 1, b);
      assert Pow2(a + b) == 2 * (Pow2(a - 1) * Pow2(b));
    }
  }

  lemma {:induction false} Pow2Of8(w: nat)
    ensures Pow2(8 * w) == Pow256(w)
    decreases w
  {
    if w > 0 {
      Pow2Of8(w - 1);
      Pow2Add(8, 8 * (w - 1));
      assert Pow2(4) == 16 && Pow2(8) == 256;
      assert 8 + 8 * (w - 1) == 8 * w;
    }
  }

  lemma ShiftUpAndBack(u: nat, m: nat, p: nat)
    requires p > 0 && m * p == TWO64 && u < m
    ensures Signed64((u * p) % TWO64) / p == if 2 * u < m then u else u - m
  {
    var x := u * p;
    assert x < TWO64 by { MulBelow(u, m, p); }
    ModUnique(x, TWO64, 0, x);
    assert (2 * u) * p == 2 * x;
    if 2 * u < m {
      MulBelow(2 * u, m, p);
      assert Signed64(x) == x;
      ModUnique(x, p, u, 0);
    } else {
      MulAtMost(m, 2 * u, p);
      assert Signed64(x) == x - TWO64;
      assert p * (u - m) == x - TWO64 by { assert p * (u - m) == p * u - p * m; }
      ModUnique(x - TWO64, p, u - m, 0);
    }
  }

  // Shifting up and arithmetically back is sign extension from the slot's top bit.
  lemma SignExtend(s: seq<byte>)
    requires |s| == 1 || |s| == 2 || |s| == 4 || |s| == 6
    ensures ReadInt(s, false) == if 2 * GetLE(s) < Pow256(|s|) then GetLE(s) else GetLE(s) - Pow256(|s|)
  {
    GetLEBound(s);
    var p := Pow2(64 - 8 * |s|);
    assert Pow256(|s|) * p == TWO64 by {
      Pow2Of8(|s|);
      Pow2Of8(8);
      Pow2Add(8 * |s|, 64 - 8 * |s|);
      Pow256Widths();
    }
    ShiftUpAndBack(GetLE(s), Pow256(|s|), p);
  }

  lemma MulBelow(a: int, b: int, p: int)
    requires a < b && p > 0
    ensures a * p < b * p
  {
    assert (b - a) * p > 0;
  }

  lemma MulAtMost(a: int, b: int, p: int)
    requires a <= b && p >= 0
    ensures a * p <= b * p
  {
    assert (b - a) * p >= 0;
  }

  lemma FitsRange(v: int, w: nat, uns: bool)
    requires w == 1 || w == 2 || w == 4 || w == 6
    ensures IntFits(v, w, uns) <==> if uns then 0 <= v < Pow256(w) else 0 <= 2 * v + Pow256(w) < 2 * Pow256(w)
  {
    Pow256Widths();
  }

  lemma ResidueExact(v: int, m: int, uns: bool)
    requires m > 0 && m % 2 == 0
    ensures uns ==> (v % m == v <==> 0 <= v < m)
    ensures !uns ==> ((if 2 * (v % m) < m then v % m else v % m - m) == v <==> 0 <= 2 * v + m < 2 * m)
  {
    if 0 <= v < m { ModUnique(v, m, 0, v); }
    if -m <= v < 0 { ModUnique(v, m, -1, v + m); }
  }

  lemma NarrowSlotExact(v: int, w: nat, uns: bool)
    requires w == 1 || w == 2 || w == 4 || w == 6
    ensures ReadInt(PutInt(v, w), uns) == v <==> IntFits(v, w, uns)
  {
    hide GetLE, PutLE;
    var m := Pow256(w);
    var s := PutInt(v, w);
    assert GetLE(s) == v % m by { GetPutLE(v % TWO64, w); WrapMod(v, w); }
    FitsRange(v, w, uns);
    assert m % 2 == 0;
    ResidueExact(v, m, uns);
    if uns {
      assert m <= 0x1_0000_0000_0000 by { Pow256Widths(); }
      assert ReadInt(s, true) == v % m;
    } else {
      SignExtend(s);
    }
  }

  // The slot holds exactly the values that fit: below eight bytes a value survives the slot
  // if and only if it fits the width, and at eight bytes every value survives.
  lemma IntSlotExact(v: int, w: nat, uns: bool)
    requires IsInt64(v) && SlotWidth(w)
    ensures w < 8 ==> (ReadInt(PutInt(v, w), uns) == v <==> IntFits(v, w, uns))
    ensures w == 8 ==> ReadInt(PutInt(v, w), uns) == v
  {
    hide GetLE, PutLE, Pow256;
    if w < 8 {
      NarrowSlotExact(v, w, uns);
    } else {
      GetPutLE(v % TWO64, 8);
      Pow256Widths();
    }
  }

  lemma WrapMod(v: int, w: nat)
    requires SlotWidth(w)
    ensures (v % TWO64) % Pow256(w) == v % Pow256(w)
  {
    Pow256Widths();
    Pow256Bound(w);
    var m := Pow256(w);
    var k := TWO64 / m;
    assert TWO64 == m * k;
    var q, r := v / TWO64, v % TWO64;
    var q', r' := r / m, r % m;
    assert v == TWO64 * q + r;
    assert (m * k) * q == m * (k * q);
    ModUnique(v, m, k * q + q', r');
  }

  // dst[i] = byte(u >> 8i), in place.
  method PutIntLE(dst: array<byte>, at: nat, v: int, w: nat)
    requires at + w <= dst.Length
    modifies dst
    ensures dst[..] == old(dst[..at]) + PutInt(v, w) + old(dst[at + w..])
  {
    hide PutLE, Pow256;
    var u := v % TWO64;
    var i := 0;
    while i < w
      invariant 0 <= i <= w
      invariant forall j :: 0 <= j < i ==> dst[at + j] == PutLE(u, w)[j]
      invariant forall j :: 0 <= j < dst.Length && !(at <= j < at + i) ==> dst[j] == old(dst[j])
    {
      PutLEAt(u, w, i);
      dst[at + i] := (u / Pow256(i)) % 256;
      i := i + 1;
    }
    var s := PutInt(v, w);
    assert forall j :: at <= j < at + w ==> dst[j] == s[j - at];
  }

  // u |= src[i] << 8i, then the signedness adjustment.
  method ReadIntLE(src: seq<byte>, w: nat, uns: bool) returns (v: int)
    requires w <= 8 && w <= |src|
    ensures v == ReadInt(src[..w], uns)
  {
    var u: nat := 0;
    var i := 0;
    while i < w
      invariant 0 <= i <= w
      invariant u == GetLE(src[..i])
    {
      GetLESnoc(src[..i], src[i]);
      assert src[..i + 1] == src[..i] + [src[i]];
      u := u + src[i] * Pow256(i);
      i := i + 1;
    }
    GetLEBound(src[..w]);
    Pow256Bound(w);
    if uns || w == 8 {
      v := Signed64(u);
    } else {
      var p := Pow2(64 - 8 * w);
      v := Signed64((u * p) % TWO64) / p;
    }
  }
}
