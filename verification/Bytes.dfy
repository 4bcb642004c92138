/** Byte-level encodings shared by the row and column forms: little-endian integers of a
    fitted width, bit-packed flags, and the self-delimiting unsigned varint. */
module Bytes {

  type byte = x: int | 0 <= x < 256

  datatype Option<+T> = None | Some(value: T)

  // ---------------------------------------------------------------- powers

  function Pow2(n: nat): (p: nat)
    ensures p > 0
  {
    if n == 0 then 1 else 2 * Pow2(n - 1)
  }

  function Pow256(n: nat): (p: nat)
    ensures p > 0
  {
    if n == 0 then 1 else 256 * Pow256(n - 1)
  }

  const TWO63: nat := 0x8000_0000_0000_0000
  const TWO64: nat := 0x1_0000_0000_0000_0000

  predicate IsInt64(v: int) { -0x8000_0000_0000_0000 <= v < 0x8000_0000_0000_0000 }

  // Reinterpretation of a 64-bit pattern as a signed integer.
  function Signed64(u: nat): (v: int)
    requires u < TWO64
  {
    if u < TWO63 then u else u - TWO64
  }

  // Two's-complement wrap-around of an unbounded integer.
  function Wrap64(v: int): (r: int)
    ensures IsInt64(r)
    ensures IsInt64(v) ==> r == v
  {
    Signed64(v % TWO64)
  }

  // ---------------------------------------------------------------- little-endian words

  function PutLE(u: nat, w: nat): (s: seq<byte>)
    ensures |s| == w
    decreases w, u
  {
    if w == 0 then [] else [u % 256] + PutLE(u / 256, w - 1)
  }

  function GetLE(s: seq<byte>): (u: nat)
  {
    if s == [] then 0 else s[0] + 256 * GetLE(s[1..])
  }

  lemma {:induction false} DivModStep(u: nat, m: nat)
    requires m > 0
    ensures u % (256 * m) == u % 256 + 256 * ((u / 256) % m)
  {
    var q, r := u / 256, u % 256;
    var a, b := q / m, q % m;
    assert u == 256 * (a * m + b) + r;
    assert 256 * (a * m) == (256 * m) * a by { assert 256 * (a * m) == (256 * m) * a; }
    assert u == (256 * m) * a + (256 * b + r);
    assert 0 <= 256 * b + r < 256 * m;
    ModUnique(u, 256 * m, a, 256 * b + r);
  }

  lemma MulAtLeast(m: int, d: int)
    requires m > 0 && d >= 1
    ensures m * d >= m
  {
    assert m * (d - 1) >= 0;
  }

  lemma ModUnique(u: int, m: int, q: int, r: int)
    requires m > 0 && 0 <= r < m && u == m * q + r
    ensures u % m == r && u / m == q
  {
    var q', r' := u / m, u % m;
    assert u == m * q' + r' && 0 <= r' < m;
    assert m * (q' - q) == m * q' - m * q;
    if q' > q {
      MulAtLeast(m, q' - q);
    } else if q' < q {
      assert m * (q - q') == -(m * (q' - q));
      MulAtLeast(m, q - q');
    }
  }

  // Reading back w bytes of u yields u reduced modulo 256^w.
  lemma {:induction false} GetPutLE(u: nat, w: nat)
    ensures GetLE(PutLE(u, w)) == u % Pow256(w)
    decreases w
  {
    if w > 0 {
      GetPutLE(u / 256, w - 1);
      assert PutLE(u, w)[1..] == PutLE(u / 256, w - 1);
      DivModStep(u, Pow256(w - 1));
    }
  }

  lemma {:induction false} GetLEBound(s: seq<byte>)
    ensures GetLE(s) < Pow256(|s|)
  {
    if s != [] { GetLEBound(s[1..]); }
  }

  lemma {:induction false} PutLEAt(u: nat, w: nat, i: nat)
    requires i < w
    ensures PutLE(u, w)[i] == (u / Pow256(i)) % 256
    decreases w
  {
    if i > 0 {
      PutLEAt(u / 256, w - 1, i - 1);
      DivDiv(u, Pow256(i - 1));
    }
  }

  lemma DivDiv(u: nat, m: nat)
    requires m > 0
    ensures (u / 256) / m == u / (256 * m)
  {
    var q := u / 256;
    var a, b := q / m, q % m;
    assert 256 * (a * m) == (256 * m) * a;
    ModUnique(u, 256 * m, a, 256 * b + u % 256);
  }

  lemma {:induction false} GetLESnoc(s: seq<byte>, b: byte)
    ensures GetLE(s + [b]) == GetLE(s) + b * Pow256(|s|)
  {
    if s == [] {
      assert (s + [b])[1..] == [];
    } else {
      GetLESnoc(s[1..], b);
      assert (s + [b])[1..] == s[1..] + [b];
      assert 256 * (b * Pow256(|s| - 1)) == b * (256 * Pow256(|s| - 1));
    }
  }

  lemma Pow256Widths()
    ensures Pow256(0) == 1 && Pow256(1) == 0x100 && Pow256(2) == 0x1_0000
    ensures Pow256(4) == 0x1_0000_0000 && Pow256(6) == 0x1_0000_0000_0000 && Pow256(8) == TWO64
  {
    assert Pow256(3) == 0x100_0000 && Pow256(5) == 0x100_0000_0000 && Pow256(7) == 0x100_0000_0000_0000;
  }

  // Overwriting bytes at..at+|x| puts x there and leaves every slice beside it alone.
  lemma Overwrite(a: seq<byte>, at: nat, x: seq<byte>, o: nat, e: nat)
    requires at + |x| <= |a| && o <= e <= |a|
    ensures var b := a[..at] + x + a[at + |x|..];
      |b| == |a| && b[at..at + |x|] == x && (e <= at || at + |x| <= o ==> b[o..e] == a[o..e])
  {
    var b := a[..at] + x + a[at + |x|..];
    if e <= at {
      assert b[o..e] == a[o..e];
    } else if at + |x| <= o {
      assert b[o..e] == a[o..e];
    }
  }

  // ---------------------------------------------------------------- bitsets

  function BitBytes(n: nat): (m: nat)
    ensures n <= 8 * m < n + 8
  {
    (n + 7) / 8
  }

  // Bit i of a byte, least significant first.
  predicate Bit(x: nat, i: nat)
    decreases i
  {
    if i == 0 then x % 2 == 1 else Bit(x / 2, i - 1)
  }

  predicate TestBit(b: seq<byte>, i: nat)
    requires i / 8 < |b|
  {
    Bit(b[i / 8], i % 8)
  }

  // b[i>>3] |= 1 << (i&7)
  function SetBit(b: seq<byte>, i: nat): (r: seq<byte>)
    requires i / 8 < |b|
    ensures |r| == |b|
    ensures forall j :: 0 <= j < |b| && j != i / 8 ==> r[j] == b[j]
    ensures forall j: nat {:trigger TestBit(r, j)} :: j / 8 < |b| ==> (TestBit(r, j) <==> j == i || TestBit(b, j))
  {
    if TestBit(b, i) then b else
      OrBitByte(b[i / 8], i % 8);
      var r := b[i / 8 := b[i / 8] + Pow2(i % 8)];
      r
  }

  // Adding 2^j to a value whose bit j is clear sets bit j, touches no other, and carries nowhere.
  lemma {:induction false} OrBit(x: nat, j: nat, n: nat)
    requires j < n && x < Pow2(n) && !Bit(x, j)
    ensures x + Pow2(j) < Pow2(n)
    ensures forall i: nat {:trigger Bit(x, i)} {:trigger Bit(x + Pow2(j), i)} ::
      Bit(x + Pow2(j), i) <==> i == j || Bit(x, i)
    decreases j
  {
    if j == 0 {
      assert (x + 1) / 2 == x / 2;
    } else {
      OrBit(x / 2, j - 1, n - 1);
      assert (x + Pow2(j)) / 2 == x / 2 + Pow2(j - 1);
      assert (x + Pow2(j)) % 2 == x % 2;
    }
    forall i: nat ensures Bit(x + Pow2(j), i) <==> i == j || Bit(x, i) {
      if i > 0 && j > 0 {
        assert Bit(x / 2, i - 1) == Bit(x, i);
      }
    }
  }

  lemma OrBitByte(x: byte, j: nat)
    requires j < 8 && !Bit(x, j)
    ensures x + Pow2(j) < 256
    ensures forall i: nat {:trigger Bit(x, i)} {:trigger Bit(x + Pow2(j), i)} ::
      Bit(x + Pow2(j), i) <==> i == j || Bit(x, i)
  {
    assert Pow2(4) == 16 && Pow2(8) == 256;
    OrBit(x, j, 8);
  }

  // ---------------------------------------------------------------- unsigned varint

  function PutUvarint(u: nat): (s: seq<byte>)
    ensures |s| > 0
  {
    if u < 128 then [u] else [u % 128 + 128] + PutUvarint(u / 128)
  }

  // The reader's cursor form: value, bytes consumed; None on truncation or 64-bit overflow.
  function GetUvarintAt(s: seq<byte>, i: nat): (r: Option<(nat, nat)>)
    requires i <= 10
    ensures r.Some? ==> 0 < r.value.1 <= |s|
    decreases |s|
  {
    if s == [] || i == 10 then None
    else if s[0] < 128 then
      if i == 9 && s[0] > 1 then None else Some((s[0], 1))
    else
      match GetUvarintAt(s[1..], i + 1)
      case None => None
      case Some((v, n)) => Some((s[0] - 128 + 128 * v, n + 1))
  }

  function GetUvarint(s: seq<byte>): (r: Option<(nat, nat)>)
    ensures r.Some? ==> 0 < r.value.1 <= |s|
  {
    GetUvarintAt(s, 0)
  }

  function Pow128(n: nat): (p: nat)
    ensures p > 0
  {
    if n == 0 then 1 else 128 * Pow128(n - 1)
  }

  lemma Pow128Nine()
    ensures Pow128(9) * 2 == TWO64
  {
    assert Pow128(3) == 0x20_0000;
    assert Pow128(6) == 0x400_0000_0000;
  }

  lemma {:induction false} UvarintRoundTripAt(u: nat, rest: seq<byte>, i: nat)
    requires i <= 9
    requires u < 2 * Pow128(9 - i)
    ensures GetUvarintAt(PutUvarint(u) + rest, i) == Some((u, |PutUvarint(u)|))
    decreases u
  {
    var s := PutUvarint(u) + rest;
    if u >= 128 {
      assert i < 9;
      assert u / 128 < 2 * Pow128(8 - i);
      UvarintRoundTripAt(u / 128, rest, i + 1);
      assert s[1..] == PutUvarint(u / 128) + rest;
    }
  }

  // Self-delimiting: whatever follows, a 64-bit value is read back with exactly its own bytes.
  lemma UvarintRoundTrip(u: nat, rest: seq<byte>)
    requires u < TWO64
    ensures GetUvarint(PutUvarint(u) + rest) == Some((u, |PutUvarint(u)|))
  {
    Pow128Nine();
    UvarintRoundTripAt(u, rest, 0);
  }

  // A successful read never looks past the bytes it consumed.
  lemma {:induction false} UvarintLocal(s: seq<byte>, rest: seq<byte>, i: nat)
    requires i <= 10 && GetUvarintAt(s, i).Some?
    ensures GetUvarintAt(s + rest, i) == GetUvarintAt(s, i)
    decreases |s|
  {
    if s[0] >= 128 {
      UvarintLocal(s[1..], rest, i + 1);
      assert (s + rest)[1..] == s[1..] + rest;
    }
  }
}
