/** float64 as the scans see it: IEEE 754 comparison with NaN and the infinities, and the two
    conversions a column read performs (from an int64, and from a stored bit pattern). */
module Floats {
  import opened Bytes

  datatype F64 = NaN | NegInf | Fin(r: real) | PosInf

  predicate Lt(a: F64, b: F64)
  {
    match (a, b)
    case (NaN, _) => false
    case (_, NaN) => false
    case (NegInf, y) => y != NegInf
    case (Fin(x), Fin(y)) => x < y
    case (Fin(_), y) => y == PosInf
    case (PosInf, _) => false
  }

  predicate Le(a: F64, b: F64) { !a.NaN? && !b.NaN? && (a == b || Lt(a, b)) }

  // A comparison operator of a scalar predicate, and IEEE comparison under it.
  datatype Op = OLt | OLe | OGt | OGe | OEq | ONe

  predicate Compare(op: Op, v: F64, t: F64)
  {
    match op
    case OLt => Lt(v, t)
    case OLe => Le(v, t)
    case OGt => Lt(t, v)
    case OGe => Le(t, v)
    case OEq => v == t && !v.NaN?
    case ONe => v != t || v.NaN?
  }

  // Different is exactly not equal, which is all a NaN is; other values are in one order, the infinities at its ends.
  lemma CompareLaws(a: F64, b: F64)
    ensures Compare(ONe, a, b) <==> !Compare(OEq, a, b)
    ensures Compare(OLe, a, b) <==> Compare(OLt, a, b) || Compare(OEq, a, b)
    ensures (Compare(OGe, a, b) <==> Compare(OLe, b, a)) && (Compare(OGt, a, b) <==> Compare(OLt, b, a))
    ensures a.NaN? || b.NaN? ==> !Compare(OEq, a, b) && !Compare(OLt, a, b)
    ensures !a.NaN? && !b.NaN? ==> (Compare(OLt, a, b) <==> !Compare(OGe, a, b)) && (Compare(OEq, a, b) <==> a == b)
    ensures a.Fin? && b.Fin? ==> (Compare(OLt, a, b) <==> a.r < b.r)
    ensures a.Fin? ==> Compare(OLt, NegInf, a) && Compare(OLt, a, PosInf)
  {
  }

  // How many low bits an integer of this magnitude loses to a 53-bit significand.
  function LostBits(m: nat): (k: nat)
    decreases m
  {
    if m < 0x20_0000_0000_0000 then 0 else 1 + LostBits(m / 2)
  }

  // Round to nearest, ties to even.
  function RoundMagnitude(m: nat): (r: nat)
  {
    var p := Pow2(LostBits(m));
    var q, d := m / p, m % p;
    if 2 * d < p || (2 * d == p && q % 2 == 0) then q * p else (q + 1) * p
  }

  function OfInt(i: int): (f: F64)
  {
    if i >= 0 then Fin(RoundMagnitude(i) as real) else Fin(-(RoundMagnitude(-i) as real))
  }

  function Pow2Real(e: int): (r: real)
    ensures r > 0.0
    decreases if e < 0 then -e else e
  {
    if e == 0 then 1.0 else if e > 0 then 2.0 * Pow2Real(e - 1) else Pow2Real(e + 1) / 2.0
  }

  const TWO52: nat := 0x10_0000_0000_0000

  // A significand at an exponent; at the least exponent there is no leading one.
  function Scaled(exp: nat, man: nat): (r: real)
  {
    if exp == 0 then man as real * Pow2Real(-1074) else (TWO52 + man) as real * Pow2Real(exp - 1075)
  }

  // The value of an IEEE 754 binary64 pattern.
  function OfBits(bits: nat): (f: F64)
  {
    var neg, exp, man := (bits / SIGN_BIT) % 2 == 1, (bits / TWO52) % 2048, bits % TWO52;
    if exp == 2047 then (if man != 0 then NaN else if neg then NegInf else PosInf)
    else Fin(if neg then -Scaled(exp, man) else Scaled(exp, man))
  }

  // ---------------------------------------------------------------- what the conversions give

  lemma Pow2Doubles(e: int)
    ensures Pow2Real(e + 1) == 2.0 * Pow2Real(e) && Pow2Real(0) == 1.0
  {
  }

  // Rounding an integer: the nearer of its neighbours with 53 significant bits, and of two equally near the one whose
  // significand is even.
  lemma RoundNearest(m: nat)
    ensures var p, r := Pow2(LostBits(m)), RoundMagnitude(m);
      && r % p == 0 && 2 * (m - r) <= p && 2 * (r - m) <= p
      && (2 * (m - r) == p || 2 * (r - m) == p ==> (r / p) % 2 == 0)
      && (m < 0x20_0000_0000_0000 ==> r == m)
      && m / p < 2 * TWO52 && (m >= 2 * TWO52 ==> TWO52 <= m / p)
  {
    LostExactly(m);
    hide Pow2, LostBits;
    var p := Pow2(LostBits(m));
    var q, d := m / p, m % p;
    var x, y := q * p, (q + 1) * p;
    DivideBack(m, p);
    ModUnique(x, p, q, 0);
    ModUnique(y, p, q + 1, 0);
    if m < 0x20_0000_0000_0000 { NoneLost(m); }
  }

  // As many bits are dropped as leave 53.
  lemma {:induction false} LostExactly(m: nat)
    ensures var p := Pow2(LostBits(m)); m / p < 2 * TWO52 && (m >= 2 * TWO52 ==> TWO52 <= m / p)
    decreases m
  {
    if m >= 2 * TWO52 {
      LostExactly(m / 2);
      HalfFirst(m, Pow2(LostBits(m / 2)));
      if m / 2 < 2 * TWO52 { NoneLost(m / 2); }
    }
  }

  lemma HalfFirst(m: nat, q: nat)
    requires q > 0
    ensures m / (2 * q) == (m / 2) / q
  {
    var a, r := (m / 2) / q, (m / 2) % q;
    assert m / 2 == q * a + r;
    assert m == (2 * q) * a + (2 * r + m % 2);
    ModUnique(m, 2 * q, a, 2 * r + m % 2);
  }

  lemma NoneLost(m: nat)
    requires m < 0x20_0000_0000_0000
    ensures Pow2(LostBits(m)) == 1
  {
  }

  lemma DivideBack(m: nat, p: nat)
    requires p > 0
    ensures m == (m / p) * p + m % p && 0 <= m % p < p && (m / p + 1) * p == (m / p) * p + p
  {
  }

  const INF_BITS: nat := 0x7FF0_0000_0000_0000

  const SIGN_BIT: nat := 0x8000_0000_0000_0000

  // Zero is zero, one is one, the patterns past the infinities are no numbers, and the top bit is the sign.
  lemma Landmarks(bits: nat)
    requires bits < SIGN_BIT
    ensures OfBits(0) == Fin(0.0) && OfBits(0x3FF0_0000_0000_0000) == Fin(1.0)
    ensures OfBits(INF_BITS) == PosInf && OfBits(INF_BITS + SIGN_BIT) == NegInf
    ensures bits > INF_BITS ==> OfBits(bits) == OfBits(bits + SIGN_BIT) == NaN
    ensures bits < INF_BITS ==> OfBits(bits).Fin? && OfBits(bits + SIGN_BIT) == Fin(-OfBits(bits).r)
  {
    hide Scaled;
    ZeroAndOne();
    SplitBits(bits);
  }

  lemma SplitBits(bits: nat)
    requires bits < SIGN_BIT
    ensures bits / SIGN_BIT == 0 && (bits + SIGN_BIT) / SIGN_BIT == 1
    ensures (bits + SIGN_BIT) % TWO52 == bits % TWO52
    ensures ((bits + SIGN_BIT) / TWO52) % 2048 == (bits / TWO52) % 2048 == bits / TWO52
  {
  }

  lemma ZeroAndOne()
    ensures OfBits(0) == Fin(0.0) && OfBits(0x3FF0_0000_0000_0000) == Fin(1.0)
  {
    hide Pow2Real;
    Halving(52);
    FiftyTwo();
    assert Scaled(1023, 0) == TWO52 as real * Pow2Real(-52);
    assert Scaled(0, 0) == 0.0;
  }

  lemma FiftyTwo()
    ensures Pow2(52) == TWO52
  {
    assert Pow2(13) == 0x2000;
    assert Pow2(26) == 0x400_0000;
    assert Pow2(39) == 0x80_0000_0000;
  }

  lemma {:induction false} Halving(k: nat)
    ensures Pow2(k) as real * Pow2Real(-(k as int)) == 1.0
    decreases k
  {
    if k > 0 {
      Halving(k - 1);
      Pow2Doubles(-(k as int));
      Twice(Pow2(k - 1) as real, Pow2Real(-(k as int)));
    }
  }

  lemma Twice(a: real, b: real)
    ensures (2.0 * a) * b == a * (2.0 * b)
  {
  }

  lemma Spread(a: real, b: real, p: real)
    ensures (a + b) * p == a * p + b * p
  {
  }

  // The step from a non-negative pattern to the next.
  function Ulp(exp: nat): (r: real) { Pow2Real((if exp == 0 then 1 else exp) - 1075) }

  lemma ScaledUp(exp: nat, man: nat)
    ensures Scaled(exp, man + 1) == Scaled(exp, man) + Ulp(exp)
  {
    hide Pow2Real;
    Spread(man as real, 1.0, Pow2Real(-1074));
    Spread((TWO52 + man) as real, 1.0, Pow2Real(exp - 1075));
  }

  // One past the largest significand is the smallest at the next exponent.
  lemma ScaledOver(exp: nat)
    ensures Scaled(exp, TWO52) == Scaled(exp + 1, 0)
  {
    hide Pow2Real;
    Pow2Doubles(exp - 1075);
    Twice(TWO52 as real, Pow2Real(exp - 1075));
  }

  // Each step up the finite patterns is the ulp there.
  lemma NextUp(bits: nat)
    requires bits + 1 < INF_BITS
    ensures OfBits(bits).Fin? && OfBits(bits + 1).Fin? && OfBits(bits + 1).r == OfBits(bits).r + Ulp(bits / TWO52)
  {
    hide Scaled, Ulp;
    var exp, man := bits / TWO52, bits % TWO52;
    SplitBits(bits);
    SplitBits(bits + 1);
    ScaledUp(exp, man);
    if man + 1 < TWO52 {
      assert (bits + 1) / TWO52 == exp && (bits + 1) % TWO52 == man + 1;
    } else {
      assert (bits + 1) / TWO52 == exp + 1 && (bits + 1) % TWO52 == 0;
      ScaledOver(exp);
    }
  }

  // So patterns of non-negative numbers are in the order of the numbers.
  lemma {:induction false} BitsOrdered(a: nat, b: nat)
    requires a < b < INF_BITS
    ensures Lt(OfBits(a), OfBits(b))
    decreases b - a
  {
    hide OfBits;
    NextUp(b - 1);
    if a < b - 1 { BitsOrdered(a, b - 1); }
  }
}
