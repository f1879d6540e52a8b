/** From a decoded double to the naturals the digit loop starts with: scaling by
    powers of two and ten, the estimate of the decimal exponent and its fixup. */
module Scaling {
  import opened Powers
  import opened RealPowers
  import opened ScaleEstimate
  import opened ShortestDigits
  import opened Binary64

  /** 64 - clz for a 64-bit word. */
  function BitLength(x: nat): nat {
    if x == 0 then 0 else 1 + BitLength(x / 2)
  }

  lemma {:induction false} BitLengthBounds(x: nat)
    requires x > 0
    ensures BitLength(x) > 0 && Pow(2, BitLength(x) - 1) <= x < Pow(2, BitLength(x))
  {
    if x > 1 {
      BitLengthBounds(x / 2);
      var n := BitLength(x / 2);
      assert Pow(2, n + 1) == 2 * Pow(2, n) && Pow(2, n) == 2 * Pow(2, n - 1);
      assert BitLength(x) == n + 1;
    } else {
      assert BitLength(1) == 1 && Pow(2, 1) == 2;
    }
  }

  lemma BitLengthAtMost(x: nat, n: nat)
    requires 0 < x < Pow(2, n)
    ensures BitLength(x) <= n
  {
    BitLengthBounds(x);
    PowCancel(2, BitLength(x) - 1, n);
  }

  /** What the two scaling steps multiply the scale by, and the other three numbers by. */
  function ScaleOf(exp: int, k: int): (s: nat)
    ensures s > 0
  {
    PowPositive(2, if exp < 0 then -exp else 0);
    PowPositive(10, if k >= 0 then k else 0);
    (if exp < 0 then Pow(2, -exp) else 1) * (if k >= 0 then Pow(10, k) else 1)
  }

  function FactorOf(exp: int, k: int): (x: nat)
    ensures x > 0
  {
    PowPositive(2, if exp >= 0 then exp else 0);
    PowPositive(10, if k < 0 then -k else 0);
    (if exp >= 0 then Pow(2, exp) else 1) * (if k < 0 then Pow(10, -k) else 1)
  }

  /** A power is its numerator over its denominator. */
  lemma PowerRatio(b: nat, e: int)
    requires b > 0
    ensures (if e < 0 then Pow(b, -e) else 1) as real * RPow(b, e) == (if e >= 0 then Pow(b, e) else 1) as real
  {
    PowPositive(b, if e < 0 then -e else e);
  }

  lemma ScaleFactor(exp: int, k: int)
    ensures ScaleOf(exp, k) as real * RPow(2, exp) == FactorOf(exp, k) as real * RPow(10, k)
  {
    hide RPow, Pow;
    PowerRatio(2, exp);
    PowerRatio(10, k);
    var d2, n2 := if exp < 0 then Pow(2, -exp) else 1, if exp >= 0 then Pow(2, exp) else 1;
    var d10, n10 := if k < 0 then Pow(10, -k) else 1, if k >= 0 then Pow(10, k) else 1;
    CrossRatio(d2, n2, d10, n10, RPow(2, exp), RPow(10, k));
  }

  lemma CrossRatio(d2: nat, n2: nat, d10: nat, n10: nat, r2: real, r10: real)
    requires d2 as real * r2 == n2 as real && d10 as real * r10 == n10 as real
    ensures (d2 * n10) as real * r2 == (n2 * d10) as real * r10
  {
    calc {
      (d2 * n10) as real * r2;
      n10 as real * (d2 as real * r2);
      n10 as real * n2 as real;
      n2 as real * (d10 as real * r10);
      (n2 * d10) as real * r10;
    }
  }

  /** The binary exponent of the upper bound, rounded up: it is at most 2^t. */
  function UpperExponent(d: Decoded): int {
    BitLength(if d.mant + d.plus > 0 then d.mant + d.plus - 1 else 0) + d.exp
  }

  predicate InRange(d: Decoded) {
    && d.mant >= 2 && 1 <= d.plus <= 2 && -1076 <= d.exp <= 970
    && d.mant + d.plus <= 0x40_0000_0000_0002
    && d.mant + d.plus < 10_000_000_000_000_000 * (1 + d.plus)
  }

  function EstimatedK(d: Decoded): int {
    Estimate(UpperExponent(d))
  }

  lemma TwoPow55()
    ensures Pow(2, 55) == 0x80_0000_0000_0000
  {
    TwoPow40();
    PowAdd(2, 40, 10);
    PowAdd(2, 50, 5);
  }

  lemma UpperExponentRange(d: Decoded)
    requires InRange(d)
    ensures d.exp + 2 <= UpperExponent(d) <= d.exp + 55
    ensures Pow(2, UpperExponent(d) - d.exp - 1) < d.mant + d.plus <= Pow(2, UpperExponent(d) - d.exp)
  {
    var x := d.mant + d.plus - 1;
    BitLengthBounds(x);
    TwoPow55();
    BitLengthAtMost(x, 55);
    PowCancel(2, 1, BitLength(x) + 1) by {
      assert Pow(2, 1) == 2;
      assert Pow(2, BitLength(x) + 1) == 2 * Pow(2, BitLength(x));
    }
    assert Pow(2, 1) == 2;
  }

  /** The upper bound of the interval lies strictly between 10^(k-1) and 10^(k+1). */
  lemma EstimateBounds(d: Decoded)
    requires InRange(d)
    ensures var upper := (d.mant + d.plus) as real * RPow(2, d.exp); var k := EstimatedK(d);
            RPow(10, k - 1) < upper < RPow(10, k + 1)
    ensures (d.mant + d.plus) as real * RPow(2, d.exp) > RPow(2, UpperExponent(d) - 1)
  {
    hide RPow, Pow, Estimate, UpperExponent;
    UpperExponentRange(d);
    UpperAsPower(d.mant + d.plus, UpperExponent(d), d.exp);
    DecimalBounds((d.mant + d.plus) as real * RPow(2, d.exp), UpperExponent(d));
  }

  lemma DecimalBounds(upper: real, t: int)
    requires -1166 < t < 1166 && RPow(2, t - 1) < upper <= RPow(2, t)
    ensures RPow(10, Estimate(t) - 1) < upper < RPow(10, Estimate(t) + 1)
  {
    hide RPow, Estimate;
    var k := Estimate(t);
    EstimateExact(t);
    RPowStep(10, k - 1);
    RPowStep(2, t - 1);
    assert k - 1 + 1 == k && t - 1 + 1 == t;
  }

  lemma UpperAsPower(hi: nat, t: int, e: int)
    requires t > e && Pow(2, t - e - 1) < hi <= Pow(2, t - e)
    ensures RPow(2, t - 1) < hi as real * RPow(2, e) <= RPow(2, t)
  {
    hide RPow, Pow;
    TimesPower(t - e, e);
    TimesPower(t - e - 1, e);
    assert t - e + e == t && t - e - 1 + e == t - 1;
    ScaleOrder(Pow(2, t - e - 1), hi, Pow(2, t - e), RPow(2, e));
  }

  lemma TimesPower(n: nat, e: int)
    ensures RPow(2, n + e) == Pow(2, n) as real * RPow(2, e)
  {
    hide RPow;
    RPowAdd(2, n, e);
    WholeRPow(2, n);
  }

  lemma WholeRPow(b: nat, e: nat)
    requires b > 0
    ensures RPow(b, e) == Pow(b, e) as real
  {
  }

  lemma ScaleOrder(a: nat, b: nat, c: nat, r: real)
    requires a < b <= c && r > 0.0
    ensures a as real * r < b as real * r <= c as real * r
  {
  }

  /** The scaled upper bound stays below ten scales: the estimate is not too small. */
  lemma UpperBelowTenScales(d: Decoded)
    requires InRange(d)
    ensures var k := EstimatedK(d);
            FactorOf(d.exp, k) * (d.mant + d.plus) < 10 * ScaleOf(d.exp, k)
            && ScaleOf(d.exp, k) < 10 * (FactorOf(d.exp, k) * (d.mant + d.plus))
  {
    hide RPow, EstimatedK, ScaleOf, FactorOf;
    var k, hi := EstimatedK(d), d.mant + d.plus;
    EstimateBounds(d);
    ScaleFactor(d.exp, k);
    RPowStep(10, k - 1);
    RPowStep(10, k);
    assert k - 1 + 1 == k;
    CompareScaled(FactorOf(d.exp, k), hi, ScaleOf(d.exp, k), RPow(2, d.exp), RPow(10, k), RPow(10, k - 1));
  }

  lemma CompareScaled(x: nat, hi: nat, s: nat, two: real, ten: real, tenth: real)
    requires two > 0.0 && ten > 0.0 && ten == 10.0 * tenth && x > 0 && s > 0
    requires s as real * two == x as real * ten
    requires tenth < hi as real * two < 10.0 * ten
    ensures x * hi < 10 * s && s < 10 * (x * hi)
  {
    var xr, hr, sr := x as real, hi as real, s as real;
    assert sr * (hr * two) == (xr * hr) * ten by {
      RMulSwap(sr, hr, two);
      RMulSwap(hr, xr, ten);
    }
    assert (xr * hr) * ten < (10.0 * sr) * ten by {
      RMulLess(hr * two, 10.0 * ten, sr);
      RMulSwap(sr, 10.0, ten);
    }
    assert sr * ten < (10.0 * (xr * hr)) * ten by {
      RMulLess(tenth, hr * two, sr);
      RMulSwap(sr, 10.0, tenth);
      RMulSwap(10.0, xr * hr, ten);
    }
    CancelLess(xr * hr, 10.0 * sr, ten);
    CancelLess(sr, 10.0 * (xr * hr), ten);
    assert (x * hi) as real == xr * hr;
  }

  lemma CancelLess(a: real, b: real, r: real)
    requires r > 0.0 && a * r < b * r
    ensures a < b
  {
  }

  /** No scale exceeds 2^1077, far inside the 1280 bits of a buffer. */
  lemma ScaleBound(d: Decoded)
    requires InRange(d)
    ensures ScaleOf(d.exp, EstimatedK(d)) <= Pow(2, 1077)
  {
    hide RPow, Pow, Estimate, UpperExponent;
    var t, k, e := UpperExponent(d), EstimatedK(d), d.exp;
    UpperExponentRange(d);
    EstimateExact(t);
    if k < 0 {
      PowMonotone(2, if e < 0 then -e else 0, 1077);
      assert Pow(2, 0) == 1 by { PowZero(2); }
    } else {
      TenPowerBelow(k, t);
      if e < 0 {
        MulMonotone(Pow(10, k), Pow(2, t), Pow(2, -e), Pow(2, -e));
        PowAdd(2, -e, t);
        PowMonotone(2, t - e, 1077);
      } else {
        PowMonotone(2, t, 1077);
      }
    }
  }

  lemma PowZero(b: nat)
    ensures Pow(b, 0) == 1
  {
  }

  lemma TenPowerBelow(k: nat, t: int)
    requires RPow(10, k) <= RPow(2, t)
    ensures t >= 0 && Pow(10, k) <= Pow(2, t)
  {
    PowPositive(10, k);
    if t < 0 {
      assert Pow(2, -t) == 2 * Pow(2, -t - 1);
      PowPositive(2, -t - 1);
    }
  }

  // ---- fixup ----

  /** The state the digit loop starts from and the final decimal exponent: when the
      upper bound reaches the scale k grows, otherwise the value moves one place. */
  function FixedOf(d: Decoded): Fixed {
    var k := EstimatedK(d);
    var s, x := ScaleOf(d.exp, k), FactorOf(d.exp, k);
    if Reaches(d.inclusive, s, x * d.mant + x * d.plus) then Spread(d, x, s) else Spread(d, 10 * x, s)
  }

  function Spread(d: Decoded, y: nat, s: nat): Fixed {
    Fixed(y * d.mant, y, y * d.plus, s, d.inclusive)
  }

  function FinalK(d: Decoded): int {
    var k := EstimatedK(d);
    var s, x := ScaleOf(d.exp, k), FactorOf(d.exp, k);
    if Reaches(d.inclusive, s, x * d.mant + x * d.plus) then k + 1 else k
  }

  lemma FixedValid(d: Decoded)
    requires InRange(d)
    ensures FixedOf(d).Valid()
    ensures FixedOf(d).scale <= Pow(2, 1077)
    ensures FixedOf(d).scale < 10_000_000_000_000_000 * (FixedOf(d).minus + FixedOf(d).plus)
  {
    hide Pow, EstimatedK, ScaleOf, FactorOf;
    var f, k := FixedOf(d), EstimatedK(d);
    UpperBelowTenScales(d);
    ScaleBound(d);
    FixedShape(d.mant, d.plus, FactorOf(d.exp, k), f.minus);
    ManyScales(d.mant, d.plus, f.minus);
  }

  lemma ManyScales(mant: nat, plus: nat, y: nat)
    requires mant + plus < 10_000_000_000_000_000 * (1 + plus) && y > 0
    ensures y * mant + y * plus < 10_000_000_000_000_000 * (y + y * plus)
  {
    MulStrict(mant + plus, 10_000_000_000_000_000 * (1 + plus), y);
    assert (mant + plus) * y == y * mant + y * plus;
    assert (10_000_000_000_000_000 * (1 + plus)) * y == 10_000_000_000_000_000 * (y + y * plus);
  }

  lemma FixedShape(mant: nat, plus: nat, x: nat, y: nat)
    requires mant >= 2 && plus >= 1 && x > 0 && (y == x || y == 10 * x)
    ensures x * mant + x * plus == x * (mant + plus)
    ensures y * mant + y * plus == y * (mant + plus)
    ensures y < y * mant && y * plus > 0
    ensures y == 10 * x ==> y * (mant + plus) == 10 * (x * (mant + plus))
  {
  }

  /** The digits are scaled exactly: scale * 2^exp is the factor times 10^(k-1). */
  lemma FixedLink(d: Decoded)
    requires InRange(d)
    ensures FixedOf(d).scale as real * RPow(2, d.exp) == FixedOf(d).minus as real * RPow(10, FinalK(d) - 1)
  {
    hide RPow, EstimatedK, ScaleOf, FactorOf, Reaches;
    var k := EstimatedK(d);
    ScaleFactor(d.exp, k);
    RPowStep(10, k - 1);
    assert k - 1 + 1 == k && k + 1 - 1 == k;
    MoveTen(FactorOf(d.exp, k), RPow(10, k - 1));
  }

  lemma MoveTen(x: nat, r: real)
    ensures x as real * (10.0 * r) == (10 * x) as real * r
  {
  }

  /** The decimal exponent of every finite nonzero double. */
  lemma FinalKRange(d: Decoded)
    requires InRange(d) && -1073 <= UpperExponent(d) <= 1024
    ensures -323 <= FinalK(d) <= 309
  {
    hide RPow, UpperExponent, ScaleOf, FactorOf;
    var t, k := UpperExponent(d), EstimatedK(d);
    assert Estimate(-1073) == -324 && Estimate(1024) == 308;
    assert -324 <= k <= 308;
    if k == -324 {
      FirstExponent(d);
    }
  }

  /** Even the smallest subnormal's upper bound reaches 10^-324. */
  lemma FirstExponent(d: Decoded)
    requires InRange(d) && UpperExponent(d) >= -1073 && EstimatedK(d) == -324
    ensures FinalK(d) == -323
  {
    hide RPow, UpperExponent, FinalK, Pow, EstimatedK;
    EstimateBounds(d);
    RPowMonotone(2, -1074, UpperExponent(d) - 1);
    assert RPow(10, -324) <= RPow(2, -1074) by {
      PowerAbove(324, 1074);
      PowPositive(2, 1074);
      Reciprocal(Pow(2, 1074), Pow(10, 324));
      NegativePower(10, 324);
      NegativePower(2, 1074);
    }
    KGrows(d);
  }

  lemma NegativePower(b: nat, n: int)
    requires b > 0 && n > 0
    ensures Pow(b, n) > 0 && RPow(b, -n) == 1.0 / (Pow(b, n) as real)
  {
    hide Pow;
    PowPositive(b, n);
  }

  /** The estimate is one too small exactly as long as the upper bound exceeds 10^k. */
  lemma KGrows(d: Decoded)
    requires InRange(d) && RPow(10, EstimatedK(d)) < (d.mant + d.plus) as real * RPow(2, d.exp)
    ensures FinalK(d) == EstimatedK(d) + 1
  {
    hide RPow, ScaleOf, FactorOf, EstimatedK;
    var k, hi := EstimatedK(d), d.mant + d.plus;
    ScaleFactor(d.exp, k);
    var s, x := ScaleOf(d.exp, k), FactorOf(d.exp, k);
    ReachesScale(x, hi, s, RPow(2, d.exp), RPow(10, k));
    assert x * d.mant + x * d.plus == x * hi;
  }

  lemma ReachesScale(x: nat, hi: nat, s: nat, two: real, ten: real)
    requires two > 0.0 && ten > 0.0 && s > 0
    requires s as real * two == x as real * ten && ten < hi as real * two
    ensures s < x * hi
  {
    var xr, hr, sr := x as real, hi as real, s as real;
    assert sr * ten < (xr * hr) * ten by {
      RMulLess(ten, hr * two, sr);
      RMulSwap(sr, hr, two);
      RMulSwap(hr, xr, ten);
    }
    CancelLess(sr, xr * hr, ten);
    assert (x * hi) as real == xr * hr;
  }
}
