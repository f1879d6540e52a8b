/** IEEE 754 binary64 bit patterns: exact values, the decoding the printer uses,
    and round-to-nearest-even as a reference independent of the printer.

    Patterns are taken without their sign, so `c` runs from 0 through the largest
    finite pattern; INFINITY stands for 2^1024, the value a rounding overflows to. */
module Binary64 {
  import opened Powers
  import opened RealPowers

  const FRACTION: nat := 0x10_0000_0000_0000
  const INFINITY: nat := 0x7ff * FRACTION

  function ExpField(c: nat): nat {
    c / FRACTION
  }

  function FracField(c: nat): nat {
    c % FRACTION
  }

  /** The value is Significand * 2^Exponent (section 3.4 of IEEE 754-2008). */
  function Significand(c: nat): nat {
    if ExpField(c) == 0 then FracField(c) else FRACTION + FracField(c)
  }

  function Exponent(c: nat): int {
    if ExpField(c) == 0 then -1074 else ExpField(c) - 1075
  }

  ghost function Magnitude(c: nat): real {
    Significand(c) as real * RPow(2, Exponent(c))
  }

  /** The pattern of 1.0, and the smallest and largest steps of the scale. */
  lemma Landmarks()
    ensures Magnitude(0x3ff0_0000_0000_0000) == 1.0
    ensures Magnitude(0) == 0.0 && Magnitude(1) == RPow(2, -1074)
    ensures Magnitude(INFINITY) == RPow(2, 1024)
  {
    hide RPow;
    FractionPower();
    RPowZero(2);
    RPowAdd(2, 52, -52);
    RPowAdd(2, 52, 972);
    assert Exponent(INFINITY) == 972 && Significand(INFINITY) == FRACTION;
    assert Exponent(0x3ff0_0000_0000_0000) == -52 && Significand(0x3ff0_0000_0000_0000) == FRACTION;
  }

  lemma FractionPower()
    ensures RPow(2, 52) == FRACTION as real
  {
    assert Pow(2, 13) == 0x2000;
    PowAdd(2, 13, 13);
    PowAdd(2, 26, 26);
  }

  /** The gap to the next pattern. */
  ghost function Gap(c: nat): (r: real)
    ensures r > 0.0
  {
    RPow(2, Exponent(c))
  }

  lemma Successor(c: nat)
    ensures Magnitude(c + 1) == Magnitude(c) + Gap(c)
  {
    hide RPow;
    var s, e := Significand(c) as real, Exponent(c);
    if FracField(c) + 1 < FRACTION {
      assert ExpField(c + 1) == ExpField(c) && FracField(c + 1) == FracField(c) + 1;
      NextSignificand(s, RPow(2, e));
    } else {
      assert ExpField(c + 1) == ExpField(c) + 1 && FracField(c + 1) == 0;
      if ExpField(c) == 0 {
        NextSignificand(s, RPow(2, e));
      } else {
        RPowStep(2, e);
        NextBinade(FRACTION as real, RPow(2, e));
      }
    }
  }

  lemma NextSignificand(s: real, g: real)
    ensures (s + 1.0) * g == s * g + g
  {
  }

  lemma NextBinade(f: real, g: real)
    ensures f * (2.0 * g) == (2.0 * f - 1.0) * g + g
  {
  }

  lemma {:induction false} MagnitudeStrict(a: nat, b: nat)
    requires a < b
    ensures Magnitude(a) < Magnitude(b)
    decreases b - a
  {
    hide Magnitude, Gap;
    Successor(b - 1);
    assert b - 1 + 1 == b;
    if a < b - 1 {
      MagnitudeStrict(a, b - 1);
    }
  }

  lemma MagnitudeMonotone(a: nat, b: nat)
    requires a <= b
    ensures Magnitude(a) <= Magnitude(b)
  {
    if a < b {
      MagnitudeStrict(a, b);
    }
  }

  // ---- round to nearest, ties to even ----

  ghost function Apart(x: real, y: real): (r: real)
    ensures r >= 0.0
  {
    if x >= y then x - y else y - x
  }

  /** Rounding the real q >= 0 to nearest, ties to the even significand, gives the
      finite pattern c (section 4.3.1 of IEEE 754-2008). */
  ghost predicate RoundsTo(q: real, c: nat) {
    && c < INFINITY
    && forall w: nat :: w <= INFINITY && w != c ==>
         Apart(q, Magnitude(c)) < Apart(q, Magnitude(w))
         || (Apart(q, Magnitude(c)) == Apart(q, Magnitude(w)) && c % 2 == 0)
  }

  /** Halfway from the pattern below, and to the pattern above. */
  ghost function Low(c: nat): real
    requires c > 0
  {
    (Magnitude(c - 1) + Magnitude(c)) / 2.0
  }

  ghost function High(c: nat): real {
    (Magnitude(c) + Magnitude(c + 1)) / 2.0
  }

  /** Exactly the reals between the two halfway points round to c; the points
      themselves do when c is even. */
  lemma RoundsExactly(q: real, c: nat)
    requires 0 < c < INFINITY
    ensures RoundsTo(q, c) <==>
            if c % 2 == 0 then Low(c) <= q <= High(c) else Low(c) < q < High(c)
  {
    hide Magnitude;
    var m := Magnitude(c);
    MagnitudeStrict(c - 1, c);
    MagnitudeStrict(c, c + 1);
    if RoundsTo(q, c) {
      assert c - 1 <= INFINITY && c - 1 != c;
      assert c + 1 <= INFINITY && c + 1 != c;
      assert Apart(q, m) <= Apart(q, Magnitude(c - 1));
      assert Apart(q, m) <= Apart(q, Magnitude(c + 1));
    }
    if if c % 2 == 0 then Low(c) <= q <= High(c) else Low(c) < q < High(c) {
      forall w: nat | w <= INFINITY && w != c
        ensures Apart(q, m) < Apart(q, Magnitude(w)) || (Apart(q, m) == Apart(q, Magnitude(w)) && c % 2 == 0)
      {
        if w < c { MagnitudeMonotone(w, c - 1); } else { MagnitudeMonotone(c + 1, w); }
      }
    }
  }

  // ---- decoding ----

  /** The value is mant * 2^exp and its rounding interval is taken to be
      (mant - 1, mant + plus) * 2^exp, closed when inclusive. */
  datatype Decoded = Decoded(mant: nat, plus: nat, exp: int, inclusive: bool)

  function Decode(c: nat): (d: Decoded)
    requires 0 < c < INFINITY
    ensures d.mant >= 2 && 1 <= d.plus <= 2 && -1076 <= d.exp <= 970
    ensures d.mant + d.plus <= 0x40_0000_0000_0002
    ensures d.mant + d.plus < 10_000_000_000_000_000 * (1 + d.plus)
  {
    var e, f := ExpField(c), FracField(c);
    if e == 0 then Decoded(2 * f, 1, -1075, true)
    else if FRACTION + f == FRACTION then Decoded(4 * FRACTION, 2, e - 1075 - 2, true)
    else Decoded(2 * (FRACTION + f), 1, e - 1075 - 1, (FRACTION + f) % 2 == 0)
  }

  lemma DecodeValue(c: nat)
    requires 0 < c < INFINITY
    ensures var d := Decode(c); d.mant as real * RPow(2, d.exp) == Magnitude(c)
  {
    hide RPow;
    var e := Exponent(c);
    RPowStep(2, e - 1);
    RPowStep(2, e - 2);
    assert e - 1 + 1 == e && e - 2 + 1 == e - 1;
    Halved(Significand(c) as real, RPow(2, e), RPow(2, e - 1), RPow(2, e - 2));
  }

  lemma Halved(s: real, p: real, half: real, quarter: real)
    requires p == 2.0 * half && half == 2.0 * quarter
    ensures (2.0 * s) * half == s * p && (4.0 * s) * quarter == s * p
  {
  }

  /** The upper end of the interval is the halfway point; so is the lower end,
      except that the smallest normal takes only the upper half of its gap. */
  lemma DecodeInterval(c: nat)
    requires 0 < c < INFINITY
    ensures var d := Decode(c);
            && (d.mant + d.plus) as real * RPow(2, d.exp) == High(c)
            && (c != FRACTION ==> (d.mant - 1) as real * RPow(2, d.exp) == Low(c))
            && (c == FRACTION ==> (d.mant - 1) as real * RPow(2, d.exp) > Low(c))
  {
    hide RPow, Magnitude;
    var d, e := Decode(c), Exponent(c);
    DecodeValue(c);
    Successor(c);
    Successor(c - 1);
    assert c - 1 + 1 == c;
    RPowStep(2, e - 1);
    RPowStep(2, e - 2);
    assert e - 1 + 1 == e && e - 2 + 1 == e - 1;
    Ends(d.mant as real, d.plus as real, RPow(2, d.exp));
    GapBelow(c);
  }

  lemma Ends(m: real, p: real, u: real)
    ensures (m + p) * u == m * u + p * u && (m - 1.0) * u == m * u - u
  {
  }

  lemma GapBelow(c: nat)
    requires c > 0
    ensures Exponent(c - 1) == if FracField(c) == 0 && ExpField(c) > 1 then Exponent(c) - 1 else Exponent(c)
  {
    if FracField(c) == 0 {
      assert ExpField(c - 1) == ExpField(c) - 1;
    } else {
      assert ExpField(c - 1) == ExpField(c);
    }
  }
}
