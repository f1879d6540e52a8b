/** The printed decimal against round-to-nearest-even: it reads back as the value
    it was printed from, nothing shorter does, and nothing with as many digits that
    reads back is nearer. */
module RoundTrip {
  import opened Powers
  import opened RealPowers
  import opened ScaleEstimate
  import opened ShortestDigits
  import opened Binary64
  import opened Scaling
  import opened DecimalText

  /** What the digit loop and the rounding leave for the pattern c: the decimal d
      with n digits, standing for d * 10^(k - n). */
  ghost predicate Printed(c: nat, d: nat, n: nat, k: int)
    requires 0 < c < INFINITY
  {
    var f := FixedOf(Decode(c));
    1 <= n <= 17 && k == FinalK(Decode(c)) && d < Pow(10, n) && Inside(f, n, d) && Nearest(f, n, d) && NoShorter(f, n)
  }

  // ---- the interval in exact reals ----

  ghost predicate Between(inclusive: bool, lo: real, q: real, hi: real) {
    if inclusive then lo <= q <= hi else lo < q < hi
  }

  ghost function LowEnd(d: Decoded): real {
    (d.mant - 1) as real * RPow(2, d.exp)
  }

  ghost function HighEnd(d: Decoded): real {
    (d.mant + d.plus) as real * RPow(2, d.exp)
  }

  /** Comparing a scaled bound with a scaled decimal compares their exact values. */
  lemma CompareExact(a: nat, d: nat, y: nat, p: nat, s: nat, two: real, ten: real, unit: real)
    requires y > 0 && p > 0 && two > 0.0 && s as real * two == y as real * ten && ten == p as real * unit
    ensures (y * a) * p <= d * s <==> a as real * two <= d as real * unit
    ensures (y * a) * p < d * s <==> a as real * two < d as real * unit
    ensures (y * a) * p == d * s <==> a as real * two == d as real * unit
  {
    var ar, dr, yr, pr, sr := a as real, d as real, y as real, p as real, s as real;
    var left, right := (yr * ar) * pr, dr * sr;
    assert left == ((y * a) * p) as real && right == (d * s) as real;
    var w := yr * pr;
    assert left * two == (ar * two) * w;
    assert right * two == (dr * unit) * w by {
      assert right * two == dr * (sr * two) == dr * (yr * (pr * unit));
    }
    SameOrder(left, right, two, ar * two, dr * unit, w);
  }

  lemma SameOrder(left: real, right: real, two: real, x: real, z: real, w: real)
    requires two > 0.0 && w > 0.0 && left * two == x * w && right * two == z * w
    ensures left <= right <==> x <= z
    ensures left < right <==> x < z
    ensures left == right <==> x == z
  {
    if left < right { assert left * two < right * two; CancelLess(x, z, w); }
    if right < left { assert right * two < left * two; CancelLess(z, x, w); }
    if left == right { assert x * w == z * w; CancelEqual(x, z, w); }
  }

  lemma CancelEqual(x: real, z: real, w: real)
    requires w > 0.0 && x * w == z * w
    ensures x == z
  {
    assert (x - z) * w == 0.0;
  }

  /** The last place: 10^(k-1) is 10^(n-1) units of it. */
  lemma LastPlace(n: nat, k: int)
    requires n > 0
    ensures RPow(10, k - 1) == Pow(10, n - 1) as real * RPow(10, k - n)
  {
    hide RPow, Pow;
    RPowAdd(10, n - 1, k - n);
    assert n - 1 + (k - n) == k - 1;
    WholeRPow(10, n - 1);
  }

  lemma DecodedInRange(c: nat)
    requires 0 < c < INFINITY
    ensures InRange(Decode(c))
  {
  }

  /** The four numbers share one factor. */
  lemma FixedParts(d: Decoded)
    ensures var f := FixedOf(d);
            f.mant == f.minus * d.mant && f.plus == f.minus * d.plus && f.inclusive == d.inclusive
  {
    hide EstimatedK, ScaleOf, FactorOf;
  }

  lemma InsideParts(f: Fixed, d: Decoded, n: nat, v: nat)
    requires n > 0 && d.mant > 0
    requires f.mant == f.minus * d.mant && f.plus == f.minus * d.plus && f.inclusive == d.inclusive
    ensures Inside(f, n, v) <==>
            && Reaches(d.inclusive, (f.minus * (d.mant - 1)) * Pow(10, n - 1), v * f.scale)
            && Reaches(d.inclusive, v * f.scale, (f.minus * (d.mant + d.plus)) * Pow(10, n - 1))
  {
    hide Pow;
    assert f.mant - f.minus == f.minus * (d.mant - 1);
    assert f.mant + f.plus == f.minus * (d.mant + d.plus);
  }

  /** One end of the interval, scaled and exact. */
  lemma EndExact(d: Decoded, n: nat, v: nat, a: nat)
    requires InRange(d) && n > 0
    ensures var f := FixedOf(d);
            var end, q := a as real * RPow(2, d.exp), Decimal(v, FinalK(d) - n);
            && (Reaches(d.inclusive, (f.minus * a) * Pow(10, n - 1), v * f.scale) <==>
                if d.inclusive then end <= q else end < q)
            && (Reaches(d.inclusive, v * f.scale, (f.minus * a) * Pow(10, n - 1)) <==>
                if d.inclusive then q <= end else q < end)
  {
    hide RPow, Pow, FinalK, FixedOf;
    var f, k := FixedOf(d), FinalK(d);
    FixedValid(d);
    FixedLink(d);
    LastPlace(n, k);
    PowPositive(10, n - 1);
    CompareExact(a, v, f.minus, Pow(10, n - 1), f.scale, RPow(2, d.exp), RPow(10, k - 1), RPow(10, k - n));
  }

  lemma InsideExact(d: Decoded, n: nat, v: nat)
    requires InRange(d) && n > 0
    ensures Inside(FixedOf(d), n, v) <==>
            Between(d.inclusive, LowEnd(d), Decimal(v, FinalK(d) - n), HighEnd(d))
  {
    hide RPow, Pow, FinalK, FixedOf, Inside, Reaches, Decimal;
    FixedParts(d);
    InsideParts(FixedOf(d), d, n, v);
    EndExact(d, n, v, d.mant - 1);
    EndExact(d, n, v, d.mant + d.plus);
  }

  ghost function Exact(d: Decoded): real {
    d.mant as real * RPow(2, d.exp)
  }

  /** Units of the scaled distance in one unit of exact distance, times 2^exp. */
  ghost function Weight(d: Decoded, n: nat): real
    requires n > 0
  {
    FixedOf(d).minus as real * Pow(10, n - 1) as real
  }

  lemma DistanceWeight(d: Decoded, n: nat, v: nat)
    requires InRange(d) && n > 0
    ensures Weight(d, n) > 0.0
    ensures Distance(FixedOf(d), n, v) as real * RPow(2, d.exp)
         == Apart(Decimal(v, FinalK(d) - n), Exact(d)) * Weight(d, n)
  {
    hide RPow, Pow, FinalK, FixedOf, Distance, Apart;
    var f, k := FixedOf(d), FinalK(d);
    FixedValid(d);
    FixedParts(d);
    FixedLink(d);
    LastPlace(n, k);
    PowPositive(10, n - 1);
    DistanceScaled(f, d.mant, n, v, RPow(2, d.exp), RPow(10, k - 1), RPow(10, k - n),
                   Decimal(v, k - n), Exact(d), Weight(d, n));
  }

  /** Distances too: nearer among scaled decimals is nearer in exact value. */
  lemma DistanceExact(d: Decoded, n: nat, v: nat, w: nat)
    requires InRange(d) && n > 0
    ensures var f := FixedOf(d);
            var x, y := Decimal(v, FinalK(d) - n), Decimal(w, FinalK(d) - n);
            && (Distance(f, n, v) < Distance(f, n, w) <==> Apart(x, Exact(d)) < Apart(y, Exact(d)))
            && (Distance(f, n, v) == Distance(f, n, w) <==> Apart(x, Exact(d)) == Apart(y, Exact(d)))
  {
    hide RPow, FinalK, FixedOf, Distance, Apart, Decimal, Weight, Exact;
    var f, k := FixedOf(d), FinalK(d);
    DistanceWeight(d, n, v);
    DistanceWeight(d, n, w);
    SameOrder(Distance(f, n, v) as real, Distance(f, n, w) as real, RPow(2, d.exp),
              Apart(Decimal(v, k - n), Exact(d)), Apart(Decimal(w, k - n), Exact(d)), Weight(d, n));
  }

  lemma DistanceScaled(f: Fixed, mant: nat, n: nat, v: nat, two: real, ten: real, unit: real,
                       q: real, m: real, weight: real)
    requires n > 0 && two > 0.0 && f.minus > 0 && f.mant == f.minus * mant
    requires f.scale as real * two == f.minus as real * ten && ten == Pow(10, n - 1) as real * unit
    requires Pow(10, n - 1) > 0
    requires q == v as real * unit && m == mant as real * two && weight == f.minus as real * Pow(10, n - 1) as real
    ensures weight > 0.0
    ensures Distance(f, n, v) as real * two == Apart(q, m) * weight
  {
    hide Pow;
    var p := Pow(10, n - 1);
    var vr, mr, yr, pr, sr := v as real, mant as real, f.minus as real, p as real, f.scale as real;
    var gap := v * f.scale - f.mant * p;
    assert gap as real == vr * sr - (yr * mr) * pr;
    assert gap as real * two == (q - m) * weight by {
      assert (vr * sr) * two == vr * (sr * two) == vr * (yr * (pr * unit)) == (vr * unit) * (yr * pr);
      assert ((yr * mr) * pr) * two == (mr * two) * (yr * pr);
    }
    GapSign(gap as real, two, q - m, weight);
  }

  lemma GapSign(gap: real, two: real, x: real, w: real)
    requires two > 0.0 && w > 0.0 && gap * two == x * w
    ensures gap >= 0.0 <==> x >= 0.0
    ensures (-gap) * two == (-x) * w
  {
    assert x < 0.0 ==> x * w < 0.0;
    assert x >= 0.0 ==> x * w >= 0.0;
    assert gap < 0.0 ==> gap * two < 0.0;
  }

  // ---- halfway points have too many digits to be printed ----

  lemma {:induction false} FivesAreOdd(m: nat)
    ensures Pow(5, m) % 2 == 1
  {
    if m > 0 {
      FivesAreOdd(m - 1);
      OddTimesOdd(5, Pow(5, m - 1));
    }
  }

  lemma OddTimesOdd(x: nat, y: nat)
    requires x % 2 == 1 && y % 2 == 1
    ensures (x * y) % 2 == 1
  {
    var a, b := x / 2, y / 2;
    assert x == 2 * a + 1 && y == 2 * b + 1;
    assert (2 * a + 1) * (2 * b + 1) == 2 * (2 * (a * b) + a + b) + 1;
  }

  /** An odd multiple of 2^-1075 has at least as many digits as 5^1075. */
  lemma OddHalfwayDigits(d: nat, m: nat, o: nat)
    requires o % 2 == 1 && d * Pow(2, 1075) == o * Pow(10, m)
    ensures d >= Pow(5, 1075)
  {
    hide Pow;
    PowProduct(2, 5, m);
    FivesAreOdd(m);
    OddTimesOdd(o, Pow(5, m));
    PowPositive(2, 1075);
    PowPositive(2, m);
    if m < 1075 {
      PowAdd(2, m, 1075 - m);
      CancelTwos(d * Pow(2, 1075 - m), o * Pow(5, m), Pow(2, m), d, Pow(2, 1075 - m), o, Pow(5, m));
      EvenPower(d, 1075 - m);
    } else {
      PowAdd(2, 1075, m - 1075);
      CancelTwos(d, (o * Pow(5, m)) * Pow(2, m - 1075), Pow(2, 1075), d, 1, o * Pow(2, m - 1075), Pow(5, m)) by {
        Shuffle(o, Pow(2, 1075), Pow(2, m - 1075), Pow(5, m));
      }
      PowMonotone(5, 1075, m);
      PowPositive(2, m - 1075);
      PowPositive(5, m);
      MulPositive(o, Pow(2, m - 1075));
      MulGrows(Pow(5, m), o * Pow(2, m - 1075));
      Shuffle(o, 1, Pow(2, m - 1075), Pow(5, m));
    }
  }

  lemma Shuffle(o: nat, a: nat, b: nat, f: nat)
    ensures o * ((a * b) * f) == ((o * b) * f) * a && (o * f) * b == (o * b) * f && f * (o * b) == (o * b) * f
  {
    MulAssociative(o, f, b);
    MulAssociative(o, b, f);
    calc {
      o * ((a * b) * f);
      { MulAssociative(a, b, f); }
      o * (a * (b * f));
      { MulAssociative(o, a, b * f); MulAssociative(a, o, b * f); }
      a * (o * (b * f));
      a * ((o * b) * f);
    }
  }

  lemma CancelTwos(x: nat, z: nat, p: nat, d: nat, q: nat, o: nat, f: nat)
    requires p > 0 && x == d * q && z == o * f
    requires d * (p * q) == o * f * p || d * (p * q) == o * (p * f)
    ensures x == z
  {
    assert d * (p * q) == x * p by { MulAssociative(d, q, p); }
    assert o * (p * f) == z * p by { MulAssociative(o, f, p); }
    if x < z { MulStrict(x, z, p); }
    if z < x { MulStrict(z, x, p); }
  }

  lemma EvenPower(d: nat, n: nat)
    requires n > 0
    ensures (d * Pow(2, n)) % 2 == 0
  {
    assert d * Pow(2, n) == 2 * (d * Pow(2, n - 1));
  }

  /** No printed decimal lies halfway between two subnormals. */
  lemma NotHalfway(d: nat, j: int, n: nat, o: nat)
    requires o % 2 == 1 && d < Pow(10, n) && n <= 17
    ensures Decimal(d, j) != o as real * RPow(2, -1075)
  {
    hide RPow, Pow;
    if Decimal(d, j) == o as real * RPow(2, -1075) {
      PowerRatio(2, -1075);
      PowerRatio(10, j);
      var m := if j < 0 then -j else 0;
      var d' := d * if j < 0 then 1 else Pow(10, j);
      assert Pow(10, 0) == 1 by { PowZero(10); }
      HalfwayEquation(d, if j >= 0 then Pow(10, j) else 1, o, Pow(2, 1075), Pow(10, m), RPow(10, j), RPow(2, -1075));
      if j < 0 {
        OddHalfwayDigits(d, m, o);
        FewerDigits(n);
      } else {
        EvenPower(d * Pow(10, j), 1075);
      }
    }
  }

  lemma HalfwayEquation(d: nat, up: nat, o: nat, twos: nat, tens: nat, r10: real, r2: real)
    requires d as real * r10 == o as real * r2
    requires tens as real * r10 == up as real && twos as real * r2 == 1.0
    ensures (d * up) * twos == o * tens
  {
    var dr, ur, or, tr, nr := d as real, up as real, o as real, twos as real, tens as real;
    assert (dr * ur) * tr == or * nr by {
      assert (dr * ur) * tr == (dr * (nr * r10)) * tr == nr * ((dr * r10) * tr);
      assert nr * ((dr * r10) * tr) == nr * ((or * r2) * tr) == nr * (or * (tr * r2));
    }
    assert ((d * up) * twos) as real == (dr * ur) * tr;
    assert (o * tens) as real == or * nr;
  }

  lemma FewerDigits(n: nat)
    requires n <= 17
    ensures Pow(10, n) <= Pow(5, 1075)
  {
    hide Pow;
    PowMonotone(10, n, 17);
    PowBaseMonotone(10, 25, 17);
    assert Pow(5, 2) == 25 by { FiveSquared(); }
    PowPow(5, 2, 17);
    PowMonotone(5, 34, 1075);
  }

  lemma FiveSquared()
    ensures Pow(5, 2) == 25
  {
  }

  // ---- the printed decimal reads back ----

  /** Reading the printed decimal with round-to-nearest-even gives the value back. */
  lemma ReadsBack(c: nat, d: nat, n: nat, k: int)
    requires 0 < c < INFINITY && Printed(c, d, n, k)
    ensures RoundsTo(Decimal(d, k - n), c)
  {
    hide RPow, Pow, FinalK, FixedOf, Inside, Decimal, Magnitude, RoundsTo;
    var dec := Decode(c);
    DecodedInRange(c);
    InsideExact(dec, n, d);
    DecodeInterval(c);
    RoundsExactly(Decimal(d, k - n), c);
    if c < FRACTION {
      NotHalfway(d, k - n, n, dec.mant - 1);
      NotHalfway(d, k - n, n, dec.mant + dec.plus);
    } else {
      InclusiveIsEven(c);
    }
  }

  lemma InclusiveIsEven(c: nat)
    requires FRACTION <= c < INFINITY
    ensures Decode(c).inclusive <==> c % 2 == 0
  {
  }

  /** Moving zeros into the digits does not change a decimal. */
  lemma Refine(e: nat, j: int, i: int)
    requires i <= j
    ensures Decimal(e, j) == Decimal(e * Pow(10, j - i), i)
  {
    hide RPow, Pow;
    RPowAdd(10, j - i, i);
    assert j - i + i == j;
    WholeRPow(10, j - i);
    RegroupDecimal(e, Pow(10, j - i), RPow(10, i));
  }

  lemma RegroupDecimal(e: nat, p: nat, r: real)
    ensures e as real * (p as real * r) == (e * p) as real * r
  {
  }

  /** Nothing shorter reads back, apart from the smallest normal's case below. */
  lemma NothingShorterMost(c: nat, d: nat, n: nat, k: int, e: nat, j: int)
    requires 0 < c < INFINITY && c != FRACTION && Printed(c, d, n, k) && j > k - n
    ensures !RoundsTo(Decimal(e, j), c)
  {
    hide RPow, Pow, FinalK, FixedOf, Inside, Decimal, Magnitude, RoundsTo, Nearest;
    var dec := Decode(c);
    var i := j - (k - n) - 1;
    var w := 10 * (e * Pow(10, i));
    assert Decimal(e, j) == Decimal(w, k - n) by { TenFold(e, j, k - n); }
    DecodedInRange(c);
    InsideExact(dec, n, w);
    DecodeInterval(c);
    RoundsExactly(Decimal(e, j), c);
    if c >= FRACTION { InclusiveIsEven(c); }
    assert !Inside(FixedOf(dec), n, 10 * (e * Pow(10, i)));
  }

  lemma TenFold(e: nat, j: int, i: int)
    requires i < j
    ensures Decimal(e, j) == Decimal(10 * (e * Pow(10, j - i - 1)), i)
  {
    hide Decimal;
    Refine(e, j, i);
    assert Pow(10, j - i) == 10 * Pow(10, j - i - 1);
    assert e * (10 * Pow(10, j - i - 1)) == 10 * (e * Pow(10, j - i - 1));
  }

  /** Nor is any other decimal of the same last place that reads back nearer. */
  lemma NothingNearerMost(c: nat, d: nat, n: nat, k: int, e: nat)
    requires 0 < c < INFINITY && c != FRACTION && Printed(c, d, n, k)
    requires RoundsTo(Decimal(e, k - n), c)
    ensures var x, y := Apart(Decimal(d, k - n), Magnitude(c)), Apart(Decimal(e, k - n), Magnitude(c));
            x < y || (x == y && e <= d)
  {
    hide RPow, Pow, FinalK, FixedOf, Inside, Decimal, Magnitude, RoundsTo, NoShorter, Distance, Apart;
    var dec := Decode(c);
    DecodedInRange(c);
    InsideExact(dec, n, e);
    DecodeInterval(c);
    DecodeValue(c);
    RoundsExactly(Decimal(e, k - n), c);
    if c >= FRACTION { InclusiveIsEven(c); }
    assert Inside(FixedOf(dec), n, e);
    DistanceExact(dec, n, d, e);
    assert Exact(dec) == Magnitude(c);
  }

  // ---- the smallest normal, whose lower gap the decoder takes for half its size ----

  lemma FivePow323()
    ensures Pow(5, 323) == 5852095443365247908944811767323345712393779173492729145421444317325479095842499561858293871924080791803817238289275024548969171774893664005765336542259411158863431768965556536363293899279114373968013751436956226825714111328125
  {
    FivePow40();
    PowPow(5, 40, 8);
    assert Pow(9094947017729282379150390625, 8) == 46816763546921983271558494138586765699150233387941833163371554538603832766739996494866350975392646334430537906314200196391753374199149312046122692338075289270907454151724452290906351194232914991744110011495649814605712890625;
    assert Pow(5, 3) == 125;
    PowAdd(5, 3, 320);
  }

  lemma TwoPow752()
    ensures Pow(2, 752) == 23689546086131422960647270026588478931532074235789438036179382904450240366918592625898413220651954314430049601701829119967217713075482397330387684250506304003974227539380644310764545984368872754291732775783027172102246808682496
  {
    TwoPow40();
    assert Pow(2, 7) == 128;
    PowAdd(2, 7, 40);
    PowPow(2, 47, 8);
    assert Pow(140737488355328, 8) == 153914086704665934422965000391185991426092731525255651046673021110334850669910978950836977558144201721900890587136;
    PowAdd(2, 376, 376);
  }

  /** Comparing e * 10^-t with m * 2^-(752 + t) is comparing e * 2^752 with m * 5^t. */
  lemma OnGrid(e: nat, t: int, m: nat)
    requires t > 0
    ensures Decimal(e, -t) < m as real * RPow(2, -752 - t) <==> e * Pow(2, 752) < m * Pow(5, t)
    ensures m as real * RPow(2, -752 - t) < Decimal(e, -t) <==> m * Pow(5, t) < e * Pow(2, 752)
  {
    hide RPow, Pow;
    PowerRatio(10, -t);
    PowerRatio(2, -752 - t);
    PowProduct(2, 5, t);
    PowAdd(2, t, 752);
    PowPositive(2, t);
    PowPositive(5, t);
    PowPositive(2, 752);
    GridOrder(e, m, Pow(2, t), Pow(5, t), Pow(2, 752), RPow(10, -t), RPow(2, -752 - t));
  }

  lemma FiveFactors(a: real, b: real, c: real, d: real, e: real)
    ensures (a * b) * ((c * d) * e) == (a * c) * ((e * b) * d)
  {
    calc {
      (a * b) * ((c * d) * e);
      { RMulSwap(c, d, e); }
      (a * b) * (c * (d * e));
      { RMulSwap(a * b, c, d * e); RMulSwap(a, b, c); }
      (a * (b * c)) * (d * e);
      { RMulSwap(b, c, 1.0); RMulSwap(a, c, b); }
      ((a * c) * b) * (d * e);
      { RMulSwap(a * c, b, d * e); }
      (a * c) * (b * (d * e));
      { RMulSwap(b, d, e); RMulSwap(d, b, e); }
      (a * c) * ((e * b) * d);
    }
  }

  lemma GridOrder(e: nat, m: nat, p: nat, f: nat, b: nat, r10: real, r2: real)
    requires p > 0 && f > 0 && b > 0 && r10 > 0.0 && r2 > 0.0
    requires (p * f) as real * r10 == 1.0 && (p * b) as real * r2 == 1.0
    ensures e as real * r10 < m as real * r2 <==> e * b < m * f
    ensures m as real * r2 < e as real * r10 <==> m * f < e * b
  {
    var er, mr, pr, fr, br := e as real, m as real, p as real, f as real, b as real;
    var w := (r10 * r2) * pr;
    FiveFactors(er, br, r10, r2, pr);
    FiveFactors(mr, fr, r2, r10, pr);
    assert r2 * r10 == r10 * r2;
    assert (p * f) as real == pr * fr && (p * b) as real == pr * br;
    assert (er * br) * w == er * r10;
    assert (mr * fr) * w == mr * r2;
    assert w > 0.0 by { assert r10 * r2 > 0.0; }
    assert (e * b) as real == er * br && (m * f) as real == mr * fr;
    SameOrder(er * br, mr * fr, w, er * r10, mr * r2, 1.0);
  }

  lemma SmallestNormalEnds()
    ensures Low(FRACTION) == 0x1f_ffff_ffff_ffff as real * RPow(2, -1075)
    ensures High(FRACTION) == 0x20_0000_0000_0001 as real * RPow(2, -1075)
  {
    hide RPow, Magnitude;
    Successor(FRACTION);
    Successor(FRACTION - 1);
    assert FRACTION - 1 + 1 == FRACTION;
    GapBelow(FRACTION);
    DecodeValue(FRACTION);
    RPowStep(2, -1076);
    RPowStep(2, -1075);
  }

  /** No multiple of 10^-323 rounds to the smallest normal. */
  lemma SmallestNormalShorter(e: nat, j: int)
    requires j >= -323
    ensures !RoundsTo(Decimal(e, j), FRACTION)
  {
    hide RPow, Pow, Decimal, Magnitude, RoundsTo, Low, High;
    var w := e * Pow(10, j + 323);
    assert Decimal(e, j) == Decimal(w, -323) by { Refine(e, j, -323); }
    RoundsExactly(Decimal(e, j), FRACTION);
    SmallestNormalEnds();
    OnGrid(w, 323, 0x1f_ffff_ffff_ffff);
    OnGrid(w, 323, 0x20_0000_0000_0001);
    FivePow323();
    TwoPow752();
  }

  lemma SmallestNormalK()
    ensures FinalK(Decode(FRACTION)) == -307
  {
    hide RPow, Pow, ScaleOf, FactorOf;
    var d := Decode(FRACTION);
    assert UpperExponent(d) == -1021 by { SmallestNormalLength(); }
    assert Estimate(-1021) == -308;
    EstimateBounds(d);
    assert RPow(10, -308) <= RPow(2, -1022) by {
      PowerAbove(308, 1022);
      PowPositive(2, 1022);
      Reciprocal(Pow(2, 1022), Pow(10, 308));
      NegativePower(10, 308);
      NegativePower(2, 1022);
    }
    KGrows(d);
  }

  lemma SmallestNormalLength()
    ensures BitLength(0x40_0000_0000_0001) == 55
  {
    TwoPow55();
    assert Pow(2, 55) == 2 * Pow(2, 54);
    BitLengthBounds(0x40_0000_0000_0001);
    BitLengthAtMost(0x40_0000_0000_0001, 55);
    PowCancel(2, 54, BitLength(0x40_0000_0000_0001));
  }

  /** The printed decimal of the smallest normal has 17 digits and is the one
      nearest to it among all decimals of that last place. */
  lemma SmallestNormalNearest(e: nat)
    ensures LowEnd(Decode(FRACTION)) <= Decimal(SMALLEST_NORMAL, -324) <= HighEnd(Decode(FRACTION))
    ensures e != SMALLEST_NORMAL ==>
            Apart(Decimal(SMALLEST_NORMAL, -324), Magnitude(FRACTION)) < Apart(Decimal(e, -324), Magnitude(FRACTION))
  {
    hide RPow, Pow, Magnitude;
    var v := SMALLEST_NORMAL;
    DecodeValue(FRACTION);
    SmallestNormalGrid();
    if e != v {
      GridNeighbours(v, e, RPow(10, -324), 0x40_0000_0000_0000 as real * RPow(2, -1076));
    }
  }

  lemma SmallestNormalGrid()
    ensures 0x3f_ffff_ffff_ffff as real * RPow(2, -1076) < SMALLEST_NORMAL as real * RPow(10, -324)
    ensures 0x40_0000_0000_0000 as real * RPow(2, -1076) < SMALLEST_NORMAL as real * RPow(10, -324)
    ensures SMALLEST_NORMAL as real * RPow(10, -324) < 0x40_0000_0000_0002 as real * RPow(2, -1076)
    ensures (2 * SMALLEST_NORMAL - 1) as real * RPow(10, -324) < 0x80_0000_0000_0000 as real * RPow(2, -1076)
  {
    hide RPow, Pow;
    var v := SMALLEST_NORMAL;
    FivePow323();
    TwoPow752();
    assert Pow(5, 324) == 5 * Pow(5, 323) by { PowAdd(5, 1, 323); FiveOnce(); }
    OnGrid(v, 324, 0x3f_ffff_ffff_ffff);
    OnGrid(v, 324, 0x40_0000_0000_0000);
    OnGrid(v, 324, 0x40_0000_0000_0002);
    OnGrid(2 * v - 1, 324, 0x80_0000_0000_0000);
  }

  const SMALLEST_NORMAL: nat := 22250738585072014

  lemma FiveOnce()
    ensures Pow(5, 1) == 5
  {
  }

  lemma GridNeighbours(v: nat, e: nat, u: real, m: real)
    requires u > 0.0 && v > 0 && m < v as real * u && (2 * v - 1) as real * u < 2.0 * m && e != v
    ensures Apart(v as real * u, m) < Apart(e as real * u, m)
  {
    var x, y := v as real * u, e as real * u;
    assert 2.0 * x - u < 2.0 * m by { OneLess(v, u); }
    StepApart(e, v, u, y, x);
  }

  lemma OneLess(v: nat, u: real)
    ensures (2 * v - 1) as real * u == 2.0 * (v as real * u) - u
  {
  }

  lemma StepApart(a: nat, b: nat, u: real, x: real, y: real)
    requires a != b && u > 0.0 && x == a as real * u && y == b as real * u
    ensures x + u <= y || y + u <= x
  {
    if a < b {
      NextStep(a as real, b as real, u, x, y);
    } else {
      NextStep(b as real, a as real, u, y, x);
    }
  }

  lemma NextStep(a: real, b: real, u: real, x: real, y: real)
    requires a + 1.0 <= b && u > 0.0 && x == a * u && y == b * u
    ensures x + u <= y
  {
    var d := b - a - 1.0;
    assert d * u >= 0.0 by { NonNegative(d, u); }
    assert y == (a + 1.0 + d) * u == x + u + d * u;
  }

  lemma NonNegative(d: real, u: real)
    requires d >= 0.0 && u > 0.0
    ensures d * u >= 0.0
  {
  }

  // ---- at the printed place and above, for every finite nonzero double ----

  /** No decimal with an earlier last place reads back as the value. */
  lemma NothingAbove(c: nat, d: nat, n: nat, k: int, e: nat, j: int)
    requires 0 < c < INFINITY && Printed(c, d, n, k) && j > k - n
    ensures !RoundsTo(Decimal(e, j), c)
  {
    if c == FRACTION {
      SmallestNormalK();
      SmallestNormalShorter(e, j);
    } else {
      NothingShorterMost(c, d, n, k, e, j);
    }
  }

  /** Among the decimals of the printed last place that read back as the value
      none is nearer to it, and the upper of two equally near is printed. */
  lemma NothingNearerHere(c: nat, d: nat, n: nat, k: int, e: nat)
    requires 0 < c < INFINITY && Printed(c, d, n, k)
    requires RoundsTo(Decimal(e, k - n), c)
    ensures var x, y := Apart(Decimal(d, k - n), Magnitude(c)), Apart(Decimal(e, k - n), Magnitude(c));
            x < y || (x == y && e <= d)
  {
    if c == FRACTION {
      NothingNearerSmallest(d, n, k, e);
    } else {
      NothingNearerMost(c, d, n, k, e);
    }
  }

  lemma NothingNearerSmallest(d: nat, n: nat, k: int, e: nat)
    requires Printed(FRACTION, d, n, k)
    ensures d == SMALLEST_NORMAL && k - n == -324
    ensures e != d ==> Apart(Decimal(d, -324), Magnitude(FRACTION)) < Apart(Decimal(e, -324), Magnitude(FRACTION))
  {
    hide RPow, Pow, FinalK, FixedOf, Inside, Decimal, Magnitude, RoundsTo, NoShorter, Distance, Apart, LowEnd, HighEnd;
    var dec, v := Decode(FRACTION), SMALLEST_NORMAL;
    SmallestNormalK();
    ReadsBack(FRACTION, d, n, k);
    if n < 17 {
      SmallestNormalShorter(d, k - n);
    }
    DecodedInRange(FRACTION);
    InsideExact(dec, n, v);
    SmallestNormalNearest(e);
    SmallestNormalNearest(d);
    assert Inside(FixedOf(dec), n, v);
    DecodeValue(FRACTION);
    assert Exact(dec) == Magnitude(FRACTION);
    DistanceExact(dec, n, d, v);
    DistanceExact(dec, n, v, d);
  }

  // ---- at every place ----

  /** The printed digits begin with one that is not zero. */
  lemma LeadingDigit(c: nat, d: nat, n: nat, k: int)
    requires 0 < c < INFINITY && Printed(c, d, n, k)
    ensures Pow(10, n - 1) <= d
  {
    hide Pow, Inside, NoShorter, Nearest, FixedOf, FinalK;
    DecodedInRange(c);
    FixedValid(Decode(c));
    ExactDigits(FixedOf(Decode(c)), n, d);
  }

  /** What lies between two reals that round to c does too. */
  lemma RoundsBetween(x: real, y: real, z: real, c: nat)
    requires 0 < c < INFINITY && x <= y <= z && RoundsTo(x, c) && RoundsTo(z, c)
    ensures RoundsTo(y, c)
  {
    hide RoundsTo, Low, High;
    RoundsExactly(x, c);
    RoundsExactly(y, c);
    RoundsExactly(z, c);
  }

  /** A decimal whose digits all stand below place p is less than a one at p. */
  lemma BelowPlace(e: nat, m: nat, j: int, p: int)
    requires e < Pow(10, m) && m + j <= p
    ensures Decimal(e, j) < RPow(10, p)
  {
    hide Pow, RPow;
    RPowAdd(10, m, j);
    WholeRPow(10, m);
    RMulLess(e as real, Pow(10, m) as real, RPow(10, j));
    RPowMonotone(10, m + j, p);
    assert Decimal(e, j) == RPow(10, j) * e as real;
  }

  /** The printed decimal is at least a one at its first digit. */
  lemma AtLeastOne(c: nat, d: nat, n: nat, k: int)
    requires 0 < c < INFINITY && Printed(c, d, n, k)
    ensures Decimal(1, k - 1) == RPow(10, k - 1) <= Decimal(d, k - n)
  {
    hide Printed, Pow, RPow;
    assert n >= 1 by { DigitsBound(c, d, n, k); }
    LeadingDigit(c, d, n, k);
    Refine(1, k - 1, k - n);
    assert k - 1 - (k - n) == n - 1;
    DecimalMonotone(Pow(10, n - 1), d, k - n);
  }

  lemma DigitsBound(c: nat, d: nat, n: nat, k: int)
    requires 0 < c < INFINITY && Printed(c, d, n, k)
    ensures 1 <= n <= 17
  {
  }

  lemma DecimalMonotone(a: nat, b: nat, e: int)
    requires a <= b
    ensures Decimal(a, e) <= Decimal(b, e)
  {
    hide RPow;
    if a < b { RMulLess(a as real, b as real, RPow(10, e)); }
  }

  /** If a decimal below the first printed digit reads back, so does a one at that digit. */
  lemma OneReadsBack(c: nat, d: nat, n: nat, k: int, e: nat, m: nat, j: int)
    requires 0 < c < INFINITY && Printed(c, d, n, k)
    requires e < Pow(10, m) && m + j <= k - 1 && RoundsTo(Decimal(e, j), c)
    ensures Decimal(e, j) < Decimal(1, k - 1) && RoundsTo(Decimal(1, k - 1), c)
  {
    hide Printed, Pow, RPow, RoundsTo, Decimal;
    BelowPlace(e, m, j, k - 1);
    AtLeastOne(c, d, n, k);
    ReadsBack(c, d, n, k);
    RoundsBetween(Decimal(e, j), Decimal(1, k - 1), Decimal(d, k - n), c);
  }

  lemma DecimalZero(i: int, j: int)
    ensures Decimal(0, i) == Decimal(0, j)
  {
    hide RPow;
  }

  /** Nothing with fewer digits reads back as the value, at whatever place, and nothing at all
      with an earlier last place. */
  lemma NothingShorter(c: nat, d: nat, n: nat, k: int, e: nat, j: int)
    requires 0 < c < INFINITY && Printed(c, d, n, k) && (j > k - n || e < Pow(10, n - 1))
    ensures !RoundsTo(Decimal(e, j), c)
  {
    DigitsBound(c, d, n, k);
    hide Printed, RoundsTo, Decimal;
    if j > k - n {
      NothingAbove(c, d, n, k, e, j);
    } else if n == 1 {
      DecimalZero(j, k - n + 1);
      NothingAbove(c, d, n, k, e, k - n + 1);
    } else {
      hide Pow;
      NothingAbove(c, d, n, k, 1, k - 1);
      if RoundsTo(Decimal(e, j), c) {
        OneReadsBack(c, d, n, k, e, n - 1, j);
      }
    }
  }

  // ---- a power of ten just above the value ----

  /** 10^-323 is between 2.02 and 2.03 times the smallest subnormal. */
  lemma TinyTen()
    ensures var u, q := RPow(2, -1074), RPow(10, -323); 202.0 * u < 100.0 * q < 203.0 * u
  {
    hide RPow, Pow;
    FivePow323();
    TwoPow752();
    OnGrid(100, 323, 404);
    OnGrid(100, 323, 406);
    RPowStep(2, -1075);
  }

  /** A power of ten above a tiny subnormal and no further than halfway to the next is 10^-323. */
  lemma TinyPower(s: nat, v: real, p: int)
    requires 1 <= s < 10 && v == s as real * RPow(2, -1074)
    requires v < RPow(10, p) && 2.0 * RPow(10, p) <= 2.0 * v + RPow(2, -1074)
    ensures s == 2 && p == -323
  {
    hide RPow;
    var u, q, t := RPow(2, -1074), RPow(10, -323), RPow(10, p);
    FewTimes(s as real, u, v);
    TinyTen();
    RPowStep(10, -324);
    RPowStep(10, -323);
    assert q == 10.0 * RPow(10, -324) && RPow(10, -322) == 10.0 * q;
    if p <= -324 {
      RPowMonotone(10, p, -324);
    } else if p >= -322 {
      RPowMonotone(10, -322, p);
      TooFar(v, u, q, t);
    } else {
      assert t == q;
      TwoUnits(s, v, u, t);
    }
  }

  lemma TooFar(v: real, u: real, q: real, t: real)
    requires u > 0.0 && v <= 9.0 * u && 202.0 * u < 100.0 * q && 10.0 * q <= t
    ensures 2.0 * t > 2.0 * v + u
  {
  }

  lemma TwoUnits(s: nat, v: real, u: real, t: real)
    requires s >= 1 && u > 0.0 && (s == 1 ==> v == u) && (s >= 3 ==> v >= 3.0 * u)
    requires 202.0 * u < 100.0 * t < 203.0 * u && v < t && 2.0 * t <= 2.0 * v + u
    ensures s == 2
  {
  }

  lemma FewTimes(a: real, u: real, v: real)
    requires 1.0 <= a <= 9.0 && u > 0.0 && v == a * u
    ensures u <= v && v <= 9.0 * u && (a == 1.0 ==> v == u) && (a >= 3.0 ==> v >= 3.0 * u)
  {
    Times(a, 1.0, u, v, u);
    Times(9.0, a, u, 9.0 * u, v);
    if a >= 3.0 { Times(a, 3.0, u, v, 3.0 * u); }
  }

  lemma Times(a: real, b: real, u: real, x: real, y: real)
    requires a >= b && u > 0.0 && x == a * u && y == b * u
    ensures x >= y
  {
    var d := a - b;
    assert x == y + d * u;
    NonNegative(d, u);
  }

  lemma SubnormalParts(c: nat)
    requires 0 < c < INFINITY && Significand(c) < 10
    ensures Exponent(c) == -1074 && 1 <= Significand(c)
  {
  }

  lemma HalfUp(c: nat, t: real)
    requires 0 < c < INFINITY && RoundsTo(t, c)
    ensures 2.0 * t <= 2.0 * Magnitude(c) + Gap(c)
  {
    hide RoundsTo, Magnitude, Gap;
    RoundsExactly(t, c);
    Successor(c);
  }

  /** A power of ten above the value that rounds to it is above by at most a twentieth. */
  lemma TenJustAbove(c: nat, p: int)
    requires 0 < c < INFINITY && RoundsTo(RPow(10, p), c) && Magnitude(c) < RPow(10, p)
    ensures 19.0 * RPow(10, p) <= 20.0 * Magnitude(c)
  {
    hide RoundsTo, RPow, Significand, Exponent;
    var s, u, t, v := Significand(c), Gap(c), RPow(10, p), Magnitude(c);
    assert v == s as real * u;
    HalfUp(c, t);
    hide Magnitude;
    if s >= 10 {
      Times(s as real, 10.0, u, v, 10.0 * u);
      Twentieth(v, u, t);
    } else {
      SubnormalParts(c);
      TinyPower(s, v, p);
      TinyTen();
      TwoUnitsAbove(v, u, t);
    }
  }

  lemma Twentieth(v: real, u: real, t: real)
    requires u > 0.0 && v >= 10.0 * u && 2.0 * t <= 2.0 * v + u
    ensures 19.0 * t <= 20.0 * v
  {
  }

  lemma TwoUnitsAbove(v: real, u: real, t: real)
    requires u > 0.0 && v == 2.0 * u && 100.0 * t < 203.0 * u
    ensures 19.0 * t <= 20.0 * v
  {
  }

  /** A decimal with one digit below a one at place p is at most nine tenths of it. */
  lemma NineTenths(e: nat, j: int, p: int)
    requires e < 10 && j < p
    ensures 10.0 * Decimal(e, j) <= 9.0 * RPow(10, p)
  {
    hide RPow;
    DecimalMonotone(e, 9, j);
    RPowMonotone(10, j + 1, p);
    RPowStep(10, j);
    assert Decimal(9, j) == 9.0 * RPow(10, j);
  }

  /** One digit, further down: not nearer than a one at the printed place, when that reads back. */
  lemma OneIsNearer(c: nat, p: int, x: real)
    requires 0 < c < INFINITY && RoundsTo(RPow(10, p), c) && x < RPow(10, p) && 10.0 * x <= 9.0 * RPow(10, p)
    ensures Apart(RPow(10, p), Magnitude(c)) <= Apart(x, Magnitude(c))
  {
    hide RoundsTo, RPow, Magnitude;
    if Magnitude(c) < RPow(10, p) { TenJustAbove(c, p); }
  }

  /** Of the decimals with no more digits that read back, at whatever place, none is nearer to the
      value than the printed one, and of two equally near the upper is printed. */
  lemma NothingNearer(c: nat, d: nat, n: nat, k: int, e: nat, j: int)
    requires 0 < c < INFINITY && Printed(c, d, n, k) && (j == k - n || e < Pow(10, n))
    requires RoundsTo(Decimal(e, j), c)
    ensures var x, y := Apart(Decimal(d, k - n), Magnitude(c)), Apart(Decimal(e, j), Magnitude(c));
            x < y || (x == y && Decimal(e, j) <= Decimal(d, k - n))
  {
    hide Printed, RoundsTo, Decimal, Magnitude, RPow, Apart;
    if j > k - n {
      NothingAbove(c, d, n, k, e, j);
    } else if j == k - n {
      NothingNearerHere(c, d, n, k, e);
      if e <= d { DecimalMonotone(e, d, j); }
    } else {
      NearerFurtherDown(c, d, n, k, e, j);
    }
  }

  lemma NearerFurtherDown(c: nat, d: nat, n: nat, k: int, e: nat, j: int)
    requires 0 < c < INFINITY && Printed(c, d, n, k) && e < Pow(10, n) && j < k - n
    requires RoundsTo(Decimal(e, j), c)
    ensures Apart(Decimal(d, k - n), Magnitude(c)) <= Apart(Decimal(e, j), Magnitude(c))
    ensures Decimal(e, j) <= Decimal(d, k - n)
  {
    assert Pow(10, 1) == 10;
    hide Printed, RoundsTo, Decimal, Magnitude, RPow, Pow, Apart;
    OneReadsBack(c, d, n, k, e, n, j);
    AtLeastOne(c, d, n, k);
    if n > 1 {
      NothingAbove(c, d, n, k, 1, k - 1);
    } else {
      DigitsBound(c, d, n, k);
      NineTenths(e, j, k - 1);
      OneIsNearer(c, k - 1, Decimal(e, j));
      NothingNearerHere(c, d, n, k, 1);
    }
  }
}
