/** The decimal exponent estimate of the float printer. The value's upper bound
    lies in (2^(t-1), 2^t], and the estimate of its decimal exponent is
    floor(t * 1292913986 / 2^32). That fraction is a little below log10(2); it
    still gives floor(t * log10 2) exactly for every |t| < 1166, because 205/681
    and 146/485 are neighbours on either side of both numbers. */
module ScaleEstimate {
  import opened Powers
  import opened RealPowers

  const LOG10_2: int := 1_292_913_986
  const ONE: int := 0x1_0000_0000

  /** The arithmetic shift of the code rounds towards minus infinity, as `/` does here. */
  function Estimate(t: int): int {
    t * LOG10_2 / ONE
  }

  // ---- the two neighbours of log10(2) ----

  lemma FivePow40()
    ensures Pow(5, 10) == 9_765_625 && Pow(5, 20) == 95_367_431_640_625 && Pow(5, 40) == 9094947017729282379150390625
  {
    assert Pow(5, 5) == 3125;
    PowAdd(5, 5, 5);
    PowAdd(5, 10, 10);
    PowAdd(5, 20, 20);
  }

  lemma TwoPow40()
    ensures Pow(2, 10) == 1024 && Pow(2, 20) == 1_048_576 && Pow(2, 40) == 1_099_511_627_776
  {
    assert Pow(2, 5) == 32;
    PowAdd(2, 5, 5);
    PowAdd(2, 10, 10);
    PowAdd(2, 20, 20);
  }

  lemma FivePow205()
    ensures Pow(5, 205) == 194469227433160678348252001680628882518445380272536472909409894212178088563605732536998275722678550529905205923597577566397376358509063720703125
  {
    FivePow40();
    PowAdd(5, 1, 40);
    PowPow(5, 41, 5);
    assert Pow(45474735088646411895751953125, 5) == 194469227433160678348252001680628882518445380272536472909409894212178088563605732536998275722678550529905205923597577566397376358509063720703125;
  }

  lemma TwoPow476()
    ensures Pow(2, 476) == 195109284394749514461349826862072894109287383916560696928697309976585733676235351257519131441468248197489183195087913930965498479955517831643136
  {
    TwoPow40();
    assert Pow(2, 8) == 256;
    PowAdd(2, 8, 20);
    PowAdd(2, 28, 40);
    PowPow(2, 68, 7);
    assert Pow(295147905179352825856, 7) == 195109284394749514461349826862072894109287383916560696928697309976585733676235351257519131441468248197489183195087913930965498479955517831643136;
  }

  /** 10^205 < 2^681, that is 205/681 < log10 2. */
  lemma LowNeighbour()
    ensures Pow(10, 205) < Pow(2, 681)
  {
    hide Pow;
    FivePow205();
    TwoPow476();
    PowProduct(2, 5, 205);
    PowAdd(2, 205, 476);
    PowPositive(2, 205);
    MulStrict(Pow(5, 205), Pow(2, 476), Pow(2, 205));
  }

  lemma FivePow146()
    ensures Pow(5, 146) == 1121038771459853656738983666631932905024209553501212617405654627111832866148688481189310550689697265625
  {
    FivePow40();
    assert Pow(5, 3) == 125;
    PowAdd(5, 3, 10);
    PowAdd(5, 13, 20);
    PowAdd(5, 33, 40);
    PowAdd(5, 73, 73);
  }

  lemma TwoPow339()
    ensures Pow(2, 339) == 1119872371088902105278721140284222139060822748617324767449994550481895935590080472690438746635803557888
  {
    TwoPow40();
    assert Pow(2, 3) == 8;
    PowAdd(2, 3, 10);
    PowAdd(2, 13, 20);
    PowAdd(2, 33, 40);
    PowAdd(2, 73, 40);
    PowPow(2, 113, 3);
    assert Pow(10384593717069655257060992658440192, 3) == 1119872371088902105278721140284222139060822748617324767449994550481895935590080472690438746635803557888;
  }

  /** 2^485 < 10^146, that is log10 2 < 146/485. */
  lemma HighNeighbour()
    ensures Pow(2, 485) < Pow(10, 146)
  {
    hide Pow;
    FivePow146();
    TwoPow339();
    PowProduct(2, 5, 146);
    PowAdd(2, 146, 339);
    PowPositive(2, 146);
    MulStrict(Pow(2, 339), Pow(5, 146), Pow(2, 146));
  }

  /** No fraction k/t with t < 485 + 681 lies strictly between the neighbours, so
      the estimate falls on the same side of each integer as log10 2 does. */
  lemma NoFractionBetween(t: int, k: int)
    requires 0 <= t < 1166
    ensures k * ONE <= t * LOG10_2 ==> 681 * k <= 205 * t
    ensures t * LOG10_2 <= k * ONE ==> 146 * t <= 485 * k
  {
    // t is this combination of the distances from both neighbours.
    assert t == 485 * (681 * k - 205 * t) + 681 * (146 * t - 485 * k);
  }

  // ---- from exponents to powers ----

  lemma PowerBelow(k: nat, s: nat)
    requires 681 * k <= 205 * s
    ensures Pow(10, k) <= Pow(2, s) && (s > 0 ==> Pow(10, k) < Pow(2, s))
  {
    hide Pow;
    LowNeighbour();
    var x, y := Pow(10, k), Pow(2, s);
    assert Pow(x, 681) <= Pow(Pow(10, 205), s) by {
      PowPow(10, k, 681);
      PowPow(10, 205, s);
      PowMonotone(10, k * 681, 205 * s);
    }
    assert Pow(y, 681) == Pow(Pow(2, 681), s) by {
      PowPow(2, s, 681);
      PowPow(2, 681, s);
      assert s * 681 == 681 * s;
    }
    Root(x, y, Pow(10, 205), Pow(2, 681), s, 681);
  }

  lemma PowerAbove(k: nat, s: nat)
    requires 146 * s <= 485 * k
    ensures Pow(2, s) <= Pow(10, k) && (s > 0 ==> Pow(2, s) < Pow(10, k))
  {
    hide Pow;
    HighNeighbour();
    var x, y := Pow(2, s), Pow(10, k);
    assert Pow(Pow(10, 146), s) <= Pow(y, 485) by {
      PowPow(10, k, 485);
      PowPow(10, 146, s);
      PowMonotone(10, 146 * s, k * 485);
    }
    assert Pow(x, 485) == Pow(Pow(2, 485), s) by {
      PowPow(2, s, 485);
      PowPow(2, 485, s);
      assert s * 485 == 485 * s;
    }
    Root(x, y, Pow(2, 485), Pow(10, 146), s, 485);
  }

  /** Comparing n-th powers compares the bases. */
  lemma Root(x: nat, y: nat, a: nat, b: nat, s: nat, n: nat)
    requires a < b && n > 0
    requires Pow(x, n) <= Pow(a, s) && Pow(b, s) <= Pow(y, n)
    ensures x <= y && (s > 0 ==> x < y)
  {
    PowBaseMonotone(a, b, s);
    if y < x {
      PowBaseStrict(y, x, n);
    }
    if s > 0 {
      PowBaseStrict(a, b, s);
    }
  }

  /** The estimate is the exact decimal exponent of 2^t. */
  lemma EstimateExact(t: int)
    requires -1166 < t < 1166
    ensures RPow(10, Estimate(t)) <= RPow(2, t) < RPow(10, Estimate(t) + 1)
  {
    var k := Estimate(t);
    assert k * ONE <= t * LOG10_2 < (k + 1) * ONE;
    if t >= 0 {
      NoFractionBetween(t, k);
      NoFractionBetween(t, k + 1);
      PowerBelow(k, t);
      PowerAbove(k + 1, t);
    } else {
      NoFractionBetween(-t, -k);
      NoFractionBetween(-t, -k - 1);
      PowerBelow(-k - 1, -t);
      PowerAbove(-k, -t);
      Reciprocal(Pow(2, -t), Pow(10, -k));
      Reciprocal(Pow(10, -k - 1), Pow(2, -t));
    }
  }

  lemma Reciprocal(x: nat, y: nat)
    requires 0 < x <= y
    ensures 1.0 / (y as real) <= 1.0 / (x as real)
    ensures x < y ==> 1.0 / (y as real) < 1.0 / (x as real)
  {
  }
}
