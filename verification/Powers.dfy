/** Natural powers and the few facts about them the exact arithmetic needs. */
module Powers {

  function Pow(b: nat, n: nat): nat {
    if n == 0 then 1 else b * Pow(b, n - 1)
  }

  lemma {:induction false} PowPositive(b: nat, n: nat)
    requires b > 0
    ensures Pow(b, n) > 0
  {
    if n > 0 {
      PowPositive(b, n - 1);
      MulPositive(b, Pow(b, n - 1));
    }
  }

  lemma {:induction false} PowAdd(b: nat, m: nat, n: nat)
    ensures Pow(b, m + n) == Pow(b, m) * Pow(b, n)
  {
    if m > 0 {
      PowAdd(b, m - 1, n);
      MulAssociative(b, Pow(b, m - 1), Pow(b, n));
    }
  }

  lemma {:induction false} PowProduct(a: nat, b: nat, n: nat)
    ensures Pow(a * b, n) == Pow(a, n) * Pow(b, n)
  {
    if n > 0 {
      PowProduct(a, b, n - 1);
      var x, y := Pow(a, n - 1), Pow(b, n - 1);
      assert (a * b) * (x * y) == (a * x) * (b * y) by { MulSwap(a, b, x, y); }
    }
  }

  lemma {:induction false} PowPow(b: nat, m: nat, n: nat)
    ensures Pow(Pow(b, m), n) == Pow(b, m * n)
  {
    if n > 0 {
      PowPow(b, m, n - 1);
      PowAdd(b, m, m * (n - 1));
      assert m + m * (n - 1) == m * n;
    }
  }

  lemma {:induction false} PowMonotone(b: nat, m: nat, n: nat)
    requires b > 0 && m <= n
    ensures Pow(b, m) <= Pow(b, n)
  {
    PowAdd(b, m, n - m);
    PowPositive(b, n - m);
    PowPositive(b, m);
    MulGrows(Pow(b, m), Pow(b, n - m));
  }

  lemma {:induction false} PowStrict(b: nat, m: nat, n: nat)
    requires b > 1 && m < n
    ensures Pow(b, m) < Pow(b, n)
  {
    PowMonotone(b, m, n - 1);
    PowPositive(b, n - 1);
    MulAtLeastDouble(b, Pow(b, n - 1));
  }

  /** The exponent is recovered from the order of the powers. */
  lemma PowCancel(b: nat, m: nat, n: nat)
    requires b > 1 && Pow(b, m) < Pow(b, n)
    ensures m < n
  {
    if n <= m {
      PowMonotone(b, n, m);
    }
  }

  lemma {:induction false} PowBaseMonotone(a: nat, b: nat, n: nat)
    requires a <= b
    ensures Pow(a, n) <= Pow(b, n)
  {
    if n > 0 {
      PowBaseMonotone(a, b, n - 1);
      MulMonotone(a, b, Pow(a, n - 1), Pow(b, n - 1));
    }
  }

  lemma {:induction false} PowBaseStrict(a: nat, b: nat, n: nat)
    requires a < b && n > 0
    ensures Pow(a, n) < Pow(b, n)
  {
    PowBaseMonotone(a, b, n - 1);
    PowPositive(b, n - 1);
    MulMonotone(a, a, Pow(a, n - 1), Pow(b, n - 1));
    MulStrict(a, b, Pow(b, n - 1));
  }

  // ---- products of naturals ----

  lemma MulAssociative(x: int, y: int, z: int)
    ensures x * (y * z) == (x * y) * z
  {
  }

  lemma MulPositive(x: nat, y: nat)
    requires x > 0 && y > 0
    ensures x * y > 0
  {
  }

  lemma MulSwap(a: nat, b: nat, x: nat, y: nat)
    ensures (a * b) * (x * y) == (a * x) * (b * y)
  {
    calc {
      (a * b) * (x * y);
      a * (b * (x * y));
      { assert b * (x * y) == x * (b * y); }
      a * (x * (b * y));
      (a * x) * (b * y);
    }
  }

  lemma MulGrows(x: nat, y: nat)
    requires y > 0
    ensures x <= x * y
  {
  }

  lemma MulAtLeastDouble(x: nat, y: nat)
    requires x > 1 && y > 0
    ensures y < x * y
  {
  }

  lemma MulMonotone(a: nat, b: nat, x: nat, y: nat)
    requires a <= b && x <= y
    ensures a * x <= b * y
  {
    assert a * x <= b * x;
    assert b * x <= b * y;
  }

  lemma MulStrict(a: nat, b: nat, x: nat)
    requires a < b && x > 0
    ensures a * x < b * x
  {
  }

  lemma MulCancel(a: nat, b: nat, x: nat)
    requires a * x < b * x
    ensures a < b
  {
    if b <= a {
      MulMonotone(b, a, x, x);
    }
  }
}
