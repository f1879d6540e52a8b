/** Powers with any integer exponent, as exact reals. */
module RealPowers {
  import opened Powers

  lemma RMulSwap(a: real, b: real, c: real)
    ensures a * (b * c) == b * (a * c) && a * (b * c) == (a * b) * c
  {
  }

  lemma RMulLess(a: real, b: real, r: real)
    requires a < b && r > 0.0
    ensures r * a < r * b
  {
  }

  function RPow(b: nat, e: int): (r: real)
    requires b > 0
    ensures r > 0.0
  {
    PowPositive(b, if e >= 0 then e else -e);
    if e >= 0 then Pow(b, e) as real else 1.0 / (Pow(b, -e) as real)
  }

  lemma RPowStep(b: nat, e: int)
    requires b > 0
    ensures RPow(b, e + 1) == b as real * RPow(b, e)
  {
    hide RPow;
    if e >= 0 {
      RPowUp(b, e);
    } else {
      RPowDown(b, -e);
    }
  }

  lemma RPowUp(b: nat, e: nat)
    requires b > 0
    ensures RPow(b, e + 1) == b as real * RPow(b, e)
  {
    assert Pow(b, e + 1) == b * Pow(b, e);
    hide Pow;
    RealMul(b, Pow(b, e));
  }

  lemma RPowDown(b: nat, e: int)
    requires b > 0 && e > 0
    ensures RPow(b, 1 - e) == b as real * RPow(b, -e)
  {
    var p := Pow(b, e - 1);
    RPowInverse(b, e);
    RPowInverse(b, e - 1);
    assert Pow(b, e) == b * p;
    hide Pow, RPow;
    RealMul(b, p);
    InverseStep(b as real, p as real);
  }

  lemma RPowInverse(b: nat, e: int)
    requires b > 0 && e >= 0
    ensures Pow(b, e) > 0 && RPow(b, -e) == 1.0 / (Pow(b, e) as real)
  {
    PowPositive(b, e);
  }

  lemma RealMul(a: nat, p: nat)
    ensures (a * p) as real == a as real * p as real
  {
  }

  lemma InverseStep(b: real, p: real)
    requires b > 0.0 && p > 0.0
    ensures b * p != 0.0 && b * (1.0 / (b * p)) == 1.0 / p
  {
  }

  lemma {:induction false} RPowAdd(b: nat, m: int, n: int)
    requires b > 0
    ensures RPow(b, m + n) == RPow(b, m) * RPow(b, n)
    decreases if n >= 0 then n else -n
  {
    hide RPow;
    if n > 0 {
      RPowAdd(b, m, n - 1);
      RPowStep(b, m + n - 1);
      RPowStep(b, n - 1);
      RAssociate(b as real, RPow(b, m), RPow(b, n - 1));
    } else if n < 0 {
      RPowAdd(b, m, n + 1);
      RPowStep(b, m + n);
      RPowStep(b, n);
      RCancel(b as real, RPow(b, m + n), RPow(b, m), RPow(b, n));
    } else {
      RPowZero(b);
    }
  }

  lemma RPowZero(b: nat)
    requires b > 0
    ensures RPow(b, 0) == 1.0
  {
  }

  lemma RAssociate(x: real, y: real, z: real)
    ensures x * (y * z) == y * (x * z)
  {
  }

  lemma RCancel(b: real, s: real, m: real, n: real)
    requires b > 0.0 && b * s == m * (b * n)
    ensures s == m * n
  {
    assert b * s == b * (m * n);
  }

  lemma RPowAtLeastOne(b: nat, e: nat)
    requires b > 0
    ensures RPow(b, e) >= 1.0
  {
    PowPositive(b, e);
  }

  lemma RPowMonotone(b: nat, m: int, n: int)
    requires b > 0 && m <= n
    ensures RPow(b, m) <= RPow(b, n)
  {
    hide RPow;
    RPowAdd(b, m, n - m);
    RPowAtLeastOne(b, n - m);
    RScale(RPow(b, m), RPow(b, n - m));
  }

  lemma RScale(x: real, y: real)
    requires x > 0.0 && y >= 1.0
    ensures x <= x * y
  {
  }
}
