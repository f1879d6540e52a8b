/** Free-format digit generation over naturals: what one round of the digit loop
    does to the remainder, and what the digits denote when it stops.

    The value is `mant / scale` and its rounding interval reaches `minus` below
    and `plus` above it, in units of 1/scale; the first digit is the integer part.
    After n digits the place of the last one is 10^-(n-1). */
module ShortestDigits {
  import opened Powers

  /** `cmp(x, y) < rounding` of the code: the bound itself counts when the interval is closed. */
  predicate Reaches(inclusive: bool, x: int, y: int) {
    if inclusive then x <= y else x < y
  }

  /** What the fixup leaves behind: the upper bound reaches one unit of the first
      place and stays below ten of them. */
  datatype Fixed = Fixed(mant: nat, minus: nat, plus: nat, scale: nat, inclusive: bool) {
    predicate Valid() {
      && 0 < minus < mant
      && 0 < plus
      && !Reaches(inclusive, 10 * scale, mant + plus)
      && Reaches(inclusive, scale, mant + plus)
    }
  }

  /** The decimal `d` of n digits lies in the rounding interval (closed exactly when inclusive). */
  predicate Inside(f: Fixed, n: nat, d: int)
    requires n > 0
  {
    var unit := Pow(10, n - 1);
    && Reaches(f.inclusive, (f.mant - f.minus) * unit, d * f.scale)
    && Reaches(f.inclusive, d * f.scale, (f.mant + f.plus) * unit)
  }

  function Distance(f: Fixed, n: nat, d: int): nat
    requires n > 0
  {
    var gap := d * f.scale - f.mant * Pow(10, n - 1);
    if gap >= 0 then gap else -gap
  }

  /** No other decimal with the same last place inside the interval is nearer;
      of two at the same distance the upper one is taken. */
  ghost predicate Nearest(f: Fixed, n: nat, d: int)
    requires n > 0
  {
    forall e: int {:trigger Inside(f, n, e)} :: Inside(f, n, e) ==>
      Distance(f, n, d) < Distance(f, n, e) || (Distance(f, n, d) == Distance(f, n, e) && e <= d)
  }

  /** No multiple of the place before the last lies in the interval. */
  ghost predicate NoShorter(f: Fixed, n: nat)
    requires n > 0
  {
    forall e: int {:trigger Inside(f, n, 10 * e)} :: !Inside(f, n, 10 * e)
  }

  /** Before round n: `prefix` is what the first n - 1 digits denote, the remainder
      is `mant`, and no shorter decimal is inside the interval. */
  predicate Head(f: Fixed, n: nat, prefix: nat, mant: nat, minus: nat, plus: nat) {
    && n > 0
    && minus == f.minus * Pow(10, n - 1)
    && plus == f.plus * Pow(10, n - 1)
    && f.mant * Pow(10, n - 1) == prefix * (10 * f.scale) + mant
    && !Reaches(f.inclusive, mant, minus)
    && !Reaches(f.inclusive, 10 * f.scale, mant + plus)
  }

  /** After the digit of round n has been taken off. */
  predicate Taken(f: Fixed, n: nat, prefix: nat, mant: nat, minus: nat, plus: nat) {
    && n > 0
    && minus == f.minus * Pow(10, n - 1)
    && plus == f.plus * Pow(10, n - 1)
    && f.mant * Pow(10, n - 1) == prefix * f.scale + mant
    && mant < f.scale
  }

  /** The remainder and its margins stay below ten scales at the head of a round. */
  lemma HeadBounds(f: Fixed, n: nat, prefix: nat, mant: nat, minus: nat, plus: nat)
    requires Head(f, n, prefix, mant, minus, plus) && f.Valid()
    ensures mant < 10 * f.scale && minus <= mant && mant + plus <= 10 * f.scale
  {
    PowPositive(10, n - 1);
    MulPositive(f.plus, Pow(10, n - 1));
  }

  lemma TakeDigit(f: Fixed, n: nat, prefix: nat, mant: nat, minus: nat, plus: nat, digit: nat)
    requires Head(f, n, prefix, mant, minus, plus) && f.Valid()
    requires digit * f.scale <= mant < (digit + 1) * f.scale
    ensures digit < 10
    ensures Taken(f, n, 10 * prefix + digit, mant - digit * f.scale, minus, plus)
  {
    hide Pow;
    HeadBounds(f, n, prefix, mant, minus, plus);
    DigitBelowTen(digit, f.scale, mant);
    PrefixWithDigit(prefix, digit, f.scale);
  }

  lemma DigitBelowTen(digit: nat, scale: nat, mant: nat)
    requires digit * scale <= mant < (digit + 1) * scale && mant < 10 * scale
    ensures digit < 10 && mant - digit * scale < scale
  {
    if digit >= 10 { MulMonotone(10, digit, scale, scale); }
  }

  lemma PrefixWithDigit(prefix: nat, digit: nat, scale: nat)
    ensures (10 * prefix + digit) * scale == prefix * (10 * scale) + digit * scale
  {
  }

  /** Where the multiples of a step lie around the p-th one. */
  lemma Grid(e: int, p: int, step: nat)
    ensures e <= p ==> e * step <= p * step
    ensures e < p ==> e * step <= p * step - step
    ensures e > p ==> e * step >= p * step + step
    ensures e > p + 1 ==> e * step >= p * step + 2 * step
    ensures e == p + 1 ==> e * step == p * step + step
  {
    if e <= p { MulOrder(e, p, step); }
    if e < p { MulOrder(e, p - 1, step); assert (p - 1) * step == p * step - step; }
    if e > p { MulOrder(p + 1, e, step); assert (p + 1) * step == p * step + step; }
    if e > p + 1 { MulOrder(p + 2, e, step); assert (p + 2) * step == p * step + 2 * step; }
  }

  /** The interval with the scaled value and its two margins written out. */
  lemma InsideAt(f: Fixed, n: nat, d: int, v: nat, minus: nat, plus: nat)
    requires n > 0 && v == f.mant * Pow(10, n - 1)
    requires minus == f.minus * Pow(10, n - 1) && plus == f.plus * Pow(10, n - 1)
    ensures Inside(f, n, d) <==>
            Reaches(f.inclusive, v - minus, d * f.scale) && Reaches(f.inclusive, d * f.scale, v + plus)
  {
    hide Pow;
    assert (f.mant - f.minus) * Pow(10, n - 1) == v - minus;
    assert (f.mant + f.plus) * Pow(10, n - 1) == v + plus;
  }

  /** A round that does not stop leaves the state the next one starts from, and
      shows that the interval is still narrower than one unit of its place. */
  lemma NextRound(f: Fixed, n: nat, prefix: nat, mant: nat, minus: nat, plus: nat)
    requires Taken(f, n, prefix, mant, minus, plus) && f.Valid()
    requires !Reaches(f.inclusive, mant, minus) && !Reaches(f.inclusive, f.scale, mant + plus)
    ensures Head(f, n + 1, prefix, 10 * mant, 10 * minus, 10 * plus)
    ensures Pow(10, n - 1) * (f.minus + f.plus) <= f.scale
  {
    assert Pow(10, n) == 10 * Pow(10, n - 1);
    hide Pow;
    var unit := Pow(10, n - 1);
    NextScaled(f, unit, prefix, mant);
    assert unit * (f.minus + f.plus) == minus + plus by { SumTimes(f.minus, f.plus, unit); }
  }

  lemma SumTimes(a: nat, b: nat, u: nat)
    ensures u * (a + b) == a * u + b * u
  {
  }

  lemma NextScaled(f: Fixed, unit: nat, prefix: nat, mant: nat)
    requires f.mant * unit == prefix * f.scale + mant
    ensures f.mant * (10 * unit) == prefix * (10 * f.scale) + 10 * mant
    ensures f.minus * (10 * unit) == 10 * (f.minus * unit)
    ensures f.plus * (10 * unit) == 10 * (f.plus * unit)
  {
    MulAssociative(f.mant, 10, unit);
    MulAssociative(10, f.mant, unit);
    MulAssociative(prefix, 10, f.scale);
    MulAssociative(10, prefix, f.scale);
  }

  lemma FirstRound(f: Fixed)
    requires f.Valid()
    ensures Head(f, 1, 0, f.mant, f.minus, f.plus)
  {
  }

  /** The starting state of a round excludes every shorter decimal. */
  lemma HeadExcludesShorter(f: Fixed, n: nat, prefix: nat, mant: nat, minus: nat, plus: nat)
    requires Head(f, n, prefix, mant, minus, plus) && f.Valid()
    ensures NoShorter(f, n)
  {
    hide Pow, Inside;
    var v := f.mant * Pow(10, n - 1);
    forall e: int ensures !Inside(f, n, 10 * e) {
      InsideAt(f, n, 10 * e, v, minus, plus);
      MulAssociative(e, 10, f.scale);
      Grid(e, prefix, 10 * f.scale);
    }
  }

  lemma MulOrder(a: int, b: int, x: nat)
    requires a <= b
    ensures a * x <= b * x
  {
  }

  /** The decimal chosen when the loop stops: the next one up when only that is
      inside, or both are and the remainder is at least half a unit. */
  function Chosen(f: Fixed, prefix: nat, mant: nat, down: bool, up: bool): (d: nat) {
    if up && (!down || 2 * mant >= f.scale) then prefix + 1 else prefix
  }

  /** When the loop stops the chosen decimal is inside the interval and nearest. */
  lemma Stop(f: Fixed, n: nat, prefix: nat, mant: nat, minus: nat, plus: nat, down: bool, up: bool)
    requires Taken(f, n, prefix, mant, minus, plus) && f.Valid()
    requires down == Reaches(f.inclusive, mant, minus) && up == Reaches(f.inclusive, f.scale, mant + plus)
    requires down || up
    ensures Inside(f, n, Chosen(f, prefix, mant, down, up))
    ensures Nearest(f, n, Chosen(f, prefix, mant, down, up))
  {
    hide Pow, Inside, Distance, Chosen;
    var v := f.mant * Pow(10, n - 1);
    var d := Chosen(f, prefix, mant, down, up);
    InsideAt(f, n, d, v, minus, plus);
    assert Inside(f, n, d) by { StopInside(f, n, prefix, mant, minus, plus, down, up); }
    forall e: int | Inside(f, n, e)
      ensures Distance(f, n, d) < Distance(f, n, e) || (Distance(f, n, d) == Distance(f, n, e) && e <= d)
    {
      StopNearer(f, n, prefix, mant, minus, plus, down, up, e);
    }
  }

  lemma StopInside(f: Fixed, n: nat, prefix: nat, mant: nat, minus: nat, plus: nat, down: bool, up: bool)
    requires Taken(f, n, prefix, mant, minus, plus) && f.Valid()
    requires down == Reaches(f.inclusive, mant, minus) && up == Reaches(f.inclusive, f.scale, mant + plus)
    requires down || up
    ensures Inside(f, n, Chosen(f, prefix, mant, down, up))
  {
    hide Pow, Inside;
    var d := Chosen(f, prefix, mant, down, up);
    InsideAt(f, n, d, f.mant * Pow(10, n - 1), minus, plus);
    Grid(d, prefix, f.scale);
  }

  lemma StopNearer(f: Fixed, n: nat, prefix: nat, mant: nat, minus: nat, plus: nat, down: bool, up: bool, e: int)
    requires Taken(f, n, prefix, mant, minus, plus) && f.Valid()
    requires down == Reaches(f.inclusive, mant, minus) && up == Reaches(f.inclusive, f.scale, mant + plus)
    requires (down || up) && Inside(f, n, e)
    ensures var d := Chosen(f, prefix, mant, down, up);
            Distance(f, n, d) < Distance(f, n, e) || (Distance(f, n, d) == Distance(f, n, e) && e <= d)
  {
    hide Pow, Inside;
    var d := Chosen(f, prefix, mant, down, up);
    InsideAt(f, n, e, f.mant * Pow(10, n - 1), minus, plus);
    Grid(d, prefix, f.scale);
    Grid(e, prefix, f.scale);
  }

  /** A decimal inside the interval, with no shorter one inside, has exactly n
      digits: neither its first nor its last digit is zero. */
  lemma ExactDigits(f: Fixed, n: nat, d: nat)
    requires n > 0 && f.Valid() && Inside(f, n, d) && NoShorter(f, n)
    ensures Pow(10, n - 1) <= d < Pow(10, n)
    ensures d % 10 != 0
  {
    var s, unit := f.scale, Pow(10, n - 1);
    assert Pow(10, n) == 10 * unit;
    PowPositive(10, n - 1);
    assert !Inside(f, n, 10 * (d / 10));
    TopDecimal(f, s, unit, d);
    if n > 1 {
      assert unit == 10 * Pow(10, n - 2);
      assert !Inside(f, n, 10 * Pow(10, n - 2));
      BottomDecimal(f, s, unit, d);
    } else {
      assert !Inside(f, n, 10 * 0);
      assert 0 * s == 0;
      assert d > 0;
    }
  }

  lemma TopDecimal(f: Fixed, s: nat, unit: nat, d: nat)
    requires f.Valid() && s == f.scale && unit > 0
    requires Reaches(f.inclusive, d * s, (f.mant + f.plus) * unit)
    ensures d < 10 * unit
  {
    MulMonotone(f.mant + f.plus, 10 * s, unit, unit);
    if f.inclusive { MulStrict(f.mant + f.plus, 10 * s, unit); }
    assert (10 * s) * unit == (10 * unit) * s;
    if d >= 10 * unit {
      MulMonotone(10 * unit, d, s, s);
    }
  }

  lemma BottomDecimal(f: Fixed, s: nat, unit: nat, d: nat)
    requires f.Valid() && s == f.scale && unit > 0
    requires Reaches(f.inclusive, (f.mant - f.minus) * unit, d * s)
    requires !(Reaches(f.inclusive, (f.mant - f.minus) * unit, unit * s)
            && Reaches(f.inclusive, unit * s, (f.mant + f.plus) * unit))
    ensures unit <= d
  {
    hide Reaches;
    var hi := f.mant + f.plus;
    ReachesTimes(f.inclusive, s, hi, unit);
    MulCommutes(s, unit);
    if d < unit {
      MulMonotone(d, unit, s, s);
      BetweenEnds(f.inclusive, (f.mant - f.minus) * unit, d * s, unit * s, hi * unit);
    }
  }

  lemma MulCommutes(x: int, y: int)
    ensures x * y == y * x
  {
  }

  lemma ReachesTimes(inclusive: bool, x: nat, y: nat, u: nat)
    requires Reaches(inclusive, x, y) && u > 0
    ensures Reaches(inclusive, x * u, y * u)
  {
    if inclusive { MulMonotone(x, y, u, u); } else { MulStrict(x, y, u); }
  }

  lemma BetweenEnds(inclusive: bool, lo: int, a: int, b: int, hi: int)
    requires Reaches(inclusive, lo, a) && a <= b && Reaches(inclusive, b, hi)
    ensures Reaches(inclusive, lo, b) && Reaches(inclusive, b, hi)
  {
  }
}
