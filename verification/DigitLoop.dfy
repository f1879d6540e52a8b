/** The digit loop on the frame of 40-limb buffers, with the digits written to
    the 32-byte buffer at its end. */
module DigitLoop {
  import opened Powers
  import opened Limbs
  import opened ShortestDigits

  const LIMBS: nat := 40
  const DIGIT_BYTES: nat := 32
  const MAX_DIGITS: nat := 17

  predicate IsDigit(c: char) {
    '0' <= c <= '9'
  }

  function DigitChar(d: nat): (c: char)
    requires d < 10
    ensures IsDigit(c) && DigitOf(c) == d
  {
    ('0' as int + d) as char
  }

  function DigitOf(c: char): (d: nat)
    requires IsDigit(c)
    ensures d < 10
  {
    c as int - '0' as int
  }

  lemma DigitOrder(c: char)
    requires IsDigit(c)
    ensures c == "0123456789"[DigitOf(c)]
  {
  }

  ghost predicate AllDigits(s: seq<char>) {
    forall i :: 0 <= i < |s| ==> IsDigit(s[i])
  }

  /** The natural number a string of decimal digits denotes. */
  ghost function Numeral(s: seq<char>): nat
    requires AllDigits(s)
  {
    if s == [] then 0 else 10 * Numeral(s[..|s| - 1]) + DigitOf(s[|s| - 1])
  }

  class Frame {
    const mant: array<Limb>
    const minus: array<Limb>
    const plus: array<Limb>
    const scale: array<Limb>
    const scale2: array<Limb>
    const scale4: array<Limb>
    const scale8: array<Limb>
    const sum: array<Limb>
    const digits: array<char>

    /** The buffers are the frame's own and do not overlap. */
    ghost predicate Valid() {
      && mant.Length == minus.Length == plus.Length == scale.Length == LIMBS
      && scale2.Length == scale4.Length == scale8.Length == sum.Length == LIMBS
      && digits.Length == DIGIT_BYTES
      && mant !in {minus, plus, scale, scale2, scale4, scale8, sum}
      && minus !in {plus, scale, scale2, scale4, scale8, sum}
      && plus !in {scale, scale2, scale4, scale8, sum}
      && scale !in {scale2, scale4, scale8, sum}
      && scale2 !in {scale4, scale8, sum}
      && scale4 !in {scale8, sum}
      && scale8 != sum
    }

    constructor ()
      ensures Valid()
      ensures fresh(mant) && fresh(minus) && fresh(plus) && fresh(scale)
      ensures fresh(scale2) && fresh(scale4) && fresh(scale8) && fresh(sum) && fresh(digits)
      ensures forall i :: 0 <= i < LIMBS ==> mant[i] == minus[i] == plus[i] == scale[i] == 0
    {
      mant := new Limb[LIMBS](_ => 0);
      minus := new Limb[LIMBS](_ => 0);
      plus := new Limb[LIMBS](_ => 0);
      scale := new Limb[LIMBS](_ => 0);
      scale2 := new Limb[LIMBS](_ => 0);
      scale4 := new Limb[LIMBS](_ => 0);
      scale8 := new Limb[LIMBS](_ => 0);
      sum := new Limb[LIMBS](_ => 0);
      digits := new char[DIGIT_BYTES](_ => 0 as char);
    }

    /** The four copies of the scale, one bit apart, that a digit is peeled off with. */
    ghost predicate Scales(s: nat)
      reads scale, scale2, scale4, scale8
    {
      && Value(scale[..]) == s && Value(scale2[..]) == 2 * s
      && Value(scale4[..]) == 4 * s && Value(scale8[..]) == 8 * s
    }

    ghost predicate Holds(m: nat, lo: nat, hi: nat)
      reads mant, minus, plus
    {
      Value(mant[..]) == m && Value(minus[..]) == lo && Value(plus[..]) == hi
    }

    /** `to := 2 * from`. */
    method Double(to: array<Limb>, from: array<Limb>)
      requires to.Length == from.Length == LIMBS && to != from
      requires 2 * Value(from[..]) < Modulus(LIMBS)
      modifies to
      ensures Value(to[..]) == 2 * Value(from[..])
    {
      hide Value, Modulus, Pow;
      ghost var source := from[..];
      forall i | 0 <= i < LIMBS { to[i] := from[i]; }
      assert to[..] == source;
      ShiftOnce(Value(source), Modulus(LIMBS));
      Shl(to, 1);
      assert from[..] == source;
    }

    method PrepareScales()
      requires Valid() && 16 * Value(scale[..]) < Modulus(LIMBS)
      modifies scale2, scale4, scale8
      ensures Scales(Value(scale[..]))
    {
      Double(scale2, scale);
      Double(scale4, scale2);
      Double(scale8, scale4);
    }

    /** Takes `weight` units off the remainder when it holds that many. */
    method Peel(from: array<Limb>, weight: nat) returns (taken: nat)
      requires Valid() && from.Length == LIMBS && from != mant
      modifies mant
      ensures taken == if Value(from[..]) <= old(Value(mant[..])) then weight else 0
      ensures Value(mant[..]) ==
              old(Value(mant[..])) - if Value(from[..]) <= old(Value(mant[..])) then Value(from[..]) else 0
    {
      hide Value;
      taken := 0;
      var sign := Cmp(mant, from);
      if sign >= 0 {
        Sub(mant, from);
        taken := weight;
      }
    }

    /** One digit: the integer part of the remainder over the scale. */
    method NextDigit() returns (digit: nat)
      requires Valid() && Scales(Value(scale[..]))
      requires Value(mant[..]) < 10 * Value(scale[..])
      modifies mant
      ensures Scales(Value(scale[..])) && Value(scale[..]) == old(Value(scale[..]))
      ensures digit * Value(scale[..]) <= old(Value(mant[..])) < (digit + 1) * Value(scale[..])
      ensures Value(mant[..]) == old(Value(mant[..])) - digit * Value(scale[..])
    {
      hide Value;
      var d8 := Peel(scale8, 8);
      var d4 := Peel(scale4, 4);
      var d2 := Peel(scale2, 2);
      var d1 := Peel(scale, 1);
      digit := d8 + d4 + d2 + d1;
      Peeled(d8, d4, d2, d1, Value(scale[..]));
    }

    method TimesTen(p: array<Limb>)
      requires p.Length == LIMBS && 10 * Value(p[..]) < Modulus(LIMBS)
      modifies p
      ensures Value(p[..]) == 10 * old(Value(p[..]))
    {
      hide Value, Modulus;
      ghost var v := Value(p[..]);
      MulSmall(p, 10);
      Fits(10 * v, Modulus(LIMBS));
    }

    /** `mant + plus` against the scale, through the sum buffer. */
    method UpperReaches(inclusive: bool) returns (up: bool)
      requires Valid() && Value(mant[..]) + Value(plus[..]) < Modulus(LIMBS)
      modifies sum
      ensures up == Reaches(inclusive, Value(scale[..]), Value(mant[..]) + Value(plus[..]))
    {
      Add(sum, mant, plus);
      Fits(Value(mant[..]) + Value(plus[..]), Modulus(LIMBS));
      var sign := Cmp(scale, sum);
      up := sign < if inclusive then 1 else 0;
    }

    method LowerReaches(inclusive: bool) returns (down: bool)
      requires Valid()
      ensures down == Reaches(inclusive, Value(mant[..]), Value(minus[..]))
    {
      var sign := Cmp(mant, minus);
      down := sign < if inclusive then 1 else 0;
    }

    method StoreDigit(n: nat, digit: nat)
      requires Valid() && n < MAX_DIGITS && digit < 10 && AllDigits(digits[..n])
      modifies digits
      ensures AllDigits(digits[..n + 1]) && Numeral(digits[..n + 1]) == 10 * old(Numeral(digits[..n])) + digit
    {
      hide Numeral;
      ghost var before := digits[..n];
      digits[n] := DigitChar(digit);
      assert digits[..n + 1] == before + [DigitChar(digit)];
      NumeralAppend(before, digit);
    }

    /** Takes the digit of a round and stores it. */
    method TakeDigit(ghost f: Fixed, n: nat, ghost prefix: nat) returns (digit: nat)
      requires Valid() && f.Valid() && Scales(f.scale) && n < MAX_DIGITS
      requires Head(f, n + 1, prefix, Value(mant[..]), Value(minus[..]), Value(plus[..]))
      requires AllDigits(digits[..n]) && Numeral(digits[..n]) == prefix
      modifies mant, digits
      ensures Scales(f.scale) && Value(mant[..]) + Value(plus[..]) <= 10 * f.scale
      ensures AllDigits(digits[..n + 1]) && Numeral(digits[..n + 1]) == 10 * prefix + digit
      ensures Taken(f, n + 1, 10 * prefix + digit, Value(mant[..]), Value(minus[..]), Value(plus[..]))
    {
      hide Head, Taken, Value, Numeral, AllDigits;
      ghost var m, lo, hi := Value(mant[..]), Value(minus[..]), Value(plus[..]);
      HeadBounds(f, n + 1, prefix, m, lo, hi);
      digit := NextDigit();
      DigitTaken(f, n + 1, prefix, m, lo, hi, digit, Value(mant[..]));
      StoreDigit(n, digit);
    }

    /** Multiplies by ten for the next round. */
    method ToNextRound(ghost f: Fixed, ghost n: nat, ghost prefix: nat)
      requires Valid() && f.Valid() && Scales(f.scale) && n > 0 && 128 * f.scale < Modulus(LIMBS)
      requires Taken(f, n, prefix, Value(mant[..]), Value(minus[..]), Value(plus[..]))
      requires !Reaches(f.inclusive, Value(mant[..]), Value(minus[..]))
      requires !Reaches(f.inclusive, f.scale, Value(mant[..]) + Value(plus[..]))
      modifies mant, minus, plus
      ensures Scales(f.scale)
      ensures Head(f, n + 1, prefix, Value(mant[..]), Value(minus[..]), Value(plus[..]))
    {
      hide Head, Taken, Pow, Value, Modulus;
      NextRound(f, n, prefix, Value(mant[..]), Value(minus[..]), Value(plus[..]));
      HeadBounds(f, n + 1, prefix, 10 * Value(mant[..]), 10 * Value(minus[..]), 10 * Value(plus[..]));
      TimesTen(mant);
      TimesTen(minus);
      TimesTen(plus);
    }

    /** The digit loop. It stops within 17 rounds: a round that goes on shows
        10^(n-1) * (minus + plus) <= scale. */
    method Generate(ghost f: Fixed, inclusive: bool) returns (n: nat, down: bool, up: bool, ghost prefix: nat)
      requires Valid() && f.Valid() && f.inclusive == inclusive
      requires Scales(f.scale) && Holds(f.mant, f.minus, f.plus)
      requires 128 * f.scale < Modulus(LIMBS)
      requires f.scale < Pow(10, 16) * (f.minus + f.plus)
      modifies mant, minus, plus, sum, digits
      ensures 1 <= n <= MAX_DIGITS
      ensures AllDigits(digits[..n]) && Numeral(digits[..n]) == prefix
      ensures Scales(f.scale)
      ensures Taken(f, n, prefix, Value(mant[..]), Value(minus[..]), Value(plus[..]))
      ensures NoShorter(f, n)
      ensures down == Reaches(f.inclusive, Value(mant[..]), Value(minus[..]))
      ensures up == Reaches(f.inclusive, f.scale, Value(mant[..]) + Value(plus[..]))
      ensures down || up
    {
      hide Head, Taken, Pow, Value, Modulus, Numeral, NoShorter, Reaches, AllDigits;
      n := 0;
      prefix := 0;
      FirstRound(f);
      assert digits[..0] == [];
      NumeralEmpty();
      while true
        invariant 0 <= n < MAX_DIGITS
        invariant Scales(f.scale)
        invariant Head(f, n + 1, prefix, Value(mant[..]), Value(minus[..]), Value(plus[..]))
        invariant AllDigits(digits[..n]) && Numeral(digits[..n]) == prefix
        decreases MAX_DIGITS - n
      {
        HeadExcludesShorter(f, n + 1, prefix, Value(mant[..]), Value(minus[..]), Value(plus[..]));
        var digit := TakeDigit(f, n, prefix);
        n := n + 1;
        prefix := 10 * prefix + digit;
        down := LowerReaches(inclusive);
        up := UpperReaches(inclusive);
        if up || down {
          return;
        }
        MoreRounds(f, n, prefix, Value(mant[..]), Value(minus[..]), Value(plus[..]));
        ToNextRound(f, n, prefix);
      }
    }
  }

  lemma DigitTaken(f: Fixed, n: nat, prefix: nat, mant: nat, minus: nat, plus: nat, digit: nat, rest: nat)
    requires Head(f, n, prefix, mant, minus, plus) && f.Valid()
    requires digit * f.scale <= mant < (digit + 1) * f.scale && rest == mant - digit * f.scale
    ensures digit < 10 && rest + plus <= 10 * f.scale
    ensures Taken(f, n, 10 * prefix + digit, rest, minus, plus)
  {
    hide *;
    HeadBounds(f, n, prefix, mant, minus, plus);
    TakeDigit(f, n, prefix, mant, minus, plus, digit);
  }

  /** A round that goes on is not the last. */
  lemma MoreRounds(f: Fixed, n: nat, prefix: nat, mant: nat, minus: nat, plus: nat)
    requires n > 0 && f.Valid() && Taken(f, n, prefix, mant, minus, plus)
    requires !Reaches(f.inclusive, mant, minus) && !Reaches(f.inclusive, f.scale, mant + plus)
    requires f.scale < Pow(10, 16) * (f.minus + f.plus)
    ensures n < MAX_DIGITS
  {
    hide Pow, Taken;
    NextRound(f, n, prefix, mant, minus, plus);
    RoundsLeft(f, n);
  }

  lemma ShiftOnce(v: nat, m: nat)
    requires 2 * v < m
    ensures (v * Pow(2, 1)) % m == 2 * v
  {
    assert v * Pow(2, 1) == 2 * v;
  }

  /** The digit is the sum of the weights taken. */
  lemma Peeled(d8: nat, d4: nat, d2: nat, d1: nat, s: nat)
    requires (d8 == 0 || d8 == 8) && (d4 == 0 || d4 == 4) && (d2 == 0 || d2 == 2) && (d1 == 0 || d1 == 1)
    ensures (d8 + d4 + d2 + d1) * s == (if d8 == 8 then 8 * s else 0) + (if d4 == 4 then 4 * s else 0)
                                    + (if d2 == 2 then 2 * s else 0) + (if d1 == 1 then s else 0)
    ensures (d8 + d4 + d2 + d1 + 1) * s == (d8 + d4 + d2 + d1) * s + s
  {
  }

  lemma NumeralEmpty()
    ensures AllDigits([]) && Numeral([]) == 0
  {
  }

  lemma NumeralAppend(s: seq<char>, d: nat)
    requires AllDigits(s) && d < 10
    ensures AllDigits(s + [DigitChar(d)]) && Numeral(s + [DigitChar(d)]) == 10 * Numeral(s) + d
  {
    var t := s + [DigitChar(d)];
    assert t[..|t| - 1] == s;
  }

  lemma RoundsLeft(f: Fixed, n: nat)
    requires n > 0 && f.Valid()
    requires Pow(10, n - 1) * (f.minus + f.plus) <= f.scale < Pow(10, 16) * (f.minus + f.plus)
    ensures n < MAX_DIGITS
  {
    MulCancel(Pow(10, n - 1), Pow(10, 16), f.minus + f.plus);
    PowCancel(10, n - 1, 16);
  }
}
