/** The printer's output: rounding the digit buffer up, positional notation, and
    an independent reader of decimal text that the notation is checked against. */
module DecimalText {
  import opened Powers
  import opened RealPowers
  import opened DigitLoop

  /** The real number d * 10^e. */
  ghost function Decimal(d: nat, e: int): real {
    d as real * RPow(10, e)
  }

  // ---- numerals ----

  lemma {:induction false} NumeralConcat(a: seq<char>, b: seq<char>)
    requires AllDigits(a) && AllDigits(b)
    ensures AllDigits(a + b) && Numeral(a + b) == Numeral(a) * Pow(10, |b|) + Numeral(b)
  {
    if b == [] {
      assert a + b == a;
    } else {
      var c := b[..|b| - 1];
      NumeralConcat(a, c);
      assert (a + b)[..|a + b| - 1] == a + c;
      assert (a + b)[|a + b| - 1] == b[|b| - 1];
      assert Pow(10, |b|) == 10 * Pow(10, |c|);
      assert AllDigits(a + b);
      ShiftIn(Numeral(a), Pow(10, |c|), Numeral(c), DigitOf(b[|b| - 1]));
    }
  }

  lemma ShiftIn(n: nat, p: nat, m: nat, d: nat)
    ensures 10 * (n * p + m) + d == n * (10 * p) + (10 * m + d)
  {
    MulAssociative(n, 10, p);
  }

  lemma {:induction false} NumeralBound(s: seq<char>)
    requires AllDigits(s)
    ensures Numeral(s) < Pow(10, |s|)
  {
    if s != [] {
      NumeralBound(s[..|s| - 1]);
    }
  }

  ghost predicate Repeats(s: seq<char>, c: char) {
    forall i :: 0 <= i < |s| ==> s[i] == c
  }

  lemma {:induction false} ZerosNumeral(s: seq<char>)
    requires Repeats(s, '0')
    ensures AllDigits(s) && Numeral(s) == 0
  {
    if s != [] {
      ZerosNumeral(s[..|s| - 1]);
    }
  }

  lemma {:induction false} NinesNumeral(s: seq<char>)
    requires Repeats(s, '9')
    ensures AllDigits(s) && Numeral(s) == Pow(10, |s|) - 1
  {
    if s != [] {
      NinesNumeral(s[..|s| - 1]);
    }
  }

  // ---- rounding up ----

  /** The digits before `index` stay, the one at `index` grows, the nines after it turn to zeros. */
  lemma CarryStops(was: seq<char>, now: seq<char>, index: nat)
    requires |was| == |now| && index < |was| && AllDigits(was)
    requires was[index] != '9' && now[index] == DigitChar(DigitOf(was[index]) + 1)
    requires now[..index] == was[..index]
    requires Repeats(was[index + 1..], '9') && Repeats(now[index + 1..], '0')
    ensures AllDigits(now) && Numeral(now) == Numeral(was) + 1
  {
    hide Numeral, Pow;
    var head, tail := was[..index], was[index + 1..];
    NinesNumeral(tail);
    ZerosNumeral(now[index + 1..]);
    NumeralAppend(head, DigitOf(was[index]));
    NumeralAppend(head, DigitOf(was[index]) + 1);
    assert was == (head + [was[index]]) + tail;
    assert now == (head + [now[index]]) + now[index + 1..];
    NumeralConcat(head + [was[index]], tail);
    NumeralConcat(head + [now[index]], now[index + 1..]);
    assert (10 * Numeral(head) + DigitOf(was[index]) + 1) * Pow(10, |tail|)
        == (10 * Numeral(head) + DigitOf(was[index])) * Pow(10, |tail|) + Pow(10, |tail|);
  }

  lemma CarryOverflows(was: seq<char>, now: seq<char>)
    requires Repeats(was, '9') && |now| == |was| + 1
    requires now[0] == '1' && Repeats(now[1..], '0')
    ensures AllDigits(was) && AllDigits(now) && Numeral(now) == Numeral(was) + 1
  {
    hide Numeral, Pow;
    NinesNumeral(was);
    ZerosNumeral(now[1..]);
    assert now == ['1'] + now[1..];
    OneNumeral();
    NumeralConcat(['1'], now[1..]);
  }

  lemma OneNumeral()
    ensures AllDigits(['1']) && Numeral(['1']) == 1
  {
  }

  /** Turns the nines at the end to zeros; the digits before them stay. */
  method ClearNines(digits: array<char>, n: nat) returns (index: nat)
    requires n <= digits.Length
    modifies digits
    ensures index <= n && digits[..index] == old(digits[..index])
    ensures Repeats(old(digits[index..n]), '9') && Repeats(digits[index..n], '0')
    ensures index > 0 ==> digits[index - 1] != '9'
  {
    index := n;
    while index != 0 && digits[index - 1] == '9'
      invariant 0 <= index <= n
      invariant forall i :: 0 <= i < index ==> digits[i] == old(digits[i])
      invariant forall i :: index <= i < n ==> old(digits[i]) == '9' && digits[i] == '0'
    {
      digits[index - 1] := '0';
      index := index - 1;
    }
  }

  /** One unit in the last place is added to the digits; all nines become `1` and
      zeros, one digit longer, and `k` moves with the length. */
  method RoundUp(digits: array<char>, n: nat, k: int) returns (n': nat, k': int)
    requires 0 < n < digits.Length
    requires AllDigits(digits[..n])
    modifies digits
    ensures n' <= digits.Length && k' - n' == k - n
    ensures n' == if old(Numeral(digits[..n])) + 1 < Pow(10, n) then n else n + 1
    ensures AllDigits(digits[..n']) && Numeral(digits[..n']) == old(Numeral(digits[..n])) + 1
  {
    hide Numeral, Pow, Repeats;
    ghost var was := digits[..n];
    var index := ClearNines(digits, n);
    ghost var cleared := digits[..n];
    Ends(was, cleared, index);
    if index != 0 {
      digits[index - 1] := DigitChar(DigitOf(digits[index - 1]) + 1);
      n', k' := n, k;
      ghost var now := digits[..n];
      assert now == cleared[index - 1 := digits[index - 1]];
      assert now[..index - 1] == cleared[..index - 1] && now[index..] == cleared[index..];
      CarryStops(was, now, index - 1);
      NumeralBound(now);
    } else {
      digits[0] := '1';
      digits[n] := '0';
      n', k' := n + 1, k + 1;
      ghost var now := digits[..n + 1];
      assert now == cleared[0 := '1'] + ['0'];
      assert now[1..] == cleared[1..] + ['0'];
      RepeatsEnds(cleared, '0');
      CarryOverflows(was, now);
      NinesNumeral(was);
    }
  }

  /** The parts of the digits before and after the nines were cleared. */
  lemma Ends(was: seq<char>, cleared: seq<char>, index: nat)
    requires index <= |was| == |cleared| && cleared[..index] == was[..index] && AllDigits(was)
    ensures index > 0 ==> cleared[index - 1] == was[index - 1] && cleared[..index - 1] == was[..index - 1]
    ensures index > 0 ==> IsDigit(cleared[index - 1])
    ensures index == 0 ==> was[index..] == was && cleared[index..] == cleared
  {
    if index > 0 {
      assert cleared[index - 1] == cleared[..index][index - 1];
      assert cleared[..index - 1] == cleared[..index][..index - 1];
    }
  }

  lemma RepeatsEnds(s: seq<char>, c: char)
    ensures Repeats(s, c) && s != [] ==> Repeats(s[1..] + [c], c)
  {
  }

  // ---- positional notation ----

  function Zeros(n: nat): (s: seq<char>)
    ensures |s| == n && Repeats(s, '0')
  {
    seq(n, _ => '0')
  }

  /** `0.` and -k zeros before the digits, a point after k of them, or zeros after them. */
  function Positional(digits: seq<char>, k: int): seq<char> {
    if k <= 0 then "0." + Zeros(-k) + digits
    else if k < |digits| then digits[..k] + "." + digits[k..]
    else digits + Zeros(k - |digits|)
  }

  lemma PositionalLength(digits: seq<char>, k: int)
    requires -323 <= k <= 309 && 1 <= |digits| <= 17
    ensures |Positional(digits, k)| <= 342
  {
  }

  // ---- a reader of decimal text ----

  /** Index of the point, or the length when there is none. */
  function Point(s: seq<char>): (i: nat)
    ensures i <= |s|
    ensures i < |s| ==> s[i] == '.'
    ensures forall j :: 0 <= j < i ==> s[j] != '.'
  {
    if s == [] || s[0] == '.' then 0 else 1 + Point(s[1..])
  }

  lemma PointAt(s: seq<char>, i: nat)
    requires i <= |s| && AllDigits(s[..i])
    requires i < |s| ==> s[i] == '.'
    ensures Point(s) == i
  {
    assert forall j :: 0 <= j < i ==> s[j] == s[..i][j];
  }

  function Fraction(s: seq<char>): seq<char> {
    if Point(s) < |s| then s[Point(s) + 1..] else []
  }

  /** Digits, and after a point at least one more digit. */
  ghost predicate IsDecimal(s: seq<char>) {
    && 0 < Point(s)
    && AllDigits(s[..Point(s)])
    && AllDigits(Fraction(s))
    && (Point(s) < |s| ==> Fraction(s) != [])
  }

  ghost function Read(s: seq<char>): real
    requires IsDecimal(s)
  {
    Numeral(s[..Point(s)]) as real + Decimal(Numeral(Fraction(s)), -|Fraction(s)|)
  }

  lemma PartsShape(whole: seq<char>, fraction: seq<char>)
    requires whole != [] && fraction != [] && AllDigits(whole) && AllDigits(fraction)
    ensures var s := whole + "." + fraction;
            IsDecimal(s) && s[..Point(s)] == whole && Fraction(s) == fraction
  {
    var s := whole + "." + fraction;
    assert s[..|whole|] == whole;
    PointAt(s, |whole|);
    assert s[|whole| + 1..] == fraction;
  }

  lemma ReadParts(whole: seq<char>, fraction: seq<char>)
    requires whole != [] && fraction != [] && AllDigits(whole) && AllDigits(fraction)
    ensures var s := whole + "." + fraction;
            IsDecimal(s) && AllDigits(whole + fraction)
            && Read(s) == Decimal(Numeral(whole + fraction), -|fraction|)
  {
    hide Numeral, Decimal, IsDecimal, Point, Fraction;
    PartsShape(whole, fraction);
    JoinParts(whole, fraction);
  }

  lemma JoinParts(whole: seq<char>, fraction: seq<char>)
    requires AllDigits(whole) && AllDigits(fraction)
    ensures AllDigits(whole + fraction)
    ensures Decimal(Numeral(whole + fraction), -|fraction|)
         == Numeral(whole) as real + Decimal(Numeral(fraction), -|fraction|)
  {
    hide Numeral, RPow, Pow;
    NumeralConcat(whole, fraction);
    InversePower(|fraction|);
    Join(Numeral(whole), Pow(10, |fraction|), Numeral(fraction), RPow(10, -|fraction|));
  }

  lemma InversePower(n: int)
    requires n >= 0
    ensures Pow(10, n) as real * RPow(10, -n) == 1.0
  {
    PowPositive(10, n);
    if n == 0 {
      assert Pow(10, 0) == 1;
    }
  }

  lemma Join(w: nat, p: nat, f: nat, r: real)
    requires p as real * r == 1.0
    ensures (w * p + f) as real * r == w as real + f as real * r
  {
    calc {
      (w * p + f) as real * r;
      (w as real * p as real + f as real) * r;
      w as real * (p as real * r) + f as real * r;
    }
  }

  lemma ReadWhole(s: seq<char>)
    requires s != [] && AllDigits(s)
    ensures IsDecimal(s) && Read(s) == Numeral(s) as real
  {
    assert s[..|s|] == s;
    PointAt(s, |s|);
    assert Fraction(s) == [];
  }

  /** Reading the positional text gives the digits times 10^(k - n), in every layout. */
  lemma PositionalReads(digits: seq<char>, k: int)
    requires digits != [] && AllDigits(digits)
    ensures IsDecimal(Positional(digits, k))
    ensures Read(Positional(digits, k)) == Decimal(Numeral(digits), k - |digits|)
  {
    hide Numeral, Decimal, Read, IsDecimal, Zeros, AllDigits, Repeats;
    if k <= 0 {
      SmallReads(digits, -k);
      assert Positional(digits, k) == "0" + "." + (Zeros(-k) + digits);
    } else if k < |digits| {
      MiddleReads(digits, k);
    } else {
      LargeReads(digits, k - |digits|);
    }
  }

  lemma MiddleReads(digits: seq<char>, k: int)
    requires 0 < k < |digits| && AllDigits(digits)
    ensures var s := digits[..k] + "." + digits[k..];
            IsDecimal(s) && Read(s) == Decimal(Numeral(digits), k - |digits|)
  {
    hide Numeral, Decimal, Pow, Read, IsDecimal;
    var whole, fraction := digits[..k], digits[k..];
    assert whole + fraction == digits;
    assert -|fraction| == k - |digits|;
    ReadParts(whole, fraction);
  }

  lemma SmallReads(digits: seq<char>, n: int)
    requires n >= 0 && digits != [] && AllDigits(digits)
    ensures var s := "0" + "." + (Zeros(n) + digits);
            IsDecimal(s) && Read(s) == Decimal(Numeral(digits), -n - |digits|)
  {
    hide Numeral, Decimal, Pow, Read, IsDecimal;
    LeadingZeros(digits, n);
    ReadParts("0", Zeros(n) + digits);
    LeadingZeros(Zeros(n) + digits, 1);
    assert Zeros(1) == "0";
    assert -|Zeros(n) + digits| == -n - |digits|;
  }

  lemma LargeReads(digits: seq<char>, n: nat)
    requires digits != [] && AllDigits(digits)
    ensures IsDecimal(digits + Zeros(n))
    ensures Read(digits + Zeros(n)) == Decimal(Numeral(digits), n)
  {
    hide Numeral, Decimal, Pow, Read, IsDecimal;
    ZerosNumeral(Zeros(n));
    NumeralConcat(digits, Zeros(n));
    ReadWhole(digits + Zeros(n));
    WholePower(Numeral(digits), n);
  }

  lemma LeadingZeros(digits: seq<char>, n: nat)
    requires AllDigits(digits)
    ensures AllDigits(Zeros(n) + digits) && Numeral(Zeros(n) + digits) == Numeral(digits)
  {
    ZerosNumeral(Zeros(n));
    NumeralConcat(Zeros(n), digits);
  }

  lemma WholePower(d: nat, e: nat)
    ensures (d * Pow(10, e)) as real == Decimal(d, e)
  {
  }

  // ---- no idle zeros ----

  /** No zero stands before another digit of the whole part or ends the fraction. */
  ghost predicate NoIdleZeros(s: seq<char>) {
    && (Point(s) > 1 ==> s[0] != '0')
    && (Point(s) < |s| ==> s[|s| - 1] != '0')
  }

  /** The first digit of a numeral that needs all its places, and the last one of a
      numeral that is no multiple of ten. */
  lemma EndDigits(s: seq<char>)
    requires s != [] && AllDigits(s)
    ensures Pow(10, |s| - 1) <= Numeral(s) ==> s[0] != '0'
    ensures Numeral(s) % 10 != 0 ==> s[|s| - 1] != '0'
  {
    hide Pow;
    if s[0] == '0' {
      assert s == Zeros(1) + s[1..];
      LeadingZeros(s[1..], 1);
      NumeralBound(s[1..]);
    }
  }

  lemma PositionalPlain(digits: seq<char>, k: int)
    requires digits != [] && AllDigits(digits) && digits[0] != '0' && digits[|digits| - 1] != '0'
    ensures NoIdleZeros(Positional(digits, k))
  {
    var s := Positional(digits, k);
    if k <= 0 {
      assert s[..1] == "0";
      PointAt(s, 1);
    } else if k < |digits| {
      assert s[..k] == digits[..k];
      PointAt(s, k);
    } else {
      assert s[..|s|] == s;
      PointAt(s, |s|);
    }
  }
}
