/** Writing text at the end of what an output cell already holds. */
module Output {
  import opened Powers
  import opened DigitLoop
  import opened DecimalText

  /** The cell with `text` written after its first `len` characters. */
  function Written(cell: seq<char>, len: nat, text: seq<char>): (r: seq<char>)
    requires len + |text| <= |cell|
    ensures |r| == |cell|
  {
    cell[..len] + text + cell[len + |text|..]
  }

  lemma WrittenTwice(cell: seq<char>, len: nat, a: seq<char>, b: seq<char>)
    requires len + |a| + |b| <= |cell|
    ensures Written(Written(cell, len, a), len + |a|, b) == Written(cell, len, a + b)
  {
  }

  /** Two writes in a row: the first stays, and nothing behind the second changes. */
  lemma WrittenAfter(cell: seq<char>, a: seq<char>, b: seq<char>)
    requires |a| + |b| < |cell|
    ensures var r := Written(Written(cell, 0, a), |a|, b);
            && r[..|a|] == a && r[|a|..|a| + |b|] == b
            && r[|a| + |b| + 1..] == cell[|a| + |b| + 1..]
  {
  }

  method Put(out: array<char>, len: nat, text: seq<char>) returns (end: nat)
    requires len + |text| <= out.Length
    modifies out
    ensures end == len + |text| && out[..] == Written(old(out[..]), len, text)
  {
    end := len + |text|;
    forall i | len <= i < end { out[i] := text[i - len]; }
  }

  /** The bulk fill of zeros. */
  method PutZeros(out: array<char>, len: nat, n: nat) returns (end: nat)
    requires len + n <= out.Length
    modifies out
    ensures end == len + n && out[..] == Written(old(out[..]), len, Zeros(n))
  {
    end := len + n;
    forall i | len <= i < end { out[i] := '0'; }
  }

  /** The bulk copy of a slice of the digit buffer. */
  method PutDigits(out: array<char>, len: nat, digits: array<char>, from: nat, to: nat) returns (end: nat)
    requires from <= to <= digits.Length && len + (to - from) <= out.Length && out != digits
    modifies out
    ensures end == len + (to - from) && out[..] == Written(old(out[..]), len, digits[from..to])
  {
    end := len + (to - from);
    forall i | len <= i < end { out[i] := digits[from + (i - len)]; }
  }

  /** Positional notation of the first n digits with the point after k of them. */
  method PutPositional(out: array<char>, len: nat, digits: array<char>, n: nat, k: int) returns (end: nat)
    requires n <= digits.Length && out != digits
    requires len + |Positional(digits[..n], k)| <= out.Length
    modifies out
    ensures end == len + |Positional(digits[..n], k)|
    ensures out[..] == Written(old(out[..]), len, Positional(digits[..n], k))
  {
    hide Written, Zeros;
    ghost var cell, all := out[..], digits[..n];
    assert digits[0..n] == all;
    if k <= 0 {
      end := Put(out, len, "0.");
      end := PutZeros(out, end, -k);
      WrittenTwice(cell, len, "0.", Zeros(-k));
      end := PutDigits(out, end, digits, 0, n);
      WrittenTwice(cell, len, "0." + Zeros(-k), all);
    } else if k < n {
      assert all[..k] == digits[0..k] && all[k..] == digits[k..n];
      end := PutDigits(out, len, digits, 0, k);
      end := Put(out, end, ".");
      WrittenTwice(cell, len, all[..k], ".");
      end := PutDigits(out, end, digits, k, n);
      WrittenTwice(cell, len, all[..k] + ".", all[k..]);
    } else {
      end := PutDigits(out, len, digits, 0, n);
      end := PutZeros(out, end, k - n);
      WrittenTwice(cell, len, all, Zeros(k - n));
    }
  }

  // ---- integers ----

  function DigitCount(m: nat): (n: nat)
    ensures n > 0
  {
    if m < 10 then 1 else 1 + DigitCount(m / 10)
  }

  lemma {:induction false} DigitCountBound(m: nat, n: nat)
    requires n > 0 && m < Pow(10, n)
    ensures DigitCount(m) <= n
  {
    if m >= 10 {
      assert Pow(10, n) == 10 * Pow(10, n - 1) && Pow(10, 0) == 1;
      DigitCountBound(m / 10, n - 1);
    }
  }

  lemma {:induction false} DigitCountNeeded(m: nat)
    ensures DigitCount(m) > 1 ==> Pow(10, DigitCount(m) - 1) <= m
  {
    if m >= 10 {
      DigitCountNeeded(m / 10);
      assert Pow(10, DigitCount(m) - 1) == 10 * Pow(10, DigitCount(m) - 2);
      assert Pow(10, 0) == 1;
    }
  }

  /** An integer written with as many digits as it needs starts with no idle zero. */
  lemma WholePlain(u: seq<char>)
    requires AllDigits(u) && |u| == DigitCount(Numeral(u))
    ensures NoIdleZeros(u)
  {
    hide Numeral, Pow;
    DigitCountNeeded(Numeral(u));
    EndDigits(u);
    assert u[..|u|] == u;
    PointAt(u, |u|);
  }

  method CountDigits(m: nat) returns (n: nat)
    ensures n == DigitCount(m)
  {
    n := 1;
    var left := m;
    while left >= 10
      invariant n + DigitCount(left) == 1 + DigitCount(m)
    {
      left := left / 10;
      n := n + 1;
    }
  }

  lemma PrependDigit(m: nat, s: seq<char>)
    requires AllDigits(s)
    ensures AllDigits([DigitChar(m % 10)] + s)
    ensures (m / 10) * Pow(10, |s| + 1) + Numeral([DigitChar(m % 10)] + s) == m * Pow(10, |s|) + Numeral(s)
  {
    hide Numeral, Pow;
    NumeralConcat([DigitChar(m % 10)], s);
    OneDigit(m % 10);
    TenTimes(m, |s|);
  }

  lemma OneDigit(d: nat)
    requires d < 10
    ensures AllDigits([DigitChar(d)]) && Numeral([DigitChar(d)]) == d
  {
    assert [DigitChar(d)][..0] == [];
  }

  lemma TenTimes(m: nat, n: nat)
    ensures (m / 10) * Pow(10, n + 1) + (m % 10) * Pow(10, n) == m * Pow(10, n)
  {
    var q, r, p := m / 10, m % 10, Pow(10, n);
    assert m == 10 * q + r;
    assert q * (10 * p) + r * p == (10 * q + r) * p;
  }

  /** The digits of an integer: counted first, then written from the last one. */
  method PutInteger(out: array<char>, len: nat, m: nat) returns (end: nat)
    requires len + DigitCount(m) <= out.Length
    modifies out
    ensures end == len + DigitCount(m)
    ensures out[..len] == old(out[..len]) && out[end..] == old(out[end..])
    ensures AllDigits(out[len..end]) && Numeral(out[len..end]) == m
  {
    hide Numeral, Pow;
    var n := CountDigits(m);
    end := len + n;
    var index := end;
    var left: nat := m;
    assert out[index..end] == [] && Pow(10, 0) == 1 by { PowZero10(); }
    NumeralEmpty();
    while true
      invariant len < index <= end && DigitCount(left) == index - len
      invariant out[..len] == old(out[..len]) && out[end..] == old(out[end..])
      invariant AllDigits(out[index..end]) && m == left * Pow(10, end - index) + Numeral(out[index..end])
      decreases index
    {
      ghost var tail := out[index..end];
      PrependDigit(left, tail);
      index := index - 1;
      out[index] := DigitChar(left % 10);
      assert out[index..end] == [DigitChar(left % 10)] + tail;
      left := left / 10;
      if left == 0 {
        break;
      }
    }
    assert index == len;
  }

  lemma PowZero10()
    ensures Pow(10, 0) == 1
  {
  }
}
