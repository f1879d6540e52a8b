/** The 40-limb natural numbers of the float printer: the value of a buffer and
    the six routines that work on buffers in place. A limb is an unsigned 32-bit
    word, the lowest first, so a buffer holds a natural below 2^1280. */
module Limbs {
  import opened Powers

  const BASE: nat := 0x1_0000_0000

  type Limb = x: nat | x < BASE

  /** The natural number a little-endian sequence of limbs denotes. */
  function Value(s: seq<Limb>): nat {
    if s == [] then 0
    else Value(s[..|s| - 1]) + s[|s| - 1] * Pow(BASE, |s| - 1)
  }

  /** 2^(32 n): the routines on n limbs work modulo this (2^1280 for the 40
      limbs of the printer). */
  function Modulus(n: nat): (m: nat)
    ensures m > 0
  {
    PowPositive(BASE, n);
    Pow(BASE, n)
  }

  lemma ValueExtend(s: seq<Limb>, i: nat)
    requires i < |s|
    ensures Value(s[..i + 1]) == Value(s[..i]) + s[i] * Pow(BASE, i)
  {
    assert s[..i + 1][..i] == s[..i];
  }

  lemma {:induction false} ValueBound(s: seq<Limb>)
    ensures Value(s) < Pow(BASE, |s|)
  {
    if s != [] {
      var n := |s| - 1;
      ValueBound(s[..n]);
      MulMonotone(s[n], BASE - 1, Pow(BASE, n), Pow(BASE, n));
      assert (BASE - 1) * Pow(BASE, n) == BASE * Pow(BASE, n) - Pow(BASE, n);
    }
  }

  lemma SplitStep(lo: nat, hi: nat, top: nat, pk: nat, pr: nat)
    ensures lo + pk * (hi + top * pr) == (lo + pk * hi) + top * (pk * pr)
  {
    assert pk * (hi + top * pr) == pk * hi + pk * (top * pr);
    assert pk * (top * pr) == top * (pk * pr);
  }

  lemma {:induction false} ValueSplit(s: seq<Limb>, k: nat)
    requires k <= |s|
    ensures Value(s) == Value(s[..k]) + Pow(BASE, k) * Value(s[k..])
    decreases |s|
  {
    if k == |s| {
      assert s[..k] == s;
    } else {
      var n := |s| - 1;
      ValueSplit(s[..n], k);
      assert s[..n][..k] == s[..k];
      assert s[..n][k..] == s[k..][..n - k];
      PowAdd(BASE, k, n - k);
      SplitStep(Value(s[..k]), Value(s[k..][..n - k]), s[n], Pow(BASE, k), Pow(BASE, n - k));
    }
  }

  lemma {:induction false} ZeroValue(s: seq<Limb>)
    requires forall i :: 0 <= i < |s| ==> s[i] == 0
    ensures Value(s) == 0
  {
    if s != [] {
      ZeroValue(s[..|s| - 1]);
    }
  }

  /** A value that fits is unchanged by the modulus. */
  lemma Fits(x: nat, m: nat)
    requires x < m
    ensures x % m == x
  {
  }

  lemma NonzeroMultiple(m: int, d: int)
    requires m > 0 && d != 0
    ensures m * d >= m || m * d <= -m
  {
    if d > 0 {
      MulMonotone(1, d, m, m);
    } else {
      MulMonotone(1, -d, m, m);
      assert m * d == -(m * -d);
    }
  }

  lemma ModOf(x: nat, q: nat, m: nat, r: nat)
    requires m > 0 && x == r + q * m && r < m
    ensures x % m == r && x / m == q
  {
    var d := x / m - q;
    assert x == m * (x / m) + x % m;
    assert m * d == m * (x / m) - m * q;
    if d != 0 {
      NonzeroMultiple(m, d);
    }
  }

  /** A routine that ends with a carry has computed its product modulo the base. */
  lemma CarryMod(result: nat, carry: nat, m: nat, factor: nat, v: nat)
    requires result + carry * m == factor * v && result < m
    ensures (v * factor) % m == result
  {
    ModOf(v * factor, carry, m, result);
  }

  // ---- times a small ----

  lemma MulStep(done: nat, was: nat, m: nat, limb: nat, carry: nat, power: nat, low: nat, high: nat)
    requires done + carry * power == m * was
    requires limb * m + carry == low + high * BASE
    ensures (done + low * power) + high * (BASE * power) == m * (was + limb * power)
  {
    calc {
      (done + low * power) + high * (BASE * power);
      done + (low + high * BASE) * power;
      done + (limb * m + carry) * power;
      done + carry * power + m * (limb * power);
      m * (was + limb * power);
    }
  }

  /** The first `i` limbs of the product are in place and `carry` is what they overflow by. */
  predicate Multiplied(p: seq<Limb>, was: seq<Limb>, m: nat, carry: nat, i: nat)
    requires i <= |p| == |was|
  {
    Value(p[..i]) + carry * Pow(BASE, i) == m * Value(was[..i])
  }

  lemma MultipliedStep(p: seq<Limb>, q: seq<Limb>, was: seq<Limb>, m: nat, carry: nat, high: nat, i: nat)
    requires i < |p| == |q| == |was| && Multiplied(p, was, m, carry, i)
    requires p[..i] == q[..i] && was[i] * m + carry == q[i] + high * BASE
    ensures Multiplied(q, was, m, high, i + 1)
  {
    hide Value;
    ValueExtend(was, i);
    ValueExtend(q, i);
    MulStep(Value(p[..i]), Value(was[..i]), m, was[i], carry, Pow(BASE, i), q[i], high);
  }

  lemma MultipliedAll(p: seq<Limb>, was: seq<Limb>, m: nat, carry: nat)
    requires |p| == |was| && Multiplied(p, was, m, carry, |p|)
    ensures Value(p) == (Value(was) * m) % Modulus(|p|)
  {
    hide Value, Pow;
    assert p[..|p|] == p && was[..|p|] == was;
    ValueBound(p);
    CarryMod(Value(p), carry, Modulus(|p|), m, Value(was));
  }

  method MulSmall(p: array<Limb>, m: Limb)
    modifies p
    ensures Value(p[..]) == (Value(old(p[..])) * m) % Modulus(p.Length)
  {
    ghost var was := p[..];
    var i := 0;
    var carry: Limb := 0;
    while i < p.Length
      invariant 0 <= i <= p.Length
      invariant forall j :: i <= j < p.Length ==> p[j] == was[j]
      invariant Multiplied(p[..], was, m, carry, i)
    {
      hide Multiplied;
      ghost var before := p[..];
      var low, high := MulAcc(p[i], m, carry);
      p[i] := low;
      MultipliedStep(before, p[..], was, m, carry, high, i);
      carry := high;
      i := i + 1;
    }
    MultipliedAll(p[..], was, m, carry);
  }

  /** One limb of the product: the 64-bit accumulator never wraps, so its two
      halves are the stored limb and the next carry. */
  method MulAcc(limb: Limb, m: Limb, carry: Limb) returns (low: Limb, high: Limb)
    ensures limb * m + carry == low + high * BASE
  {
    assert limb * m <= (BASE - 1) * (BASE - 1) by { MulMonotone(limb, BASE - 1, m, BASE - 1); }
    var t: nat := limb * m + carry;
    assert t < BASE * BASE;
    low, high := t % BASE, t / BASE;
  }

  // ---- shift left ----

  lemma MovedMod(v: nat, moved: nat, lo: nat, hi: nat, pw: nat, pr: nat, m: nat)
    requires v == lo + pr * hi && moved == pw * lo && m == pr * pw && moved < m
    ensures (v * pw) % m == moved
  {
    assert v * pw == lo * pw + (pr * hi) * pw;
    assert (pr * hi) * pw == hi * (pr * pw);
    ModOf(v * pw, hi, m, moved);
  }

  lemma MovedSplit(s: seq<Limb>, w: nat, moved: seq<Limb>)
    requires w <= |s| == |moved| && moved[w..] == s[..|s| - w]
    requires forall i :: 0 <= i < w ==> moved[i] == 0
    ensures Value(moved) == Pow(BASE, w) * Value(s[..|s| - w])
  {
    ValueSplit(moved, w);
    ZeroValue(moved[..w]);
  }

  /** What the whole-limb move leaves: `w` zero limbs below the low limbs. */
  lemma MovedValue(s: seq<Limb>, w: nat, moved: seq<Limb>)
    requires w <= |s| == |moved| && moved[w..] == s[..|s| - w]
    requires forall i :: 0 <= i < w ==> moved[i] == 0
    ensures Value(moved) == (Value(s) * Pow(BASE, w)) % Modulus(|s|)
  {
    hide *;
    MovedSplit(s, w, moved);
    ValueSplit(s, |s| - w);
    ModulusSplit(|s|, w);
    BelowModulus(moved);
    MovedMod(Value(s), Value(moved), Value(s[..|s| - w]), Value(s[|s| - w..]),
             Pow(BASE, w), Pow(BASE, |s| - w), Modulus(|s|));
  }

  lemma ModulusSplit(n: nat, w: nat)
    requires w <= n
    ensures Modulus(n) == Pow(BASE, n - w) * Pow(BASE, w)
  {
    hide Pow;
    PowAdd(BASE, n - w, w);
  }

  lemma BelowModulus(s: seq<Limb>)
    ensures Value(s) < Modulus(|s|)
  {
    hide Value, Pow;
    ValueBound(s);
  }

  lemma TwoPow32()
    ensures Pow(2, 32) == BASE
  {
    assert Pow(2, 8) == 256;
    PowAdd(2, 8, 8);
    PowAdd(2, 16, 16);
  }

  /** The weights that split a limb at `bits` below its top: 2^bits and 2^(32 - bits). */
  function Up(bits: nat): (r: nat)
    requires 0 < bits < 32
    ensures r > 0
  {
    PowPositive(2, bits);
    Pow(2, bits)
  }

  function Down(bits: nat): (r: nat)
    requires 0 < bits < 32
    ensures r > 0 && Up(bits) * r == BASE
  {
    PowPositive(2, 32 - bits);
    PowAdd(2, bits, 32 - bits);
    TwoPow32();
    Pow(2, 32 - bits)
  }

  /** The bits of a limb that a shift by `bits` moves into the next limb. */
  function PushedOut(limb: Limb, bits: nat): nat
    requires 0 < bits < 32
  {
    limb / Down(bits)
  }

  /** Limb `i` after a shift by `bits` below one limb: its own low bits moved up,
      and the bits the limb below it pushes out. The two parts occupy different
      bits, so the `or` of the code is their sum. */
  function ShiftedLimb(limb: Limb, below: Limb, bits: nat): (r: Limb)
    requires 0 < bits < 32
    ensures limb * Up(bits) + PushedOut(below, bits) == r + PushedOut(limb, bits) * BASE
  {
    var up, down := Up(bits), Down(bits);
    ShiftSplit(limb, below, up, down);
    limb * up % BASE + PushedOut(below, bits)
  }

  lemma ShiftSplit(limb: Limb, below: Limb, up: nat, down: nat)
    requires up > 0 && down > 0 && up * down == BASE
    ensures limb * up % BASE + below / down < BASE
    ensures limb * up == limb * up % BASE + (limb / down) * BASE
  {
    var q, r := limb / down, limb % down;
    assert limb == q * down + r;
    assert limb * up == q * (up * down) + r * up by {
      assert (q * down) * up == q * (up * down);
    }
    assert r * up + up <= BASE by {
      MulMonotone(r + 1, down, up, up);
      assert (r + 1) * up == r * up + up;
    }
    ModOf(limb * up, q, BASE, r * up);
    assert below / down < up by {
      var b := below / down;
      assert b * down <= below;
      if b >= up { MulMonotone(up, b, down, down); }
    }
  }

  /** The limb below limb `i`; nothing is shifted into the lowest one. */
  function Below(s: seq<Limb>, i: nat): Limb
    requires i <= |s|
  {
    if i == 0 then 0 else s[i - 1]
  }

  lemma {:induction false} ShiftedValue(s: seq<Limb>, t: seq<Limb>, bits: nat, n: nat)
    requires 0 < bits < 32 && n <= |s| == |t|
    requires forall i :: 0 <= i < |s| ==> t[i] == ShiftedLimb(s[i], Below(s, i), bits)
    ensures Value(t[..n]) + PushedOut(Below(s, n), bits) * Pow(BASE, n) == Up(bits) * Value(s[..n])
  {
    if n > 0 {
      ShiftedValue(s, t, bits, n - 1);
      ShiftedValueStep(s, t, bits, n - 1);
    }
  }

  lemma ShiftedValueStep(s: seq<Limb>, t: seq<Limb>, bits: nat, n: nat)
    requires 0 < bits < 32 && n < |s| == |t|
    requires t[n] == ShiftedLimb(s[n], Below(s, n), bits)
    requires Value(t[..n]) + PushedOut(Below(s, n), bits) * Pow(BASE, n) == Up(bits) * Value(s[..n])
    ensures Value(t[..n + 1]) + PushedOut(Below(s, n + 1), bits) * Pow(BASE, n + 1) == Up(bits) * Value(s[..n + 1])
  {
    hide Value, PushedOut, Up, ShiftedLimb;
    ValueExtend(s, n);
    ValueExtend(t, n);
    MulStep(Value(t[..n]), Value(s[..n]), Up(bits), s[n], PushedOut(Below(s, n), bits), Pow(BASE, n),
            t[n], PushedOut(s[n], bits));
  }

  lemma ShiftCompose(v: nat, n: nat, m: nat)
    requires m > 0
    ensures ((v * Pow(BASE, n / 32)) % m) * Pow(2, n % 32) % m == (v * Pow(2, n)) % m
  {
    TwoPow32();
    PowPow(2, 32, n / 32);
    PowAdd(2, 32 * (n / 32), n % 32);
    MulModCompose(v, Pow(BASE, n / 32), Pow(2, n % 32), m);
  }

  method ShlLimbs(p: array<Limb>, limbs: nat)
    requires limbs < p.Length
    modifies p
    ensures Value(p[..]) == (Value(old(p[..])) * Pow(BASE, limbs)) % Modulus(p.Length)
  {
    ghost var was := p[..];
    forall i | limbs <= i < p.Length { p[i] := p[i - limbs]; }
    forall i | 0 <= i < limbs { p[i] := 0; }
    MovedValue(was, limbs, p[..]);
  }

  /** From the top limb down, so each limb reads the one below before that changes. */
  method ShlBits(p: array<Limb>, bits: nat)
    requires 0 < bits < 32
    modifies p
    ensures Value(p[..]) == (Value(old(p[..])) * Pow(2, bits)) % Modulus(p.Length)
  {
    ghost var was := p[..];
    var i := p.Length;
    while i > 0
      invariant 0 <= i <= p.Length
      invariant forall j :: 0 <= j < i ==> p[j] == was[j]
      invariant forall j :: i <= j < p.Length ==> p[j] == ShiftedLimb(was[j], Below(was, j), bits)
    {
      i := i - 1;
      p[i] := ShiftedLimb(p[i], if i > 0 then p[i - 1] else 0, bits);
    }
    ShiftedMod(was, p[..], bits);
  }

  lemma ShiftedMod(s: seq<Limb>, t: seq<Limb>, bits: nat)
    requires 0 < bits < 32 && |s| == |t|
    requires forall i :: 0 <= i < |s| ==> t[i] == ShiftedLimb(s[i], Below(s, i), bits)
    ensures Value(t) == (Value(s) * Pow(2, bits)) % Modulus(|s|)
  {
    hide Value, PushedOut, ShiftedLimb, Pow;
    ShiftedValue(s, t, bits, |s|);
    assert t[..|s|] == t && s[..|s|] == s;
    ValueBound(t);
    CarryMod(Value(t), PushedOut(Below(s, |s|), bits), Modulus(|s|), Up(bits), Value(s));
  }

  method Shl(p: array<Limb>, n: nat)
    requires n < 32 * p.Length
    modifies p
    ensures Value(p[..]) == (Value(old(p[..])) * Pow(2, n)) % Modulus(p.Length)
  {
    ghost var was := Value(p[..]);
    ValueBound(p[..]);
    Fits(was, Modulus(p.Length));
    if n / 32 != 0 {
      ShlLimbs(p, n / 32);
    }
    ValueBound(p[..]);
    Fits(Value(p[..]), Modulus(p.Length));
    if n % 32 != 0 {
      ShlBits(p, n % 32);
    }
    ShiftCompose(was, n, Modulus(p.Length));
  }

  // ---- comparison ----

  lemma TopLimbDecides(a: seq<Limb>, b: seq<Limb>, i: nat)
    requires i < |a| == |b|
    requires a[i + 1..] == b[i + 1..] && a[i] < b[i]
    ensures Value(a) < Value(b)
  {
    ValueSplit(a, i + 1);
    ValueSplit(b, i + 1);
    ValueExtend(a, i);
    ValueExtend(b, i);
    ValueBound(a[..i]);
    MulMonotone(a[i] + 1, b[i], Pow(BASE, i), Pow(BASE, i));
    assert (a[i] + 1) * Pow(BASE, i) == a[i] * Pow(BASE, i) + Pow(BASE, i);
  }

  method Cmp(a: array<Limb>, b: array<Limb>) returns (sign: int)
    requires a.Length == b.Length
    ensures sign == if Value(a[..]) < Value(b[..]) then -1 else if Value(a[..]) == Value(b[..]) then 0 else 1
  {
    var i := a.Length;
    while i > 0
      invariant 0 <= i <= a.Length
      invariant a[i..] == b[i..]
    {
      i := i - 1;
      assert a[..][i + 1..] == a[i + 1..] && b[..][i + 1..] == b[i + 1..];
      if a[i] != b[i] {
        if a[i] > b[i] {
          TopLimbDecides(b[..], a[..], i);
          return 1;
        }
        TopLimbDecides(a[..], b[..], i);
        return -1;
      }
    }
    assert a[..] == a[0..] == b[0..] == b[..];
    return 0;
  }

  // ---- sum and difference ----

  lemma AddStep(done: nat, x: nat, y: nat, lx: nat, ly: nat, carry: nat, power: nat, low: nat, high: nat)
    requires done + carry * power == x + y
    requires lx + ly + carry == low + high * BASE
    ensures (done + low * power) + high * (BASE * power) == (x + lx * power) + (y + ly * power)
  {
    calc {
      (done + low * power) + high * (BASE * power);
      done + (low + high * BASE) * power;
      done + (lx + ly + carry) * power;
      (x + lx * power) + (y + ly * power);
    }
  }

  predicate Added(d: seq<Limb>, x: seq<Limb>, y: seq<Limb>, carry: nat, i: nat)
    requires i <= |d| == |x| == |y|
  {
    Value(d[..i]) + carry * Pow(BASE, i) == Value(x[..i]) + Value(y[..i])
  }

  lemma AddedStep(d: seq<Limb>, e: seq<Limb>, x: seq<Limb>, y: seq<Limb>, carry: nat, high: nat, i: nat)
    requires i < |d| == |e| == |x| == |y| && Added(d, x, y, carry, i)
    requires d[..i] == e[..i] && x[i] + y[i] + carry == e[i] + high * BASE
    ensures Added(e, x, y, high, i + 1)
  {
    hide Value;
    ValueExtend(x, i);
    ValueExtend(y, i);
    ValueExtend(e, i);
    AddStep(Value(d[..i]), Value(x[..i]), Value(y[..i]), x[i], y[i], carry, Pow(BASE, i), e[i], high);
  }

  lemma AddedAll(d: seq<Limb>, x: seq<Limb>, y: seq<Limb>, carry: nat)
    requires |d| == |x| == |y| && Added(d, x, y, carry, |d|)
    ensures Value(d) == (Value(x) + Value(y)) % Modulus(|d|)
  {
    hide Value, Pow;
    assert d[..|d|] == d && x[..|d|] == x && y[..|d|] == y;
    ValueBound(d);
    ModOf(Value(x) + Value(y), carry, Modulus(|d|), Value(d));
  }

  /** `dst := a + b`; `dst` may be `a` or `b`. */
  method Add(dst: array<Limb>, a: array<Limb>, b: array<Limb>)
    requires dst.Length == a.Length == b.Length
    modifies dst
    ensures Value(dst[..]) == (Value(old(a[..])) + Value(old(b[..]))) % Modulus(dst.Length)
  {
    ghost var x, y := a[..], b[..];
    var i := 0;
    var carry: Limb := 0;
    while i < dst.Length
      invariant 0 <= i <= dst.Length
      invariant carry <= 1
      invariant forall j :: i <= j < dst.Length ==> a[j] == x[j] && b[j] == y[j]
      invariant Added(dst[..], x, y, carry, i)
    {
      hide Added;
      ghost var before := dst[..];
      var t: nat := a[i] + b[i] + carry;
      dst[i] := t % BASE;
      AddedStep(before, dst[..], x, y, carry, t / BASE, i);
      carry := t / BASE;
      i := i + 1;
    }
    AddedAll(dst[..], x, y, carry);
  }

  lemma SubStep(done: nat, x: nat, y: nat, lx: nat, ly: nat, borrow: nat, power: nat, low: nat, next: nat)
    requires done + y == x + borrow * power
    requires low + ly + borrow == lx + next * BASE
    ensures (done + low * power) + (y + ly * power) == (x + lx * power) + next * (BASE * power)
  {
    calc {
      (done + low * power) + (y + ly * power);
      x + borrow * power + low * power + ly * power;
      x + (low + ly + borrow) * power;
      x + (lx + next * BASE) * power;
      (x + lx * power) + next * (BASE * power);
    }
  }

  predicate Subtracted(d: seq<Limb>, x: seq<Limb>, y: seq<Limb>, borrow: nat, i: nat)
    requires i <= |d| == |x| == |y|
  {
    Value(d[..i]) + Value(y[..i]) == Value(x[..i]) + borrow * Pow(BASE, i)
  }

  lemma SubtractedStep(d: seq<Limb>, e: seq<Limb>, x: seq<Limb>, y: seq<Limb>, borrow: nat, next: nat, i: nat)
    requires i < |d| == |e| == |x| == |y| && Subtracted(d, x, y, borrow, i)
    requires d[..i] == e[..i] && e[i] + y[i] + borrow == x[i] + next * BASE
    ensures Subtracted(e, x, y, next, i + 1)
  {
    hide Value;
    ValueExtend(x, i);
    ValueExtend(y, i);
    ValueExtend(e, i);
    SubStep(Value(d[..i]), Value(x[..i]), Value(y[..i]), x[i], y[i], borrow, Pow(BASE, i), e[i], next);
  }

  lemma SubtractedAll(d: seq<Limb>, x: seq<Limb>, y: seq<Limb>, borrow: nat)
    requires |d| == |x| == |y| && Subtracted(d, x, y, borrow, |d|) && borrow <= 1
    requires Value(y) <= Value(x)
    ensures borrow == 0 && Value(d) == Value(x) - Value(y)
  {
    hide Value, Pow;
    assert d[..|d|] == d && x[..|d|] == x && y[..|d|] == y;
    ValueBound(d);
    NoBorrow(Value(d), Value(x), Value(y), borrow, Pow(BASE, |d|));
  }

  lemma NoBorrow(d: nat, x: nat, y: nat, borrow: nat, m: nat)
    requires d + y == x + borrow * m && d < m && borrow <= 1 && y <= x
    ensures borrow == 0 && d == x - y
  {
  }

  /** `dst := dst - b` for `dst >= b`. The 64-bit difference of two limbs and a
      borrow is negative exactly when its top bit is set. */
  method Sub(dst: array<Limb>, b: array<Limb>)
    requires dst.Length == b.Length && dst != b
    requires Value(b[..]) <= Value(dst[..])
    modifies dst
    ensures Value(dst[..]) == Value(old(dst[..])) - Value(b[..])
  {
    ghost var x, y := dst[..], b[..];
    var i := 0;
    var borrow: nat := 0;
    while i < dst.Length
      invariant 0 <= i <= dst.Length
      invariant borrow <= 1
      invariant b[..] == y && forall j :: i <= j < dst.Length ==> dst[j] == x[j]
      invariant Subtracted(dst[..], x, y, borrow, i)
    {
      hide Subtracted;
      ghost var before := dst[..];
      var t: int := dst[i] - b[i] - borrow;
      var next := if t < 0 then 1 else 0;
      dst[i] := t + next * BASE;
      SubtractedStep(before, dst[..], x, y, borrow, next, i);
      borrow := next;
      i := i + 1;
    }
    SubtractedAll(dst[..], x, y, borrow);
  }

  // ---- times a power of ten ----

  lemma MulSum(r: nat, q: nat, m: nat, b: nat)
    ensures (r + q * m) * b == r * b + (q * b) * m
  {
    MulAssociative(q, m, b);
    MulAssociative(q, b, m);
  }

  lemma ModTimes(x: nat, q: nat, r: nat, b: nat, m: nat)
    requires m > 0 && x == r + q * m
    ensures (x * b) % m == (r * b) % m
  {
    MulSum(r, q, m, b);
    ModShift(r * b, q * b, m);
  }

  lemma ModShift(y: nat, k: nat, m: nat)
    requires m > 0
    ensures (y + k * m) % m == y % m
  {
    var d, e := y / m, y % m;
    assert y == e + d * m;
    assert (d + k) * m == d * m + k * m;
    ModOf(y + k * m, d + k, m, e);
  }

  lemma MulModCompose(v: nat, a: nat, b: nat, m: nat)
    requires m > 0
    ensures ((v * a) % m * b) % m == (v * (a * b)) % m
  {
    var x := v * a;
    assert x == x % m + (x / m) * m;
    ModTimes(x, x / m, x % m, b, m);
    assert v * (a * b) == x * b;
  }

  lemma TenPow9()
    ensures Pow(10, 9) == 1_000_000_000
  {
    assert Pow(10, 5) == 100_000;
    PowAdd(10, 5, 4);
  }

  lemma Pow10Step(was: nat, now: nat, done: nat, more: nat, m: nat)
    requires m > 0 && now == (was * Pow(10, done)) % m
    ensures (now * Pow(10, more)) % m == (was * Pow(10, done + more)) % m
  {
    MulModCompose(was, Pow(10, done), Pow(10, more), m);
    PowAdd(10, done, more);
  }

  /** The small power left after the nines; it fits a limb. */
  method SmallPow10(n: nat) returns (power: Limb)
    requires n < 9
    ensures power == Pow(10, n)
  {
    var left := n;
    power := 1;
    while left > 0
      invariant 0 <= left <= n
      invariant power == Pow(10, n - left)
    {
      PowMonotone(10, n - left, 7);
      TenPow9();
      PowAdd(10, 7, 2);
      power := power * 10;
      left := left - 1;
    }
  }

  method MulPow10(p: array<Limb>, n: nat)
    modifies p
    ensures Value(p[..]) == (Value(old(p[..])) * Pow(10, n)) % Modulus(p.Length)
  {
    ghost var was, m := Value(p[..]), Modulus(p.Length);
    ValueBound(p[..]);
    Fits(was, m);
    TenPow9();
    var left := n;
    while left >= 9
      invariant 0 <= left <= n
      invariant Value(p[..]) == (was * Pow(10, n - left)) % m
    {
      Pow10Step(was, Value(p[..]), n - left, 9, m);
      MulSmall(p, 1_000_000_000);
      left := left - 9;
    }
    var power := SmallPow10(left);
    Pow10Step(was, Value(p[..]), n - left, left, m);
    MulSmall(p, power);
  }
}
