/** The emitted entry point: the text of an f64 given by its bits. */
module FloatText {
  import opened Powers
  import opened RealPowers
  import opened Limbs
  import opened ShortestDigits
  import opened DigitLoop
  import opened DecimalText
  import opened Binary64
  import opened Scaling
  import opened RoundTrip
  import opened Output
  import opened Wrappers

  const MAX_TEXT: nat := 344
  const SIGN_BIT: nat := 0x8000_0000_0000_0000

  // ---- scaling on the frame ----

  function Times(x: nat, y: nat): (r: nat)
    ensures r == x * y
  {
    MulNatural(x, y);
    x * y
  }

  lemma MulNatural(x: nat, y: nat)
    ensures x * y >= 0
  {
  }

  lemma {:induction false} LowLimbs(s: seq<Limb>)
    requires |s| >= 2 && forall i :: 2 <= i < |s| ==> s[i] == 0
    ensures Value(s) == s[0] + s[1] * BASE
    decreases |s|
  {
    if |s| == 2 {
      assert s[..1][..0] == [];
      assert Value(s[..1]) == s[0];
    } else {
      LowLimbs(s[..|s| - 1]);
    }
  }

  /** A 64-bit store to the low limbs of a zeroed buffer. */
  method StoreLow(p: array<Limb>, v: nat)
    requires p.Length == LIMBS && v < BASE * BASE
    requires forall i :: 0 <= i < LIMBS ==> p[i] == 0
    modifies p
    ensures Value(p[..]) == v
  {
    p[0] := v % BASE;
    p[1] := v / BASE;
    LowLimbs(p[..]);
  }

  lemma BufferSize()
    ensures Modulus(LIMBS) == Pow(2, 1280)
  {
    hide Pow;
    TwoPow32();
    PowPow(2, 32, 40);
  }

  method ShlExact(p: array<Limb>, n: nat)
    requires p.Length == LIMBS && n < 1280 && Value(p[..]) * Pow(2, n) < Pow(2, 1280)
    modifies p
    ensures Value(p[..]) == old(Value(p[..])) * Pow(2, n)
  {
    hide Value, Pow, Modulus;
    BufferSize();
    Fits(Value(p[..]) * Pow(2, n), Modulus(LIMBS));
    Shl(p, n);
  }

  method MulPow10Exact(p: array<Limb>, n: nat)
    requires p.Length == LIMBS && Value(p[..]) * Pow(10, n) < Pow(2, 1280)
    modifies p
    ensures Value(p[..]) == old(Value(p[..])) * Pow(10, n)
  {
    hide Value, Pow, Modulus;
    BufferSize();
    Fits(Value(p[..]) * Pow(10, n), Modulus(LIMBS));
    MulPow10(p, n);
  }

  /** Every scaled number fits its buffer. */
  lemma Fit(d: Decoded, v: nat)
    requires InRange(d) && v <= d.mant + d.plus
    ensures FactorOf(d.exp, EstimatedK(d)) * v < Pow(2, 1280) && ScaleOf(d.exp, EstimatedK(d)) < Pow(2, 1280)
    ensures FactorOf(d.exp, EstimatedK(d)) * v < 10 * ScaleOf(d.exp, EstimatedK(d))
    ensures 128 * ScaleOf(d.exp, EstimatedK(d)) < Pow(2, 1280)
    ensures d.exp >= 0 ==> v * Pow(2, d.exp) < Pow(2, 1280)
  {
    hide Pow, EstimatedK, ScaleOf;
    var k := EstimatedK(d);
    UpperBelowTenScales(d);
    ScaleBound(d);
    RoomAbove();
    MulMonotone(FactorOf(d.exp, k), FactorOf(d.exp, k), v, d.mant + d.plus);
    if d.exp >= 0 {
      PowPositive(10, if k < 0 then -k else 0);
      MulGrows(Pow(2, d.exp), if k < 0 then Pow(10, -k) else 1);
      MulMonotone(Pow(2, d.exp), FactorOf(d.exp, k), v, v);
    }
  }

  lemma RoomAbove()
    ensures 256 * Pow(2, 1077) < Pow(2, 1280)
  {
    hide Pow;
    PowAdd(2, 8, 1077);
    PowStrict(2, 1085, 1280);
    TwoPow8();
  }

  lemma TwoPow8()
    ensures Pow(2, 8) == 256
  {
  }

  /** One of the value and its two margins through both scaling steps. */
  method SpreadBuffer(p: array<Limb>, d: Decoded, v: nat)
    requires p.Length == LIMBS && InRange(d) && v <= d.mant + d.plus
    requires Value(p[..]) == v
    modifies p
    ensures Value(p[..]) == FactorOf(d.exp, EstimatedK(d)) * v
  {
    hide Value, Pow, EstimatedK, FactorOf, ScaleOf;
    var k := EstimatedK(d);
    Fit(d, v);
    SpreadProduct(d.exp, k, v);
    if d.exp >= 0 {
      ShlExact(p, d.exp);
    }
    if k < 0 {
      MulPow10Exact(p, -k);
    }
  }

  lemma SpreadProduct(exp: int, k: int, v: nat)
    ensures var two := if exp >= 0 then v * Pow(2, exp) else v;
            FactorOf(exp, k) * v == if k < 0 then two * Pow(10, -k) else two
  {
    hide Pow;
    if exp >= 0 && k < 0 { MulAssociative(v, Pow(2, exp), Pow(10, -k)); }
  }

  method ScaleBuffer(p: array<Limb>, d: Decoded)
    requires p.Length == LIMBS && InRange(d) && Value(p[..]) == 1
    modifies p
    ensures Value(p[..]) == ScaleOf(d.exp, EstimatedK(d))
  {
    hide Value, Pow, EstimatedK;
    var k := EstimatedK(d);
    Fit(d, 0);
    if d.exp < 0 {
      PowMonotone(2, -d.exp, 1077);
      RoomAbove();
      ShlExact(p, -d.exp);
    }
    if k >= 0 {
      MulPow10Exact(p, k);
    }
  }

  /** The four numbers in their buffers, scaled by the estimate. */
  method Load(frame: Frame, d: Decoded)
    requires frame.Valid() && InRange(d)
    requires forall i :: 0 <= i < LIMBS ==> frame.mant[i] == frame.minus[i] == frame.plus[i] == frame.scale[i] == 0
    modifies frame.mant, frame.minus, frame.plus, frame.scale
    ensures var k := EstimatedK(d); var x := FactorOf(d.exp, k);
            frame.Holds(Times(x, d.mant), x, Times(x, d.plus)) && Value(frame.scale[..]) == ScaleOf(d.exp, k)
  {
    hide Value, EstimatedK, ScaleOf, FactorOf;
    StoreLow(frame.mant, d.mant);
    StoreLow(frame.plus, d.plus);
    StoreLow(frame.minus, 1);
    StoreLow(frame.scale, 1);
    SpreadBuffer(frame.mant, d, d.mant);
    SpreadBuffer(frame.minus, d, 1);
    SpreadBuffer(frame.plus, d, d.plus);
    ScaleBuffer(frame.scale, d);
  }

  /** The estimate may be one too small: either k grows or the value moves one place. */
  method Fixup(frame: Frame, d: Decoded) returns (k: int)
    requires frame.Valid() && InRange(d)
    requires var e := EstimatedK(d); var x := FactorOf(d.exp, e);
             frame.Holds(Times(x, d.mant), x, Times(x, d.plus)) && Value(frame.scale[..]) == ScaleOf(d.exp, e)
    modifies frame.mant, frame.minus, frame.plus, frame.sum
    ensures frame.Holds(FixedOf(d).mant, FixedOf(d).minus, FixedOf(d).plus)
    ensures Value(frame.scale[..]) == FixedOf(d).scale
    ensures k == FinalK(d)
  {
    hide Value, Pow, Modulus, EstimatedK, ScaleOf, FactorOf;
    k := EstimatedK(d);
    ghost var x := FactorOf(d.exp, k);
    FixupRoom(d);
    var reached := frame.UpperReaches(d.inclusive);
    if reached {
      k := k + 1;
    } else {
      frame.TimesTen(frame.mant);
      frame.TimesTen(frame.minus);
      frame.TimesTen(frame.plus);
      MulAssociative(10, x, d.mant);
      MulAssociative(10, x, d.plus);
    }
  }

  lemma FixupRoom(d: Decoded)
    requires InRange(d)
    ensures var x := FactorOf(d.exp, EstimatedK(d));
            x * d.mant + x * d.plus < Modulus(LIMBS)
            && 10 * (x * d.mant) < Modulus(LIMBS) && 10 * x < Modulus(LIMBS) && 10 * (x * d.plus) < Modulus(LIMBS)
  {
    hide Pow, Modulus, EstimatedK, ScaleOf, FactorOf;
    var x := FactorOf(d.exp, EstimatedK(d));
    BufferSize();
    Fit(d, d.mant + d.plus);
    Fit(d, d.mant);
    Fit(d, d.plus);
    Fit(d, 1);
    FixedShape(d.mant, d.plus, x, x);
  }

  /** Scaling, estimate and fixup: the frame then holds what the digit loop needs. */
  method Scale(frame: Frame, d: Decoded) returns (k: int)
    requires frame.Valid() && InRange(d)
    requires forall i :: 0 <= i < LIMBS ==> frame.mant[i] == frame.minus[i] == frame.plus[i] == frame.scale[i] == 0
    modifies frame.mant, frame.minus, frame.plus, frame.scale, frame.scale2, frame.scale4, frame.scale8, frame.sum
    ensures frame.Holds(FixedOf(d).mant, FixedOf(d).minus, FixedOf(d).plus) && frame.Scales(FixedOf(d).scale)
    ensures k == FinalK(d)
  {
    hide Value, Pow, Modulus, EstimatedK, ScaleOf, FactorOf, FixedOf, FinalK;
    Load(frame, d);
    k := Fixup(frame, d);
    FixedValid(d);
    RoomAbove();
    BufferSize();
    frame.PrepareScales();
  }

  lemma DecodedExponent(c: nat)
    requires 0 < c < INFINITY
    ensures -1073 <= UpperExponent(Decode(c)) <= 1024
  {
    hide Pow;
    var d := Decode(c);
    var x := d.mant + d.plus - 1;
    DecodedInRange(c);
    UpperExponentRange(d);
    TwoPow55();
    assert Pow(2, 55) == 2 * Pow(2, 54) by { PowAdd(2, 1, 54); TwoOnce(); }
    if d.plus == 1 {
      BitLengthAtMost(x, 54);
    } else {
      PowCancel(2, 54, UpperExponent(d) - d.exp);
    }
  }

  lemma TwoOnce()
    ensures Pow(2, 1) == 2
  {
  }

  /** The shortest digits of a finite nonzero double, in the frame's digit buffer. */
  method Shortest(frame: Frame, c: nat) returns (n: nat, k: int)
    requires frame.Valid() && 0 < c < INFINITY
    requires forall i :: 0 <= i < LIMBS ==> frame.mant[i] == frame.minus[i] == frame.plus[i] == frame.scale[i] == 0
    modifies frame.mant, frame.minus, frame.plus, frame.scale, frame.scale2, frame.scale4, frame.scale8, frame.sum
    modifies frame.digits
    ensures 1 <= n <= MAX_DIGITS && -323 <= k <= 309
    ensures AllDigits(frame.digits[..n]) && Printed(c, Numeral(frame.digits[..n]), n, k)
    ensures Pow(10, n - 1) <= Numeral(frame.digits[..n]) && Numeral(frame.digits[..n]) % 10 != 0
  {
    hide Value, Pow, Modulus, FixedOf, FinalK, Taken, Numeral, NoShorter, Nearest, Inside;
    var d := Decode(c);
    DecodedInRange(c);
    k := Scale(frame, d);
    ghost var f := FixedOf(d);
    FixedValid(d);
    FixedParts(d);
    LoopRoom(f);
    var down, up;
    ghost var prefix;
    n, down, up, prefix := frame.Generate(f, d.inclusive);
    ghost var rest := Value(frame.mant[..]);
    ghost var chosen := Chosen(f, prefix, rest, down, up);
    TakenBelow(f, n, prefix, rest, Value(frame.minus[..]), Value(frame.plus[..]));
    Stop(f, n, prefix, rest, Value(frame.minus[..]), Value(frame.plus[..]), down, up);
    ExactDigits(f, n, chosen);
    DecodedExponent(c);
    FinalKRange(d);
    if up {
      var half := true;
      if down {
        half := AtLeastHalf(frame);
      }
      if half {
        n, k := RoundUp(frame.digits, n, k);
      }
    }
  }

  lemma TakenBelow(f: Fixed, n: nat, prefix: nat, mant: nat, minus: nat, plus: nat)
    requires Taken(f, n, prefix, mant, minus, plus)
    ensures mant < f.scale
  {
  }

  lemma LoopRoom(f: Fixed)
    requires f.scale <= Pow(2, 1077) && f.scale < 10_000_000_000_000_000 * (f.minus + f.plus)
    ensures 128 * f.scale < Modulus(LIMBS) && f.scale < Pow(10, 16) * (f.minus + f.plus)
  {
    hide Pow, Modulus;
    RoomAbove();
    BufferSize();
    assert Pow(10, 16) == 10_000_000_000_000_000 by { TenPow9(); TenPow7(); PowAdd(10, 7, 9); }
  }

  lemma TenPow7()
    ensures Pow(10, 7) == 10_000_000
  {
    assert Pow(10, 4) == 10_000;
    PowAdd(10, 4, 3);
  }

  /** The remainder, doubled in place, against one unit of the last place. */
  method AtLeastHalf(frame: Frame) returns (half: bool)
    requires frame.Valid() && 2 * Value(frame.mant[..]) < Modulus(LIMBS)
    modifies frame.mant
    ensures half == (2 * old(Value(frame.mant[..])) >= Value(frame.scale[..]))
  {
    hide Value, Modulus, Pow;
    ShiftOnce(Value(frame.mant[..]), Modulus(LIMBS));
    Shl(frame.mant, 1);
    var sign := Cmp(frame.mant, frame.scale);
    half := sign >= 0;
  }

  // ---- integral values below 1e15 ----

  /** The integer a pattern denotes, when it denotes one below 1e15. */
  function SmallWhole(c: nat): Option<nat> {
    var s, e := Significand(c), Exponent(c);
    if e >= 0 then None
    else
      PowPositive(2, -e);
      if s % Pow(2, -e) == 0 && s / Pow(2, -e) < 1_000_000_000_000_000 then Some(s / Pow(2, -e)) else None
  }

  lemma SmallWholeExact(c: nat, v: nat)
    ensures SmallWhole(c) == Some(v) <==> v < 1_000_000_000_000_000 && Magnitude(c) == v as real
  {
    hide SmallWhole, Magnitude, Significand;
    if Exponent(c) >= 0 {
      NoneLarge(c);
    } else {
      hide Exponent;
      SomeBelow(c, v);
    }
  }

  lemma NoneLarge(c: nat)
    requires Exponent(c) >= 0
    ensures SmallWhole(c) == None && Magnitude(c) >= FRACTION as real
  {
    hide Pow, RPow;
    LargeWhole(Significand(c), Exponent(c));
  }

  lemma SomeBelow(c: nat, v: nat)
    requires Exponent(c) < 0
    ensures SmallWhole(c) == Some(v) <==> v < 1_000_000_000_000_000 && Magnitude(c) == v as real
  {
    hide Pow, RPow, Significand, Exponent;
    var s, p := Significand(c), Pow(2, -Exponent(c));
    RPowInverse(2, -Exponent(c));
    assert Magnitude(c) == s as real * (1.0 / (p as real));
    assert SmallWhole(c) == if s % p == 0 && s / p < 1_000_000_000_000_000 then Some(s / p) else None;
    hide Magnitude, SmallWhole;
    QuotientExact(s, p, v);
  }

  lemma QuotientExact(s: nat, p: nat, v: nat)
    requires p > 0
    ensures s % p == 0 && s / p == v <==> s as real * (1.0 / (p as real)) == v as real
  {
    if s % p == 0 && s / p == v {
      assert s == v * p;
      ExactQuotient(s, p, v);
    }
    if s as real * (1.0 / (p as real)) == v as real {
      WholeQuotient(s, p, v);
    }
  }

  lemma LargeWhole(s: nat, e: int)
    requires e >= 0 && s >= FRACTION
    ensures s as real * RPow(2, e) >= FRACTION as real
  {
    PowPositive(2, e);
    MulMonotone(FRACTION, s, 1, Pow(2, e));
  }

  lemma WholeQuotient(s: nat, p: nat, v: nat)
    requires p > 0 && s as real * (1.0 / (p as real)) == v as real
    ensures s % p == 0 && s / p == v
  {
    assert s as real == v as real * p as real;
    assert (v * p) as real == v as real * p as real;
    ModOf(s, v, p, 0);
  }

  lemma ExactQuotient(s: nat, p: nat, v: nat)
    requires p > 0 && s == v * p
    ensures s as real * (1.0 / (p as real)) == v as real
  {
    assert s as real == v as real * p as real;
  }

  lemma ExactRounds(c: nat)
    requires c < INFINITY
    ensures RoundsTo(Magnitude(c), c)
  {
    hide Magnitude;
    forall w: nat | w <= INFINITY && w != c
      ensures Apart(Magnitude(c), Magnitude(c)) < Apart(Magnitude(c), Magnitude(w))
    {
      if w < c { MagnitudeStrict(w, c); } else { MagnitudeStrict(c, w); }
    }
  }

  // ---- a reader of signed text ----

  ghost predicate HasMinus(s: seq<char>) {
    s != [] && s[0] == '-'
  }

  ghost function Unsigned(s: seq<char>): seq<char> {
    if HasMinus(s) then s[1..] else s
  }

  ghost function ReadSigned(s: seq<char>): real
    requires IsDecimal(Unsigned(s))
  {
    if HasMinus(s) then -Read(s[1..]) else Read(s)
  }

  /** The value of a pattern with its sign; both zeros have the value zero. */
  ghost function Double(bits: nat): real {
    if bits >= SIGN_BIT then -Magnitude(bits - SIGN_BIT) else Magnitude(bits)
  }

  /** The real q has the pattern's sign and is nearer to its value than to any
      other value of a pattern, infinities as in `RoundsTo`; ties go to the even one. */
  ghost predicate RoundsToDouble(q: real, bits: nat) {
    && bits < 2 * SIGN_BIT && bits % SIGN_BIT < INFINITY
    && (bits >= SIGN_BIT <==> q < 0.0)
    && forall w: nat :: w < 2 * SIGN_BIT && w % SIGN_BIT <= INFINITY && Double(w) != Double(bits) ==>
         Apart(q, Double(bits)) < Apart(q, Double(w))
         || (Apart(q, Double(bits)) == Apart(q, Double(w)) && bits % 2 == 0)
  }

  lemma RoundsPositive(q: real, c: nat)
    requires RoundsTo(q, c) && c > 0
    ensures q > 0.0
  {
    hide Magnitude;
    ZeroMagnitude();
    MagnitudeStrict(0, c);
    assert 0 <= INFINITY && 0 != c;
    assert Apart(q, Magnitude(c)) <= Apart(q, Magnitude(0));
  }

  /** No value of the other sign is nearer than the value of the same magnitude. */
  lemma OtherSign(q: real, x: real, y: real)
    requires q >= 0.0 && x >= 0.0 && y >= 0.0
    ensures Apart(-q, -x) == Apart(q, x)
    ensures Apart(q, -y) >= Apart(q, y) && Apart(-q, y) >= Apart(q, y)
    ensures q > 0.0 && x > 0.0 ==> Apart(q, -x) > Apart(q, x) && Apart(-q, x) > Apart(q, x)
  {
  }

  lemma SignedNearest(q: real, c: nat, negative: bool)
    requires RoundsTo(q, c) && (q > 0.0 || (q == 0.0 && !negative))
    ensures RoundsToDouble(if negative then -q else q, if negative then c + SIGN_BIT else c)
  {
    hide Magnitude, Apart;
    var bits, r := if negative then c + SIGN_BIT else c, if negative then -q else q;
    ZeroMagnitude();
    MagnitudeMonotone(0, c);
    forall w: nat | w < 2 * SIGN_BIT && w % SIGN_BIT <= INFINITY && Double(w) != Double(bits)
      ensures Apart(r, Double(bits)) < Apart(r, Double(w))
           || (Apart(r, Double(bits)) == Apart(r, Double(w)) && bits % 2 == 0)
    {
      var m := w % SIGN_BIT;
      MagnitudeMonotone(0, m);
      OtherSign(q, Magnitude(m), Magnitude(m));
      OtherSign(q, Magnitude(c), Magnitude(c));
      if m == c && c > 0 { ApartZero(q, c); }
    }
  }

  lemma ApartZero(q: real, c: nat)
    requires RoundsTo(q, c) && c > 0
    ensures q > 0.0 && Magnitude(c) > 0.0
  {
    hide Magnitude;
    RoundsPositive(q, c);
    ZeroMagnitude();
    MagnitudeStrict(0, c);
  }

  // ---- the whole text ----

  /** The text of a finite pattern without its sign: an integer below 1e15 digit by
      digit, otherwise the shortest decimal that reads back as the pattern. */
  ghost predicate IsMagnitudeText(c: nat, u: seq<char>) {
    && c < INFINITY
    && IsDecimal(u) && NoIdleZeros(u) && RoundsTo(Read(u), c)
    && match SmallWhole(c)
       case Some(v) => AllDigits(u) && Numeral(u) == v
       case None =>
         c > 0 && exists digits: seq<char>, k: int ::
           u == Positional(digits, k) && AllDigits(digits) && Printed(c, Numeral(digits), |digits|, k)
  }

  /** The text of a finite pattern: a minus sign in front for a negative value, and
      `-0.0` is no negative value. */
  ghost predicate IsFiniteText(c: nat, negative: bool, text: seq<char>) {
    && (HasMinus(text) <==> negative && c > 0)
    && IsMagnitudeText(c, Unsigned(text))
  }

  /** The text of a bit pattern. */
  ghost predicate IsText(bits: nat, text: seq<char>) {
    var c, negative := bits % SIGN_BIT, bits >= SIGN_BIT;
    if c > INFINITY then text == "nan"
    else if c == INFINITY then text == (if negative then "-inf" else "inf")
    else IsFiniteText(c, negative, text)
  }

  /** Reading the text, sign included, gives the double back; `-0.0` comes back as `0.0`. */
  lemma TextReadsBack(bits: nat, text: seq<char>)
    requires bits < 2 * SIGN_BIT && bits % SIGN_BIT < INFINITY && IsText(bits, text)
    ensures IsDecimal(Unsigned(text))
    ensures text[0] == '-' <==> bits >= SIGN_BIT && bits % SIGN_BIT > 0
    ensures RoundsToDouble(ReadSigned(text), if bits % SIGN_BIT == 0 then 0 else bits)
  {
    hide Magnitude, RoundsTo, RoundsToDouble, SmallWhole, Read, IsDecimal, Printed, Positional, Numeral, NoIdleZeros;
    var c, u := bits % SIGN_BIT, Unsigned(text);
    if c == 0 {
      ZeroMagnitude();
      SmallWholeExact(0, 0);
      NotEmpty(u);
      ReadWhole(u);
    } else {
      NotEmpty(u);
      RoundsPositive(Read(u), c);
    }
    SignedNearest(Read(u), c, HasMinus(text));
  }

  lemma NotEmpty(u: seq<char>)
    requires IsDecimal(u)
    ensures u != [] && u[0] != '-'
  {
    assert u[0] == u[..Point(u)][0];
  }

  lemma IntegerText(c: nat, v: nat, u: seq<char>)
    requires c < INFINITY && SmallWhole(c) == Some(v) && AllDigits(u) && |u| == DigitCount(v) && Numeral(u) == v
    ensures IsMagnitudeText(c, u)
  {
    hide Numeral, Magnitude, RoundsTo, SmallWhole;
    SmallWholeExact(c, v);
    ExactRounds(c);
    ReadWhole(u);
    WholePlain(u);
  }

  lemma DecimalMagnitudeText(c: nat, digits: seq<char>, k: int)
    requires 0 < c < INFINITY && SmallWhole(c).None? && digits != [] && AllDigits(digits)
    requires Printed(c, Numeral(digits), |digits|, k)
    requires Pow(10, |digits| - 1) <= Numeral(digits) && Numeral(digits) % 10 != 0
    ensures IsMagnitudeText(c, Positional(digits, k))
  {
    hide Numeral, Printed, RoundsTo, SmallWhole, Positional, Read, IsDecimal, Decimal, NoIdleZeros, Pow;
    PositionalReads(digits, k);
    EndDigits(digits);
    PositionalPlain(digits, k);
    ReadsBack(c, Numeral(digits), |digits|, k);
  }

  lemma FiniteText(c: nat, negative: bool, text: seq<char>, sign: seq<char>, u: seq<char>)
    requires sign == (if negative && c > 0 then "-" else "") && text == sign + u && IsMagnitudeText(c, u)
    ensures IsFiniteText(c, negative, text)
  {
    hide RoundsTo, SmallWhole, Read, IsDecimal, Printed, Positional, Numeral, NoIdleZeros;
    NotEmpty(u);
    assert Unsigned(text) == u;
  }

  /** The integral branch: a sign unless the value is zero, then the digits. */
  method PutWhole(out: array<char>, c: nat, negative: bool, v: nat) returns (len: nat)
    requires c < INFINITY && SmallWhole(c) == Some(v) && out.Length > MAX_TEXT
    modifies out
    ensures len < MAX_TEXT && out[len + 1..] == old(out[len + 1..])
    ensures IsFiniteText(c, negative, out[..len])
  {
    hide IsMagnitudeText, IsFiniteText, Numeral, SmallWhole, AllDigits, Magnitude, DigitCount, Pow;
    SmallWholeExact(c, v);
    ZeroPattern(c, v);
    DigitCountBound(v, 15) by { TenPow15(); }
    ghost var cell := out[..];
    len := 0;
    if negative && v != 0 {
      len := Put(out, len, "-");
    }
    ghost var sign := if negative && c > 0 then "-" else "";
    SignWritten(cell, sign);
    ghost var signed := out[..];
    assert len == |sign| && signed == Written(cell, 0, sign);
    hide Written;
    len := PutInteger(out, len, v);
    IntegerText(c, v, out[|sign|..len]);
    assert out[..|sign|] == signed[..|sign|] && out[len..] == signed[len..];
    FiniteText(c, negative, out[..len], sign, out[|sign|..len]);
    Behind(cell, signed, out[..], |sign|, len);
    assert out[..][len + 1..] == out[len + 1..] && cell[len + 1..] == old(out[len + 1..]);
  }

  lemma Behind(cell: seq<char>, signed: seq<char>, now: seq<char>, s: nat, e: nat)
    requires s <= e < |cell| == |signed| == |now|
    requires signed[s..] == cell[s..] && now[e..] == signed[e..]
    ensures now[e + 1..] == cell[e + 1..]
  {
    assert now[e + 1..] == now[e..][1..] && cell[e + 1..] == cell[s..][e + 1 - s..];
    assert signed[e..] == signed[s..][e - s..];
  }

  lemma TenPow15()
    ensures Pow(10, 15) == 1_000_000_000_000_000
  {
    assert Pow(10, 5) == 100_000;
    PowAdd(10, 5, 5);
    PowAdd(10, 10, 5);
  }

  lemma ZeroPattern(c: nat, v: nat)
    requires Magnitude(c) == v as real
    ensures c > 0 <==> v > 0
  {
    hide Magnitude;
    ZeroMagnitude();
    if c > 0 { MagnitudeStrict(0, c); }
  }

  lemma ZeroMagnitude()
    ensures Magnitude(0) == 0.0
  {
  }

  /** The shortest-digits branch, on a frame of its own. */
  method PutShortest(out: array<char>, c: nat, negative: bool) returns (len: nat)
    requires 0 < c < INFINITY && SmallWhole(c).None? && out.Length > MAX_TEXT
    modifies out
    ensures len < MAX_TEXT && out[len + 1..] == old(out[len + 1..])
    ensures IsFiniteText(c, negative, out[..len])
  {
    hide IsMagnitudeText, IsFiniteText, Numeral, SmallWhole, Printed, Positional, Pow;
    var frame := new Frame();
    ghost var cell := out[..];
    len := 0;
    if negative {
      len := Put(out, len, "-");
    }
    ghost var sign := if negative then "-" else "";
    SignWritten(cell, sign);
    assert len == |sign| && out[..] == Written(cell, 0, sign);
    hide Written;
    var n, k := Shortest(frame, c);
    ghost var digits := frame.digits[..n];
    PositionalLength(digits, k);
    DecimalMagnitudeText(c, digits, k);
    len := PutPositional(out, len, frame.digits, n, k);
    ghost var text := Positional(digits, k);
    WrittenAfter(cell, sign, text);
    assert out[..len] == sign + text;
    FiniteText(c, negative, out[..len], sign, text);
    assert out[..][len + 1..] == out[len + 1..] && cell[len + 1..] == old(out[len + 1..]);
  }

  lemma SignWritten(cell: seq<char>, sign: seq<char>)
    requires |sign| <= |cell|
    ensures sign == "" ==> Written(cell, 0, sign) == cell
    ensures Written(cell, 0, sign)[..|sign|] == sign && Written(cell, 0, sign)[|sign|..] == cell[|sign|..]
  {
  }

  /** The emitted `(value: f64, out: i32) -> i32`: writes the text and a NUL after
      it and returns the text's length; nothing behind the NUL changes. */
  method Text(bits: nat, out: array<char>) returns (len: nat)
    requires bits < 2 * SIGN_BIT && out.Length > MAX_TEXT
    modifies out
    ensures len < MAX_TEXT && out[len] == 0 as char
    ensures IsText(bits, out[..len])
    ensures out[len + 1..] == old(out[len + 1..])
  {
    hide IsFiniteText, SmallWhole;
    var c, negative := bits % SIGN_BIT, bits >= SIGN_BIT;
    if c > INFINITY {
      len := Put(out, 0, "nan");
    } else if c == INFINITY {
      len := Put(out, 0, if negative then "-inf" else "inf");
    } else {
      match SmallWhole(c) {
      case Some(v) =>
        len := PutWhole(out, c, negative, v);
      case None =>
        assert c > 0 by { SmallWholeExact(c, 0); ZeroMagnitude(); }
        len := PutShortest(out, c, negative);
      }
    }
    ghost var text := out[..len];
    assert IsText(bits, text);
    out[len] := 0 as char;
    assert out[..len] == text;
  }
}
