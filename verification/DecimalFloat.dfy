/** Conversion of a binary64 number, given by its 64 bits, to a decimal. */
module DecimalFloat {
  import opened IntMath
  import opened DecimalModel
  import opened DecimalLaws
  import opened DecimalRounding

  const TWO52 := 0x10_0000_0000_0000
  const TWO63 := 0x8000_0000_0000_0000
  const TWO64 := 0x1_0000_0000_0000_0000

  // ----- powers of a real base ---------------------------------------------

  function ZPow(b: real, e: int): real
    requires b != 0.0
    decreases Abs(e)
  {
    if e == 0 then 1.0
    else if e > 0 then b * ZPow(b, e - 1)
    else ZPow(b, e + 1) / b
  }

  lemma {:induction false} ZPowPositive(b: real, e: int)
    requires b > 0.0
    ensures ZPow(b, e) > 0.0
    decreases Abs(e)
  {
    if e > 0 {
      ZPowPositive(b, e - 1);
    } else if e < 0 {
      ZPowPositive(b, e + 1);
    }
  }

  lemma ZPowSucc(b: real, e: int)
    requires b > 0.0
    ensures ZPow(b, e + 1) == b * ZPow(b, e)
  {
  }

  lemma {:induction false} ZPowAddNat(b: int, e: int, n: nat)
    requires b > 0
    ensures ZPow(b as real, e + n) == ZPow(b as real, e) * Pow(b, n) as real
  {
    hide Pow, ZPow;
    ZeroPowers(b);
    if n > 0 {
      ZPowAddNat(b, e, n - 1);
      ZPowSucc(b as real, e + n - 1);
      PowSucc(b, n - 1);
      RealProduct(b, Pow(b, n - 1));
      RShift(b as real, ZPow(b as real, e), Pow(b, n - 1) as real);
    }
  }

  lemma ZeroPowers(b: int)
    requires b != 0
    ensures Pow(b, 0) == 1 && ZPow(b as real, 0) == 1.0
  {
  }

  lemma {:induction false} TenIsFiveTimesTwo(e: int)
    ensures TenPow(e) == ZPow(5.0, e) * ZPow(2.0, e)
    decreases Abs(e)
  {
    if e > 0 {
      TenIsFiveTimesTwo(e - 1);
      RExchange(5.0, 2.0, ZPow(5.0, e - 1), ZPow(2.0, e - 1));
    } else if e < 0 {
      TenIsFiveTimesTwo(e + 1);
      ZPowSucc(5.0, e);
      ZPowSucc(2.0, e);
      RExchange(5.0, 2.0, ZPow(5.0, e), ZPow(2.0, e));
    }
  }

  // ----- binary64 ----------------------------------------------------------

  function Fraction(bits: nat): nat {
    bits % TWO52
  }

  function BiasedExponent(bits: nat): nat {
    bits / TWO52 % 2048
  }

  function SignBit(bits: nat): nat {
    bits / TWO63
  }

  predicate IsFinite(bits: nat) {
    bits < TWO64 && BiasedExponent(bits) != 2047
  }

  /** The number a finite binary64 datum represents (IEEE 754-2008, section 3.4). */
  function FloatVal(bits: nat): real {
    var magnitude :=
      if BiasedExponent(bits) == 0 then Fraction(bits) as real * ZPow(2.0, -1074)
      else (TWO52 + Fraction(bits)) as real * ZPow(2.0, BiasedExponent(bits) - 1075);
    if SignBit(bits) == 1 then -magnitude else magnitude
  }

  /** y is the multiple of 10^exp nearest to x, ties away from zero. */
  ghost predicate NearestAt(x: real, y: real, exp: int) {
    exists n: int :: y == n as real * TenPow(exp) && IsNearestAway(x, n, TenPow(exp))
  }

  /** The ratio mant * 2^e2 / 10^exp, with every power of five and two on its own side. */
  function Numerator(mant: nat, e2: int, exp: int): int {
    mant * (if exp < 0 then Pow(5, -exp) else 1) * (if e2 - exp > 0 then Pow(2, e2 - exp) else 1)
  }

  function Denominator(e2: int, exp: int): int {
    (if exp > 0 then Pow(5, exp) else 1) * (if e2 - exp < 0 then Pow(2, exp - e2) else 1)
  }

  lemma DenominatorPositive(e2: int, exp: int)
    ensures Denominator(e2, exp) >= 1
  {
    PowPositive(5, Abs(exp));
    PowPositive(2, Abs(exp - e2));
  }

  /** The exponent of two once the mantissa m >= 1 is odd. */
  function OddExponent(m: nat, e: int): int
    decreases m
  {
    if m >= 1 && m % 2 == 0 then OddExponent(m / 2, e + 1) else e
  }

  /** Taking the decimal exponent from the binary one stays within int32, and so does negating
      the difference, which is how far the program shifts when it is negative. */
  predicate ExponentFits(bits: nat, exponent: int32) {
    var mant := Fraction(bits) + if BiasedExponent(bits) == 0 then 0 else TWO52;
    var e := (if BiasedExponent(bits) == 0 then 1 else BiasedExponent(bits)) - 1075;
    mant == 0 || exponent - OddExponent(mant, e) <= MAX_INT32
  }

  lemma {:induction false} OddIsAbove(m: nat, e: int)
    ensures OddExponent(m, e) >= e
    decreases m
  {
    if m >= 1 && m % 2 == 0 {
      OddIsAbove(m / 2, e + 1);
    }
  }

  lemma FitsMeans(bits: nat, exponent: int32, mant: nat, e: int)
    requires ExponentFits(bits, exponent) && mant >= 1
    requires mant == Fraction(bits) + if BiasedExponent(bits) == 0 then 0 else TWO52
    requires e == (if BiasedExponent(bits) == 0 then 1 else BiasedExponent(bits)) - 1075
    ensures exponent - OddExponent(mant, e) <= MAX_INT32
  {
    hide OddExponent;
  }

  lemma OddStops(m: nat, e: int)
    requires m % 2 == 1
    ensures OddExponent(m, e) == e
  {
  }

  /** It always does for exponents that a decimal shift by 1074 keeps in range. */
  lemma SmallExponentsFit(bits: nat, exponent: int32)
    requires IsFinite(bits) && exponent <= MAX_INT32 - 1074
    ensures ExponentFits(bits, exponent)
  {
    OddIsAbove(Fraction(bits) + if BiasedExponent(bits) == 0 then 0 else TWO52,
               (if BiasedExponent(bits) == 0 then 1 else BiasedExponent(bits)) - 1075);
  }

  /** One more is too much: for 0.5 and the largest exponent the difference is -2^31, which int32
      negation leaves as it is. */
  lemma NegationWraps()
    ensures IsFinite(0x3FE0_0000_0000_0000) && !ExponentFits(0x3FE0_0000_0000_0000, MAX_INT32)
    ensures FloatVal(0x3FE0_0000_0000_0000) == 0.5
    ensures Wrap32(-1 - MAX_INT32) == Wrap32(-(-1 - MAX_INT32)) == MIN_INT32
  {
    hide ZPow, Pow, OddExponent;
    var bits := 0x3FE0_0000_0000_0000;
    assert Fraction(bits) == 0 && BiasedExponent(bits) == 1022 && SignBit(bits) == 0;
    TwoPower53();
    PowSucc(2, 52);
    PowerIsOdd(52, -53);
    ZPowAddNat(2, -53, 52);
    OneHalf();
  }

  lemma {:induction false} PowerIsOdd(k: nat, e: int)
    ensures Pow(2, k) >= 1 && OddExponent(Pow(2, k), e) == e + k
    decreases k
  {
    PowPositive(2, k);
    if k > 0 {
      PowerIsOdd(k - 1, e + 1);
    }
  }

  lemma OneHalf()
    ensures ZPow(2.0, -1) == 0.5
  {
  }

  /** The nearest multiple of 10^exp, ties away from zero; where the requested exponent is
      below what the datum needs, the result is exact. */
  method NewFromFloatWithExponent(bits: nat, exponent: int32) returns (d: Decimal)
    requires IsFinite(bits) && ExponentFits(bits, exponent)
    ensures NearestAt(FloatVal(bits), Val(d), exponent)
    ensures d.exp == exponent || Val(d) == FloatVal(bits)
    ensures exponent < -1074 ==> Val(d) == FloatVal(bits)
  {
    hide Pow, ZPow, TenPow, Val, NearestAt, Quo, FloatVal, OddExponent, ExponentFits;
    var mant, exp2: int, sign, exp: int := Fraction(bits), BiasedExponent(bits), SignBit(bits), exponent;
    if exp2 == 0 {
      if mant == 0 {
        ZeroNearest(bits, exponent);
        return Decimal(0, 0);
      }
      exp2 := exp2 + 1;
    } else {
      mant := mant + TWO52;
    }
    exp2 := exp2 - (1023 + 52);
    ghost var magnitude := mant as real * ZPow(2.0, exp2);
    Magnitude(bits, mant, exp2);
    ghost var steps: nat := 0;
    ghost var odd := OddExponent(mant, exp2);
    FitsMeans(bits, exponent, mant, exp2);
    TwoPower53();
    while mant % 2 == 0
      invariant 1 <= mant && steps <= 52 && mant < Pow(2, 53 - steps)
      invariant -1074 <= exp2 <= 971 + steps
      invariant magnitude == mant as real * ZPow(2.0, exp2)
      invariant OddExponent(mant, exp2) == odd
      decreases mant
    {
      HalveMantissa(mant, exp2, 53 - steps);
      mant := mant / 2;
      exp2 := exp2 + 1;
      steps := steps + 1;
    }
    OddStops(mant, exp2);
    if exp < 0 && exp < exp2 {
      if exp2 < 0 {
        exp := exp2;
      } else {
        exp := 0;
      }
    }
    ghost var binary := exp2;
    exp2 := exp2 - exp;
    assert FitsInt32(exp2) && FitsInt32(-exp2);
    var temp, dMant := 1, mant;
    if exp > 0 {
      temp := Pow(5, exp);
    } else if exp < 0 {
      dMant := dMant * Pow(5, -exp);
    }
    if exp2 > 0 {
      dMant := dMant * Pow(2, exp2);
    } else if exp2 < 0 {
      temp := temp * Pow(2, -exp2);
    }
    assert dMant == Numerator(mant, binary, exp) && temp == Denominator(binary, exp);
    DenominatorPositive(binary, exp);
    if exp > 0 || exp2 < 0 {
      var halfDown := temp / 2;
      dMant := Quo(dMant + halfDown, temp);
    }
    FloatResult(magnitude, mant, binary, exp, dMant, sign == 1, exponent);
    if sign == 1 {
      dMant := -dMant;
    }
    d := Decimal(dMant, exp);
  }

  lemma Magnitude(bits: nat, mant: nat, exp2: int)
    requires mant == Fraction(bits) + if BiasedExponent(bits) == 0 then 0 else TWO52
    requires exp2 == (if BiasedExponent(bits) == 0 then 1 else BiasedExponent(bits)) - 1075
    ensures FloatVal(bits) ==
            if SignBit(bits) == 1 then -(mant as real * ZPow(2.0, exp2)) else mant as real * ZPow(2.0, exp2)
  {
    hide ZPow;
  }

  lemma ZeroNearest(bits: nat, exponent: int)
    requires BiasedExponent(bits) == 0 && Fraction(bits) == 0
    ensures FloatVal(bits) == 0.0 == Val(Decimal(0, 0))
    ensures NearestAt(FloatVal(bits), Val(Decimal(0, 0)), exponent)
  {
    TenPowPositive(exponent);
    ExactNearest(0.0, 0, TenPow(exponent));
  }

  lemma HalveMantissa(mant: nat, exp2: int, n: nat)
    requires 1 <= mant && mant % 2 == 0 && n >= 1 && mant < Pow(2, n)
    ensures n >= 2 && mant / 2 < Pow(2, n - 1)
    ensures mant as real * ZPow(2.0, exp2) == (mant / 2) as real * ZPow(2.0, exp2 + 1)
    ensures OddExponent(mant, exp2) == OddExponent(mant / 2, exp2 + 1)
  {
    ZPowSucc(2.0, exp2);
  }

  // ----- 10^M * 2^N as 5^M * 2^(M+N) ---------------------------------------

  /** The numerator and denominator the conversion builds. */
  lemma ScaledMantissa(mant: nat, e2: int, exp: int, five: int, two: int, den5: int, den2: int)
    requires five == if exp < 0 then Pow(5, -exp) else 1
    requires den5 == if exp > 0 then Pow(5, exp) else 1
    requires two == if e2 - exp > 0 then Pow(2, e2 - exp) else 1
    requires den2 == if e2 - exp < 0 then Pow(2, exp - e2) else 1
    ensures den5 >= 1 && den2 >= 1 && five >= 1 && two >= 1
    ensures (mant * five * two) as real * TenPow(exp) == mant as real * ZPow(2.0, e2) * (den5 * den2) as real
  {
    hide *;
    FivePart(exp, five, den5);
    TwoPart(e2, exp, two, den2);
    TenIsFiveTimesTwo(exp);
    RealProduct(mant * five, two);
    RealProduct(mant, five);
    RealProduct(den5, den2);
    ScaledProduct(mant as real, five as real, two as real, den5 as real, den2 as real,
                  ZPow(5.0, exp), ZPow(2.0, exp), ZPow(2.0, e2));
  }

  lemma FivePart(exp: int, five: int, den5: int)
    requires five == if exp < 0 then Pow(5, -exp) else 1
    requires den5 == if exp > 0 then Pow(5, exp) else 1
    ensures five >= 1 && den5 >= 1
    ensures five as real * ZPow(5.0, exp) == den5 as real
  {
    hide ZPow, Pow;
    ZPowZero(5.0);
    if exp < 0 {
      PowPositive(5, -exp);
      ZPowAddNat(5, exp, -exp);
    } else if exp > 0 {
      PowPositive(5, exp);
      ZPowAddNat(5, 0, exp);
    }
  }

  lemma TwoPart(e2: int, exp: int, two: int, den2: int)
    requires two == if e2 - exp > 0 then Pow(2, e2 - exp) else 1
    requires den2 == if e2 - exp < 0 then Pow(2, exp - e2) else 1
    ensures two >= 1 && den2 >= 1
    ensures two as real * ZPow(2.0, exp) == ZPow(2.0, e2) * den2 as real
  {
    hide ZPow, Pow;
    if e2 > exp {
      PowPositive(2, e2 - exp);
      ZPowAddNat(2, exp, e2 - exp);
    } else if e2 < exp {
      PowPositive(2, exp - e2);
      ZPowAddNat(2, e2, exp - e2);
    }
  }

  lemma ZPowZero(b: real)
    requires b != 0.0
    ensures ZPow(b, 0) == 1.0
  {
  }

  lemma ScaledProduct(m: real, five: real, two: real, den5: real, den2: real, f: real, t: real, z: real)
    requires five * f == den5 && two * t == z * den2
    ensures (m * five * two) * (f * t) == m * z * (den5 * den2)
  {
    calc {
      (m * five * two) * (f * t);
      { RExchange(m * five, two, f, t); }
      (m * five * f) * (two * t);
      { RFactor(m, five, f, den5); }
      (m * den5) * (z * den2);
      { RExchange(m, den5, z, den2); }
      (m * z) * (den5 * den2);
    }
  }

  /** Adding half the denominator and truncating rounds a non-negative ratio. */
  lemma HalfDownRounds(a: nat, b: int)
    requires b >= 1
    ensures NearestInt(a, b, Quo(a + b / 2, b))
  {
    var s, h := a + b / 2, b / 2;
    assert b == 2 * h || b == 2 * h + 1;
    QuoRemLaw(s, b);
    QuoSign(s, b);
    var q, r := Quo(s, b), Rem(s, b);
    var bq := b * q;
    assert a - bq == r - h;
    assert bq >= 0;
  }

  lemma FloatRounds(magnitude: real, mant: nat, e2: int, exp: int, q: int, exponent: int, y: real)
    requires magnitude == mant as real * ZPow(2.0, e2)
    requires Denominator(e2, exp) >= 1
    requires q == if exp > 0 || e2 - exp < 0
                  then Quo(Numerator(mant, e2, exp) + Denominator(e2, exp) / 2, Denominator(e2, exp))
                  else Numerator(mant, e2, exp)
    requires exp == exponent || (exponent < exp <= 0 && e2 >= exp)
    requires y == q as real * TenPow(exp)
    ensures NearestAt(magnitude, y, exponent)
    ensures exp > exponent ==> y == magnitude
  {
    hide *;
    ScaledRatio(mant, e2, exp);
    if exp > 0 || e2 - exp < 0 {
      HalfDownRounds(Numerator(mant, e2, exp), Denominator(e2, exp));
      RatioNearest(magnitude, Numerator(mant, e2, exp), Denominator(e2, exp), q, exp, y);
    } else {
      CoarserGrid(magnitude, q, exp, exponent, y);
    }
  }

  lemma FloatResult(magnitude: real, mant: nat, e2: int, exp: int32, q: int, negative: bool, exponent: int)
    requires magnitude == mant as real * ZPow(2.0, e2)
    requires Denominator(e2, exp) >= 1
    requires q == if exp > 0 || e2 - exp < 0
                  then Quo(Numerator(mant, e2, exp) + Denominator(e2, exp) / 2, Denominator(e2, exp))
                  else Numerator(mant, e2, exp)
    requires exp == exponent || (exponent < exp <= 0 && e2 >= exp)
    ensures var d := Decimal(if negative then -q else q, exp);
      var x := if negative then -magnitude else magnitude;
      NearestAt(x, Val(d), exponent) && (exp > exponent ==> Val(d) == x)
  {
    hide *;
    ValOf(q, exp);
    ValOf(-q, exp);
    FloatRounds(magnitude, mant, e2, exp, q, exponent, Val(Decimal(q, exp)));
    NegateNearest(magnitude, Val(Decimal(q, exp)), exponent);
    NegateProduct(q, TenPow(exp));
    assert Val(Decimal(-q, exp)) == -Val(Decimal(q, exp));
  }

  lemma ScaledRatio(mant: nat, e2: int, exp: int)
    ensures Numerator(mant, e2, exp) >= 0
    ensures Numerator(mant, e2, exp) as real * TenPow(exp) ==
            mant as real * ZPow(2.0, e2) * Denominator(e2, exp) as real
    ensures exp <= 0 && e2 >= exp ==> Denominator(e2, exp) == 1
  {
    hide Pow, TenPow, ZPow;
    var five, two := if exp < 0 then Pow(5, -exp) else 1, if e2 - exp > 0 then Pow(2, e2 - exp) else 1;
    var den5, den2 := if exp > 0 then Pow(5, exp) else 1, if e2 - exp < 0 then Pow(2, exp - e2) else 1;
    ScaledMantissa(mant, e2, exp, five, two, den5, den2);
    ScaledSigns(mant, five, two, den5, den2);
  }

  lemma ScaledSigns(mant: nat, five: int, two: int, den5: int, den2: int)
    requires five >= 1 && two >= 1 && den5 >= 1 && den2 >= 1
    ensures mant * five * two >= 0 && den5 * den2 >= 1
  {
    assert mant * five >= 0;
  }

  lemma RatioNearest(x: real, num: int, den: int, q: int, exp: int, y: real)
    requires den >= 1 && NearestInt(num, den, q) && num as real * TenPow(exp) == x * den as real
    requires y == q as real * TenPow(exp)
    ensures NearestAt(x, y, exp)
  {
    hide TenPow, NearestInt, IsNearestAway;
    TenPowPositive(exp);
    var p := UnitFraction(x, num as real, den as real, TenPow(exp));
    LiftNearest(num, den, q, p, x, TenPow(exp));
    NearestWitness(x, y, q, exp);
  }

  lemma NearestWitness(x: real, y: real, n: int, exp: int)
    requires y == n as real * TenPow(exp) && IsNearestAway(x, n, TenPow(exp))
    ensures NearestAt(x, y, exp)
  {
  }

  lemma UnitFraction(x: real, num: real, den: real, u: real) returns (p: real)
    requires den > 0.0 && u > 0.0 && num * u == x * den
    ensures p > 0.0 && u == den * p && x == num * p
  {
    p := u / den;
    assert p * den == u;
    RFactor(num, p, den, u);
    RMulOrder(num * p, x, den);
  }

  /** A multiple of 10^exp is a multiple of every smaller power of ten. */
  lemma CoarserGrid(x: real, q: int, exp: int, exponent: int, y: real)
    requires exponent <= exp && y == q as real * TenPow(exp)
    requires x * 1.0 == y
    ensures x == y && NearestAt(x, y, exponent)
  {
    hide TenPow, Ten, IsNearestAway;
    var k := exp - exponent;
    TenPowAddNat(exponent, k);
    TenPowPositive(exponent);
    RealProduct(q, Ten(k));
    RCommute(q as real, TenPow(exponent), Ten(k) as real);
    ExactNearest(x, q * Ten(k), TenPow(exponent));
  }

  lemma NegateNearest(x: real, y: real, exponent: int)
    requires NearestAt(x, y, exponent)
    ensures NearestAt(-x, -y, exponent)
  {
    hide TenPow, IsNearestAway;
    var n: int :| y == n as real * TenPow(exponent) && IsNearestAway(x, n, TenPow(exponent));
    NegateProduct(n, TenPow(exponent));
    NegateAway(x, n, TenPow(exponent));
    NearestWitness(-x, -y, -n, exponent);
  }

  /** NewFromFloat asks for the smallest exponent and is exact. */
  method NewFromFloat(bits: nat) returns (d: Decimal)
    requires IsFinite(bits)
    ensures Val(d) == FloatVal(bits)
  {
    SmallExponentsFit(bits, MIN_INT32);
    d := NewFromFloatWithExponent(bits, MIN_INT32);
  }
}
