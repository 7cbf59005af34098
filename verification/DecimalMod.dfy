/** Mod: its remainder law, and when the remainder keeps the sign of the dividend. */
module DecimalMod {
  import opened IntMath
  import opened DecimalModel
  import opened DecimalLaws
  import opened DecimalRounding

  /** Mod differs from d by an integer multiple of d2 and is smaller than d2, although
      its quotient was rounded before it was truncated. */
  lemma ModContract(d: Decimal, d2: Decimal, divisionPrecision: Places) returns (k: int)
    requires d2.value != 0 && ModFits(d, d2, divisionPrecision) && divisionPrecision >= 0
    ensures Val(Mod(d, d2, divisionPrecision)) == Val(d) - k as real * Val(d2)
    ensures RAbs(Val(Mod(d, d2, divisionPrecision))) < RAbs(Val(d2))
  {
    hide *;
    k := ModShape(d, d2, divisionPrecision);
    ModFitsDiv(d, d2, divisionPrecision);
    var q := DivRound(d, d2, divisionPrecision);
    DecimalParts(q);
    DivRoundNearest(d, d2, divisionPrecision);
    TenPowPositive(-divisionPrecision);
    QuotientParts(Val(d), Val(d2), Val(d), 0.0);
    ModBound(Val(d), Val(d2), Val(d) / Val(d2), q.value, k, Val(q), TenPow(-divisionPrecision),
             Val(Mod(d, d2, divisionPrecision)));
  }

  lemma ModFitsDiv(d: Decimal, d2: Decimal, precision: Places)
    requires ModFits(d, d2, precision)
    ensures DivFits(d, d2, precision)
  {
  }

  /** Mod subtracts k times d2, where k truncates the rounded quotient. */
  lemma ModShape(d: Decimal, d2: Decimal, precision: Places) returns (k: int)
    requires d2.value != 0 && ModFits(d, d2, precision) && precision >= 0
    ensures Val(Mod(d, d2, precision)) == Val(d) - k as real * Val(d2)
    ensures DivFits(d, d2, precision)
    ensures RAbs(Val(DivRound(d, d2, precision)) - k as real) <= 1.0 - TenPow(-precision)
    ensures k == Quo(DivRound(d, d2, precision).value, Ten(precision))
  {
    hide DivRound, QuoRem, Rescale, Add, Sub, Val, Ten, TenPow, Quo;
    DivRoundExp(d, d2, precision);
    var quotient := Div(d, d2, precision);
    var quo := Truncate(quotient, 0);
    k := quo.value;
    TruncatedQuotient(quotient, precision);
    UnitValues(quo);
    SubExact(d, Mul(d2, quo));
    MulExact(d2, quo);
  }

  lemma TruncatedQuotient(q: Decimal, precision: Places)
    requires precision >= 0 && q.exp == -precision
    ensures Truncate(q, 0).exp == 0
    ensures Truncate(q, 0).value == Quo(q.value, Ten(precision))
    ensures RAbs(Val(q) - Truncate(q, 0).value as real) <= 1.0 - TenPow(-precision)
  {
    hide Ten, TenPow, Quo, Rem;
    UnitValues(Decimal(q.value, 0));
    if precision == 0 {
      TenZero(1);
      QuoOne(q.value);
    } else {
      var t, u := Ten(precision), TenPow(-precision);
      UnitTimes(precision);
      TenPositive(precision);
      QuoRemLaw(q.value, t);
      TruncatedAsReal(q.value, t, Quo(q.value, t), Rem(q.value, t), u);
    }
  }

  lemma TruncatedAsReal(v: int, t: int, k: int, r: int, u: real)
    requires t >= 1 && v == t * k + r && Abs(r) < t && u > 0.0 && u * t as real == 1.0
    ensures RAbs(v as real * u - k as real) <= 1.0 - u
  {
    IntDivisionAsReal(v, t, k, r);
    FractionBound(v as real, t as real, k as real, r as real, u);
  }

  lemma FractionBound(v: real, t: real, k: real, r: real, u: real)
    requires u > 0.0 && u * t == 1.0 && v == t * k + r && RAbs(r) <= t - 1.0
    ensures RAbs(v * u - k) <= 1.0 - u
  {
    RFactor(k, u, t, 1.0);
    assert t * k * u == k by {
      RSwap(k, u, t);
      assert t * k == k * t;
    }
    assert v * u - k == r * u;
    RAbsMul(r, u);
    RMulOrder(t - 1.0, RAbs(r), u);
    assert (t - 1.0) * u == 1.0 - u;
  }

  lemma ModBound(dv: real, ev: real, x: real, n: int, k: int, q: real, u: real, mod: real)
    requires ev != 0.0 && x * ev == dv && u > 0.0 && mod == dv - k as real * ev
    requires IsNearestAway(x, n, u) && q == n as real * u
    requires RAbs(q - k as real) <= 1.0 - u
    ensures RAbs(mod) < RAbs(ev)
  {
    assert RAbs(x - k as real) < 1.0;
    assert mod == (x - k as real) * ev;
    FractionOf(x - k as real, ev, mod);
  }

  lemma FractionOf(z: real, ev: real, mod: real)
    requires ev != 0.0 && RAbs(z) < 1.0 && mod == z * ev
    ensures RAbs(mod) < RAbs(ev)
  {
    hide RAbs;
    RAbsProduct(z, ev);
    RAbsPositive(ev);
    RMulOrder(RAbs(z), 1.0, RAbs(ev));
  }

  // ----- the sign of the remainder -----------------------------------------

  /** Zero, or on the same side of zero. */
  predicate FollowsSign(m: real, v: real) {
    (m > 0.0 ==> v > 0.0) && (m < 0.0 ==> v < 0.0)
  }

  /** A quotient t <= z < t + 1 rounded to a multiple of u = 1/T and then truncated stays at or
      below z, unless z is so close under t + 1 that the rounding reaches it. */
  lemma TruncatedBelow(z: real, n: int, k: int, t: int, u: real, T: int)
    requires 0 <= t && t as real <= z < t as real + 1.0 && u > 0.0 && T >= 1 && u * T as real == 1.0
    requires IsNearestAway(z, n, u) && k * T <= n < k * T + T
    ensures k as real <= z <==> z == t as real || 2.0 * (t as real + 1.0 - z) > u
  {
    hide IsNearestAway;
    if z == t as real {
      OnGrid(t, u, T);
      ExactNearest(z, t * T, u);
      NearestAwayUnique(z, n, t * T, u);
      GridFloor(t, k, T);
    } else if 2.0 * (t as real + 1.0 - z) <= u {
      OnGrid(t + 1, u, T);
      NearestFromParts(z, (t + 1) * T, u, t as real + 1.0);
      NearestAwayUnique(z, n, (t + 1) * T, u);
      GridFloor(t + 1, k, T);
    } else if k >= t + 1 {
      GridAbove(n, k, t + 1, T);
      OnGrid(t + 1, u, T);
      NotReached(z, n, (t + 1) * T, t as real + 1.0, u);
    }
  }

  lemma OnGrid(t: int, u: real, T: int)
    requires u * T as real == 1.0
    ensures (t * T) as real * u == t as real
  {
    RealProduct(t, T);
    RFactor(t as real, T as real, u, 1.0);
  }

  lemma GridFloor(t: int, k: int, T: int)
    requires T >= 1 && k * T <= t * T < k * T + T
    ensures k == t
  {
    SmallMultiple(T, t - k);
  }

  lemma GridAbove(n: int, k: int, t: int, T: int)
    requires T >= 1 && k >= t && k * T <= n
    ensures t * T <= n
  {
    assert k * T == t * T + (k - t) * T;
  }

  lemma NotReached(z: real, n: int, N: int, w: real, u: real)
    requires u > 0.0 && z < w && 2.0 * (w - z) > u && N as real * u == w && N <= n
    ensures !IsNearestAway(z, n, u)
  {
    var y := n as real * u;
    RMulAtMost(N as real, n as real, u, w, y);
    FarFrom(z, n, u, y, w - z);
  }

  lemma FarFrom(z: real, n: int, u: real, y: real, gap: real)
    requires y == n as real * u && 2.0 * gap > u && (y - z >= gap || z - y >= gap)
    ensures !IsNearestAway(z, n, u)
  {
  }

  lemma RMulAtMost(a: real, b: real, u: real, au: real, bu: real)
    requires u > 0.0 && a <= b && au == a * u && bu == b * u
    ensures au <= bu
  {
  }

  lemma NearestNonNegative(z: real, n: int, u: real)
    requires z >= 0.0 && u > 0.0 && IsNearestAway(z, n, u)
    ensures n >= 0
  {
    if n < 0 {
      NegativeIsFar(z, n, u);
    }
  }

  lemma NegativeIsFar(z: real, n: int, u: real)
    requires z >= 0.0 && u > 0.0 && n <= -1
    ensures !IsNearestAway(z, n, u)
  {
    var y := n as real * u;
    RMulAtMost(n as real, -1.0, u, y, -u);
    FarFrom(z, n, u, y, u);
  }

  lemma QuoNegate(a: int, b: int)
    requires b > 0
    ensures Quo(-a, b) == -Quo(a, b)
  {
    QuoRemLaw(a, b);
    var q, r := Quo(a, b), Rem(a, b);
    assert -a == b * -q + -r;
    QuoUnique(-a, b, -q, -r);
  }

  /** For operands with a non-negative quotient the remainder has the right sign exactly if not
      too much is subtracted. */
  lemma SignOfDifference(z: real, dv: real, ev: real, k: int, mod: real)
    requires ev != 0.0 && z >= 0.0 && z * ev == dv && k >= 0 && mod == dv - k as real * ev
    ensures FollowsSign(mod, dv) <==> k as real <= z
  {
    assert mod == (z - k as real) * ev;
    QuotientSign(z, ev, dv);
    QuotientSign(z - k as real, ev, mod);
  }

  lemma SignOfQuotient(z: real, dv: real, ev: real, n: int, k: int, t: int, u: real, T: int, mod: real)
    requires ev != 0.0 && z >= 0.0 && z * ev == dv && mod == dv - k as real * ev
    requires 0 <= t && t as real <= z < t as real + 1.0 && u > 0.0 && T >= 1 && u * T as real == 1.0
    requires IsNearestAway(z, n, u) && k == Quo(n, T)
    ensures FollowsSign(mod, dv) <==> z == t as real || 2.0 * (t as real + 1.0 - z) > u
  {
    hide *;
    NearestNonNegative(z, n, u);
    QuoSign(n, T);
    WholePart(n, T, k);
    SignOfDifference(z, dv, ev, k, mod);
    TruncatedBelow(z, n, k, t, u, T);
  }

  lemma WholePart(n: int, T: int, k: int)
    requires n >= 0 && T >= 1 && k == Quo(n, T)
    ensures k * T <= n < k * T + T
  {
    QuoRemLaw(n, T);
  }

  /** Whether the rounded quotient of d by d2 stays short of the next whole number: the true
      remainder, on the coefficients at a common exponent, is zero or leaves enough room. */
  predicate StaysShort(d: Decimal, d2: Decimal, precision: Places)
    requires d2.value != 0 && precision >= 0
  {
    var e := Min(d.exp, d2.exp);
    var a, b := Abs(At(d, e)), Abs(At(d2, e));
    MulNonZero(d2.value, Ten(d2.exp - e));
    a % b == 0 || 2 * (b - a % b) * Ten(precision) > b
  }

  /** The same in real numbers: with t the whole part of the quotient's magnitude x, the
      distance from x to t + 1 is more than half a unit of the last place. */
  lemma StaysShortAsReal(d: Decimal, d2: Decimal, precision: Places) returns (t: int)
    requires d2.value != 0 && precision >= 0
    ensures Val(d2) != 0.0
    ensures var x := RAbs(Val(d) / Val(d2));
      && 0 <= t && t as real <= x < t as real + 1.0
      && (StaysShort(d, d2, precision) <==> x == t as real || 2.0 * (t as real + 1.0 - x) > TenPow(-precision))
  {
    hide *;
    var e := Min(d.exp, d2.exp);
    MinIsLess(d, d2);
    var a, b := Abs(At(d, e)), Abs(At(d2, e));
    DivisorNotZero(d, d2, e);
    RatioOfCoefficients(d, d2, e);
    TenPositive(precision);
    UnitTimes(precision);
    t := a / b;
    DivNonNegative(a, b);
    Room(a, b, t, RAbs(Val(d) / Val(d2)), TenPow(-precision), Ten(precision));
    StaysShortMeans(d, d2, precision);
  }

  lemma MinIsLess(d: Decimal, d2: Decimal)
    ensures Min(d.exp, d2.exp) <= d.exp && Min(d.exp, d2.exp) <= d2.exp
  {
  }

  lemma DivisorNotZero(d: Decimal, d2: Decimal, e: int)
    requires d2.value != 0 && e == Min(d.exp, d2.exp)
    ensures e <= d2.exp && Abs(At(d2, e)) >= 1 && Val(d2) != 0.0
  {
    hide Ten, TenPow;
    TenPositive(d2.exp - e);
    MulNonZero(d2.value, Ten(d2.exp - e));
    ValSign(d2);
  }

  lemma StaysShortMeans(d: Decimal, d2: Decimal, precision: Places)
    requires d2.value != 0 && precision >= 0
    ensures Min(d.exp, d2.exp) <= d.exp && Min(d.exp, d2.exp) <= d2.exp
    ensures Abs(At(d2, Min(d.exp, d2.exp))) >= 1
    ensures var (a, b) := (Abs(At(d, Min(d.exp, d2.exp))), Abs(At(d2, Min(d.exp, d2.exp))));
      StaysShort(d, d2, precision) <==> a % b == 0 || 2 * (b - a % b) * Ten(precision) > b
  {
    hide Ten, At;
    DivisorNotZero(d, d2, Min(d.exp, d2.exp));
  }

  lemma UnitTimes(precision: Places)
    requires precision >= 0
    ensures TenPow(-precision) > 0.0 && TenPow(-precision) * Ten(precision) as real == 1.0
  {
    TenPowPositive(-precision);
    TenPowAddNat(-precision, precision);
    assert TenPow(0) == 1.0;
  }

  lemma RatioOfCoefficients(d: Decimal, d2: Decimal, e: int)
    requires e <= d.exp && e <= d2.exp && Val(d2) != 0.0
    ensures RAbs(Val(d) / Val(d2)) * Abs(At(d2, e)) as real == Abs(At(d, e)) as real
  {
    hide At, Val, TenPow;
    ValAt(d, e);
    ValAt(d2, e);
    TenPowPositive(e);
    var z, a, b, p := Val(d) / Val(d2), At(d, e) as real, At(d2, e) as real, TenPow(e);
    assert z * Val(d2) == Val(d);
    RCommute(z, b, p);
    assert z * b * p == a * p by { RSwap(z, p, b); RSwap(z, b, p); }
    RMulOrder(z * b, a, p);
    RAbsProduct(z, b);
  }

  /** x = a / b against its whole part t, in integers. */
  lemma Room(a: int, b: int, t: int, x: real, u: real, T: int)
    requires a >= 0 && b >= 1 && t == a / b && t >= 0 && x * b as real == a as real
    requires u > 0.0 && T >= 1 && u * T as real == 1.0
    ensures t as real <= x < t as real + 1.0
    ensures (a % b == 0 || 2 * (b - a % b) * T > b) <==> (x == t as real || 2.0 * (t as real + 1.0 - x) > u)
  {
    var r := a % b;
    assert a == b * t + r && 0 <= r < b;
    IntDivisionAsReal(a, b, t, r);
    FractionPart(x, a as real, b as real, t as real, r as real);
    RoomScaled(x - t as real, r, b, u, T);
  }

  lemma FractionPart(x: real, a: real, b: real, t: real, r: real)
    requires b > 0.0 && x * b == a && a == b * t + r && 0.0 <= r < b
    ensures (x - t) * b == r && 0.0 <= x - t < 1.0
    ensures x == t <==> r == 0.0
  {
    var f := x - t;
    RSplit(x, -t, b);
    assert f * b == r;
    UnitFractionOf(f, b, r);
  }

  lemma UnitFractionOf(f: real, b: real, r: real)
    requires b > 0.0 && f * b == r && 0.0 <= r < b
    ensures 0.0 <= f < 1.0
    ensures f == 0.0 <==> r == 0.0
  {
    if f >= 1.0 {
      RMulAtMost(1.0, f, b, b, r);
    } else if f < 0.0 {
      RMulOrder(f, 0.0, b);
    }
  }

  lemma RoomScaled(f: real, r: int, b: int, u: real, T: int)
    requires b >= 1 && T >= 1 && u > 0.0 && u * T as real == 1.0 && f * b as real == r as real
    ensures 2 * (b - r) * T > b <==> 2.0 * (1.0 - f) > u
  {
    var br, Tr := b as real, T as real;
    var room := 2.0 * (1.0 - f);
    RMulOrder(u, room, br);
    assert room * br == 2.0 * (br - r as real);
    RMulOrder(u * br, room * br, Tr);
    RSwap(u, br, Tr);
    RealProduct(2 * (b - r), T);
  }

  /** Exactly when Mod is zero or has the sign of its first operand. */
  lemma ModSignExactly(d: Decimal, d2: Decimal, divisionPrecision: Places)
    requires d2.value != 0 && ModFits(d, d2, divisionPrecision) && divisionPrecision >= 0
    ensures FollowsSign(Val(Mod(d, d2, divisionPrecision)), Val(d)) <==> StaysShort(d, d2, divisionPrecision)
  {
    hide *;
    var k := ModShape(d, d2, divisionPrecision);
    var t := StaysShortAsReal(d, d2, divisionPrecision);
    var q := DivRound(d, d2, divisionPrecision);
    DivRoundNearest(d, d2, divisionPrecision);
    TenPositive(divisionPrecision);
    UnitTimes(divisionPrecision);
    QuotientParts(Val(d), Val(d2), Val(d), 0.0);
    SignOfMod(Val(d) / Val(d2), Val(d), Val(d2), q.value, k, t, TenPow(-divisionPrecision), Ten(divisionPrecision),
              Val(Mod(d, d2, divisionPrecision)));
  }

  lemma SignOfMod(z: real, dv: real, ev: real, n: int, k: int, t: int, u: real, T: int, mod: real)
    requires ev != 0.0 && z * ev == dv && mod == dv - k as real * ev
    requires 0 <= t && t as real <= RAbs(z) < t as real + 1.0 && u > 0.0 && T >= 1 && u * T as real == 1.0
    requires IsNearestAway(z, n, u) && k == Quo(n, T)
    ensures FollowsSign(mod, dv) <==> RAbs(z) == t as real || 2.0 * (t as real + 1.0 - RAbs(z)) > u
  {
    hide Quo, IsNearestAway, FollowsSign;
    if z >= 0.0 {
      SignOfQuotient(z, dv, ev, n, k, t, u, T, mod);
    } else {
      NegateAway(z, n, u);
      QuoNegate(n, T);
      SignOfQuotient(-z, dv, -ev, -n, -k, t, u, T, mod);
    }
  }

  /** It can fail: at the default of 16 places a quotient just under one is rounded to one, and
      the remainder of two positive decimals is negative. */
  lemma ModLosesSign()
    ensures var d, d2 := Decimal(99999999999999999, -17), Decimal(1, 0);
      ModFits(d, d2, 16) && Mod(d, d2, 16) == Decimal(-1, -17)
  {
    hide Ten, DivRound, Truncate, Sub, Mul;
    var d, d2 := Decimal(99999999999999999, -17), Decimal(1, 0);
    JustUnderOne(d, d2);
    WholeOne();
    OneTimesOne();
    SubOne(d);
  }

  /** 1 - 10^-17 divided by one, to 16 places. */
  lemma JustUnderOne(d: Decimal, d2: Decimal)
    requires d == Decimal(99999999999999999, -17) && d2 == Decimal(1, 0)
    ensures ModFits(d, d2, 16) && DivRound(d, d2, 16) == Decimal(1_0000_0000_0000_0000, -16)
  {
    hide Ten, Quo, Rem;
    TenSixteen();
    QuoUnique(99999999999999999, 10, 9999999999999999, 9);
    QuotientOf(d, d2);
    RemainderLarge();
    UnitStep(Decimal(9999999999999999, -16), 16);
  }

  lemma QuotientOf(d: Decimal, d2: Decimal)
    requires d == Decimal(99999999999999999, -17) && d2 == Decimal(1, 0)
    requires Ten(1) == 10 && Quo(99999999999999999, 10) == 9999999999999999 && Rem(99999999999999999, 10) == 9
    ensures QuoRemFits(d, d2, 16) && QuoRem(d, d2, 16) == (Decimal(9999999999999999, -16), Decimal(9, -17))
  {
    hide Ten, Quo, Rem;
  }

  lemma RemainderLarge()
    ensures Cmp(Decimal(18, -1), Decimal(1, 0)) == 1
  {
    TenSixteen();
  }

  lemma WholeOne()
    ensures Truncate(Decimal(1_0000_0000_0000_0000, -16), 0) == Decimal(1, 0)
  {
    hide Ten, Quo;
    TenSixteen();
    QuoUnique(1_0000_0000_0000_0000, 1_0000_0000_0000_0000, 1, 0);
  }

  lemma SubOne(d: Decimal)
    requires d == Decimal(99999999999999999, -17)
    ensures Sub(d, Decimal(1, 0)) == Decimal(-1, -17)
  {
    hide Ten, Quo;
    TenSixteen();
    assert Rescale(d, -17) == d;
    assert Rescale(Decimal(1, 0), -17) == Decimal(1 * Ten(17), -17);
  }

  lemma OneTimesOne()
    ensures MulFits(Decimal(1, 0), Decimal(1, 0)) && Mul(Decimal(1, 0), Decimal(1, 0)) == Decimal(1, 0)
  {
  }

  lemma TenSixteen()
    ensures Ten(1) == 10 && Ten(16) == 1_0000_0000_0000_0000 && Ten(17) == 10_0000_0000_0000_0000
  {
    assert Ten(4) == 1_0000;
    TenAdd(4, 4);
    TenAdd(8, 8);
    TenAdd(16, 1);
  }
}
