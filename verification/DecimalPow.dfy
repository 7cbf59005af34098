/** Pow by repeated halving of a decimal exponent, each half rounded to sixteen places. */
module DecimalPow {
  import opened Wrappers
  import opened IntMath
  import opened DecimalModel
  import opened DecimalLaws
  import opened DecimalRounding

  /** DivisionPrecision's initial value. */
  const DIVISION_PRECISION: Places := 16

  const TWO53 := 0x20_0000_0000_0000

  function MulChecked(d: Decimal, d2: Decimal): Option<Decimal> {
    if MulFits(d, d2) then Some(Mul(d, d2)) else None
  }

  function DivChecked(d: Decimal, d2: Decimal): Option<Decimal> {
    if d2.value != 0 && DivFits(d, d2, DIVISION_PRECISION) then Some(Div(d, d2, DIVISION_PRECISION)) else None
  }

  /** None where the program panics or an exponent leaves the int32 range. */
  function PowDec(d: Decimal, d2: Decimal): Option<Decimal>
    requires d2.exp <= MAX_INT32 - DIVISION_PRECISION
    decreases Abs(Rescale(d2, -16).value)
  {
    if IntPart(d2) == 0 then Some(Decimal(1, 0))
    else
      var half := Div(d2, Decimal(2, 0), DIVISION_PRECISION);
      HalfIsSmaller(d2);
      var temp :- PowDec(d, half);
      var square :- MulChecked(temp, temp);
      if IntPart(d2) % 2 == 0 then Some(square)
      else if IntPart(d2) > 0 then MulChecked(square, d)
      else DivChecked(square, d)
  }

  // ----- the halving recursion ends ----------------------------------------

  lemma SixteenPlaces()
    ensures TenPow(-16) * 10000000000000000.0 == 1.0
    ensures 0.0 < TenPow(-16) < 0.001
  {
    TenPowPositive(-16);
    TenPowAddNat(-16, 16);
    TenAdd(8, 8);
    TenAdd(4, 4);
    assert Ten(4) == 10000;
  }

  /** The measure: the exponent's coefficient at 10^-16 shrinks. */
  lemma HalfIsSmaller(d2: Decimal)
    requires d2.exp <= MAX_INT32 - DIVISION_PRECISION && IntPart(d2) != 0
    ensures DivFits(d2, Decimal(2, 0), DIVISION_PRECISION)
    ensures var half := Div(d2, Decimal(2, 0), DIVISION_PRECISION);
      half.exp == -16 && Abs(Rescale(half, -16).value) < Abs(Rescale(d2, -16).value)
  {
    hide DivRound, Rescale, TenPow, Val, Ten;
    var half := Div(d2, Decimal(2, 0), DIVISION_PRECISION);
    HalfNearest(d2);
    SixteenPlaces();
    var c := Rescale(d2, -16);
    CoefficientLowerBound(d2, c);
    IntPartLowerBound(d2);
    RescaleSame(half);
    HalfBound(Val(d2), half.value, c.value, TenPow(-16));
  }

  lemma RescaleSame(d: Decimal)
    ensures Rescale(d, d.exp) == d
  {
  }

  lemma HalfNearest(d2: Decimal)
    requires d2.exp <= MAX_INT32 - DIVISION_PRECISION
    ensures DivFits(d2, Decimal(2, 0), DIVISION_PRECISION)
    ensures var half := Div(d2, Decimal(2, 0), DIVISION_PRECISION);
      && half.exp == -16
      && IsNearestAway(Val(d2) / 2.0, half.value, TenPow(-16))
      && Val(half) == half.value as real * TenPow(-16)
  {
    hide DivRound, TenPow, IsNearestAway;
    hide Val;
    DivRoundNearest(d2, Decimal(2, 0), DIVISION_PRECISION);
    UnitValues(Decimal(2, 0));
    DecimalParts(Div(d2, Decimal(2, 0), DIVISION_PRECISION));
    assert Val(Decimal(2, 0)) == 2.0;
    assert -DIVISION_PRECISION == -16;
  }

  lemma CoefficientLowerBound(d: Decimal, c: Decimal)
    requires c == Rescale(d, -16)
    ensures RAbs(Val(d)) < RAbs(c.value as real * TenPow(-16)) + TenPow(-16)
  {
    hide Rescale, TenPow, Val;
    TenPowPositive(-16);
    if d.exp >= -16 {
      RescaleDownExact(d, -16);
    } else {
      RescaleUpTruncates(d, -16);
    }
    DecimalParts(c);
    assert Val(c) == c.value as real * TenPow(-16);
  }

  lemma IntPartLowerBound(d: Decimal)
    requires IntPart(d) != 0
    ensures RAbs(Val(d)) >= 1.0
  {
    hide Rescale, Val, TenPow;
    if d.exp >= 0 {
      RescaleDownExact(d, 0);
    } else {
      RescaleUpTruncates(d, 0);
    }
    UnitValues(Rescale(d, 0));
  }

  lemma HalfBound(x: real, h: int, c: int, u: real)
    requires 0.0 < u < 0.001 && RAbs(x) >= 1.0
    requires IsNearestAway(x / 2.0, h, u)
    requires RAbs(x) < RAbs(c as real * u) + u
    ensures Abs(h) < Abs(c)
  {
    var hu, cu := h as real * u, c as real * u;
    assert RAbs(hu) <= RAbs(x) / 2.0 + u / 2.0;
    MagnitudeOrder(h, c, u, hu, cu);
  }

  lemma MagnitudeOrder(h: int, c: int, u: real, hu: real, cu: real)
    requires u > 0.0 && hu == h as real * u && cu == c as real * u
    requires RAbs(hu) < RAbs(cu)
    ensures Abs(h) < Abs(c)
  {
    hide RAbs, Abs;
    LiftAbs(h, u);
    LiftAbs(c, u);
    LiftOrder(Abs(h), Abs(c), u);
  }

  // ----- the halves track the true halves ----------------------------------

  /** q stands for n/m: exactly when m divides n, and to within u otherwise. */
  ghost predicate Tracks(q: real, n: nat, m: nat, u: real) {
    m >= 1 &&
    if n % m == 0 then q * m as real == n as real
    else RAbs(q * m as real - n as real) < m as real * u
  }

  /** Within 10^-16 < 2^-53 the integer part cannot be missed. */
  lemma TracksFloor(q: real, n: nat, m: nat, u: real)
    requires Tracks(q, n, m, u) && m as real * u < 1.0
    ensures (n / m) as real <= q < (n / m) as real + 1.0
  {
    hide RAbs;
    var k, j := n / m, n % m;
    assert n == m * k + j;
    IntDivisionAsReal(n, m, k, j);
    TracksBounds(q, n, m, u, j, q * m as real);
    var z, km := q * m as real, k as real * m as real;
    assert n as real == km + j as real;
    FloorFromBounds(q, m as real, k as real, z, km);
  }

  lemma TracksBounds(q: real, n: nat, m: nat, u: real, j: nat, z: real)
    requires Tracks(q, n, m, u) && m as real * u < 1.0 && j == n % m && z == q * m as real
    ensures 0 <= j < m
    ensures j == 0 ==> z == n as real
    ensures j > 0 ==> n as real - 1.0 < z < n as real + 1.0
  {
  }

  lemma FloorFromBounds(q: real, m: real, k: real, z: real, km: real)
    requires m >= 1.0 && z == q * m && km == k * m && km <= z < km + m
    ensures k <= q < k + 1.0
  {
    RSplit(k, 1.0, m);
    RMulOrder(q, k, m);
    RMulOrder(q, k + 1.0, m);
  }

  lemma TracksHalf(q: real, n: nat, m: nat, u: real, h: int, q2: real)
    requires Tracks(q, n, m, u) && u > 0.0 && u * 10000000000000000.0 == 1.0
    requires IsNearestAway(q / 2.0, h, u) && q2 == h as real * u
    ensures Tracks(q2, n, 2 * m, u)
  {
    if n % (2 * m) == 0 {
      var k := n / (2 * m);
      EvenMultiple(n, m, k);
      ExactHalf(q, n, m, k);
      WholeNearest(q / 2.0, k, u, h, q2);
    } else {
      InexactHalf(q, n, m, u, h, q2);
    }
  }

  lemma InexactHalf(q: real, n: nat, m: nat, u: real, h: int, q2: real)
    requires Tracks(q, n, m, u) && u > 0.0
    requires m >= 1 && IsNearestAway(q / 2.0, h, u) && q2 == h as real * u
    ensures RAbs(q2 * (2 * m) as real - n as real) < (2 * m) as real * u
  {
    hide Tracks, IsNearestAway, Divides;
    var qm, mu := q * m as real, m as real * u;
    NearestError(q / 2.0, h, u, q2);
    TracksMeans(q, n, m, u, Divides(m, n), qm, mu);
    Doubled(m);
    TwiceError(q, q2, n as real, m as real, (2 * m) as real, u, Divides(m, n), qm, mu);
  }

  lemma Doubled(m: nat)
    ensures (2 * m) as real == 2.0 * m as real
  {
  }

  predicate Divides(m: nat, n: nat) {
    m >= 1 && n % m == 0
  }

  lemma TracksMeans(q: real, n: nat, m: nat, u: real, exact: bool, qm: real, mu: real)
    requires Tracks(q, n, m, u) && exact == Divides(m, n)
    requires qm == q * m as real && mu == m as real * u
    ensures m as real >= 1.0
    ensures if exact then qm == n as real else -mu < qm - n as real < mu
  {
  }

  lemma TwiceError(q: real, q2: real, n: real, m: real, mm: real, u: real, exact: bool, qm: real, mu: real)
    requires mm == 2.0 * m && m >= 1.0 && u > 0.0 && 2.0 * RAbs(q / 2.0 - q2) <= u
    requires qm == q * m && mu == m * u
    requires if exact then qm == n else -mu < qm - n < mu
    ensures RAbs(q2 * mm - n) < mm * u
  {
    HalfError(q, n, m, u, q2, exact);
    assert q2 * (2.0 * m) == q2 * mm;
    assert 2.0 * m * u == mm * u;
  }

  lemma NearestError(x: real, h: int, u: real, y: real)
    requires IsNearestAway(x, h, u) && y == h as real * u
    ensures 2.0 * RAbs(x - y) <= u
  {
  }

  lemma ExactHalf(q: real, n: nat, m: nat, k: int)
    requires m >= 1 && q * m as real == n as real && n == 2 * m * k
    ensures q == 2.0 * k as real
    ensures k as real * (2 * m) as real == n as real
  {
    RealProduct(2 * m, k);
    var mr, kr := m as real, k as real;
    RMulOrder(q, 2.0 * kr, mr);
    assert (2.0 * kr) * mr == (2 * m) as real * kr;
  }

  /** A whole number within reach of the grid is its own nearest multiple. */
  lemma WholeNearest(x: real, k: int, u: real, h: int, y: real)
    requires u > 0.0 && u * 10000000000000000.0 == 1.0
    requires x == k as real && IsNearestAway(x, h, u) && y == h as real * u
    ensures y == k as real
  {
    var t := k * 10000000000000000;
    assert t as real * u == k as real by {
      RFactor(k as real, u, 10000000000000000.0, 1.0);
      RSwap(k as real, u, 10000000000000000.0);
    }
    ExactNearest(x, t, u);
    NearestAwayUnique(x, h, t, u);
  }

  lemma EvenMultiple(n: nat, m: nat, k: int)
    requires m >= 1 && n % (2 * m) == 0 && k == n / (2 * m)
    ensures n == 2 * m * k && n % m == 0
  {
    assert n == 2 * m * k;
    assert n == m * (2 * k) + 0 by {
      MulComm(2, m);
    }
    DivUnique(n, m, 2 * k, 0);
  }

  lemma HalfError(q: real, n: real, m: real, u: real, q2: real, exact: bool)
    requires u > 0.0 && m >= 1.0 && 2.0 * RAbs(q / 2.0 - q2) <= u
    requires if exact then q * m == n else RAbs(q * m - n) < m * u
    ensures RAbs(q2 * (2.0 * m) - n) < 2.0 * m * u
  {
    var e := q2 - q / 2.0;
    var em, qm, mu := e * m, q * m, m * u;
    RAbsMul(e, m);
    assert RAbs(e) == RAbs(q / 2.0 - q2);
    RMulOrder(u, 2.0 * RAbs(e), m);
    assert 2.0 * RAbs(em) <= mu;
    assert q2 * (2.0 * m) - n == 2.0 * em + (qm - n);
    assert mu > 0.0;
  }

  // ----- Pow is exact ------------------------------------------------------

  lemma IntPartIsFloor(e: Decimal, k: nat)
    requires k < TWO53 && k as real <= Val(e) < k as real + 1.0
    ensures IntPart(e) == k
  {
    hide Rescale, Val, TenPow;
    ValSign(e);
    var r := Rescale(e, 0);
    if e.exp >= 0 {
      RescaleDownExact(e, 0);
    } else {
      RescaleUpTruncates(e, 0);
    }
    UnitValues(r);
    assert r.value == k;
  }

  lemma {:induction false} TwoPowerBound(j: nat)
    requires j <= 53
    ensures 1 <= Pow(2, j) <= TWO53
    ensures j == 53 ==> Pow(2, j) == TWO53
  {
    PowAdd(2, j, 53 - j);
    PowPositive(2, j);
    PowPositive(2, 53 - j);
    TwoPower53();
    var a, b := Pow(2, j), Pow(2, 53 - j);
    assert a * b == TWO53;
    assert a * b >= a * 1;
  }

  lemma HalfOfQuotient(n: nat, m: nat)
    requires m >= 1
    ensures n / (2 * m) == n / m / 2
  {
    var k, j := n / m, n % m;
    assert n == m * k + j;
    var h, b := k / 2, k % 2;
    assert m * k == 2 * m * h + m * b;
    assert 0 <= m * b <= m;
    DivUnique(n, 2 * m, h, m * b + j);
  }

  /** Multiples of an exponent that fits, fit. */
  lemma SmallerMultipleFits(k: nat, n: nat, x: int)
    requires k <= n && FitsInt32(n * x)
    ensures FitsInt32(k * x)
  {
    if x >= 0 {
      assert 0 <= k * x <= n * x;
    } else {
      assert n * x <= k * x <= 0;
    }
  }

  lemma TracksIntPart(e: Decimal, n: nat, m: nat)
    requires n < TWO53 && 1 <= m <= TWO53 && Tracks(Val(e), n, m, TenPow(-16))
    ensures IntPart(e) == n / m
  {
    hide TenPow, Val, Rescale, Tracks;
    SixteenPlaces();
    ProductBelowOne(m, TenPow(-16));
    TracksFloor(Val(e), n, m, TenPow(-16));
    QuotientAtMost(n, m);
    IntPartIsFloor(e, n / m);
  }

  lemma TracksNext(e: Decimal, n: nat, m: nat)
    requires e.exp <= MAX_INT32 - DIVISION_PRECISION && Tracks(Val(e), n, m, TenPow(-16))
    ensures DivFits(e, Decimal(2, 0), DIVISION_PRECISION)
    ensures var half := Div(e, Decimal(2, 0), DIVISION_PRECISION);
      half.exp == -16 && Tracks(Val(half), n, 2 * m, TenPow(-16))
  {
    hide TenPow, Val, Tracks, IsNearestAway, Div;
    var half := Div(e, Decimal(2, 0), DIVISION_PRECISION);
    HalfNearest(e);
    SixteenPlaces();
    TracksHalf(Val(e), n, m, TenPow(-16), half.value, Val(half));
  }

  /** PowDec with an exponent that tracks n / 2^j raises to the integer part of n / 2^j. */
  lemma {:induction false} PowTracks(d: Decimal, e: Decimal, n: nat, j: nat, m: nat, k: nat)
    requires e.exp <= MAX_INT32 - DIVISION_PRECISION && j <= 53 && n < TWO53
    requires m == Pow(2, j) && m >= 1 && k == n / m
    requires FitsInt32(n * d.exp)
    requires Tracks(Val(e), n, m, TenPow(-16))
    ensures FitsInt32(k * d.exp)
    ensures PowDec(d, e) == Some(Decimal(Pow(d.value, k), k * d.exp))
    decreases k
  {
    hide Tracks, TenPow, Val, Pow, PowDec, DivFits, IntPart, Div, FitsInt32, Squared;
    TwoPowerBound(j);
    QuotientAtMost(n, m);
    SmallerMultipleFits(k, n, d.exp);
    TracksIntPart(e, n, m);
    if k == 0 {
      PowBase(d, e);
    } else {
      SmallQuotient(n, m);
      TracksNext(e, n, m);
      HalfOfQuotient(n, m);
      PowSucc(2, j);
      PowTracks(d, Div(e, Decimal(2, 0), DIVISION_PRECISION), n, j + 1, 2 * m, k / 2);
      PowUnfold(d, e);
      SmallerMultipleFits(k / 2, n, d.exp);
      FitsIsInt32(k * d.exp);
      FitsIsInt32(k / 2 * d.exp);
      PowStep(d, Decimal(Pow(d.value, k / 2), k / 2 * d.exp), Decimal(Pow(d.value, k), k * d.exp), k, n);
    }
  }

  lemma PowBase(d: Decimal, e: Decimal)
    requires e.exp <= MAX_INT32 - DIVISION_PRECISION && IntPart(e) == 0
    ensures PowDec(d, e) == Some(Decimal(Pow(d.value, 0), 0 * d.exp))
  {
  }

  lemma QuotientAtMost(n: nat, m: nat)
    requires m >= 1
    ensures 0 <= n / m <= n
  {
  }

  lemma SmallQuotient(n: nat, m: nat)
    requires m >= 1
    ensures n < m ==> n / m == 0
  {
    if n < m {
      DivUnique(n, m, 0, n);
    }
  }

  lemma ProductBelowOne(m: nat, u: real)
    requires m <= TWO53 && u > 0.0 && u * 10000000000000000.0 == 1.0
    ensures m as real * u < 1.0
  {
    RMulOrder(m as real, 10000000000000000.0, u);
  }

  /** What Pow makes of the half power: its square, times d for an odd integer part. */
  function Squared(half: Option<Decimal>, d: Decimal, k: int): Option<Decimal> {
    var temp :- half;
    var square :- MulChecked(temp, temp);
    if k % 2 == 0 then Some(square) else MulChecked(square, d)
  }

  lemma PowUnfold(d: Decimal, e: Decimal)
    requires e.exp <= MAX_INT32 - DIVISION_PRECISION && IntPart(e) > 0
    ensures DivFits(e, Decimal(2, 0), DIVISION_PRECISION) && Div(e, Decimal(2, 0), DIVISION_PRECISION).exp == -16
    ensures PowDec(d, e) == Squared(PowDec(d, Div(e, Decimal(2, 0), DIVISION_PRECISION)), d, IntPart(e))
  {
    hide Div, Rescale, IntPart, Mul, MulFits;
    HalfIsSmaller(e);
  }

  /** One step of the recursion: from the power k / 2 to the power k. */
  lemma PowStep(d: Decimal, temp: Decimal, r: Decimal, k: nat, n: nat)
    requires 0 < k <= n && FitsInt32(n * d.exp)
    requires temp.value == Pow(d.value, k / 2) && temp.exp == k / 2 * d.exp
    requires r.value == Pow(d.value, k) && r.exp == k * d.exp
    ensures Squared(Some(temp), d, k) == Some(r)
  {
    hide *;
    PowHalves(d.value, d.exp, k, temp.value, temp.exp, r.value, r.exp);
    SmallerMultipleFits(2 * (k / 2), n, d.exp);
    Twice(k / 2, d.exp);
    SquaredIs(temp, d, r, k);
  }

  lemma SquaredIs(t: Decimal, d: Decimal, r: Decimal, k: nat)
    requires FitsInt32(t.exp + t.exp)
    requires r.value == if k % 2 == 0 then t.value * t.value else t.value * t.value * d.value
    requires r.exp == if k % 2 == 0 then t.exp + t.exp else t.exp + t.exp + d.exp
    ensures Squared(Some(t), d, k) == Some(r)
  {
  }

  lemma FitsIsInt32(x: int)
    requires FitsInt32(x)
    ensures -0x8000_0000 <= x <= 0x7FFF_FFFF
  {
  }

  lemma Twice(h: nat, x: int)
    ensures 2 * h * x == h * x + h * x
  {
  }

  lemma PowHalves(v: int, x: int, k: nat, p: int, hx: int, pk: int, kx: int)
    requires p == Pow(v, k / 2) && hx == k / 2 * x && pk == Pow(v, k) && kx == k * x
    ensures k % 2 == 0 ==> pk == p * p && kx == hx + hx
    ensures k % 2 == 1 ==> pk == p * p * v && kx == hx + hx + x
  {
    hide Pow;
    PowDouble(v, k / 2, x);
    assert k == 2 * (k / 2) || k == 2 * (k / 2) + 1;
  }

  lemma PowDouble(v: int, h: nat, x: int)
    ensures Pow(v, h) * Pow(v, h) == Pow(v, 2 * h)
    ensures Pow(v, 2 * h) * v == Pow(v, 2 * h + 1)
    ensures h * x + h * x == 2 * h * x
    ensures 2 * h * x + x == (2 * h + 1) * x
  {
    PowAdd(v, h, h);
    PowSucc(v, 2 * h);
  }

  /** Pow(d, n) is exactly d^n for every integer 0 <= n < 2^53, however n is represented. */
  lemma PowExact(d: Decimal, d2: Decimal, n: nat)
    requires d2.exp <= MAX_INT32 - DIVISION_PRECISION
    requires n < TWO53 && Val(d2) == n as real && FitsInt32(n * d.exp)
    ensures PowDec(d, d2) == Some(Decimal(Pow(d.value, n), n * d.exp))
  {
    assert Pow(2, 0) == 1;
    PowTracks(d, d2, n, 0, 1, n);
  }

  /** The result stands for the n-th power of the number d stands for. */
  lemma {:induction false} PowValue(d: Decimal, n: nat)
    requires FitsInt32(n * d.exp)
    ensures Val(Decimal(Pow(d.value, n), n * d.exp)) == RPow(Val(d), n)
  {
    PowAtExponent(d, n);
  }

  function RPow(x: real, n: nat): real {
    if n == 0 then 1.0 else x * RPow(x, n - 1)
  }

  lemma {:induction false} PowAtExponent(d: Decimal, n: nat)
    ensures Pow(d.value, n) as real * TenPow(n * d.exp) == RPow(Val(d), n)
  {
    hide *;
    if n == 0 {
      PowerOfZero(d);
    } else {
      PowAtExponent(d, n - 1);
      TenPowAdd(d.exp, (n - 1) * d.exp);
      NextMultiple(n, d.exp);
      PowSucc(d.value, n - 1);
      RPowSucc(Val(d), n - 1);
      DecimalParts(d);
      RealProduct(d.value, Pow(d.value, n - 1));
      Commuted(d.value, Pow(d.value, n - 1), Pow(d.value, n));
      PowerProduct(d.value as real, Pow(d.value, n - 1) as real, TenPow(d.exp), TenPow((n - 1) * d.exp),
                   Pow(d.value, n) as real, TenPow(n * d.exp), Val(d), RPow(Val(d), n - 1), RPow(Val(d), n));
    }
  }

  lemma PowerProduct(v: real, p: real, t: real, t': real, vp: real, tt: real, x: real, y: real, z: real)
    requires vp == v * p && tt == t * t' && x == v * t && y == p * t' && z == x * y
    ensures vp * tt == z
  {
    RExchange(v, p, t, t');
  }

  lemma PowerOfZero(d: Decimal)
    ensures Pow(d.value, 0) as real * TenPow(0 * d.exp) == RPow(Val(d), 0)
  {
  }

  lemma NextMultiple(n: nat, x: int)
    requires n > 0
    ensures n * x == x + (n - 1) * x
  {
  }

  lemma RPowSucc(x: real, n: nat)
    ensures RPow(x, n + 1) == x * RPow(x, n)
  {
  }

  lemma Commuted(v: int, p: int, q: int)
    requires q == p * v
    ensures q as real == (v * p) as real
  {
  }
}
