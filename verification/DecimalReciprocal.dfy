/** Pow with negative integer exponents: halving the exponent as a rounded decimal comes to halving
    an integer, with one rounded division at every odd step. */
module DecimalReciprocal {
  import opened Wrappers
  import opened IntMath
  import opened DecimalModel
  import opened DecimalLaws
  import opened DecimalRounding
  import opened DecimalPow

  /** The power to -n by halving n: the square of the power to -(n / 2), divided by d where n is
      odd; None where the program panics or an exponent leaves the int32 range. */
  function Reciprocal(d: Decimal, n: nat): Option<Decimal> {
    if n == 0 then Some(Decimal(1, 0))
    else
      var temp :- Reciprocal(d, n / 2);
      var square :- MulChecked(temp, temp);
      if n % 2 == 0 then Some(square) else DivChecked(square, d)
  }

  // ----- negative exponents track as positive ones do ----------------------

  lemma NearestNegated(x: real, h: int, u: real, y: real)
    requires IsNearestAway(x, h, u) && y == -x
    ensures IsNearestAway(y, -h, u)
  {
    NegatedProduct(h, u);
  }

  lemma NegatedProduct(h: int, u: real)
    ensures (-h) as real * u == -(h as real * u)
  {
  }

  lemma NegTracksNext(e: Decimal, n: nat, m: nat)
    requires e.exp <= MAX_INT32 - DIVISION_PRECISION && Tracks(-Val(e), n, m, TenPow(-16))
    ensures DivFits(e, Decimal(2, 0), DIVISION_PRECISION)
    ensures var half := Div(e, Decimal(2, 0), DIVISION_PRECISION);
      half.exp == -16 && Tracks(-Val(half), n, 2 * m, TenPow(-16))
  {
    hide TenPow, Val, Tracks, IsNearestAway, Div;
    var half := Div(e, Decimal(2, 0), DIVISION_PRECISION);
    HalfNearest(e);
    SixteenPlaces();
    NearestNegated(Val(e) / 2.0, half.value, TenPow(-16), (-Val(e)) / 2.0);
    NegatedProduct(half.value, TenPow(-16));
    TracksHalf(-Val(e), n, m, TenPow(-16), -half.value, -Val(half));
  }

  lemma NegIntPart(e: Decimal, k: nat)
    requires k < TWO53 && k as real <= -Val(e) < k as real + 1.0
    ensures IntPart(e) == 0 - k
  {
    hide Rescale, Val, TenPow;
    ValSign(e);
    var r := Rescale(e, 0);
    if e.exp >= 0 {
      RescaleDownExact(e, 0);
    } else {
      RescaleUpTruncates(e, 0);
    }
    UnitValues(r);
    assert r.value == 0 - k;
  }

  lemma NegTracksIntPart(e: Decimal, n: nat, m: nat)
    requires n < TWO53 && 1 <= m <= TWO53 && Tracks(-Val(e), n, m, TenPow(-16))
    ensures IntPart(e) == -(n / m)
  {
    hide TenPow, Val, Rescale, Tracks;
    SixteenPlaces();
    ProductBelowOne(m, TenPow(-16));
    TracksFloor(-Val(e), n, m, TenPow(-16));
    QuotientAtMost(n, m);
    NegIntPart(e, n / m);
  }

  // ----- the power ---------------------------------------------------------

  /** What Pow makes of the half power of a negative exponent. */
  function SquaredOver(half: Option<Decimal>, d: Decimal, k: int): Option<Decimal> {
    var temp :- half;
    var square :- MulChecked(temp, temp);
    if k % 2 == 0 then Some(square) else DivChecked(square, d)
  }

  lemma NegUnfold(d: Decimal, e: Decimal)
    requires e.exp <= MAX_INT32 - DIVISION_PRECISION && IntPart(e) < 0
    ensures DivFits(e, Decimal(2, 0), DIVISION_PRECISION) && Div(e, Decimal(2, 0), DIVISION_PRECISION).exp == -16
    ensures PowDec(d, e) == SquaredOver(PowDec(d, Div(e, Decimal(2, 0), DIVISION_PRECISION)), d, IntPart(e))
  {
    hide Div, Rescale, IntPart, Mul, MulFits, DivChecked;
    HalfIsSmaller(e);
  }

  lemma ReciprocalUnfold(d: Decimal, k: nat)
    requires k > 0
    ensures Reciprocal(d, k) == SquaredOver(Reciprocal(d, k / 2), d, 0 - k)
  {
    hide MulChecked, DivChecked;
    assert (0 - k) % 2 == 0 <==> k % 2 == 0;
  }

  lemma {:induction false} NegPowTracks(d: Decimal, e: Decimal, n: nat, j: nat, m: nat, k: nat)
    requires e.exp <= MAX_INT32 - DIVISION_PRECISION && j <= 53 && n < TWO53
    requires m == Pow(2, j) && m >= 1 && k == n / m
    requires Tracks(-Val(e), n, m, TenPow(-16))
    ensures PowDec(d, e) == Reciprocal(d, k)
    decreases k
  {
    hide Tracks, TenPow, Val, Pow, PowDec, DivFits, IntPart, Div, SquaredOver, Reciprocal;
    TwoPowerBound(j);
    NegTracksIntPart(e, n, m);
    if k == 0 {
      PowBase(d, e);
      ReciprocalBase(d);
    } else {
      SmallQuotient(n, m);
      NegTracksNext(e, n, m);
      HalfOfQuotient(n, m);
      PowSucc(2, j);
      NegPowTracks(d, Div(e, Decimal(2, 0), DIVISION_PRECISION), n, j + 1, 2 * m, k / 2);
      NegUnfold(d, e);
      ReciprocalUnfold(d, k);
    }
  }

  lemma ReciprocalBase(d: Decimal)
    ensures Reciprocal(d, 0) == Some(Decimal(Pow(d.value, 0), 0 * d.exp))
  {
  }

  /** Pow(d, -n) is that power for every integer 0 <= n < 2^53, however -n is represented: the
      rounding of the halves never shows. */
  lemma NegativePow(d: Decimal, d2: Decimal, n: nat)
    requires d2.exp <= MAX_INT32 - DIVISION_PRECISION
    requires n < TWO53 && Val(d2) == -(n as real)
    ensures PowDec(d, d2) == Reciprocal(d, n)
  {
    hide TenPow, Val, PowDec, Reciprocal;
    assert Pow(2, 0) == 1;
    NegPowTracks(d, d2, n, 0, 1, n);
  }

  /** The power to -1 is 1/d to sixteen places, ties away from zero. */
  lemma ReciprocalNearest(d: Decimal)
    requires d.value != 0 && DivFits(Decimal(1, 0), d, DIVISION_PRECISION)
    ensures Reciprocal(d, 1).Some? && Reciprocal(d, 1).value.exp == -16
    ensures Val(d) != 0.0 && IsNearestAway(1.0 / Val(d), Reciprocal(d, 1).value.value, TenPow(-16))
  {
    hide TenPow, Val, IsNearestAway, DivRound, DivFits, Reciprocal;
    FirstReciprocal(d);
    DivRoundNearest(Decimal(1, 0), d, DIVISION_PRECISION);
    UnitValues(Decimal(1, 0));
    assert -DIVISION_PRECISION == -16;
  }

  lemma FirstReciprocal(d: Decimal)
    requires d.value != 0 && DivFits(Decimal(1, 0), d, DIVISION_PRECISION)
    ensures Reciprocal(d, 1) == Some(DivRound(Decimal(1, 0), d, DIVISION_PRECISION))
  {
    hide DivRound, DivFits, MulChecked, Reciprocal, MulFits;
    ReciprocalUnfold(d, 1);
    ReciprocalNone(d);
    OneSquared();
  }

  lemma ReciprocalNone(d: Decimal)
    ensures Reciprocal(d, 0) == Some(Decimal(1, 0))
  {
  }

  lemma OneSquared()
    ensures MulChecked(Decimal(1, 0), Decimal(1, 0)) == Some(Decimal(1, 0))
  {
  }

  /** Zero has no negative power: the program panics, whatever the exponent. */
  lemma {:induction false} ZeroHasNone(d: Decimal, n: nat)
    requires d.value == 0 && n > 0
    ensures Reciprocal(d, n).None?
  {
    if n > 1 {
      ZeroHasNone(d, n / 2);
    }
  }
}
