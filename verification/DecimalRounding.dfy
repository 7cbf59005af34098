/** Rounding: division to a precision, Round, RoundBank and RoundCash. */
module DecimalRounding {
  import opened IntMath
  import opened DecimalModel
  import opened DecimalLaws

  // ----- what "nearest" means ----------------------------------------------

  /** n * unit is the multiple of unit nearest to x, a tie going away from zero. */
  ghost predicate IsNearestAway(x: real, n: int, unit: real) {
    var y := n as real * unit;
    && 2.0 * RAbs(x - y) <= unit
    && (2.0 * RAbs(x - y) == unit ==> RAbs(y) > RAbs(x))
  }

  /** The same with a tie going to the even multiple. */
  ghost predicate IsNearestEven(x: real, n: int, unit: real) {
    var y := n as real * unit;
    && 2.0 * RAbs(x - y) <= unit
    && (2.0 * RAbs(x - y) == unit ==> n % 2 == 0)
  }

  /** No multiple is closer, and one that is as close is nearer to zero. */
  lemma NearestAwayIsBest(x: real, n: int, unit: real, m: int)
    requires unit > 0.0 && IsNearestAway(x, n, unit) && m != n
    ensures RAbs(x - n as real * unit) <= RAbs(x - m as real * unit)
    ensures RAbs(x - n as real * unit) == RAbs(x - m as real * unit) ==>
              RAbs(m as real * unit) < RAbs(n as real * unit)
  {
    MultiplesApart(n, m, unit);
    if RAbs(x - n as real * unit) == RAbs(x - m as real * unit) {
      MultiplesAdjacent(n, m, unit);
    }
  }

  lemma MultiplesApart(n: int, m: int, unit: real)
    requires unit > 0.0 && m != n
    ensures RAbs(n as real * unit - m as real * unit) >= unit
  {
    var k := (n - m) as real;
    assert n as real * unit - m as real * unit == k * unit;
    RMulOrder(1.0, RAbs(k), unit);
    RAbsMul(k, unit);
  }

  lemma MultiplesAdjacent(n: int, m: int, unit: real)
    requires unit > 0.0
    ensures RAbs(n as real * unit - m as real * unit) == unit ==> n == m + 1 || m == n + 1
    ensures n >= 0 ==> n as real * unit >= 0.0
    ensures n <= 0 ==> n as real * unit <= 0.0
    ensures m >= 0 ==> m as real * unit >= 0.0
    ensures m <= 0 ==> m as real * unit <= 0.0
  {
    var k := (n - m) as real;
    assert n as real * unit - m as real * unit == k * unit;
    RMulOrder(1.0, RAbs(k), unit);
    RAbsMul(k, unit);
  }

  /** The nearest multiple is unique, so two computations of it agree. */
  lemma NearestAwayUnique(x: real, n: int, m: int, unit: real)
    requires unit > 0.0 && IsNearestAway(x, n, unit) && IsNearestAway(x, m, unit)
    ensures n == m
  {
    if n != m {
      MultiplesApart(n, m, unit);
      MultiplesAdjacent(n, m, unit);
    }
  }

  lemma NearestEvenUnique(x: real, n: int, m: int, unit: real)
    requires unit > 0.0 && IsNearestEven(x, n, unit) && IsNearestEven(x, m, unit)
    ensures n == m
  {
    if n != m {
      MultiplesApart(n, m, unit);
      MultiplesAdjacent(n, m, unit);
    }
  }

  // ----- division ----------------------------------------------------------

  /** DivRound yields the multiple of 10^-precision nearest to d / d2, ties away from zero. */
  lemma DivRoundNearest(d: Decimal, d2: Decimal, precision: Places)
    requires d2.value != 0 && DivFits(d, d2, precision)
    ensures DivRound(d, d2, precision).exp == -precision
    ensures Val(d2) != 0.0
    ensures IsNearestAway(Val(d) / Val(d2), DivRound(d, d2, precision).value, TenPow(-precision))
  {
    hide *;
    DivFitsQuoRem(d, d2, precision);
    var q, r := QuoRem(d, d2, precision).0, QuoRem(d, d2, precision).1;
    var away := Sign(d.value) * Sign(d2.value) < 0;
    DivRoundShape(d, d2, precision);
    QuoRemContract(d, d2, precision);
    ValSign(d);
    ValSign(d2);
    ValSign(r);
    SignProduct(d.value, d2.value);
    DecimalParts(q);
    TenPowInverse(precision);
    TenPowPositive(-precision);
    RoundQuotient(Val(d), Val(d2), Val(r), q.value, TenPow(-precision), TenPow(precision), away);
  }

  lemma DivFitsQuoRem(d: Decimal, d2: Decimal, precision: Places)
    requires DivFits(d, d2, precision)
    ensures QuoRemFits(d, d2, precision)
  {
  }

  lemma SignProduct(a: int, b: int)
    ensures Sign(a) * Sign(b) < 0 <==> (a < 0 < b) || (b < 0 < a)
  {
  }

  lemma DecimalParts(d: Decimal)
    ensures Val(d) == d.value as real * TenPow(d.exp)
  {
  }

  /** DivRound as a decision about real numbers. */
  lemma DivRoundShape(d: Decimal, d2: Decimal, precision: Places)
    requires d2.value != 0 && DivFits(d, d2, precision)
    ensures DivRound(d, d2, precision).exp == QuoRem(d, d2, precision).0.exp == -precision
    ensures var (q, r) := QuoRem(d, d2, precision);
      DivRound(d, d2, precision).value ==
      if 2.0 * RAbs(Val(r)) * TenPow(precision) < RAbs(Val(d2)) then q.value
      else if Sign(d.value) * Sign(d2.value) < 0 then q.value - 1 else q.value + 1
  {
    hide Ten, TenPow, Quo, Rem, Cmp, Val, Sign;
    var (q, r) := QuoRem(d, d2, precision);
    var r2 := Decimal(2 * Abs(r.value), r.exp + precision);
    CmpOrders(r2, AbsDec(d2));
    ValDoubledShifted(r, precision);
    ValAbs(d2);
    UnitStep(q, precision);
  }

  lemma TenPowInverse(p: int)
    ensures TenPow(p) * TenPow(0 - p) == 1.0
  {
    TenPowAdd(p, -p);
  }

  lemma ValSign(d: Decimal)
    ensures Val(d) > 0.0 <==> d.value > 0
    ensures Val(d) < 0.0 <==> d.value < 0
  {
    TenPowPositive(d.exp);
    RMulOrder(d.value as real, 0.0, TenPow(d.exp));
    RMulOrder(0.0, d.value as real, TenPow(d.exp));
  }

  lemma ValAbs(d: Decimal)
    ensures Val(AbsDec(d)) == RAbs(Val(d))
  {
    TenPowPositive(d.exp);
    RAbsMul(d.value as real, TenPow(d.exp));
  }

  lemma ValDoubledShifted(r: Decimal, precision: Places)
    requires FitsInt32(r.exp + precision)
    ensures Val(Decimal(2 * Abs(r.value), r.exp + precision)) == 2.0 * RAbs(Val(r)) * TenPow(precision)
  {
    hide TenPow;
    ValAbs(r);
    TenPowAdd(r.exp, precision);
    var a, p, w := Abs(r.value) as real, TenPow(r.exp), TenPow(precision);
    calc {
      (2.0 * a) * (p * w);
      2.0 * (a * p) * w;
    }
  }

  /** Adding or subtracting one unit in the last place. */
  lemma UnitStep(q: Decimal, precision: Places)
    requires q.exp == -precision
    ensures Add(q, Decimal(1, -precision)) == Decimal(q.value + 1, -precision)
    ensures Sub(q, Decimal(1, -precision)) == Decimal(q.value - 1, -precision)
  {
  }

  /** The rounding decision of DivRound, in the numbers it decides about. */
  lemma RoundQuotient(dv: real, ev: real, rv: real, n: int, u: real, w: real, negative: bool)
    requires ev != 0.0 && u > 0.0 && w * u == 1.0
    requires dv == ev * (n as real * u) + rv && RAbs(rv) < RAbs(ev) * u
    requires dv >= 0.0 ==> rv >= 0.0
    requires dv <= 0.0 ==> rv <= 0.0
    requires negative <==> (dv < 0.0 < ev) || (ev < 0.0 < dv)
    ensures IsNearestAway(dv / ev,
                          if 2.0 * RAbs(rv) * w < RAbs(ev) then n else if negative then n - 1 else n + 1,
                          u)
  {
    hide RAbs, IsNearestAway;
    var x, t := dv / ev, rv / ev;
    QuotientParts(dv, ev, rv, n as real * u);
    QuotientSign(x, ev, dv);
    QuotientSign(t, ev, rv);
    RemainderBounds(t, ev, rv, u, w);
    NextMultiples(n, u);
    RoundStep(x, t, n, n as real * u, u, negative, 2.0 * RAbs(rv) * w < RAbs(ev));
  }

  lemma RoundStep(x: real, t: real, n: int, y: real, u: real, negative: bool, down: bool)
    requires u > 0.0 && x == y + t && RAbs(t) < u && (down <==> 2.0 * RAbs(t) < u)
    requires y == n as real * u && (n + 1) as real * u == y + u && (n - 1) as real * u == y - u
    requires if negative then x < 0.0 && t <= 0.0 else x >= 0.0 && t >= 0.0
    ensures IsNearestAway(x, if down then n else if negative then n - 1 else n + 1, u)
  {
  }

  lemma QuotientParts(dv: real, ev: real, rv: real, m: real)
    requires ev != 0.0 && dv == ev * m + rv
    ensures dv / ev == m + rv / ev
    ensures dv / ev * ev == dv
    ensures rv / ev * ev == rv
  {
  }

  lemma QuotientSign(x: real, e: real, d: real)
    requires x * e == d && e != 0.0
    ensures e > 0.0 ==> (x >= 0.0 <==> d >= 0.0) && (x <= 0.0 <==> d <= 0.0)
    ensures e < 0.0 ==> (x >= 0.0 <==> d <= 0.0) && (x <= 0.0 <==> d >= 0.0)
  {
  }

  lemma RemainderBounds(t: real, ev: real, rv: real, u: real, w: real)
    requires ev != 0.0 && u > 0.0 && w * u == 1.0 && t * ev == rv && RAbs(rv) < RAbs(ev) * u
    ensures RAbs(t) < u
    ensures 2.0 * RAbs(rv) * w < RAbs(ev) <==> 2.0 * RAbs(t) < u
  {
    hide RAbs;
    RAbsProduct(t, ev);
    RAbsPositive(ev);
    HalfTest(RAbs(ev), RAbs(rv), RAbs(t), u, w);
  }

  lemma HalfTest(a: real, b: real, c: real, u: real, w: real)
    requires a > 0.0 && u > 0.0 && w * u == 1.0 && b == c * a && b < a * u
    ensures c < u
    ensures 2.0 * b * w < a <==> 2.0 * c < u
  {
    RFactor(2.0 * b, w, u, 1.0);
    RFactor(2.0, c, a, b);
    RMulOrder(c, u, a);
    var l, m, p := 2.0 * b * w, 2.0 * c, a * u;
    assert l < a <==> l * u < p by {
      RMulOrder(l, a, u);
    }
    assert m < u <==> m * a < p by {
      RMulOrder(m, u, a);
    }
    assert l * u == 2.0 * b == m * a;
  }

  lemma RFactor(x: real, y: real, z: real, p: real)
    requires p == y * z
    ensures x * y * z == x * p
  {
    RAssoc(x, y, z);
  }

  lemma RAbsPositive(a: real)
    ensures a != 0.0 ==> RAbs(a) > 0.0
  {
  }

  lemma RAbsProduct(a: real, b: real)
    ensures RAbs(a * b) == RAbs(a) * RAbs(b)
  {
  }

  lemma NextMultiples(n: int, u: real)
    ensures (n + 1) as real * u == n as real * u + u
    ensures (n - 1) as real * u == n as real * u - u
  {
  }

  // ----- rounding an integer ratio -----------------------------------------

  /** b * q is the multiple of b nearest to a, ties away from zero. */
  predicate NearestInt(a: int, b: int, q: int) {
    && 2 * Abs(a - b * q) <= b
    && (2 * Abs(a - b * q) == b ==> Abs(b * q) > Abs(a))
  }

  /** a / b to the nearest integer, ties away from zero. */
  function HalfAway(a: int, b: int): (q: int)
    requires b > 0
    ensures NearestInt(a, b, q)
  {
    var h := (2 * Abs(a) + b) / (2 * b);
    HalfAwayNearest(Abs(a), b, h);
    MulSigns(b, h);
    if a < 0 then -h else h
  }

  lemma HalfAwayNearest(m: nat, b: int, h: int)
    requires b > 0 && h == (2 * m + b) / (2 * b)
    ensures NearestInt(m, b, h)
  {
    var j := (2 * m + b) % (2 * b);
    assert 2 * m + b == 2 * b * h + j;
    TwiceProduct(b, h);
  }

  lemma TwiceProduct(b: int, h: int)
    ensures 2 * b * h == 2 * (b * h)
  {
  }

  /** A nearest integer is a nearest multiple of the unit it counts. */
  lemma LiftNearest(a: int, b: int, q: int, p: real, x: real, unit: real)
    requires NearestInt(a, b, q) && p > 0.0
    requires x == a as real * p && unit == b as real * p
    ensures IsNearestAway(x, q, unit)
  {
    hide Abs, RAbs, IsNearestAway;
    var m := b * q;
    var k := a - m;
    var y := m as real * p;
    LiftMultiple(b, q, p);
    LiftDifference(a, m, p);
    LiftAbs(k, p);
    LiftAbs(m, p);
    LiftAbs(a, p);
    LiftOrder(2 * Abs(k), b, p);
    LiftOrder(Abs(a), Abs(m), p);
    LiftDouble(Abs(k), p);
    assert x - y == k as real * p;
    assert RAbs(x - y) == Abs(k) as real * p;
    assert RAbs(y) == Abs(m) as real * p && RAbs(x) == Abs(a) as real * p;
    NearestFromParts(x, q, unit, y);
  }

  lemma NearestFromParts(x: real, n: int, unit: real, y: real)
    requires y == n as real * unit
    requires 2.0 * RAbs(x - y) <= unit
    requires 2.0 * RAbs(x - y) == unit ==> RAbs(y) > RAbs(x)
    ensures IsNearestAway(x, n, unit)
  {
  }

  lemma LiftMultiple(b: int, q: int, p: real)
    ensures (b * q) as real * p == q as real * (b as real * p)
  {
    RealProduct(b, q);
    RCommute(q as real, b as real, p);
  }

  lemma LiftDifference(a: int, m: int, p: real)
    ensures (a - m) as real * p == a as real * p - m as real * p
  {
  }

  lemma LiftDouble(k: int, p: real)
    ensures (2 * k) as real * p == 2.0 * (k as real * p)
  {
  }

  lemma LiftAbs(k: int, p: real)
    requires p > 0.0
    ensures RAbs(k as real * p) == Abs(k) as real * p
  {
    RAbsMul(k as real, p);
  }

  lemma LiftOrder(a: int, b: int, p: real)
    requires p > 0.0
    ensures a < b <==> a as real * p < b as real * p
    ensures a == b <==> a as real * p == b as real * p
  {
    RMulOrder(a as real, b as real, p);
  }

  // ----- Round -------------------------------------------------------------

  /** d rounded to places, straight from its coefficient. */
  function Rounded(d: Decimal, places: Places): Decimal
  {
    if d.exp >= -places then Decimal(d.value * Ten(d.exp + places), -places)
    else Decimal(HalfAway(d.value, Ten(-places - d.exp)), -places)
  }

  /** Rounded is the multiple of 10^-places nearest to d, ties away from zero. */
  lemma RoundedNearest(d: Decimal, places: Places)
    ensures Rounded(d, places).exp == -places
    ensures IsNearestAway(Val(d), Rounded(d, places).value, TenPow(-places))
  {
    hide *;
    TenPowPositive(-places);
    var a, b, p := RoundedShape(d, places);
    if b == 1 {
      ExactNearest(Val(d), a, p);
    } else {
      LiftNearest(a, b, Rounded(d, places).value, p, Val(d), TenPow(-places));
    }
  }

  lemma RoundedShape(d: Decimal, places: Places) returns (a: int, b: int, p: real)
    ensures Rounded(d, places).exp == -places
    ensures p > 0.0 && b >= 1 && Val(d) == a as real * p
    ensures b == 1 ==> a == Rounded(d, places).value && p == TenPow(-places)
    ensures b > 1 ==> NearestInt(a, b, Rounded(d, places).value) && TenPow(-places) == b as real * p
  {
    hide Ten, TenPow, NearestInt, HalfAway;
    var e := -places;
    if d.exp >= e {
      a, b, p := d.value * Ten(d.exp - e), 1, TenPow(e);
      ValAt(d, e);
      TenPowPositive(e);
    } else {
      var n := e - d.exp;
      a, b, p := d.value, Ten(n), TenPow(d.exp);
      TenPowAddNat(d.exp, n);
      TenPowPositive(d.exp);
      TenGreaterThanOne(n);
    }
  }

  lemma TenGreaterThanOne(n: nat)
    requires n > 0
    ensures Ten(n) > 1
  {
  }

  lemma ExactNearest(x: real, n: int, unit: real)
    requires unit > 0.0 && x == n as real * unit
    ensures IsNearestAway(x, n, unit)
    ensures IsNearestEven(x, n, unit)
  {
  }

  lemma NegateProduct(n: int, u: real)
    ensures (-n) as real * u == -(n as real * u)
  {
  }

  lemma NegateAway(x: real, n: int, u: real)
    requires IsNearestAway(x, n, u)
    ensures IsNearestAway(-x, -n, u)
  {
    NegateProduct(n, u);
  }

  /** Rounding is division by one. */
  lemma RoundedIsDivRoundByOne(d: Decimal, places: Places)
    requires DivFits(d, Decimal(1, 0), places)
    ensures Rounded(d, places) == DivRound(d, Decimal(1, 0), places)
  {
    hide *;
    DivRoundNearest(d, Decimal(1, 0), places);
    RoundedNearest(d, places);
    OneIsOne();
    OverOne(Val(d));
    TenPowPositive(-places);
    NearestAwayUnique(Val(d), Rounded(d, places).value, DivRound(d, Decimal(1, 0), places).value, TenPow(-places));
  }

  lemma OverOne(x: real)
    ensures x / 1.0 == x
  {
  }

  lemma OneIsOne()
    ensures Val(Decimal(1, 0)) == 1.0
    ensures Decimal(1, 0).value != 0
  {
  }

  /** Round as the program performs it: truncate to one digit more than wanted, add
      half away from zero, drop the digit. The double step still rounds correctly. */
  method Round(d: Decimal, places: Places) returns (ret: Decimal)
    ensures ret == Rounded(d, places)
  {
    var start := Rescale(d, -places - 1);
    var value, exp: int := start.value, start.exp;
    if value < 0 {
      value := value - 5;
    } else {
      value := value + 5;
    }
    var m := value % 10;
    value := value / 10;
    exp := exp + 1;
    if value < 0 && m != 0 {
      value := value + 1;
    }
    DropDigitRounds(d, places);
    return Decimal(value, exp);
  }

  /** A coefficient rounded to one digit less. */
  function DropDigit(w: int): int {
    if w < 0 then -((5 - w) / 10) else (w + 5) / 10
  }

  lemma DropDigitRounds(d: Decimal, places: Places)
    ensures DropDigit(Rescale(d, -places - 1).value) == Rounded(d, places).value
  {
    hide HalfAway, Quo, DropDigit;
    var n := -places - d.exp;
    if n <= 0 {
      var k := d.value * Ten(-n);
      TenTimes(d.value, -n);
      DropZeroDigit(k);
    } else {
      DropDigitOfQuo(d.value, Ten(n - 1));
      QuoOne(d.value);
    }
  }

  lemma TenTimes(v: int, n: nat)
    ensures v * Ten(n + 1) == 10 * (v * Ten(n))
  {
  }

  lemma DropZeroDigit(k: int)
    ensures DropDigit(10 * k) == k
  {
  }

  lemma QuoOne(v: int)
    ensures Quo(v, 1) == v
  {
  }

  lemma DropDigitOfQuo(v: int, s: int)
    requires s >= 1
    ensures DropDigit(Quo(v, s)) == HalfAway(v, 10 * s)
  {
    hide NearestInt;
    var m: int := Abs(v);
    var w, j := m / s, m % s;
    var q, k := (w + 5) / 10, (w + 5) % 10;
    assert m == s * w + j;
    DivNonNegative(m, s);
    NestedRounding(m, s, w, j, q, k);
  }

  lemma MulSum(s: int, w: int, q: int, k: int)
    requires w + 5 == 10 * q + k
    ensures s * w == 10 * (s * q) + s * k - 5 * s
  {
    assert w == 10 * q + k - 5;
  }

  lemma MulUpTo9(s: int, k: int)
    requires s >= 1 && 0 <= k < 10
    ensures 0 <= s * k <= 9 * s
  {
  }

  lemma NestedRounding(m: int, s: int, w: int, j: int, q: int, k: int)
    requires s >= 1 && m == s * w + j && 0 <= j < s
    requires w + 5 == 10 * q + k && 0 <= k < 10
    ensures (2 * m + 10 * s) / (2 * (10 * s)) == q
  {
    var sw, sq, sk := s * w, s * q, s * k;
    MulSum(s, w, q, k);
    MulUpTo9(s, k);
    assert 20 * s * q == 20 * sq;
    DivUnique(2 * m + 10 * s, 20 * s, q, 2 * sk + 2 * j);
  }

  // ----- RoundBank ---------------------------------------------------------

  /** RoundBank: nearest with ties to the even coefficient. */
  method RoundBank(d: Decimal, places: Places) returns (ret: Decimal)
    ensures ret.exp == -places
    ensures IsNearestEven(Val(d), ret.value, TenPow(-places))
  {
    var round := Round(d, places);
    var remainder := AbsDec(Sub(d, round));
    var half := Decimal(5, -places - 1);
    var value := round.value;
    if Cmp(remainder, half) == 0 && value % 2 != 0 {
      if value < 0 {
        value := value + 1;
      } else {
        value := value - 1;
      }
    }
    BankStep(d, places, round, value);
    return Decimal(value, round.exp);
  }

  lemma BankStep(d: Decimal, places: Places, round: Decimal, value: int)
    requires round == Rounded(d, places)
    requires value == if Cmp(AbsDec(Sub(d, round)), Decimal(5, -places - 1)) == 0 && round.value % 2 != 0
                      then if round.value < 0 then round.value + 1 else round.value - 1
                      else round.value
    ensures round.exp == -places
    ensures IsNearestEven(Val(d), value, TenPow(-places))
  {
    hide *;
    var half := Decimal(5, -places - 1);
    RoundedNearest(d, places);
    CmpOrders(AbsDec(Sub(d, round)), half);
    ValAbs(Sub(d, round));
    SubExact(d, round);
    HalfUnit(places);
    DecimalParts(round);
    TenPowPositive(-places);
    TieToEven(Val(d), round.value, value, TenPow(-places), Val(round),
              2.0 * RAbs(Val(d) - Val(round)) == TenPow(-places));
  }

  lemma HalfUnit(places: Places)
    ensures 2.0 * Val(Decimal(5, -places - 1)) == TenPow(-places)
  {
    TenPowSucc(-places - 1);
  }

  lemma TieToEven(x: real, n: int, m: int, u: real, y: real, tie: bool)
    requires u > 0.0 && IsNearestAway(x, n, u) && y == n as real * u
    requires tie <==> 2.0 * RAbs(x - y) == u
    requires m == if tie && n % 2 != 0 then if n < 0 then n + 1 else n - 1 else n
    ensures IsNearestEven(x, m, u)
  {
    NextMultiples(n, u);
    MultiplesAdjacent(n, n, u);
  }

  // ----- RoundCash ---------------------------------------------------------

  /** The number of cash units in one, for the supported intervals with a clean contract. */
  function CashUnits(interval: int): int
    requires interval in {5, 10, 25, 50, 100}
  {
    100 / interval
  }

  function RoundCash(d: Decimal, interval: int, divisionPrecision: Places): Decimal
    requires interval in {5, 10, 25, 50, 100} && divisionPrecision >= 2
  {
    var dVal := Decimal(CashUnits(interval), 0);
    Truncate(Div(Rounded(Mul(d, dVal), 0), dVal, divisionPrecision), 2)
  }

  /** RoundCash is the multiple of interval/100 nearest to d, ties away from zero:
      its division and truncation lose nothing. */
  lemma RoundCashNearest(d: Decimal, interval: int, divisionPrecision: Places)
    requires interval in {5, 10, 25, 50, 100} && divisionPrecision >= 2
    ensures var n := Rounded(Mul(d, Decimal(CashUnits(interval), 0)), 0).value;
      && Val(RoundCash(d, interval, divisionPrecision)) == n as real * (interval as real / 100.0)
      && IsNearestAway(Val(d), n, interval as real / 100.0)
  {
    hide *;
    CashShape(d, interval, divisionPrecision);
    var k := CashUnits(interval);
    var unit := interval as real / 100.0;
    var dVal := Decimal(k, 0);
    var scaled := Mul(d, dVal);
    var whole := Rounded(scaled, 0);
    CashRounding(d, dVal, scaled, whole.value, unit);
    DivCashExact(whole, k, interval, divisionPrecision);
    TruncateCashExact(whole.value, interval, divisionPrecision);
  }

  lemma CashShape(d: Decimal, interval: int, divisionPrecision: Places)
    requires interval in {5, 10, 25, 50, 100} && divisionPrecision >= 2
    ensures var k := CashUnits(interval);
      && 1 <= k <= 20 && k * interval == 100 && k as real * (interval as real / 100.0) == 1.0
      && MulFits(d, Decimal(k, 0)) && Mul(d, Decimal(k, 0)) == Decimal(d.value * k, d.exp)
      && Rounded(Mul(d, Decimal(k, 0)), 0).exp == 0
      && DivFits(Rounded(Mul(d, Decimal(k, 0)), 0), Decimal(k, 0), divisionPrecision)
      && RoundCash(d, interval, divisionPrecision) ==
         Truncate(Div(Rounded(Mul(d, Decimal(k, 0)), 0), Decimal(k, 0), divisionPrecision), 2)
  {
    hide Div, Truncate;
    CashUnitTimes(interval);
  }

  lemma CashUnitTimes(interval: int)
    requires interval in {5, 10, 25, 50, 100}
    ensures var k := CashUnits(interval);
      1 <= k <= 20 && k * interval == 100 && k as real * (interval as real / 100.0) == 1.0
  {
    var k := CashUnits(interval);
    assert k * interval == 100;
  }

  lemma CashRounding(d: Decimal, dVal: Decimal, scaled: Decimal, n: int, unit: real)
    requires MulFits(d, dVal) && scaled == Mul(d, dVal) && n == Rounded(scaled, 0).value
    requires dVal.exp == 0 && dVal.value > 0 && dVal.value as real * unit == 1.0
    ensures IsNearestAway(Val(d), n, unit)
  {
    hide Mul, Rounded, IsNearestAway, Val, TenPow;
    MulExact(d, dVal);
    RoundedNearest(scaled, 0);
    UnitValues(dVal);
    ScaleNearest(Val(d), n, unit, dVal.value as real, Val(scaled));
  }

  lemma UnitValues(dVal: Decimal)
    requires dVal.exp == 0
    ensures Val(dVal) == dVal.value as real && TenPow(0) == 1.0
  {
  }

  lemma ScaleNearest(x: real, n: int, unit: real, k: real, xk: real)
    requires k > 0.0 && k * unit == 1.0 && xk == x * k
    requires IsNearestAway(xk, n, 1.0)
    ensures IsNearestAway(x, n, unit)
  {
    var y := n as real * unit;
    RFactor(n as real, unit, k, 1.0);
    UnscaleNearest(x, y, x - y, unit, k, xk, n as real, xk - n as real);
    NearestFromParts(x, n, unit, y);
  }

  lemma UnscaleNearest(x: real, y: real, z: real, unit: real, k: real, xk: real, yk: real, zk: real)
    requires k > 0.0 && k * unit == 1.0
    requires xk == x * k && yk == y * k && zk == z * k
    requires 2.0 * RAbs(zk) <= 1.0
    requires 2.0 * RAbs(zk) == 1.0 ==> RAbs(yk) > RAbs(xk)
    ensures 2.0 * RAbs(z) <= unit
    ensures 2.0 * RAbs(z) == unit ==> RAbs(y) > RAbs(x)
  {
    hide RAbs;
    RAbsMul(z, k);
    RAbsMul(x, k);
    RAbsMul(y, k);
    RMulOrder(unit, 2.0 * RAbs(z), k);
    RMulOrder(RAbs(x), RAbs(y), k);
  }

  /** A whole number of cash units has at most two decimal places. */
  lemma DivCashExact(whole: Decimal, k: int, interval: int, precision: Places)
    requires whole.exp == 0 && k >= 1 && k * interval == 100 && interval >= 1 && precision >= 2
    ensures Div(whole, Decimal(k, 0), precision) == Decimal(whole.value * interval * Ten(precision - 2), -precision)
  {
    hide *;
    var t := whole.value * interval * Ten(precision - 2);
    DivCashFits(whole, k, precision);
    DivRoundNearest(whole, Decimal(k, 0), precision);
    UnitValues(whole);
    UnitValues(Decimal(k, 0));
    CashQuotient(whole.value, k, interval, precision);
    TenPowPositive(-precision);
    ExactNearest(whole.value as real / k as real, t, TenPow(-precision));
    NearestAwayUnique(whole.value as real / k as real, DivRound(whole, Decimal(k, 0), precision).value, t,
                      TenPow(-precision));
  }

  lemma DivCashFits(whole: Decimal, k: int, precision: Places)
    requires whole.exp == 0 && k >= 1 && precision >= 2
    ensures DivFits(whole, Decimal(k, 0), precision)
    ensures Div(whole, Decimal(k, 0), precision) == DivRound(whole, Decimal(k, 0), precision)
  {
  }

  lemma CashQuotient(w: int, k: int, interval: int, precision: int)
    requires k >= 1 && k * interval == 100 && interval >= 1 && precision >= 2
    ensures w as real / k as real == (w * interval * Ten(precision - 2)) as real * TenPow(-precision)
  {
    hide Ten, TenPow;
    TenPowAddNat(-precision, precision - 2);
    var p, t := TenPow(-precision), Ten(precision - 2);
    HundredthValue();
    RealProduct(w * interval, t);
    RealProduct(w, interval);
    RealProduct(k, interval);
    HundredthScale((w * interval) as real, t as real, p);
    QuotientByHundredth(w as real, k as real, interval as real);
  }

  lemma HundredthScale(c: real, t: real, p: real)
    requires p * t == 0.01
    ensures c * t * p == c * 0.01
  {
    RSwap(c, t, p);
    RFactor(c, p, t, 0.01);
  }

  lemma HundredthValue()
    ensures TenPow(-2) == 0.01
  {
    assert TenPow(-1) == 0.1;
  }

  lemma QuotientByHundredth(w: real, k: real, i: real)
    requires k > 0.0 && k * i == 100.0
    ensures w / k == w * i * 0.01
  {
    assert w * i * 0.01 * k == w by {
      RSwap(w, i, k);
      RFactor(w, k, i, 100.0);
    }
  }

  lemma TruncateCashExact(w: int, interval: int, precision: Places)
    requires precision >= 2
    ensures Val(Truncate(Decimal(w * interval * Ten(precision - 2), -precision), 2)) ==
            w as real * (interval as real / 100.0)
  {
    hide Ten, TenPow, Quo;
    var c, t := w * interval, Ten(precision - 2);
    HundredthValue();
    RealProduct(w, interval);
    QuoOfMultiple(c, t);
    TenZero(c);
    assert Truncate(Decimal(c * t, -precision), 2) == Decimal(c, -2);
    ValOf(c, -2);
    Hundredths(w as real, interval as real);
  }

  lemma QuoOfMultiple(c: int, t: int)
    requires t >= 1
    ensures Quo(c * t, t) == c
  {
    MulComm(c, t);
    ScaledSign(c, t);
    QuoUnique(c * t, t, c, 0);
  }

  lemma MulComm(a: int, b: int)
    ensures a * b == b * a
  {
  }

  lemma Hundredths(w: real, i: real)
    ensures w * i * 0.01 == w * (i / 100.0)
  {
  }
}
