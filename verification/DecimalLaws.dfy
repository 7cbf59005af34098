/** What the arithmetic of decimals means for the numbers they stand for. */
module DecimalLaws {
  import opened IntMath
  import opened DecimalModel

  // ----- real arithmetic helpers -------------------------------------------

  lemma RMulOrder(a: real, b: real, c: real)
    requires c > 0.0
    ensures a < b <==> a * c < b * c
    ensures a == b <==> a * c == b * c
  {
  }

  lemma RAbsMul(a: real, c: real)
    requires c > 0.0
    ensures RAbs(a * c) == RAbs(a) * c
  {
  }

  lemma RealProduct(a: int, b: int)
    ensures (a * b) as real == a as real * b as real
  {
  }

  lemma RAssoc(a: real, b: real, c: real)
    ensures a * (b * c) == a * b * c
  {
  }

  lemma RCommute(v: real, p: real, t: real)
    ensures v * (p * t) == v * t * p
  {
  }

  lemma RShift(b: real, z: real, p: real)
    ensures b * (z * p) == z * (b * p)
  {
  }

  // ----- common exponents --------------------------------------------------

  /** The coefficient of d at an exponent not above its own. */
  function At(d: Decimal, e: int): int
    requires e <= d.exp
  {
    d.value * Ten(d.exp - e)
  }

  lemma ValAt(d: Decimal, e: int)
    requires e <= d.exp
    ensures Val(d) == At(d, e) as real * TenPow(e)
  {
    hide Ten, TenPow;
    var n := d.exp - e;
    TenPowAddNat(e, n);
    RealProduct(d.value, Ten(n));
    RCommute(d.value as real, TenPow(e), Ten(n) as real);
  }

  /** Lowering the exponent never changes the number. */
  lemma RescaleDownExact(d: Decimal, exp: int32)
    requires exp <= d.exp
    ensures Val(Rescale(d, exp)) == Val(d)
    ensures Rescale(d, exp).value == At(d, exp)
    ensures Rescale(d, exp).exp == exp
  {
    ValAt(d, exp);
  }

  /** Raising it truncates toward zero to a multiple of 10^exp. */
  lemma RescaleUpTruncates(d: Decimal, exp: int32)
    requires exp >= d.exp
    ensures Rescale(d, exp).exp == exp
    ensures RAbs(Val(Rescale(d, exp))) <= RAbs(Val(d)) < RAbs(Val(Rescale(d, exp))) + TenPow(exp)
    ensures d.value >= 0 ==> Rescale(d, exp).value >= 0
    ensures d.value <= 0 ==> Rescale(d, exp).value <= 0
  {
    hide *;
    RescaleShape(d, exp);
    TenPowPositive(exp);
    AbsVal(d);
    if exp > d.exp {
      var n := exp - d.exp;
      var s := Ten(n);
      var q, m := Quo(d.value, s), Rem(d.value, s);
      TenPositive(n);
      QuoRemLaw(d.value, s);
      QuoSign(d.value, s);
      AbsVal(Decimal(q, exp));
      TenPowPositive(d.exp);
      TenPowAddNat(d.exp, n);
      QuoParts(d.value, s, q, m);
      AbsLess(m, s);
      RealTruncation(RAbs(d.value as real), s as real, RAbs(q as real), RAbs(m as real), TenPow(d.exp), TenPow(exp));
    }
  }

  lemma RescaleShape(d: Decimal, exp: int32)
    requires exp >= d.exp
    ensures Rescale(d, exp) == if exp == d.exp then d else Decimal(Quo(d.value, Ten(exp - d.exp)), exp)
  {
    hide Ten, Quo;
  }

  lemma AbsVal(d: Decimal)
    ensures RAbs(Val(d)) == RAbs(d.value as real) * TenPow(d.exp)
  {
    hide TenPow;
    TenPowPositive(d.exp);
    RAbsMul(d.value as real, TenPow(d.exp));
  }

  lemma TenPositive(n: nat)
    ensures Ten(n) >= 1
  {
  }

  lemma AbsLess(m: int, s: int)
    requires Abs(m) < Abs(s) && s >= 1
    ensures 0.0 <= RAbs(m as real) < s as real
  {
  }

  lemma QuoParts(v: int, s: int, q: int, m: int)
    requires s >= 1 && v == s * q + m
    requires v >= 0 ==> m >= 0 && q >= 0
    requires v <= 0 ==> m <= 0 && q <= 0
    ensures RAbs(v as real) == s as real * RAbs(q as real) + RAbs(m as real)
  {
    RealProduct(s, q);
    RealProduct(s, -q);
    MulSigns(s, q);
  }

  lemma RealTruncation(v: real, s: real, q: real, m: real, p: real, u: real)
    requires p > 0.0 && u == p * s
    requires v == s * q + m && 0.0 <= m < s
    ensures q * u <= v * p < q * u + u
  {
    assert v * p == s * q * p + m * p;
    assert q * u == s * q * p by {
      assert q * (p * s) == s * q * p;
    }
    RMulOrder(m, s, p);
    assert s * p == u;
    assert m * p >= 0.0;
  }

  // ----- exactness and order -----------------------------------------------

  lemma AddExact(d: Decimal, d2: Decimal)
    ensures Val(Add(d, d2)) == Val(d) + Val(d2)
    ensures Add(d, d2).exp == Min(d.exp, d2.exp)
  {
    var e := Min(d.exp, d2.exp);
    RescaleDownExact(d, e);
    RescaleDownExact(d2, e);
    var a, b := Rescale(d, e).value as real, Rescale(d2, e).value as real;
    assert (a + b) * TenPow(e) == a * TenPow(e) + b * TenPow(e);
  }

  lemma SubExact(d: Decimal, d2: Decimal)
    ensures Val(Sub(d, d2)) == Val(d) - Val(d2)
    ensures Sub(d, d2).exp == Min(d.exp, d2.exp)
  {
    var e := Min(d.exp, d2.exp);
    RescaleDownExact(d, e);
    RescaleDownExact(d2, e);
    var a, b := Rescale(d, e).value as real, Rescale(d2, e).value as real;
    assert (a - b) * TenPow(e) == a * TenPow(e) - b * TenPow(e);
  }

  lemma MulExact(d: Decimal, d2: Decimal)
    requires MulFits(d, d2)
    ensures Val(Mul(d, d2)) == Val(d) * Val(d2)
  {
    hide TenPow, Ten;
    TenPowAdd(d.exp, d2.exp);
    RealProduct(d.value, d2.value);
    var a, b, p, q := d.value as real, d2.value as real, TenPow(d.exp), TenPow(d2.exp);
    RExchange(a, b, p, q);
  }

  lemma RExchange(a: real, b: real, p: real, q: real)
    ensures (a * b) * (p * q) == (a * p) * (b * q)
  {
    calc {
      (a * b) * (p * q);
      a * (b * (p * q));
      { assert b * (p * q) == p * (b * q); }
      a * (p * (b * q));
      (a * p) * (b * q);
    }
  }

  /** Cmp orders the represented numbers, whatever the exponents. */
  lemma CmpOrders(d: Decimal, d2: Decimal)
    ensures Cmp(d, d2) == -1 || Cmp(d, d2) == 0 || Cmp(d, d2) == 1
    ensures Cmp(d, d2) == -1 <==> Val(d) < Val(d2)
    ensures Cmp(d, d2) == 0 <==> Val(d) == Val(d2)
    ensures Cmp(d, d2) == 1 <==> Val(d) > Val(d2)
  {
    var e := Min(d.exp, d2.exp);
    RescaleDownExact(d, e);
    RescaleDownExact(d2, e);
    var a, b := Rescale(d, e).value, Rescale(d2, e).value;
    assert Cmp(d, d2) == Sign(a - b);
    OrderAt(a, b, e, Val(d), Val(d2));
  }

  lemma OrderAt(a: int, b: int, e: int, x: real, y: real)
    requires x == a as real * TenPow(e) && y == b as real * TenPow(e)
    ensures a < b <==> x < y
    ensures a == b <==> x == y
    ensures a > b <==> x > y
  {
    TenPowPositive(e);
    RMulOrder(a as real, b as real, TenPow(e));
    RMulOrder(b as real, a as real, TenPow(e));
  }

  // ----- division ----------------------------------------------------------

  /** QuoRem's documented contract: d == d2 * q + r, q a multiple of 10^-precision,
      |r| < |d2| * 10^-precision, and r carries the sign of d. */
  lemma QuoRemContract(d: Decimal, d2: Decimal, precision: Places)
    requires d2.value != 0 && QuoRemFits(d, d2, precision)
    ensures QuoRem(d, d2, precision).0.exp == -precision
    ensures Val(d) == Val(d2) * Val(QuoRem(d, d2, precision).0) + Val(QuoRem(d, d2, precision).1)
    ensures RAbs(Val(QuoRem(d, d2, precision).1)) < RAbs(Val(d2)) * TenPow(-precision)
    ensures d.value >= 0 ==> QuoRem(d, d2, precision).1.value >= 0
    ensures d.value <= 0 ==> QuoRem(d, d2, precision).1.value <= 0
  {
    hide *;
    var a, b, x := QuoRemShape(d, d2, precision);
    ScaledDivision(d, d2, a, b, -precision, x);
    QuoRemLaw(a, b);
  }

  /** QuoRem's overflow check never fires, because the difference it looks at has already been
      wrapped; that difference is the right one exactly if it fits. */
  lemma ScaleCheckIsIdle(d: Decimal, d2: Decimal, precision: Places)
    ensures FitsInt32(ScaleExponent(d, d2, precision))
    ensures ScaleExponent(d, d2, precision) == d.exp - d2.exp + precision <==> FitsInt32(d.exp - d2.exp + precision)
  {
    var once, all := d.exp - d2.exp, d.exp - d2.exp + precision;
    WrapIsNear(once);
    WrapIsNear(Wrap32(once) + precision);
    WrapIsNear(all);
  }

  lemma WrapIsNear(x: int)
    ensures FitsInt32(Wrap32(x))
    ensures FitsInt32(x) ==> Wrap32(x) == x
    ensures exists k: int :: Wrap32(x) == x + 0x1_0000_0000 * k
  {
    var y := x + 0x8000_0000;
    assert Wrap32(x) == x + 0x1_0000_0000 * -(y / 0x1_0000_0000);
  }

  /** 10^2147483647 by 10^-1 at no places is such a difference: it comes out as -2^31. */
  lemma ScaleWraps()
    ensures ScaleExponent(Decimal(1, MAX_INT32), Decimal(1, -1), 0) == MIN_INT32
  {
  }

  /** The integer division QuoRem performs, and the scale it is performed at. */
  lemma QuoRemShape(d: Decimal, d2: Decimal, precision: Places) returns (a: int, b: int, x: int32)
    requires d2.value != 0 && QuoRemFits(d, d2, precision)
    ensures b != 0
    ensures QuoRem(d, d2, precision).0 == Decimal(Quo(a, b), -precision)
    ensures QuoRem(d, d2, precision).1 == Decimal(Rem(a, b), x)
    ensures Val(d) == a as real * TenPow(x)
    ensures Val(d2) * TenPow(-precision) == b as real * TenPow(x)
    ensures d.value >= 0 ==> a >= 0
    ensures d.value <= 0 ==> a <= 0
  {
    hide Ten, TenPow, Quo, Rem, Val;
    var scale := -precision;
    var e := d.exp - d2.exp - scale;
    if e < 0 {
      a, b, x := d.value, d2.value * Ten(-e), d.exp;
      MulNonZero(d2.value, Ten(-e));
      ValOf(d.value, d.exp);
    } else {
      a, b, x := d.value * Ten(e), d2.value, scale + d2.exp;
      ValAt(d, x);
      TenZero(d2.value);
      ScaledSign(d.value, Ten(e));
    }
    DivisorAt(d2, scale, x);
  }

  lemma TenZero(v: int)
    ensures v * Ten(0) == v
  {
  }

  lemma ScaledSign(v: int, t: int)
    requires t >= 1
    ensures v >= 0 ==> v * t >= 0
    ensures v <= 0 ==> v * t <= 0
  {
  }

  /** d2 scaled by 10^scale, at the exponent of the remainder. */
  lemma DivisorAt(d2: Decimal, scale: int, x: int)
    requires x <= d2.exp + scale
    ensures Val(d2) * TenPow(scale) == (d2.value * Ten(d2.exp + scale - x)) as real * TenPow(x)
  {
    hide Ten, TenPow;
    var n := d2.exp + scale - x;
    TenPowAdd(d2.exp, scale);
    TenPowAddNat(x, n);
    RealProduct(d2.value, Ten(n));
    RRegroup(d2.value as real, TenPow(d2.exp), TenPow(scale), Ten(n) as real, TenPow(x));
  }

  lemma RRegroup(v: real, p: real, u: real, t: real, w: real)
    requires p * u == w * t
    ensures v * p * u == v * t * w
  {
    calc {
      v * p * u;
      v * (p * u);
      v * (w * t);
      v * t * w;
    }
  }

  /** One integer division, read at the scale of the numbers. */
  lemma ScaledDivision(d: Decimal, d2: Decimal, a: int, b: int, scale: int32, x: int32)
    requires b != 0
    requires Val(d) == a as real * TenPow(x)
    requires Val(d2) * TenPow(scale) == b as real * TenPow(x)
    ensures Val(d) == Val(d2) * Val(Decimal(Quo(a, b), scale)) + Val(Decimal(Rem(a, b), x))
    ensures RAbs(Val(Decimal(Rem(a, b), x))) < RAbs(Val(d2)) * TenPow(scale)
  {
    hide *;
    QuoRemLaw(a, b);
    TenPowPositive(x);
    TenPowPositive(scale);
    var q, r := Quo(a, b), Rem(a, b);
    IntDivisionAsReal(a, b, q, r);
    ValOf(q, scale);
    ValOf(r, x);
    RealDivision(a as real, b as real, q as real, r as real,
                 Val(d), Val(d2), Val(Decimal(q, scale)), Val(Decimal(r, x)), TenPow(scale), TenPow(x));
  }

  lemma ValOf(v: int, e: int32)
    ensures Val(Decimal(v, e)) == v as real * TenPow(e)
  {
  }

  lemma IntDivisionAsReal(a: int, b: int, q: int, r: int)
    requires a == b * q + r && Abs(r) < Abs(b)
    ensures a as real == b as real * q as real + r as real
    ensures RAbs(r as real) < RAbs(b as real)
  {
    RealProduct(b, q);
  }

  lemma RealDivision(a: real, b: real, q: real, r: real, dv: real, d2v: real, qv: real, rv: real, u: real, w: real)
    requires a == b * q + r && RAbs(r) < RAbs(b)
    requires u > 0.0 && w > 0.0
    requires dv == a * w && d2v * u == b * w
    requires qv == q * u && rv == r * w
    ensures dv == d2v * qv + rv
    ensures RAbs(rv) < RAbs(d2v) * u
  {
    hide RAbs;
    QuotientTimes(b, q, r, d2v, u, w);
    RemainderLess(b, r, d2v, u, w);
  }

  lemma QuotientTimes(b: real, q: real, r: real, d2v: real, u: real, w: real)
    requires d2v * u == b * w
    ensures (b * q + r) * w == d2v * (q * u) + r * w
  {
    RSwap(b, q, w);
    RSwap(d2v, u, q);
    RAssoc(d2v, q, u);
    RSplit(b * q, r, w);
  }

  lemma RSplit(a: real, b: real, c: real)
    ensures (a + b) * c == a * c + b * c
  {
  }

  lemma RemainderLess(b: real, r: real, d2v: real, u: real, w: real)
    requires u > 0.0 && w > 0.0 && d2v * u == b * w && RAbs(r) < RAbs(b)
    ensures RAbs(r * w) < RAbs(d2v) * u
  {
    hide RAbs;
    RAbsMul(r, w);
    RAbsMul(b, w);
    RAbsMul(d2v, u);
    RMulOrder(RAbs(r), RAbs(b), w);
  }

  lemma RSwap(a: real, b: real, c: real)
    ensures a * b * c == a * c * b
  {
  }

  // ----- truncation --------------------------------------------------------

  /** Truncating to as many places as there are, or to a negative number of them, changes nothing;
      else exactly that many places are left, and what is cut off is less than one unit. */
  lemma TruncateExactly(d: Decimal, precision: Places)
    ensures var t := Truncate(d, precision);
      if precision < 0 || precision >= -(d.exp as int) then t == d
      else
        && t.exp == -precision
        && RAbs(Val(t)) <= RAbs(Val(d)) < RAbs(Val(t)) + TenPow(-precision)
        && (d.value >= 0 ==> t.value >= 0) && (d.value <= 0 ==> t.value <= 0)
  {
    hide Val, TenPow, RAbs, Rescale;
    if precision >= 0 && -precision > d.exp {
      RescaleUpTruncates(d, -precision);
    }
  }

  /** IntPart cuts the fraction off and keeps the low 64 bits, which changes the number exactly if
      it does not fit them. */
  lemma IntPartExactly(d: Decimal) returns (w: int)
    ensures RAbs(w as real) <= RAbs(Val(d)) < RAbs(w as real) + 1.0
    ensures (d.value >= 0 ==> w >= 0) && (d.value <= 0 ==> w <= 0)
    ensures -0x8000_0000_0000_0000 <= IntPart(d) < 0x8000_0000_0000_0000
    ensures (IntPart(d) - w) % 0x1_0000_0000_0000_0000 == 0
    ensures IntPart(d) == w <==> -0x8000_0000_0000_0000 <= w < 0x8000_0000_0000_0000
  {
    hide Val, TenPow, RAbs, Rescale, Ten;
    var r := Rescale(d, 0);
    RescaleExp(d, 0);
    w := r.value;
    TenPowZero();
    WholeVal(r);
    if d.exp <= 0 {
      RescaleUpTruncates(d, 0);
    } else {
      RescaleDownExact(d, 0);
      SameSign(d.value, Ten(d.exp));
      LessThanOneMore(w as real);
    }
  }

  lemma RescaleExp(d: Decimal, exp: int32)
    ensures Rescale(d, exp).exp == exp
  {
  }

  lemma WholeVal(d: Decimal)
    requires d.exp == 0
    ensures Val(d) == d.value as real
  {
    hide TenPow;
    TenPowZero();
  }

  lemma SameSign(v: int, t: int)
    requires t >= 1
    ensures v >= 0 ==> v * t >= 0
    ensures v <= 0 ==> v * t <= 0
  {
  }

  lemma LessThanOneMore(x: real)
    ensures RAbs(x) < RAbs(x) + 1.0
  {
  }
}
