/** Integer and real arithmetic shared by the models: powers, Go's truncated
    division, and powers of ten with negative exponents. */
module IntMath {

  function Abs(x: int): nat {
    if x < 0 then -x else x
  }

  function Sign(x: int): int {
    if x < 0 then -1 else if x == 0 then 0 else 1
  }

  function Min(x: int, y: int): int {
    if x <= y then x else y
  }

  function RAbs(x: real): real {
    if x < 0.0 then -x else x
  }

  // ----- powers ------------------------------------------------------------

  function Pow(b: int, n: nat): int {
    if n == 0 then 1 else b * Pow(b, n - 1)
  }

  lemma {:induction false} PowAdd(b: int, m: nat, n: nat)
    ensures Pow(b, m + n) == Pow(b, m) * Pow(b, n)
  {
    if m > 0 {
      PowAdd(b, m - 1, n);
      assert b * (Pow(b, m - 1) * Pow(b, n)) == b * Pow(b, m - 1) * Pow(b, n);
    }
  }

  lemma PowSucc(b: int, n: nat)
    ensures Pow(b, n + 1) == b * Pow(b, n)
  {
  }

  lemma {:induction false} PowPositive(b: int, n: nat)
    requires b > 0
    ensures Pow(b, n) > 0
  {
    if n > 0 {
      PowPositive(b, n - 1);
      assert b * Pow(b, n - 1) > 0;
    }
  }

  lemma {:induction false} PowMul(a: int, b: int, n: nat)
    ensures Pow(a * b, n) == Pow(a, n) * Pow(b, n)
  {
    if n > 0 {
      PowMul(a, b, n - 1);
      MulExchange(a, b, Pow(a, n - 1), Pow(b, n - 1));
    }
  }

  lemma MulExchange(a: int, b: int, p: int, q: int)
    ensures (a * b) * (p * q) == (a * p) * (b * q)
  {
    calc {
      (a * b) * (p * q);
      a * (b * (p * q));
      { assert b * (p * q) == p * (b * q); }
      a * (p * (b * q));
      (a * p) * (b * q);
    }
  }

  lemma TwoPower53()
    ensures Pow(2, 53) == 0x20_0000_0000_0000
  {
    assert Pow(2, 8) == 256;
    PowAdd(2, 8, 8);
    PowAdd(2, 16, 16);
    PowAdd(2, 32, 16);
    PowAdd(2, 48, 5);
    assert Pow(2, 5) == 32;
  }

  /** 10^n. */
  function Ten(n: nat): (r: int)
    ensures r >= 1
  {
    if n == 0 then 1 else 10 * Ten(n - 1)
  }

  lemma {:induction false} TenAdd(m: nat, n: nat)
    ensures Ten(m + n) == Ten(m) * Ten(n)
  {
    if m > 0 {
      TenAdd(m - 1, n);
      assert 10 * (Ten(m - 1) * Ten(n)) == 10 * Ten(m - 1) * Ten(n);
    }
  }

  // ----- truncated division (Go's / and %, big.Int Quo and Rem) -----------

  /** Quotient truncated toward zero. */
  function Quo(a: int, b: int): int
    requires b != 0
  {
    var q := Abs(a) / Abs(b);
    if (a < 0) != (b < 0) then -q else q
  }

  /** Remainder with the sign of the dividend. */
  function Rem(a: int, b: int): int
    requires b != 0
  {
    var r := Abs(a) % Abs(b);
    if a < 0 then -r else r
  }

  lemma QuoRemLaw(a: int, b: int)
    requires b != 0
    ensures a == b * Quo(a, b) + Rem(a, b)
    ensures Abs(Rem(a, b)) < Abs(b)
    ensures a >= 0 ==> Rem(a, b) >= 0
    ensures a <= 0 ==> Rem(a, b) <= 0
  {
    var m: int, n: int := Abs(a), Abs(b);
    assert m == n * (m / n) + m % n;
    MulSigns(b, m / n);
  }

  lemma MulSigns(b: int, q: int)
    ensures b * -q == -(b * q)
    ensures -b * q == -(b * q)
    ensures Abs(b) * q == if b < 0 then -(b * q) else b * q
  {
  }

  lemma MulAtLeast(b: int, k: int)
    requires b > 0 && k >= 1
    ensures b * k >= b
  {
  }

  lemma DivNonNegative(a: nat, b: int)
    requires b > 0
    ensures a / b >= 0
  {
  }

  lemma QuoSign(a: int, b: int)
    requires b > 0
    ensures a >= 0 ==> Quo(a, b) >= 0
    ensures a <= 0 ==> Quo(a, b) <= 0
  {
    DivNonNegative(Abs(a), b);
    if a == 0 {
      DivUnique(0, b, 0, 0);
    }
  }

  /** A multiple of b strictly between -b and b is zero. */
  lemma SmallMultiple(b: int, k: int)
    requires b > 0
    requires -b < b * k < b
    ensures k == 0
  {
    if k > 0 {
      MulAtLeast(b, k);
    } else if k < 0 {
      MulSigns(b, k);
      MulAtLeast(b, -k);
    }
  }

  lemma MulMinus(b: int, x: int, y: int)
    ensures b * (x - y) == b * x - b * y
  {
  }

  /** The law determines the quotient. */
  lemma QuoUnique(a: int, b: int, q: int, r: int)
    requires b > 0 && a == b * q + r && Abs(r) < b
    requires a >= 0 ==> r >= 0
    requires a <= 0 ==> r <= 0
    ensures q == Quo(a, b) && r == Rem(a, b)
  {
    QuoRemLaw(a, b);
    MulMinus(b, q, Quo(a, b));
    SmallMultiple(b, q - Quo(a, b));
  }

  /** Euclidean division is determined by its law. */
  lemma DivUnique(a: int, b: int, q: int, r: int)
    requires b > 0 && a == b * q + r && 0 <= r < b
    ensures q == a / b && r == a % b
  {
    assert a == b * (a / b) + a % b;
    MulMinus(b, q, a / b);
    SmallMultiple(b, q - a / b);
  }

  // ----- real powers of ten ------------------------------------------------

  /** 10^e as a real, for any integer e. */
  function TenPow(e: int): real
    decreases Abs(e)
  {
    if e == 0 then 1.0
    else if e > 0 then 10.0 * TenPow(e - 1)
    else TenPow(e + 1) / 10.0
  }

  lemma {:induction false} TenPowPositive(e: int)
    ensures TenPow(e) > 0.0
    decreases Abs(e)
  {
    if e > 0 {
      TenPowPositive(e - 1);
    } else if e < 0 {
      TenPowPositive(e + 1);
    }
  }

  lemma TenPowSucc(e: int)
    ensures TenPow(e + 1) == 10.0 * TenPow(e)
  {
  }

  lemma {:induction false} TenPowAddNat(e: int, n: nat)
    ensures TenPow(e + n) == TenPow(e) * Ten(n) as real
  {
    if n > 0 {
      TenPowAddNat(e, n - 1);
      TenPowSucc(e + n - 1);
      var a, t := TenPow(e), Ten(n - 1) as real;
      assert Ten(n) as real == 10.0 * t;
      assert 10.0 * (a * t) == a * (10.0 * t);
    }
  }

  lemma TenPowZero()
    ensures TenPow(0) == 1.0
  {
  }

  lemma Regroup(x: real, t: real, y: real)
    requires y * t == 1.0
    ensures x * t * y == x
  {
    assert x * t * y == x * (t * y);
  }

  lemma {:induction false} TenPowAdd(a: int, b: int)
    ensures TenPow(a + b) == TenPow(a) * TenPow(b)
  {
    hide TenPow, Ten;
    assert TenPow(0) == 1.0 by { TenPowZero(); }
    if b >= 0 {
      TenPowAddNat(a, b);
      TenPowAddNat(0, b);
    } else {
      TenPowAddNat(a + b, -b);
      TenPowAddNat(b, -b);
      var x, y, t := TenPow(a + b), TenPow(b), Ten(-b) as real;
      assert TenPow(a) == x * t && 1.0 == y * t;
      Regroup(x, t, y);
    }
  }
}
