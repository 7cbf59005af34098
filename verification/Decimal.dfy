/** Fixed-point decimals: value * 10^exp with an unbounded coefficient. */
module DecimalModel {
  import opened IntMath

  const MIN_INT32 := -0x8000_0000
  const MAX_INT32 := 0x7FFF_FFFF

  type int32 = x: int | -0x8000_0000 <= x <= 0x7FFF_FFFF

  /** The places and precisions whose negation is again an int32. */
  type Places = x: int | -0x7FFF_FFFF <= x <= 0x7FFF_FFFF

  /** A nil coefficient behaves as 0 in every operation, so it is modelled as 0. */
  datatype Decimal = Decimal(value: int, exp: int32)

  predicate FitsInt32(x: int) {
    MIN_INT32 <= x <= MAX_INT32
  }

  /** The number a decimal stands for. */
  ghost function Val(d: Decimal): real {
    d.value as real * TenPow(d.exp)
  }

  function Rescale(d: Decimal, exp: int32): Decimal {
    var expScale := Ten(Abs(exp - d.exp));
    if exp > d.exp then Decimal(Quo(d.value, expScale), exp)
    else if exp < d.exp then Decimal(d.value * expScale, exp)
    else Decimal(d.value, exp)
  }

  function AbsDec(d: Decimal): Decimal {
    Decimal(Abs(d.value), d.exp)
  }

  function Add(d: Decimal, d2: Decimal): Decimal {
    var baseScale := Min(d.exp, d2.exp);
    Decimal(Rescale(d, baseScale).value + Rescale(d2, baseScale).value, baseScale)
  }

  function Sub(d: Decimal, d2: Decimal): Decimal {
    var baseScale := Min(d.exp, d2.exp);
    Decimal(Rescale(d, baseScale).value - Rescale(d2, baseScale).value, baseScale)
  }

  /** Mul panics unless the exponents add up within an int32. */
  predicate MulFits(d: Decimal, d2: Decimal) {
    FitsInt32(d.exp + d2.exp)
  }

  function Mul(d: Decimal, d2: Decimal): Decimal
    requires MulFits(d, d2)
  {
    Decimal(d.value * d2.value, d.exp + d2.exp)
  }

  /** -1, 0 or 1, as the numbers compare. */
  function Cmp(d: Decimal, d2: Decimal): int {
    if d.exp == d2.exp then Sign(d.value - d2.value)
    else
      var baseExp := Min(d.exp, d2.exp);
      Sign(Rescale(d, baseExp).value - Rescale(d2, baseExp).value)
  }

  predicate Equal(d: Decimal, d2: Decimal) {
    Cmp(d, d2) == 0
  }

  /** Two's complement arithmetic on 32 bits. */
  function Wrap32(x: int): int {
    (x + 0x8000_0000) % 0x1_0000_0000 - 0x8000_0000
  }

  /** The exponent difference as QuoRem computes it, before it is widened and checked. */
  function ScaleExponent(d: Decimal, d2: Decimal, precision: Places): int {
    Wrap32(Wrap32(d.exp - d2.exp) - -precision)
  }

  /** The int32 arithmetic of QuoRem neither overflows nor panics. */
  predicate QuoRemFits(d: Decimal, d2: Decimal, precision: Places) {
    && FitsInt32(d.exp - d2.exp + precision)
    && (d.exp - d2.exp + precision >= 0 ==> FitsInt32(d2.exp - precision))
  }

  /** Quotient (a multiple of 10^-precision) and remainder. */
  function QuoRem(d: Decimal, d2: Decimal, precision: Places): (Decimal, Decimal)
    requires d2.value != 0 && QuoRemFits(d, d2, precision)
  {
    var scale := -precision;
    var e := d.exp - d2.exp - scale;
    if e < 0 then
      var bb := d2.value * Ten(-e);
      MulNonZero(d2.value, Ten(-e));
      (Decimal(Quo(d.value, bb), scale), Decimal(Rem(d.value, bb), d.exp))
    else
      var aa := d.value * Ten(e);
      (Decimal(Quo(aa, d2.value), scale), Decimal(Rem(aa, d2.value), scale + d2.exp))
  }

  lemma MulNonZero(x: int, y: int)
    requires x != 0 && y >= 1
    ensures x * y != 0
    ensures Abs(x * y) == Abs(x) * y
    ensures x * y < 0 <==> x < 0
  {
  }

  predicate DivFits(d: Decimal, d2: Decimal, precision: Places) {
    && QuoRemFits(d, d2, precision)
    && (d.exp - d2.exp + precision < 0 ==> FitsInt32(d.exp + precision))
  }

  /** Division rounded to a multiple of 10^-precision. */
  function DivRound(d: Decimal, d2: Decimal, precision: Places): Decimal
    requires d2.value != 0 && DivFits(d, d2, precision)
  {
    var (q, r) := QuoRem(d, d2, precision);
    var rv2 := 2 * Abs(r.value);
    var r2 := Decimal(rv2, r.exp + precision);
    var c := Cmp(r2, AbsDec(d2));
    if c < 0 then q
    else if Sign(d.value) * Sign(d2.value) < 0 then Sub(q, Decimal(1, -precision))
    else Add(q, Decimal(1, -precision))
  }

  /** Div is DivRound at the package's DivisionPrecision, here a parameter. */
  function Div(d: Decimal, d2: Decimal, divisionPrecision: Places): Decimal
    requires d2.value != 0 && DivFits(d, d2, divisionPrecision)
  {
    DivRound(d, d2, divisionPrecision)
  }

  function Truncate(d: Decimal, precision: Places): Decimal {
    if precision >= 0 && -precision > d.exp then Rescale(d, -precision) else d
  }

  predicate ModFits(d: Decimal, d2: Decimal, divisionPrecision: Places) {
    && DivFits(d, d2, divisionPrecision)
    && FitsInt32(d2.exp - if divisionPrecision > 0 then 0 else divisionPrecision)
  }

  function Mod(d: Decimal, d2: Decimal, divisionPrecision: Places): Decimal
    requires d2.value != 0 && ModFits(d, d2, divisionPrecision)
  {
    DivRoundExp(d, d2, divisionPrecision);
    var quo := Truncate(Div(d, d2, divisionPrecision), 0);
    Sub(d, Mul(d2, quo))
  }

  /** Every quotient carries exactly the requested number of places. */
  lemma DivRoundExp(d: Decimal, d2: Decimal, precision: Places)
    requires d2.value != 0 && DivFits(d, d2, precision)
    ensures DivRound(d, d2, precision).exp == -precision
  {
  }

  /** big.Int.Int64: the low 64 bits, as a signed number. */
  function ToInt64(x: int): int {
    (x + 0x8000_0000_0000_0000) % 0x1_0000_0000_0000_0000 - 0x8000_0000_0000_0000
  }

  function IntPart(d: Decimal): int {
    ToInt64(Rescale(d, 0).value)
  }
}
