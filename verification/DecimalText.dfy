/** The printer and parser of decimals. */
module DecimalText {
  import opened Wrappers
  import opened IntMath
  import opened StrConv
  import opened DecimalModel
  import opened DecimalLaws
  import opened DecimalRounding

  // ----- printing ----------------------------------------------------------

  /** The digits before and after the point of a coefficient scaled by 10^-k. */
  function Parts(a: nat, k: nat): (p: (string, string))
    ensures |p.0| >= 1 && |p.1| == k && AllDigits(p.0) && AllDigits(p.1)
  {
    var str := Digits(a);
    if |str| > k then (str[..|str| - k], str[|str| - k..])
    else ("0", Zeros(k - |str|) + str)
  }

  function Joined(intPart: string, fractionalPart: string): string {
    if |fractionalPart| > 0 then intPart + "." + fractionalPart else intPart
  }

  /** The text of d, with or without the zeros at the end of its fraction. */
  function DecString(d: Decimal, trimTrailingZeros: bool): string {
    if d.exp >= 0 then IntString(Rescale(d, 0).value)
    else
      var (intPart, full) := Parts(Abs(d.value), -(d.exp as int));
      var number := Joined(intPart, if trimTrailingZeros then TrimZeros(full) else full);
      if d.value < 0 then "-" + number else number
  }

  /** The printer as the program runs it. */
  method String(d: Decimal, trimTrailingZeros: bool) returns (text: string)
    ensures text == DecString(d, trimTrailingZeros)
  {
    hide Digits, TrimZeros, Zeros, Ten, Quo, AllDigits;
    if d.exp >= 0 {
      return IntString(Rescale(d, 0).value);
    }
    var str := Digits(Abs(d.value));
    var intPart, fractionalPart;
    var dExpInt: int := d.exp;
    if |str| > -dExpInt {
      intPart, fractionalPart := str[..|str| + dExpInt], str[|str| + dExpInt..];
    } else {
      intPart := "0";
      var num0s := -dExpInt - |str|;
      fractionalPart := Zeros(num0s) + str;
    }
    assert (intPart, fractionalPart) == Parts(Abs(d.value), -dExpInt);
    ghost var full := fractionalPart;
    if trimTrailingZeros {
      var i := |fractionalPart| - 1;
      assert fractionalPart[..i + 1] == fractionalPart;
      while i >= 0
        invariant -1 <= i < |fractionalPart|
        invariant TrimZeros(fractionalPart[..i + 1]) == TrimZeros(fractionalPart)
        decreases i
      {
        TrimStep(fractionalPart, i);
        if fractionalPart[i] != '0' {
          break;
        }
        i := i - 1;
      }
      TrimStop(fractionalPart[..i + 1]);
      fractionalPart := fractionalPart[..i + 1];
    }
    var number := intPart;
    if |fractionalPart| > 0 {
      number := number + "." + fractionalPart;
    }
    assert number == Joined(intPart, if trimTrailingZeros then TrimZeros(full) else full);
    if d.value < 0 {
      return "-" + number;
    }
    return number;
  }

  lemma TrimStep(s: string, i: nat)
    requires i < |s|
    ensures s[i] == '0' ==> TrimZeros(s[..i + 1]) == TrimZeros(s[..i])
    ensures s[i] != '0' ==> TrimZeros(s[..i + 1]) == s[..i + 1]
  {
    assert s[..i + 1][..i] == s[..i];
  }

  lemma TrimStop(s: string)
    ensures s == "" ==> TrimZeros(s) == s
  {
  }

  // ----- parsing -----------------------------------------------------------

  datatype ParseError = FractionTooLong | ExponentNotNumeric | TooManyDots | NotADecimal

  datatype Result<+T, +E> = Ok(value: T) | Err(error: E)

  /** The mantissa text and the exponent written after it, if any. */
  function SplitExponent(value: string): Result<(string, int), ParseError> {
    var eIndex := IndexAny(value, {'E', 'e'});
    if eIndex == -1 then Ok((value, 0))
    else
      match ParseInt(value[eIndex + 1..], 32)
      case Parsed(n) => Ok((value[..eIndex], n))
      case RangeError => Err(FractionTooLong)
      case SyntaxError => Err(ExponentNotNumeric)
  }

  function NewFromString(value: string): Result<Decimal, ParseError> {
    match SplitExponent(value)
    case Err(e) => Err(e)
    case Ok((mantissa, exp)) =>
      var parts := Split(mantissa, '.');
      if |parts| > 2 then Err(TooManyDots)
      else
        var decimalPart := if |parts| == 2 then TrimZeros(parts[1]) else "";
        var intString := if |parts| == 2 then parts[0] + decimalPart else mantissa;
        match SetString(intString)
        case None => Err(NotADecimal)
        case Some(n) =>
          if FitsInt32(exp - |decimalPart|) then Ok(Decimal(n, exp - |decimalPart|)) else Err(FractionTooLong)
  }

  // ----- parsing inverts printing ------------------------------------------

  /** The digits on both sides of the point make up the coefficient. */
  lemma PartsNumber(a: nat, k: nat)
    ensures var p := Parts(a, k); AllDigits(p.0 + p.1) && Number(p.0 + p.1) == a
  {
    var str := Digits(a);
    var p := Parts(a, k);
    if |str| > k {
      assert p.0 + p.1 == str;
    } else {
      LeadingZeros(k - |str| + 1, str);
      assert p.0 + p.1 == Zeros(k - |str| + 1) + str;
    }
  }

  /** Dropping zeros at the end divides by a power of ten. */
  lemma TrimmedNumber(intPart: string, full: string)
    requires AllDigits(intPart) && AllDigits(full)
    ensures var f := TrimZeros(full);
      && AllDigits(intPart + f) && AllDigits(intPart + full)
      && Number(intPart + full) == Number(intPart + f) * Ten(|full| - |f|)
  {
    hide TrimZeros, Number, Ten;
    var f := TrimZeros(full);
    TrimmedWereZeros(full);
    TrailingZeros(intPart + f, |full| - |f|);
    assert intPart + f + Zeros(|full| - |f|) == intPart + full;
  }

  /** Parsing an optional minus, digits, and a fraction of digits. */
  lemma ParsePlain(sign: string, intPart: string, shown: string)
    requires sign in {"", "-"}
    requires |intPart| >= 1 && AllDigits(intPart) && AllDigits(shown) && |TrimZeros(shown)| <= 0x8000_0000
    ensures AllDigits(intPart + TrimZeros(shown))
    ensures var n: int := Number(intPart + TrimZeros(shown));
      NewFromString(sign + Joined(intPart, shown)) ==
      Ok(Decimal(if sign == "-" then -n else n, -(|TrimZeros(shown)| as int)))
  {
    hide TrimZeros, Split, SetString, SplitExponent, Number, AllDigits, NewFromString;
    var text := sign + Joined(intPart, shown);
    var f := TrimZeros(shown);
    TrimEmpty();
    TrimKeepsDigits(shown);
    DigitsJoin(intPart, f);
    NoExponent(sign, intPart, shown);
    SplitJoined(sign, intPart, shown);
    SignedNumber(sign, intPart + f);
    if shown == "" {
      assert intPart + f == intPart && text == sign + intPart;
      ParseWhole(text, SetString(text).value);
    } else {
      assert (sign + intPart) + f == sign + (intPart + f);
      ParseParts(text, sign + intPart, shown, SetString(sign + intPart + f).value);
    }
  }

  lemma ParseWhole(text: string, n: int)
    requires SplitExponent(text) == Ok((text, 0)) && Split(text, '.') == [text] && SetString(text) == Some(n)
    ensures NewFromString(text) == Ok(Decimal(n, 0))
  {
    hide Split, SetString, SplitExponent, TrimZeros;
  }

  lemma ParseParts(text: string, a: string, b: string, n: int)
    requires SplitExponent(text) == Ok((text, 0)) && Split(text, '.') == [a, b]
    requires SetString(a + TrimZeros(b)) == Some(n) && |TrimZeros(b)| <= 0x8000_0000
    ensures NewFromString(text) == Ok(Decimal(n, -(|TrimZeros(b)| as int)))
  {
    hide Split, SetString, SplitExponent, TrimZeros;
  }

  lemma TrimEmpty()
    ensures TrimZeros("") == ""
  {
  }

  lemma DigitsJoin(s: string, t: string)
    requires AllDigits(s) && AllDigits(t)
    ensures AllDigits(s + t)
  {
  }

  lemma NoExponent(sign: string, intPart: string, shown: string)
    requires sign in {"", "-"} && AllDigits(intPart) && AllDigits(shown)
    ensures SplitExponent(sign + Joined(intPart, shown)) == Ok((sign + Joined(intPart, shown), 0))
  {
    hide AllDigits, IndexAny;
    var text := sign + Joined(intPart, shown);
    DigitsOnly(intPart);
    DigitsOnly(shown);
    assert forall c | c in text :: c in sign || c in intPart || c in shown || c == '.';
    assert 'e' !in text && 'E' !in text;
  }

  lemma DigitsOnly(s: string)
    requires AllDigits(s)
    ensures 'e' !in s && 'E' !in s && '.' !in s && '-' !in s
  {
  }

  lemma SplitJoined(sign: string, intPart: string, shown: string)
    requires sign in {"", "-"} && AllDigits(intPart) && AllDigits(shown)
    ensures Split(sign + Joined(intPart, shown), '.') ==
            if shown == "" then [sign + intPart] else [sign + intPart, shown]
  {
    hide AllDigits, Split;
    DigitsOnly(intPart);
    DigitsOnly(shown);
    if shown == "" {
      SplitWithout(sign + intPart, '.');
    } else {
      assert sign + Joined(intPart, shown) == (sign + intPart) + ['.'] + shown;
      SplitAt(sign + intPart, '.', shown);
      SplitWithout(shown, '.');
    }
  }

  lemma SignedNumber(sign: string, digits: string)
    requires sign in {"", "-"} && |digits| >= 1 && AllDigits(digits)
    ensures var n: int := Number(digits);
      SetString(sign + digits) == Some(if sign == "-" then -n else n)
  {
    hide Number;
    assert IsDigit(digits[0]);
    if sign == "-" {
      assert (sign + digits)[1..] == digits;
    } else {
      assert sign + digits == digits;
    }
  }

  /** Every printed decimal is read back as the same number. */
  lemma StringRoundTrip(d: Decimal, trimTrailingZeros: bool)
    ensures NewFromString(DecString(d, trimTrailingZeros)).Ok?
    ensures Val(NewFromString(DecString(d, trimTrailingZeros)).value) == Val(d)
  {
    if d.exp >= 0 {
      WholeRoundTrip(d, trimTrailingZeros);
    } else {
      FractionRoundTrip(d, trimTrailingZeros);
    }
  }

  lemma WholeRoundTrip(d: Decimal, trimTrailingZeros: bool)
    requires d.exp >= 0
    ensures NewFromString(DecString(d, trimTrailingZeros)).Ok?
    ensures Val(NewFromString(DecString(d, trimTrailingZeros)).value) == Val(d)
  {
    hide NewFromString, Number, AllDigits, Digits, Val, Ten;
    var v := Rescale(d, 0).value;
    RescaleDownExact(d, 0);
    var sign := if v < 0 then "-" else "";
    TrimEmpty();
    NoDigits();
    assert Digits(Abs(v)) + "" == Digits(Abs(v));
    assert sign + Joined(Digits(Abs(v)), "") == IntString(v);
    ParsePlain(sign, Digits(Abs(v)), "");
  }

  lemma NoDigits()
    ensures AllDigits("")
  {
  }

  lemma FractionRoundTrip(d: Decimal, trimTrailingZeros: bool)
    requires d.exp < 0
    ensures NewFromString(DecString(d, trimTrailingZeros)).Ok?
    ensures Val(NewFromString(DecString(d, trimTrailingZeros)).value) == Val(d)
  {
    hide NewFromString, TrimZeros, Number, AllDigits, Digits, Val, Ten, Parts;
    var k := -(d.exp as int);
    var a := Abs(d.value);
    var intPart, full := Parts(a, k).0, Parts(a, k).1;
    var shown := if trimTrailingZeros then TrimZeros(full) else full;
    var sign := if d.value < 0 then "-" else "";
    TrimTwice(full);
    TrimKeepsDigits(full);
    assert DecString(d, trimTrailingZeros) == sign + Joined(intPart, shown);
    ParsePlain(sign, intPart, shown);
    TrimmedNumber(intPart, full);
    PartsNumber(a, k);
    var n: int := Number(intPart + TrimZeros(full));
    SignedProduct(n, Ten(|full| - |TrimZeros(full)|), d.value);
    SameNumber(d, if d.value < 0 then -n else n, |TrimZeros(full)|);
  }

  lemma TrimKeepsDigits(s: string)
    requires AllDigits(s)
    ensures AllDigits(TrimZeros(s)) && |TrimZeros(s)| <= |s|
  {
  }

  lemma SignedProduct(n: int, t: int, v: int)
    requires n * t == Abs(v)
    ensures v == (if v < 0 then -n else n) * t
  {
  }

  lemma SameNumber(d: Decimal, n: int, k: int)
    requires 0 <= k <= -(d.exp as int) && d.value == n * Ten(-(d.exp as int) - k)
    ensures Val(Decimal(n, -k)) == Val(d)
  {
    hide Val, Ten;
    RescaleDownExact(Decimal(n, -k), d.exp);
  }

  // ----- the text is canonical ---------------------------------------------

  lemma DigitsTimesTen(a: nat)
    requires a > 0
    ensures Digits(10 * a) == Digits(a) + "0"
  {
  }

  /** One more zero at the end of the coefficient does not change the text. */
  lemma ScaleByTen(v: int, e: int32)
    requires e > MIN_INT32
    ensures DecString(Decimal(v, e), true) == DecString(Decimal(10 * v, e - 1), true)
  {
    hide DecString;
    if e > 0 {
      WholeScaled(v, e);
    } else if e == 0 {
      PointScaled(v);
    } else {
      FractionScaled(v, e);
    }
  }

  lemma PointScaled(v: int)
    ensures DecString(Decimal(v, 0), true) == DecString(Decimal(10 * v, -1), true)
  {
    hide Digits, TrimZeros, Parts, Ten;
    var a: int := Abs(v);
    assert Abs(10 * v) == 10 * a;
    assert Rescale(Decimal(v, 0), 0) == Decimal(v, 0);
    ZeroDigits();
    if a == 0 {
      ZeroParts(1);
    } else {
      DigitsTimesTen(a);
      ScaledParts(a, 1);
    }
  }

  lemma FractionScaled(v: int, e: int32)
    requires MIN_INT32 < e < 0
    ensures DecString(Decimal(v, e), true) == DecString(Decimal(10 * v, e - 1), true)
  {
    hide Digits, TrimZeros, Parts, Rescale;
    var k := 1 - e as int;
    var a: int := Abs(v);
    assert Abs(10 * v) == 10 * a;
    if a == 0 {
      ZeroParts(k);
      ZeroParts(k - 1);
    } else {
      DigitsTimesTen(a);
      ScaledParts(a, k);
    }
  }

  lemma WholeScaled(v: int, e: int32)
    requires e > 0
    ensures DecString(Decimal(v, e), true) == DecString(Decimal(10 * v, e - 1), true)
  {
    hide Ten, Digits;
    RescaleDownExact(Decimal(v, e), 0);
    RescaleDownExact(Decimal(10 * v, e - 1), 0);
    TenTimes(v, e - 1);
    TimesAssoc(v, Ten(e - 1));
  }

  lemma TimesAssoc(v: int, t: int)
    ensures 10 * (v * t) == 10 * v * t
  {
  }

  lemma ZeroDigits()
    ensures Digits(0) == "0"
  {
  }

  lemma ZeroParts(k: nat)
    requires k >= 1
    ensures Parts(0, k).0 == "0" && TrimZeros(Parts(0, k).1) == ""
  {
    ZeroDigits();
    TrimOnlyZeros(k);
    assert Zeros(k - 1) + "0" == Zeros(k);
  }

  lemma ScaledParts(a: nat, k: nat)
    requires k >= 1 && a > 0 && Digits(10 * a) == Digits(a) + "0"
    ensures k == 1 ==> Parts(10 * a, k) == (Digits(a), "0") && TrimZeros("0") == ""
    ensures k > 1 ==> Parts(10 * a, k).0 == Parts(a, k - 1).0
    ensures k > 1 ==> TrimZeros(Parts(10 * a, k).1) == TrimZeros(Parts(a, k - 1).1)
  {
    hide Digits;
    TrimOnlyZeros(1);
    assert Zeros(1) == "0";
    if k > 1 {
      var p, q := Parts(10 * a, k), Parts(a, k - 1);
      TrimSnocZero(q.1);
      assert p.1 == q.1 + "0";
    }
  }

  lemma {:induction false} ScaleByPower(v: int, e: int32, n: nat)
    requires FitsInt32(e - n)
    ensures DecString(Decimal(v, e), true) == DecString(Decimal(v * Ten(n), e - n), true)
  {
    hide DecString, Ten;
    if n == 0 {
      TenZero(v);
    } else {
      ScaleByPower(v, e, n - 1);
      ScaleByTen(v * Ten(n - 1), e - (n - 1));
      TenTimes(v, n - 1);
    }
  }

  /** Two decimals print the same exactly when they stand for the same number. */
  lemma TextIsCanonical(d1: Decimal, d2: Decimal)
    ensures Equal(d1, d2) <==> DecString(d1, true) == DecString(d2, true)
  {
    hide DecString, NewFromString, Ten, TenPow, Val;
    CmpOrders(d1, d2);
    StringRoundTrip(d1, true);
    StringRoundTrip(d2, true);
    if Val(d1) == Val(d2) {
      if d1.exp >= d2.exp {
        SameNumberSameText(d1, d2);
      } else {
        SameNumberSameText(d2, d1);
      }
    }
  }

  lemma SameNumberSameText(d1: Decimal, d2: Decimal)
    requires d1.exp >= d2.exp && Val(d1) == Val(d2)
    ensures DecString(d1, true) == DecString(d2, true)
  {
    hide DecString, Ten, TenPow, Val;
    ValAt(d1, d2.exp);
    ValOf(d2.value, d2.exp);
    OrderAt(At(d1, d2.exp), d2.value, d2.exp, Val(d1), Val(d2));
    ScaleByPower(d1.value, d1.exp, d1.exp - d2.exp);
  }
}
