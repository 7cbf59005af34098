/** What the parser of decimals makes of every text: which are numerals, the number each stands
    for, and the error for every other. */
module DecimalNumerals {
  import opened Wrappers
  import opened IntMath
  import opened StrConv
  import opened NumberTexts
  import opened DecimalModel
  import opened DecimalLaws
  import opened DecimalText

  // ----- a text taken apart ------------------------------------------------

  predicate NoMark(s: string) {
    'e' !in s && 'E' !in s
  }

  predicate NoPoint(s: string) {
    '.' !in s
  }

  /** The parts of a text with at most one point before its exponent: what stands before and after
      the point, the letter that marks the exponent, and what follows it. */
  datatype Cut = Cut(whole: string, point: bool, frac: string, mark: string, expText: string)

  predicate IsCut(p: Cut) {
    && NoMark(p.whole) && NoPoint(p.whole) && NoMark(p.frac) && NoPoint(p.frac) && (!p.point ==> p.frac == "")
    && p.mark in {"", "e", "E"} && (p.mark == "" ==> p.expText == "")
  }

  function Mantissa(p: Cut): string {
    if p.point then p.whole + "." + p.frac else p.whole
  }

  function Text(p: Cut): string {
    Mantissa(p) + p.mark + p.expText
  }

  /** The exponent written in the text: none, or an integer of 32 bits. */
  predicate Exponent(mark: string, expText: string, x: int) {
    if mark == "" then x == 0 else Signed(expText, x) && FitsInt32(x)
  }

  lemma TwoPower31()
    ensures Pow(2, 31) == 0x8000_0000 && Pow(2, 32) == 0x1_0000_0000
  {
    PowAdd(2, 8, 8);
    PowAdd(2, 16, 16);
    PowSucc(2, 31);
  }

  lemma FirstMark(m: string, mark: string, expText: string)
    requires NoMark(m) && mark in {"e", "E"}
    ensures IndexAny(m + mark + expText, {'E', 'e'}) == |m|
  {
    var text := m + mark + expText;
    assert text[|m|] == mark[0] && mark[0] in {'E', 'e'};
    assert forall j :: 0 <= j < |m| ==> text[j] == m[j];
  }

  /** The exponent is cut off at the first mark and read as an integer of 32 bits. */
  lemma ExponentCutOff(m: string, mark: string, expText: string)
    requires NoMark(m) && mark in {"", "e", "E"} && (mark == "" ==> expText == "")
    ensures var r := SplitExponent(m + mark + expText);
      if mark == "" then r == Ok((m, 0))
      else match ParseInt(expText, 32)
        case Parsed(x) => r == Ok((m, x))
        case RangeError => r == Err(FractionTooLong)
        case SyntaxError => r == Err(ExponentNotNumeric)
  {
    hide IndexAny, ParseInt;
    var text := m + mark + expText;
    if mark == "" {
      assert text == m;
    } else {
      FirstMark(m, mark, expText);
      assert text[..|m|] == m && text[|m| + 1..] == expText;
    }
  }

  lemma ExponentRead(m: string, mark: string, expText: string, x: int)
    requires NoMark(m) && mark in {"", "e", "E"} && (mark == "" ==> expText == "") && Exponent(mark, expText, x)
    ensures SplitExponent(m + mark + expText) == Ok((m, x))
  {
    hide SplitExponent, ParseInt, Pow, Signed;
    TwoPower31();
    ParseIntExactly(expText, 32);
    ExponentCutOff(m, mark, expText);
  }

  // ----- errors of the exponent and of the points --------------------------

  /** The digits after the sign overflow, or the number they make leaves 32 bits. */
  ghost predicate TooLarge(s: string) {
    || (exists v :: Signed(s, v) && !FitsInt32(v))
    || Number(Magnitude(s)[..LeadingDigits(Magnitude(s))]) >= 0x1_0000_0000
  }

  /** A marked exponent that is no integer of 32 bits is an error, whatever the mantissa. */
  lemma BadExponent(m: string, mark: string, expText: string)
    requires NoMark(m) && mark in {"e", "E"} && forall x :: !Exponent(mark, expText, x)
    ensures NewFromString(m + mark + expText) == Err(if TooLarge(expText) then FractionTooLong else ExponentNotNumeric)
  {
    hide SplitExponent, ParseInt, Pow, Signed, Number, LeadingDigits;
    TwoPower31();
    ParseIntExactly(expText, 32);
    ExponentCutOff(m, mark, expText);
    forall v ensures ParseInt(expText, 32) != Parsed(v) {
      assert !Exponent(mark, expText, v);
    }
  }

  /** Two points before the exponent are an error. */
  lemma TwoPoints(a: string, b: string, c: string, mark: string, expText: string, x: int)
    requires NoPoint(a) && NoPoint(b) && NoMark(a) && NoMark(b) && NoMark(c)
    requires mark in {"", "e", "E"} && (mark == "" ==> expText == "") && Exponent(mark, expText, x)
    ensures NewFromString(a + "." + b + "." + c + mark + expText) == Err(TooManyDots)
  {
    hide SplitExponent, Split, Exponent, TrimZeros, SetString;
    var m := a + "." + b + "." + c;
    ExponentRead(m, mark, expText, x);
    SplitAt(a, '.', b + "." + c);
    SplitAt(b, '.', c);
    assert m == a + ['.'] + (b + "." + c);
    assert b + "." + c == b + ['.'] + c;
  }

  // ----- numerals ----------------------------------------------------------

  /** A text with at most one point and a proper exponent: the digits are those before the point
      and those after it up to the last that is not zero. They must be an integer, and the exponent
      less the places after the point must fit 32 bits. */
  lemma CutParses(p: Cut, x: int)
    requires IsCut(p) && Exponent(p.mark, p.expText, x)
    ensures var (digits, places) := (p.whole + TrimZeros(p.frac), |TrimZeros(p.frac)|);
      match SetString(digits)
      case None => NewFromString(Text(p)) == Err(NotADecimal)
      case Some(n) =>
        if FitsInt32(x - places) then NewFromString(Text(p)) == Ok(Decimal(n, x - places))
        else NewFromString(Text(p)) == Err(FractionTooLong)
  {
    hide SplitExponent, Split, Exponent, TrimZeros, SetString;
    ExponentRead(Mantissa(p), p.mark, p.expText, x);
    TrimEmpty();
    if p.point {
      SplitAt(p.whole, '.', p.frac);
      SplitWithout(p.frac, '.');
      assert Mantissa(p) == p.whole + ['.'] + p.frac;
    } else {
      SplitWithout(p.whole, '.');
      assert p.whole + "" == p.whole;
    }
  }

  /** A numeral: an optional sign, digits with an optional point among them, an optional exponent.
      In a misplaced one the sign stands after the point. */
  datatype Numeral = Numeral(sign: string, whole: string, point: bool, frac: string, mark: string, expText: string,
                             misplaced: bool)

  function Spelled(n: Numeral): string {
    (if n.misplaced then "." + n.sign + n.frac
     else n.sign + n.whole + if n.point then "." + n.frac else "") + n.mark + n.expText
  }

  predicate WellFormed(n: Numeral, x: int) {
    && n.sign in {"", "+", "-"} && AllDigits(n.whole) && AllDigits(n.frac) && (!n.point ==> n.frac == "")
    && (n.misplaced ==> n.point && n.whole == "" && n.sign != "")
    && n.mark in {"", "e", "E"} && (n.mark == "" ==> n.expText == "") && Exponent(n.mark, n.expText, x)
  }

  /** What the sign and the digits stand for. */
  function Coefficient(n: Numeral): int
    requires AllDigits(n.whole + n.frac)
  {
    var v: int := Number(n.whole + n.frac);
    if n.sign == "-" then -v else v
  }

  /** The places after the point; a misplaced sign is taken for one. */
  function Places(n: Numeral): nat {
    |n.frac| + if n.misplaced then 1 else 0
  }

  function Trailing(n: Numeral): nat {
    |n.frac| - |TrimZeros(n.frac)|
  }

  /** There is a digit before the point, or one after it that is not zero. */
  predicate HasDigits(n: Numeral) {
    n.whole != "" || TrimZeros(n.frac) != ""
  }

  function CutOf(n: Numeral): Cut {
    if n.misplaced then Cut("", true, n.sign + n.frac, n.mark, n.expText)
    else Cut(n.sign + n.whole, n.point, n.frac, n.mark, n.expText)
  }

  lemma CutOfNumeral(n: Numeral, x: int)
    requires WellFormed(n, x)
    ensures IsCut(CutOf(n)) && Text(CutOf(n)) == Spelled(n)
    ensures Exponent(CutOf(n).mark, CutOf(n).expText, x)
  {
    hide AllDigits, Exponent;
    DigitsOnly(n.whole);
    DigitsOnly(n.frac);
    var p := CutOf(n);
    assert forall c | c in p.whole :: c in n.sign || c in n.whole;
    assert forall c | c in p.frac :: c in n.sign || c in n.frac;
    if n.misplaced {
      assert "" + "." + (n.sign + n.frac) == "." + n.sign + n.frac;
    } else if n.point {
      assert n.sign + n.whole + "." + n.frac == n.sign + n.whole + ("." + n.frac);
    } else {
      assert n.sign + n.whole + "" == n.sign + n.whole;
    }
  }

  lemma {:induction false} TrimSigned(sign: string, frac: string)
    requires '0' !in sign
    ensures TrimZeros(sign + frac) == sign + TrimZeros(frac)
    decreases |frac|
  {
    if |frac| > 0 && frac[|frac| - 1] == '0' {
      TrimSigned(sign, frac[..|frac| - 1]);
      assert (sign + frac)[..|sign + frac| - 1] == sign + frac[..|frac| - 1];
    } else if |frac| == 0 {
      assert sign + frac == sign;
    }
  }

  /** The digits the parser puts together are those of the numeral. */
  lemma DigitsOfNumeral(n: Numeral, x: int)
    requires WellFormed(n, x)
    ensures var (p, kept) := (CutOf(n), TrimZeros(n.frac));
      && p.whole + TrimZeros(p.frac) == n.sign + (n.whole + kept)
      && |TrimZeros(p.frac)| == Places(n) - Trailing(n)
  {
    hide AllDigits, Exponent, TrimZeros;
    TrimSigned(n.sign, n.frac);
    assert (n.sign + n.whole) + TrimZeros(n.frac) == n.sign + (n.whole + TrimZeros(n.frac));
    assert n.misplaced ==> |n.sign| == 1;
    assert "" + (n.sign + TrimZeros(n.frac)) == n.sign + TrimZeros(n.frac);
    assert n.misplaced ==> n.whole + TrimZeros(n.frac) == TrimZeros(n.frac);
  }

  /** The number a numeral stands for: its signed digits times ten to its exponent less the places
      after the point. It must have a digit that counts, and the exponent less the places it keeps
      must fit 32 bits. */
  lemma NumeralParses(n: Numeral, x: int)
    requires WellFormed(n, x)
    ensures var r := NewFromString(Spelled(n));
      if !HasDigits(n) then r == Err(NotADecimal)
      else if !FitsInt32(x - Places(n) + Trailing(n)) then r == Err(FractionTooLong)
      else r.Ok? && r.value.exp == x - Places(n) + Trailing(n)
    ensures HasDigits(n) && FitsInt32(x - Places(n) + Trailing(n)) ==>
      && NewFromString(Spelled(n)).Ok?
      && AllDigits(n.whole + n.frac)
      && Val(NewFromString(Spelled(n)).value) == Coefficient(n) as real * TenPow(x - Places(n))
  {
    hide *;
    NumeralRead(n, x);
    KeptDigits(n, x);
    if HasDigits(n) && FitsInt32(x - Places(n) + Trailing(n)) {
      ShiftedVal(SetString(n.sign + (n.whole + TrimZeros(n.frac))).value, x - Places(n), Trailing(n));
    }
  }

  lemma NumeralRead(n: Numeral, x: int)
    requires WellFormed(n, x)
    ensures var (v, exp) := (SetString(n.sign + (n.whole + TrimZeros(n.frac))), x - Places(n) + Trailing(n));
      NewFromString(Spelled(n)) ==
      if v.None? then Err(NotADecimal)
      else if FitsInt32(exp) then Ok(Decimal(v.value, exp)) else Err(FractionTooLong)
  {
    hide *;
    CutOfNumeral(n, x);
    DigitsOfNumeral(n, x);
    CutParses(CutOf(n), x);
  }

  /** Without the zeros at its end the coefficient is that much smaller. */
  lemma KeptDigits(n: Numeral, x: int)
    requires WellFormed(n, x)
    ensures AllDigits(n.whole + n.frac)
    ensures var r := SetString(n.sign + (n.whole + TrimZeros(n.frac)));
      if HasDigits(n) then r.Some? && Coefficient(n) == r.value * Ten(Trailing(n)) else r.None?
  {
    hide TrimZeros, Number, Exponent, Ten, SetString, AllDigits;
    var kept := TrimZeros(n.frac);
    var digits := n.whole + kept;
    TrimmedNumber(n.whole, n.frac);
    if HasDigits(n) {
      AnySign(n.sign, digits);
      SignTimes(Number(digits), Ten(Trailing(n)));
    } else {
      assert digits == "" && n.sign + digits == n.sign;
      SignAlone(n.sign);
    }
  }

  lemma SignAlone(sign: string)
    requires sign in {"", "+", "-"}
    ensures SetString(sign).None?
  {
  }

  lemma SignTimes(a: int, t: int)
    ensures -(a * t) == (-a) * t
  {
  }

  lemma AnySign(sign: string, digits: string)
    requires sign in {"", "+", "-"} && Unsigned(digits)
    ensures var v: int := Number(digits); SetString(sign + digits) == Some(if sign == "-" then -v else v)
  {
    hide Number;
    if sign == "" {
      assert sign + digits == digits;
    } else {
      assert (sign + digits)[1..] == digits;
    }
  }

  lemma ShiftedVal(v: int, e: int, n: nat)
    requires FitsInt32(e + n)
    ensures Val(Decimal(v, e + n)) == (v * Ten(n)) as real * TenPow(e)
  {
    hide Ten, TenPow;
    TenPowAddNat(e, n);
    RealProduct(v, Ten(n));
    RCommute(v as real, TenPow(e), Ten(n) as real);
  }

  // ----- every other text --------------------------------------------------

  ghost predicate TwoPointed(text: string, i: nat, j: nat, m: nat) {
    i < j < m <= |text| && text[i] == '.' && text[j] == '.' && NoMark(text[..m])
  }

  /** Where the mantissa ends. */
  function MarkAt(text: string): (m: nat)
    ensures m <= |text| && NoMark(text[..m])
    ensures m < |text| ==> text[m] in {'e', 'E'}
  {
    var i := IndexAny(text, {'E', 'e'});
    if i == -1 then |text| else i
  }

  function MarkOf(text: string): string {
    if MarkAt(text) < |text| then [text[MarkAt(text)]] else ""
  }

  function ExponentOf(text: string): string {
    if MarkAt(text) < |text| then text[MarkAt(text) + 1..] else ""
  }

  lemma MarkCuts(text: string)
    ensures text == text[..MarkAt(text)] + MarkOf(text) + ExponentOf(text)
    ensures MarkOf(text) in {"", "e", "E"} && (MarkOf(text) == "" ==> ExponentOf(text) == "")
  {
  }

  function PointAt(s: string): (i: nat)
    ensures i <= |s| && NoPoint(s[..i])
    ensures i < |s| ==> s[i] == '.'
  {
    var i := IndexAny(s, {'.'});
    if i == -1 then |s| else i
  }

  lemma AtPoint(mantissa: string, i: nat, rest: string)
    requires i < |mantissa| && mantissa[i] == '.' && rest == mantissa[i + 1..] && NoMark(mantissa)
    ensures mantissa == mantissa[..i] + "." + rest && NoMark(mantissa[..i]) && NoMark(rest)
    ensures forall k :: 0 <= k < |rest| ==> rest[k] == mantissa[i + 1 + k]
  {
  }

  lemma SecondPoint(text: string, m: nat, i: nat, j: nat)
    requires m <= |text| && NoMark(text[..m]) && i < j < m && text[..m][i] == '.' && text[..m][j] == '.'
    ensures TwoPointed(text, i, j, m)
  {
  }

  /** Every text has at most one point before its exponent, or two. */
  lemma TakeApart(text: string) returns (p: Cut)
    ensures p.mark == MarkOf(text) && p.expText == ExponentOf(text)
    ensures (IsCut(p) && Text(p) == text) || exists i: nat, j: nat :: TwoPointed(text, i, j, MarkAt(text))
  {
    hide MarkAt, MarkOf, ExponentOf, PointAt, NoMark, NoPoint;
    var m := MarkAt(text);
    var mantissa := text[..m];
    var i := PointAt(mantissa);
    MarkCuts(text);
    if i == m {
      p := Cut(mantissa, false, "", MarkOf(text), ExponentOf(text));
      WholeSlice(mantissa);
      NothingIn();
    } else {
      var rest := mantissa[i + 1..];
      p := Cut(mantissa[..i], true, rest, MarkOf(text), ExponentOf(text));
      AtPoint(mantissa, i, rest);
      WholeSlice(rest);
      if PointAt(rest) < |rest| {
        SecondPoint(text, m, i, i + 1 + PointAt(rest));
      }
    }
  }

  lemma WholeSlice(s: string)
    ensures s[..|s|] == s
  {
  }

  lemma NothingIn()
    ensures NoMark("") && NoPoint("")
  {
  }

  lemma TwoPointsBeforeMark(text: string, i: nat, j: nat, x: int)
    requires TwoPointed(text, i, j, MarkAt(text)) && Exponent(MarkOf(text), ExponentOf(text), x)
    ensures NewFromString(text) == Err(TooManyDots)
  {
    hide Exponent, NewFromString;
    MarkCuts(text);
    var m := text[..MarkAt(text)];
    var a, b, c := CutTwice(m, i, j);
    TwoPoints(a, b, c, MarkOf(text), ExponentOf(text), x);
  }

  lemma CutTwice(m: string, i: nat, j: nat) returns (a: string, b: string, c: string)
    requires i < j < |m| && m[i] == '.' && m[j] == '.' && NoMark(m)
    ensures m == a + "." + b + "." + c
    ensures NoPoint(a) && NoPoint(b) && NoMark(a) && NoMark(b) && NoMark(c)
  {
    hide NoMark, NoPoint, PointAt;
    var k := PointBefore(m, i);
    var rest := m[k + 1..];
    AtPoint(m, k, rest);
    assert rest[j - k - 1] == '.';
    var l := PointBefore(rest, j - k - 1);
    AtPoint(rest, l, rest[l + 1..]);
    a, b, c := m[..k], rest[..l], rest[l + 1..];
    ThreeParts(a, b, c);
  }

  lemma ThreeParts(a: string, b: string, c: string)
    ensures a + "." + (b + "." + c) == a + "." + b + "." + c
  {
  }

  lemma PointBefore(s: string, i: nat) returns (k: nat)
    requires i < |s| && s[i] == '.'
    ensures k <= i && s[k] == '.' && NoPoint(s[..k])
  {
    k := PointAt(s);
    assert forall l :: 0 <= l < k ==> s[l] in s[..k];
  }

  /** Trailing zeros do not matter to a fraction's being digits. */
  lemma ZerosAreDigits(frac: string, from: nat)
    requires from <= |TrimZeros(frac)| && AllDigits(TrimZeros(frac)[from..])
    ensures AllDigits(frac[from..])
  {
    hide TrimZeros;
    TrimmedWereZeros(frac);
    var t := TrimZeros(frac);
    forall i | from <= i < |frac| ensures IsDigit(frac[i]) {
      if i < |t| {
        assert t[from..][i - from] == frac[i];
      }
    }
  }

  lemma WholeSigned(p: Cut, x: int, v: int) returns (n: Numeral)
    requires IsCut(p) && Exponent(p.mark, p.expText, x) && Signed(p.whole + TrimZeros(p.frac), v) && p.whole != ""
    ensures WellFormed(n, x) && Spelled(n) == Text(p) && HasDigits(n)
  {
    hide Exponent, TrimZeros, Number, AllDigits, Signed, Unsigned;
    var t := TrimZeros(p.frac);
    var sign, w := SignApart(p.whole, t, v);
    n := Numeral(sign, w, p.point, p.frac, p.mark, p.expText, false);
    assert t[0..] == t && p.frac[0..] == p.frac;
    ZerosAreDigits(p.frac, 0);
    SpelledWhole(p, n);
  }

  lemma SpelledWhole(p: Cut, n: Numeral)
    requires !n.misplaced && p.whole == n.sign + n.whole && p == Cut(p.whole, n.point, n.frac, n.mark, n.expText)
    ensures Spelled(n) == Text(p)
  {
    assert n.sign + n.whole + "." + n.frac == n.sign + n.whole + ("." + n.frac);
    assert n.sign + n.whole + "" == n.sign + n.whole;
  }

  /** The sign in front of digits, the first of which belong to whole. */
  lemma SignApart(whole: string, t: string, v: int) returns (sign: string, w: string)
    requires Signed(whole + t, v) && whole != ""
    ensures sign in {"", "+", "-"} && whole == sign + w && AllDigits(w) && AllDigits(t) && (w != "" || t != "")
  {
    hide Number;
    assert (whole + t)[0] == whole[0];
    if IsDigit(whole[0]) {
      sign, w := "", whole;
    } else {
      sign, w := [whole[0]], whole[1..];
      assert (whole + t)[1..] == w + t;
    }
    DigitsApart(w, t);
  }

  lemma DigitsApart(w: string, t: string)
    requires AllDigits(w + t)
    ensures AllDigits(w) && AllDigits(t)
  {
    assert forall i :: 0 <= i < |w| ==> w[i] == (w + t)[i];
    assert forall i :: 0 <= i < |t| ==> t[i] == (w + t)[|w| + i];
  }

  lemma FracSigned(p: Cut, x: int, v: int) returns (n: Numeral)
    requires IsCut(p) && Exponent(p.mark, p.expText, x) && Signed(TrimZeros(p.frac), v) && p.whole == ""
    ensures WellFormed(n, x) && Spelled(n) == Text(p) && HasDigits(n)
  {
    hide Exponent, TrimZeros, Number;
    var t := TrimZeros(p.frac);
    if IsDigit(t[0]) {
      n := Numeral("", "", true, p.frac, p.mark, p.expText, false);
      assert Unsigned(t);
      NoDigits();
      assert t[0..] == t && p.frac[0..] == p.frac;
      ZerosAreDigits(p.frac, 0);
      assert "" + "" + ("." + p.frac) == "" + "." + p.frac;
    } else {
      var sign, f := p.frac[..1], p.frac[1..];
      n := Numeral(sign, "", true, f, p.mark, p.expText, true);
      assert t[0] == p.frac[0] && sign == [t[0]];
      NoDigits();
      ZerosAreDigits(p.frac, 1);
      assert p.frac == sign + f;
      TrimSigned(sign, f);
      assert "." + sign + f == "" + "." + p.frac;
    }
  }

  /** The numeral a cut text is, if its digits are an integer. */
  lemma NumeralOfCut(p: Cut, x: int, v: int) returns (n: Numeral)
    requires IsCut(p) && Exponent(p.mark, p.expText, x) && Signed(p.whole + TrimZeros(p.frac), v)
    ensures WellFormed(n, x) && Spelled(n) == Text(p) && HasDigits(n)
  {
    hide *;
    if p.whole == "" {
      assert p.whole + TrimZeros(p.frac) == TrimZeros(p.frac);
      n := FracSigned(p, x, v);
    } else {
      n := WholeSigned(p, x, v);
    }
  }

  ghost predicate Accepted(text: string, n: Numeral, x: int) {
    Spelled(n) == text && WellFormed(n, x) && HasDigits(n) && FitsInt32(x - Places(n) + Trailing(n))
  }

  /** The parser accepts exactly the numerals with a digit that counts and an exponent that fits. */
  lemma ParsesExactly(text: string)
    ensures NewFromString(text).Ok? <==> exists n: Numeral, x: int :: Accepted(text, n, x)
  {
    if n: Numeral, x: int :| Accepted(text, n, x) {
      NumeralParses(n, x);
    }
    if NewFromString(text).Ok? {
      var n, x := AcceptedNumeral(text);
    }
  }

  lemma AcceptedNumeral(text: string) returns (n: Numeral, x: int)
    requires NewFromString(text).Ok?
    ensures Accepted(text, n, x)
  {
    hide NewFromString, Exponent, TrimZeros, Signed, SetString;
    var p := TakeApart(text);
    x := ExponentOfAccepted(text);
    if !(IsCut(p) && Text(p) == text) {
      var i: nat, j: nat :| TwoPointed(text, i, j, MarkAt(text));
      TwoPointsBeforeMark(text, i, j, x);
      assert false;
    }
    CutParses(p, x);
    var v := SetString(p.whole + TrimZeros(p.frac)).value;
    SetStringExactly(p.whole + TrimZeros(p.frac), v);
    n := NumeralOfCut(p, x, v);
    NumeralParses(n, x);
  }

  lemma ExponentOfAccepted(text: string) returns (x: int)
    requires NewFromString(text).Ok?
    ensures Exponent(MarkOf(text), ExponentOf(text), x)
  {
    hide NewFromString, Exponent;
    MarkCuts(text);
    if MarkOf(text) == "" {
      x := 0;
      NoExponentMark(ExponentOf(text));
    } else {
      if forall y :: !Exponent(MarkOf(text), ExponentOf(text), y) {
        BadExponent(text[..MarkAt(text)], MarkOf(text), ExponentOf(text));
        assert false;
      }
      x :| Exponent(MarkOf(text), ExponentOf(text), x);
    }
  }

  lemma NoExponentMark(expText: string)
    ensures Exponent("", expText, 0)
  {
  }

  lemma SmallTexts()
    ensures TrimZeros("0") == "" && TrimZeros("-5") == "-5"
    ensures SetString("") == None && SetString("-5") == Some(-5)
  {
    assert "0"[..0] == "" && "-5"[1..] == "5";
    OneDigit('5');
  }

  /** Two texts that are not what they seem: a fraction of zeros alone is refused, and a sign after
      the point is accepted, taking up a place. */
  lemma OddTexts()
    ensures NewFromString(".0") == Err(NotADecimal)
    ensures NewFromString(".-5") == Ok(Decimal(-5, -2))
  {
    hide NewFromString, TrimZeros, SetString, Number;
    var zero := Cut("", true, "0", "", "");
    var signed := Cut("", true, "-5", "", "");
    assert Text(zero) == ".0" && Text(signed) == ".-5";
    SmallTexts();
    assert "" + "" == "" && "" + "-5" == "-5";
    CutParses(zero, 0);
    CutParses(signed, 0);
  }

  // ----- what is printed ---------------------------------------------------

  /** The printed form: a whole number without point or leading zeros; otherwise a minus exactly
      for a negative coefficient, digits without leading zeros, and all places after the point, or
      with trimming those up to the last that is not zero. */
  lemma PrintedForm(d: Decimal, trimTrailingZeros: bool) returns (whole: string, frac: string)
    ensures d.exp >= 0 ==> Plain(DecString(d, trimTrailingZeros), d.value * Ten(d.exp))
    ensures d.exp < 0 ==>
      && Unsigned(whole) && (|whole| > 1 ==> whole[0] != '0')
      && AllDigits(frac) && |frac| == -(d.exp as int)
      && AllDigits(whole + frac) && Number(whole + frac) == Abs(d.value)
    ensures d.exp < 0 ==>
      var shown := if trimTrailingZeros then TrimZeros(frac) else frac;
      DecString(d, trimTrailingZeros) ==
      (if d.value < 0 then "-" else "") + whole + if shown == "" then "" else "." + shown
  {
    hide Number, AllDigits, TrimZeros, Ten, Digits, Parts, Joined, Plain, Rescale;
    if d.exp >= 0 {
      whole, frac := "", "";
      RescaleDownExact(d, 0);
      IntStringExactly(d.value * Ten(d.exp), DecString(d, trimTrailingZeros));
    } else {
      whole, frac := PrintedParts(Abs(d.value), -(d.exp as int));
      JoinedText(if d.value < 0 then "-" else "", whole, if trimTrailingZeros then TrimZeros(frac) else frac);
    }
  }

  lemma JoinedText(sign: string, whole: string, shown: string)
    ensures sign + Joined(whole, shown) == sign + whole + if shown == "" then "" else "." + shown
    ensures "" + Joined(whole, shown) == Joined(whole, shown)
  {
    assert sign + (whole + "." + shown) == sign + whole + ("." + shown);
  }

  lemma PrintedParts(a: nat, k: nat) returns (whole: string, frac: string)
    requires k > 0
    ensures Parts(a, k) == (whole, frac) && Unsigned(whole) && (|whole| > 1 ==> whole[0] != '0')
    ensures AllDigits(frac) && |frac| == k && AllDigits(whole + frac) && Number(whole + frac) == a
  {
    hide Number, AllDigits, Digits;
    PartsNumber(a, k);
    DigitsPlain(a);
    whole, frac := Parts(a, k).0, Parts(a, k).1;
  }
}
