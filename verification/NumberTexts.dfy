/** Exactly which texts stand for which integers, and what the parsers answer on every text. */
module NumberTexts {
  import opened Wrappers
  import opened IntMath
  import opened StrConv

  /** Digits, at least one. */
  predicate Unsigned(s: string) {
    |s| >= 1 && AllDigits(s)
  }

  /** An optional sign and digits standing for v. */
  predicate Signed(s: string, v: int) {
    || (Unsigned(s) && v == Number(s))
    || (|s| > 1 && s[0] == '+' && Unsigned(s[1..]) && v == Number(s[1..]))
    || (|s| > 1 && s[0] == '-' && Unsigned(s[1..]) && -v == Number(s[1..]))
  }

  /** The decimal form of v: a minus exactly if v is negative, no plus, no leading zero. */
  predicate Plain(s: string, v: int) {
    var digits := if v < 0 && |s| > 0 then s[1..] else s;
    && (v < 0 ==> |s| > 0 && s[0] == '-')
    && Unsigned(digits) && Number(digits) == Abs(v)
    && (|digits| > 1 ==> digits[0] != '0')
  }

  // ----- printing ----------------------------------------------------------

  lemma {:induction false} DigitsPlain(n: nat)
    ensures |Digits(n)| > 1 ==> Digits(n)[0] != '0'
    ensures n > 0 ==> Digits(n)[0] != '0'
  {
    if n >= 10 {
      DigitsPlain(n / 10);
      assert Digits(n)[0] == Digits(n / 10)[0];
    }
  }

  /** A number has one string of digits without leading zeros. */
  lemma {:induction false} DigitsUnique(s: string)
    requires Unsigned(s) && (|s| > 1 ==> s[0] != '0')
    ensures s == Digits(Number(s))
    decreases |s|
  {
    hide Digits, Number;
    if |s| == 1 {
      OneDigit(s[0]);
      assert s == [s[0]];
    } else {
      var front, last := s[..|s| - 1], s[|s| - 1];
      assert s == front + [last];
      DigitsUnique(front);
      NumberPositive(front);
      NumberSnoc(front, last);
      DigitsSnoc(Number(front), last);
    }
  }

  lemma OneDigit(c: char)
    requires IsDigit(c)
    ensures Number([c]) == DigitVal(c) && Digits(DigitVal(c)) == [c]
  {
    assert Number([c][..0]) == 0;
  }

  lemma DigitsSnoc(n: nat, c: char)
    requires n > 0 && IsDigit(c)
    ensures Digits(n * 10 + DigitVal(c)) == Digits(n) + [c]
  {
    hide AllDigits, Number;
    var m := n * 10 + DigitVal(c);
    DigitsOf(m);
    assert m / 10 == n && m % 10 == DigitVal(c);
    assert DigitChar(DigitVal(c)) == c;
  }

  lemma DigitsOf(m: nat)
    requires m >= 10
    ensures Digits(m) == Digits(m / 10) + [DigitChar(m % 10)]
  {
  }

  lemma {:induction false} NumberPositive(s: string)
    requires Unsigned(s) && s[0] != '0'
    ensures Number(s) > 0
    decreases |s|
  {
    hide Number;
    if |s| == 1 {
      OneDigit(s[0]);
      assert s == [s[0]];
    } else {
      NumberPositive(s[..|s| - 1]);
      NumberSnoc(s[..|s| - 1], s[|s| - 1]);
      assert s == s[..|s| - 1] + [s[|s| - 1]];
    }
  }

  /** An integer is printed in its decimal form, and no other text is that form. */
  lemma IntStringExactly(v: int, s: string)
    ensures s == IntString(v) <==> Plain(s, v)
  {
    hide Digits, Number;
    DigitsPlain(Abs(v));
    if s == IntString(v) && v < 0 {
      assert s[1..] == Digits(-v);
    }
    if Plain(s, v) {
      if v < 0 {
        DigitsUnique(s[1..]);
        assert s == "-" + s[1..];
      } else {
        DigitsUnique(s);
      }
    }
  }

  // ----- parsing -----------------------------------------------------------

  /** How many digits the text begins with. */
  function LeadingDigits(s: string): (d: nat)
    ensures d <= |s| && AllDigits(s[..d])
    ensures d < |s| ==> !IsDigit(s[d])
    decreases |s|
  {
    if |s| == 0 || !IsDigit(s[0]) then 0
    else
      var d := LeadingDigits(s[1..]);
      assert s[..d + 1] == [s[0]] + s[1..][..d];
      d + 1
  }

  lemma DigitsJoin(t: string, s: string)
    requires AllDigits(t) && AllDigits(s)
    ensures AllDigits(t + s)
  {
  }

  /** The scan answers by the leading digits: too large, whatever follows them; else a number if
      nothing follows. */
  lemma {:induction false} ScanExactly(t: string, s: string, maxVal: int)
    requires AllDigits(t) && Number(t) <= maxVal
    ensures AllDigits(t + s[..LeadingDigits(s)])
    ensures var n := Number(t + s[..LeadingDigits(s)]);
      ScanUint(s, Number(t), maxVal) ==
      if n > maxVal then RangeError else if LeadingDigits(s) == |s| then Parsed(n) else SyntaxError
    decreases |s|
  {
    hide Number;
    var d := LeadingDigits(s);
    DigitsJoin(t, s[..d]);
    if d == 0 {
      assert t + s[..d] == t;
    } else {
      var t' := t + [s[0]];
      NumberSnoc(t, s[0]);
      assert s[..d] == [s[0]] + s[1..][..d - 1];
      assert t + s[..d] == t' + s[1..][..d - 1];
      if Number(t') > maxVal {
        PrefixNumber(t', s[1..][..d - 1]);
      } else {
        ScanExactly(t', s[1..], maxVal);
      }
    }
  }

  lemma ParseUintExactly(s: string, bitSize: nat)
    ensures ParseUint(s, bitSize) ==
      if Number(s[..LeadingDigits(s)]) >= Pow(2, bitSize) then RangeError
      else if Unsigned(s) then Parsed(Number(s)) else SyntaxError
  {
    hide Number, Pow, ScanUint, LeadingDigits;
    var d := LeadingDigits(s);
    PowPositive(2, bitSize);
    NoDigitsYet();
    assert [] + s[..d] == s[..d];
    ScanExactly([], s, Pow(2, bitSize) - 1);
    if Unsigned(s) {
      assert d == |s| && s[..d] == s;
    }
  }

  /** The text after its sign, if it has one. */
  function Magnitude(s: string): string {
    if |s| > 0 && (s[0] == '+' || s[0] == '-') then s[1..] else s
  }

  function ValueOf(s: string): int
    requires Unsigned(Magnitude(s))
  {
    var n: int := Number(Magnitude(s));
    if s[0] == '-' then -n else n
  }

  /** ParseInt reads exactly the optionally signed digits whose number is in range; the error is
      one of range if the number is not, or if the leading digits alone are too large. */
  lemma ParseIntExactly(s: string, bitSize: nat)
    requires bitSize >= 1
    ensures forall v :: ParseInt(s, bitSize) == Parsed(v) <==>
      Signed(s, v) && -Pow(2, bitSize - 1) <= v < Pow(2, bitSize - 1)
    ensures ParseInt(s, bitSize) == RangeError <==>
      || (exists v :: Signed(s, v) && !(-Pow(2, bitSize - 1) <= v < Pow(2, bitSize - 1)))
      || Number(Magnitude(s)[..LeadingDigits(Magnitude(s))]) >= Pow(2, bitSize)
  {
    hide Number, Pow, ParseUint, LeadingDigits;
    var m := Magnitude(s);
    ParseUintExactly(m, bitSize);
    PowSucc(2, bitSize - 1);
    PowPositive(2, bitSize - 1);
    SignedMagnitude(s);
    NoDigitsYet();
    if Unsigned(m) {
      assert LeadingDigits(m) == |m| && m[..|m|] == m;
      assert Signed(s, ValueOf(s));
    }
  }

  lemma SignedMagnitude(s: string)
    ensures (exists v :: Signed(s, v)) <==> Unsigned(Magnitude(s))
    ensures Unsigned(Magnitude(s)) ==> Signed(s, ValueOf(s))
    ensures forall v :: Signed(s, v) ==> Unsigned(Magnitude(s)) && v == ValueOf(s)
  {
    hide Number;
    assert !IsDigit('-') && !IsDigit('+');
    if Unsigned(Magnitude(s)) {
      assert Signed(s, ValueOf(s));
    }
  }

  lemma SetStringExactly(s: string, v: int)
    ensures SetString(s) == Some(v) <==> Signed(s, v)
    ensures SetString(s).None? <==> !exists w :: Signed(s, w)
  {
    hide Number;
    SignedMagnitude(s);
  }
}
