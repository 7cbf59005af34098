/** Text helpers of the Go library that the models rest on: decimal digits, integer
    parsing, splitting and trimming. */
module StrConv {
  import opened Wrappers
  import opened IntMath

  // ----- digits ------------------------------------------------------------

  predicate IsDigit(c: char) {
    '0' <= c <= '9'
  }

  predicate AllDigits(s: string) {
    forall i :: 0 <= i < |s| ==> IsDigit(s[i])
  }

  function DigitVal(c: char): nat
    requires IsDigit(c)
  {
    c as int - '0' as int
  }

  function DigitChar(n: nat): char
    requires n < 10
  {
    ('0' as int + n) as char
  }

  /** The decimal digits of a natural number, without leading zeros. */
  function Digits(n: nat): (s: string)
    ensures |s| >= 1 && AllDigits(s) && Number(s) == n
  {
    if n < 10 then [DigitChar(n)]
    else
      var front := Digits(n / 10);
      var s := front + [DigitChar(n % 10)];
      assert s[..|s| - 1] == front;
      s
  }

  /** The number a string of digits stands for. */
  function Number(s: string): nat
    requires AllDigits(s)
  {
    if |s| == 0 then 0 else Number(s[..|s| - 1]) * 10 + DigitVal(s[|s| - 1])
  }

  function Zeros(n: nat): (s: string)
    ensures |s| == n && forall i :: 0 <= i < n ==> s[i] == '0'
  {
    seq(n, i => '0')
  }

  lemma NumberSnoc(s: string, c: char)
    requires AllDigits(s) && IsDigit(c)
    ensures AllDigits(s + [c]) && Number(s + [c]) == Number(s) * 10 + DigitVal(c)
  {
    assert (s + [c])[..|s + [c]| - 1] == s;
  }

  lemma {:induction false} LeadingZeros(n: nat, s: string)
    requires AllDigits(s)
    ensures AllDigits(Zeros(n) + s) && Number(Zeros(n) + s) == Number(s)
    decreases |s|, n
  {
    if |s| > 0 {
      var front := s[..|s| - 1];
      LeadingZeros(n, front);
      NumberSnoc(Zeros(n) + front, s[|s| - 1]);
      assert Zeros(n) + s == Zeros(n) + front + [s[|s| - 1]];
    } else if n > 0 {
      LeadingZeros(n - 1, s);
      NumberSnoc(Zeros(n - 1), '0');
      assert Zeros(n) + s == Zeros(n - 1) + ['0'];
      assert Zeros(n - 1) + s == Zeros(n - 1);
    }
  }

  lemma TimesTenth(v: int, t: int)
    ensures v * t * 10 == v * (10 * t)
  {
  }

  lemma {:induction false} TrailingZeros(s: string, n: nat)
    requires AllDigits(s)
    ensures AllDigits(s + Zeros(n)) && Number(s + Zeros(n)) == Number(s) * Ten(n)
  {
    hide Number, AllDigits;
    if n == 0 {
      assert s + Zeros(n) == s;
    } else {
      TrailingZeros(s, n - 1);
      NumberSnoc(s + Zeros(n - 1), '0');
      assert s + Zeros(n) == s + Zeros(n - 1) + ['0'];
      TimesTenth(Number(s), Ten(n - 1));
    }
  }

  // ----- integers as text --------------------------------------------------

  /** big.Int.String and strconv.FormatInt in base 10. */
  function IntString(v: int): string {
    if v < 0 then "-" + Digits(-v) else Digits(v)
  }

  /** big.Int.SetString in base 10: an optional sign and at least one digit. */
  function SetString(s: string): Option<int> {
    var negative := |s| > 0 && s[0] == '-';
    var digits := if |s| > 0 && (s[0] == '-' || s[0] == '+') then s[1..] else s;
    if |digits| == 0 || !AllDigits(digits) then None
    else var n: int := Number(digits); Some(if negative then -n else n)
  }

  datatype ParseResult = Parsed(value: int) | SyntaxError | RangeError

  /** strconv.ParseUint in base 10, scanning left to right with n read so far: the first
      offending character or the first overflow decides. */
  function ScanUint(s: string, n: nat, maxVal: int): ParseResult {
    if |s| == 0 then Parsed(n)
    else if !IsDigit(s[0]) then SyntaxError
    else if n * 10 + DigitVal(s[0]) > maxVal then RangeError
    else ScanUint(s[1..], n * 10 + DigitVal(s[0]), maxVal)
  }

  function ParseUint(s: string, bitSize: nat): ParseResult {
    if |s| == 0 then SyntaxError else ScanUint(s, 0, Pow(2, bitSize) - 1)
  }

  function ParseInt(s: string, bitSize: nat): ParseResult
    requires bitSize >= 1
  {
    if |s| == 0 then SyntaxError
    else
      var negative := s[0] == '-';
      var digits := if s[0] == '-' || s[0] == '+' then s[1..] else s;
      match ParseUint(digits, bitSize)
      case Parsed(n) =>
        var cutoff := Pow(2, bitSize - 1);
        if !negative && n >= cutoff then RangeError
        else if negative && n > cutoff then RangeError
        else Parsed(if negative then -n else n)
      case e => e
  }

  lemma {:induction false} ScanDigits(s: string, t: string, n: nat, maxVal: int)
    requires AllDigits(s) && AllDigits(t) && Number(t) == n && Number(t + s) <= maxVal && AllDigits(t + s)
    ensures ScanUint(s, n, maxVal) == Parsed(Number(t + s))
    decreases |s|
  {
    if |s| == 0 {
      assert t + s == t;
    } else {
      var t' := t + [s[0]];
      NumberSnoc(t, s[0]);
      assert t' + s[1..] == t + s;
      PrefixNumber(t', s[1..]);
      ScanDigits(s[1..], t', Number(t'), maxVal);
    }
  }

  lemma {:induction false} PrefixNumber(t: string, s: string)
    requires AllDigits(t) && AllDigits(s) && AllDigits(t + s)
    ensures Number(t) <= Number(t + s)
    decreases |s|
  {
    if |s| == 0 {
      assert t + s == t;
    } else {
      var front := s[..|s| - 1];
      assert (t + s)[..|t + s| - 1] == t + front;
      PrefixNumber(t, front);
    }
  }

  lemma NoDigitsYet()
    ensures AllDigits([]) && Number([]) == 0
  {
  }

  /** What FormatUint prints, ParseUint reads back. */
  lemma UintRoundTrip(n: nat, bitSize: nat)
    requires n < Pow(2, bitSize)
    ensures ParseUint(Digits(n), bitSize) == Parsed(n)
  {
    hide Digits, Number, Pow, AllDigits, ScanUint;
    assert [] + Digits(n) == Digits(n);
    NoDigitsYet();
    ScanDigits(Digits(n), [], 0, Pow(2, bitSize) - 1);
  }

  /** What FormatInt prints, ParseInt reads back. */
  lemma IntRoundTrip(v: int, bitSize: nat)
    requires bitSize >= 1 && -Pow(2, bitSize - 1) <= v < Pow(2, bitSize - 1)
    ensures ParseInt(IntString(v), bitSize) == Parsed(v)
  {
    PowSucc(2, bitSize - 1);
    PowPositive(2, bitSize - 1);
    UintRoundTrip(Abs(v), bitSize);
    if v < 0 {
      assert IntString(v)[1..] == Digits(-v);
    } else {
      assert IsDigit(Digits(v)[0]);
    }
  }

  lemma SetStringRoundTrip(v: int)
    ensures SetString(IntString(v)) == Some(v)
  {
    if v < 0 {
      assert IntString(v)[1..] == Digits(-v);
    } else {
      assert IsDigit(Digits(v)[0]);
    }
  }

  // ----- splitting and trimming --------------------------------------------

  /** strings.TrimRight(s, "0"). */
  function TrimZeros(s: string): (t: string)
    ensures |t| <= |s| && t == s[..|t|]
    ensures |t| > 0 ==> t[|t| - 1] != '0'
  {
    if |s| > 0 && s[|s| - 1] == '0' then TrimZeros(s[..|s| - 1]) else s
  }

  lemma {:induction false} TrimmedWereZeros(s: string)
    ensures s == TrimZeros(s) + Zeros(|s| - |TrimZeros(s)|)
  {
    if |s| > 0 && s[|s| - 1] == '0' {
      TrimmedWereZeros(s[..|s| - 1]);
      var t := TrimZeros(s);
      assert Zeros(|s| - |t|) == Zeros(|s| - 1 - |t|) + ['0'];
      assert s == s[..|s| - 1] + ['0'];
    }
  }

  lemma TrimSnocZero(s: string)
    ensures TrimZeros(s + ['0']) == TrimZeros(s)
  {
    assert (s + ['0'])[..|s|] == s;
  }

  lemma {:induction false} TrimOnlyZeros(n: nat)
    ensures TrimZeros(Zeros(n)) == ""
  {
    if n > 0 {
      TrimOnlyZeros(n - 1);
      assert Zeros(n)[..n - 1] == Zeros(n - 1);
    }
  }

  lemma TrimTwice(s: string)
    ensures TrimZeros(TrimZeros(s)) == TrimZeros(s)
  {
  }

  /** The index of the first character in chars, or -1 (strings.IndexAny). */
  function IndexAny(s: string, chars: set<char>): (i: int)
    ensures -1 <= i < |s|
    ensures i >= 0 ==> s[i] in chars && forall j :: 0 <= j < i ==> s[j] !in chars
    ensures i == -1 ==> forall j :: 0 <= j < |s| ==> s[j] !in chars
  {
    if |s| == 0 then -1
    else if s[0] in chars then 0
    else
      var i := IndexAny(s[1..], chars);
      assert forall j :: 1 <= j < |s| ==> s[j] == s[1..][j - 1];
      if i == -1 then -1 else i + 1
  }

  /** strings.Split by one character: at least one part, none holding the separator. */
  function Split(s: string, sep: char): (parts: seq<string>)
    ensures |parts| >= 1
  {
    if |s| == 0 then [""]
    else
      var rest := Split(s[1..], sep);
      if s[0] == sep then [""] + rest else [[s[0]] + rest[0]] + rest[1..]
  }

  lemma {:induction false} SplitWithout(s: string, sep: char)
    requires sep !in s
    ensures Split(s, sep) == [s]
  {
    if |s| > 0 {
      SplitWithout(s[1..], sep);
      assert [s[0]] + s[1..] == s;
    }
  }

  /** The part before the first separator is split off whole. */
  lemma {:induction false} SplitAt(a: string, sep: char, b: string)
    requires sep !in a
    ensures Split(a + [sep] + b, sep) == [a] + Split(b, sep)
  {
    var s := a + [sep] + b;
    if |a| == 0 {
      assert s[1..] == b;
    } else {
      SplitAt(a[1..], sep, b);
      assert s[1..] == a[1..] + [sep] + b;
      assert [a[0]] + a[1..] == a;
    }
  }
}
