/** Scalar fields as text: the two directions of the form codec below the message level. */
module FormScalar {
  import opened Wrappers
  import opened IntMath
  import StrConv

  datatype EnumValue = EnumValue(name: string, number: int)

  /** Kinds that are written and read alike are one: Int32Kind stands for sint32 and sfixed32
      too, and so on. */
  datatype Kind =
    | BoolKind | StringKind
    | Int32Kind | Int64Kind | Uint32Kind | Uint64Kind
    | FloatKind | DoubleKind
    | EnumKind(values: seq<EnumValue>)

  datatype Scalar = Bool(b: bool) | Text(s: string) | Int(n: int) | Float(bits: nat) | Enum(number: int)

  /** Go's rendering and reading of binary floating point, by the bits of the number. */
  datatype FloatText = FloatText(show: (Kind, nat) -> string, read: (Kind, string) -> Option<nat>)

  predicate Typed(kind: Kind, v: Scalar) {
    match kind
    case BoolKind => v.Bool?
    case StringKind => v.Text?
    case Int32Kind => v.Int? && -Pow(2, 31) <= v.n < Pow(2, 31)
    case Int64Kind => v.Int? && -Pow(2, 63) <= v.n < Pow(2, 63)
    case Uint32Kind => v.Int? && 0 <= v.n < Pow(2, 32)
    case Uint64Kind => v.Int? && 0 <= v.n < Pow(2, 64)
    case FloatKind => v.Float?
    case DoubleKind => v.Float?
    case EnumKind(_) => v.Enum?
  }

  /** What an unset scalar field reads as. */
  function Zero(kind: Kind): (v: Scalar)
    ensures Typed(kind, v)
  {
    PowPositive(2, 31);
    PowPositive(2, 63);
    PowPositive(2, 32);
    PowPositive(2, 64);
    match kind
    case BoolKind => Bool(false)
    case StringKind => Text("")
    case FloatKind => Float(0)
    case DoubleKind => Float(0)
    case EnumKind(values) => Enum(if |values| > 0 then values[0].number else 0)
    case _ => Int(0)
  }

  /** The first value with this number. */
  function ByNumber(values: seq<EnumValue>, number: int): (r: Option<EnumValue>)
    ensures r.Some? ==> r.value in values && r.value.number == number
    ensures r.None? ==> forall e :: e in values ==> e.number != number
    decreases |values|
  {
    if |values| == 0 then None
    else if values[0].number == number then Some(values[0])
    else ByNumber(values[1..], number)
  }

  /** The first value of this name. */
  function ByName(values: seq<EnumValue>, name: string): (r: Option<EnumValue>)
    ensures r.Some? ==> r.value in values && r.value.name == name
    ensures r.None? ==> forall e :: e in values ==> e.name != name
    decreases |values|
  {
    if |values| == 0 then None
    else if values[0].name == name then Some(values[0])
    else ByName(values[1..], name)
  }

  /** encodeField: None where it dereferences the missing descriptor of an unknown enum number. */
  function Format(ft: FloatText, kind: Kind, v: Scalar): Option<string>
    requires Typed(kind, v)
  {
    match kind
    case BoolKind => Some(if v.b then "true" else "false")
    case StringKind => Some(v.s)
    case EnumKind(values) => var e :- ByNumber(values, v.number); Some(e.name)
    case FloatKind => Some(ft.show(kind, v.bits))
    case DoubleKind => Some(ft.show(kind, v.bits))
    case _ => Some(StrConv.IntString(v.n))
  }

  /** strconv.ParseBool. */
  function ParseBool(s: string): Option<bool> {
    if s in {"1", "t", "T", "true", "TRUE", "True"} then Some(true)
    else if s in {"0", "f", "F", "false", "FALSE", "False"} then Some(false)
    else None
  }

  function IntOf(r: StrConv.ParseResult): Option<Scalar> {
    if r.Parsed? then Some(Int(r.value)) else None
  }

  /** parseField: None for an error. */
  function Parse(ft: FloatText, kind: Kind, s: string): Option<Scalar> {
    match kind
    case BoolKind => var b :- ParseBool(s); Some(Bool(b))
    case StringKind => Some(Text(s))
    case Int32Kind => IntOf(StrConv.ParseInt(s, 32))
    case Int64Kind => IntOf(StrConv.ParseInt(s, 64))
    case Uint32Kind => IntOf(StrConv.ParseUint(s, 32))
    case Uint64Kind => IntOf(StrConv.ParseUint(s, 64))
    case FloatKind => var bits :- ft.read(kind, s); Some(Float(bits))
    case DoubleKind => var bits :- ft.read(kind, s); Some(Float(bits))
    case EnumKind(values) =>
      var e :- FindEnum(values, s); Some(Enum(e.number))
  }

  /** By name, else by number. */
  function FindEnum(values: seq<EnumValue>, s: string): (r: Option<EnumValue>)
    ensures r.Some? ==> r.value in values
  {
    if ByName(values, s).Some? then ByName(values, s)
    else
      match StrConv.ParseInt(s, 32)
      case Parsed(n) => ByNumber(values, n)
      case _ => None
  }

  lemma {:induction false} ScanInRange(s: string, n: nat, maxVal: int)
    requires n <= maxVal
    ensures var r := StrConv.ScanUint(s, n, maxVal); r.Parsed? ==> 0 <= r.value <= maxVal
    decreases |s|
  {
    if |s| > 0 && StrConv.IsDigit(s[0]) && n * 10 + StrConv.DigitVal(s[0]) <= maxVal {
      ScanInRange(s[1..], n * 10 + StrConv.DigitVal(s[0]), maxVal);
    }
  }

  lemma UintInRange(s: string, bitSize: nat)
    ensures var r := StrConv.ParseUint(s, bitSize); r.Parsed? ==> 0 <= r.value < Pow(2, bitSize)
  {
    PowPositive(2, bitSize);
    ScanInRange(s, 0, Pow(2, bitSize) - 1);
  }

  lemma IntInRange(s: string, bitSize: nat)
    requires bitSize >= 1
    ensures var r := StrConv.ParseInt(s, bitSize);
      r.Parsed? ==> -Pow(2, bitSize - 1) <= r.value < Pow(2, bitSize - 1)
  {
    if |s| > 0 {
      UintInRange(if s[0] == '-' || s[0] == '+' then s[1..] else s, bitSize);
      PowPositive(2, bitSize - 1);
    }
  }

  /** Whatever is parsed has the kind asked for. */
  lemma ParsedIsTyped(ft: FloatText, kind: Kind, s: string)
    ensures var r := Parse(ft, kind, s); r.Some? ==> Typed(kind, r.value)
  {
    hide Pow, StrConv.ParseInt, StrConv.ParseUint;
    IntInRange(s, 32);
    IntInRange(s, 64);
    UintInRange(s, 32);
    UintInRange(s, 64);
  }

  predicate DistinctNames(values: seq<EnumValue>) {
    forall i, j :: 0 <= i < j < |values| ==> values[i].name != values[j].name
  }

  lemma {:induction false} NameFindsItself(values: seq<EnumValue>, i: nat)
    requires DistinctNames(values) && i < |values|
    ensures ByName(values, values[i].name) == Some(values[i])
    decreases |values|
  {
    if i > 0 {
      NameFindsItself(values[1..], i - 1);
    }
  }

  /** Formatting round-trips for every scalar the formatter accepts, floating point apart. */
  lemma ScalarRoundTrip(ft: FloatText, kind: Kind, v: Scalar)
    requires Typed(kind, v) && !v.Float?
    requires kind.EnumKind? ==> DistinctNames(kind.values)
    ensures Format(ft, kind, v).Some? <==> kind.EnumKind? ==> exists e :: e in kind.values && e.number == v.number
    ensures Format(ft, kind, v).Some? ==> Parse(ft, kind, Format(ft, kind, v).value) == Some(v)
  {
    hide Pow, StrConv.ParseInt, StrConv.ParseUint, StrConv.IntString;
    match kind
    case BoolKind =>
    case StringKind =>
    case Int32Kind => StrConv.IntRoundTrip(v.n, 32);
    case Int64Kind => StrConv.IntRoundTrip(v.n, 64);
    case Uint32Kind =>
      UnsignedText(v.n);
      StrConv.UintRoundTrip(v.n, 32);
    case Uint64Kind =>
      UnsignedText(v.n);
      StrConv.UintRoundTrip(v.n, 64);
    case EnumKind(values) =>
      var e := ByNumber(values, v.number);
      if e.Some? {
        var i :| 0 <= i < |values| && values[i] == e.value;
        NameFindsItself(values, i);
      }
  }

  lemma UnsignedText(n: nat)
    ensures StrConv.IntString(n) == StrConv.Digits(n)
  {
  }
}
