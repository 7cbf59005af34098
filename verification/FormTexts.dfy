/** What the form codec writes and reads, text by text and key by key, and how it refuses. */
module FormTexts {
  import opened Wrappers
  import opened NumberTexts
  import opened FormScalar
  import opened Form
  import opened FormLaws
  import IntMath
  import StrConv

  // ----- scalars as they are written ---------------------------------------

  predicate FirstWithNumber(values: seq<EnumValue>, i: nat, number: int) {
    i < |values| && values[i].number == number && forall j :: 0 <= j < i ==> values[j].number != number
  }

  predicate FirstWithName(values: seq<EnumValue>, i: nat, name: string) {
    i < |values| && values[i].name == name && forall j :: 0 <= j < i ==> values[j].name != name
  }

  /** A bool is the word, a string itself, an integer its decimal form, an enum number the name of
      the first value that has it. */
  ghost predicate Written(ft: FloatText, kind: Kind, v: Scalar, text: string)
    requires Typed(kind, v)
  {
    match kind
    case BoolKind => if v.b then text == "true" else text == "false"
    case StringKind => text == v.s
    case FloatKind => text == ft.show(kind, v.bits)
    case DoubleKind => text == ft.show(kind, v.bits)
    case EnumKind(values) => exists i: nat :: FirstWithNumber(values, i, v.number) && values[i].name == text
    case _ => Plain(text, v.n)
  }

  lemma {:induction false} FirstByNumber(values: seq<EnumValue>, number: int)
    ensures ByNumber(values, number).Some? ==>
      exists i: nat :: FirstWithNumber(values, i, number) && values[i] == ByNumber(values, number).value
    decreases |values|
  {
    if |values| > 0 {
      if values[0].number == number {
        assert FirstWithNumber(values, 0, number);
      } else {
        FirstByNumber(values[1..], number);
        if ByNumber(values, number).Some? {
          var i: nat :| FirstWithNumber(values[1..], i, number) && values[1..][i] == ByNumber(values, number).value;
          assert forall j :: 1 <= j < |values| ==> values[1..][j - 1] == values[j];
          assert FirstWithNumber(values, i + 1, number);
        }
      }
    }
  }

  lemma {:induction false} FirstByName(values: seq<EnumValue>, name: string)
    ensures ByName(values, name).Some? ==>
      exists i: nat :: FirstWithName(values, i, name) && values[i] == ByName(values, name).value
    decreases |values|
  {
    if |values| > 0 {
      if values[0].name == name {
        assert FirstWithName(values, 0, name);
      } else {
        FirstByName(values[1..], name);
        if ByName(values, name).Some? {
          var i: nat :| FirstWithName(values[1..], i, name) && values[1..][i] == ByName(values, name).value;
          assert forall j :: 1 <= j < |values| ==> values[1..][j - 1] == values[j];
          assert FirstWithName(values, i + 1, name);
        }
      }
    }
  }

  /** Formatting gives exactly the text a scalar is written as, and fails only for an enum number
      no value has. */
  lemma FormatExactly(ft: FloatText, kind: Kind, v: Scalar, text: string)
    requires Typed(kind, v)
    ensures Format(ft, kind, v) == Some(text) <==> Written(ft, kind, v, text)
    ensures Format(ft, kind, v).None? <==>
      kind.EnumKind? && forall e :: e in kind.values ==> e.number != v.number
  {
    hide Plain, StrConv.IntString, IntMath.Pow;
    if kind.EnumKind? {
      FirstByNumber(kind.values, v.number);
      forall i: nat | FirstWithNumber(kind.values, i, v.number) ensures kind.values[i] in kind.values {
      }
    } else if v.Int? {
      IntStringExactly(v.n, text);
    }
  }

  /** An unset scalar is written as false, nothing, 0 or the name of the first enum value; an unset
      float as the float without bits. */
  lemma UnsetWritten(ft: FloatText, kind: Kind, text: string)
    requires kind.EnumKind? ==> |kind.values| > 0
    ensures Format(ft, kind, Zero(kind)) == Some(text) <==>
      match kind
      case BoolKind => text == "false"
      case StringKind => text == ""
      case EnumKind(values) => text == values[0].name
      case FloatKind => text == ft.show(kind, 0)
      case DoubleKind => text == ft.show(kind, 0)
      case _ => text == "0"
  {
    hide IntMath.Pow;
    assert StrConv.IntString(0) == "0";
  }

  /** A list is written text by text in its order. */
  lemma {:induction false} FormatAllExactly(ft: FloatText, kind: Kind, list: seq<Scalar>, texts: seq<string>)
    requires AllTyped(kind, list)
    ensures FormatAll(ft, kind, list) == Some(texts) <==>
      |texts| == |list| && forall i :: 0 <= i < |list| ==> Written(ft, kind, list[i], texts[i])
    decreases |list|
  {
    hide Format, Written, Typed;
    if |list| > 0 {
      var n := |list| - 1;
      if |texts| == |list| {
        FormatAllExactly(ft, kind, list[..n], texts[..n]);
        FormatExactly(ft, kind, list[n], texts[n]);
        assert texts == texts[..n] + [texts[n]];
      }
      if FormatAll(ft, kind, list).Some? {
        assert |FormatAll(ft, kind, list).value| == |list|;
      }
    }
  }

  // ----- the table ---------------------------------------------------------

  /** The texts written for a leaf: one for a scalar, one an element for a list, in its order. */
  ghost predicate LeafWritten(ft: FloatText, kind: FieldKind, v: Value, texts: seq<string>)
    requires FieldShaped(kind, v) && !kind.Nested?
  {
    match kind
    case Single(k) => |texts| == 1 && Written(ft, k, v.v, texts[0])
    case Repeated(k) =>
      |texts| == |v.list| && forall i :: 0 <= i < |v.list| ==> Written(ft, k, v.list[i], texts[i])
  }

  lemma LeafExactly(ft: FloatText, kind: FieldKind, v: Value, texts: seq<string>)
    requires FieldShaped(kind, v) && !kind.Nested?
    ensures FormatLeaf(ft, kind, v) == Some(texts) <==> LeafWritten(ft, kind, v, texts)
  {
    hide Format, FormatAll, Written, Typed;
    match kind
    case Single(k) =>
      if |texts| == 1 {
        FormatExactly(ft, k, v.v, texts[0]);
        assert texts == [texts[0]];
      }
    case Repeated(k) =>
      FormatAllExactly(ft, k, v.list, texts);
  }

  /** Under the key of a leaf stand the texts it is written as. */
  lemma TableTexts(ft: FloatText, d: Desc, m: Msg, p: seq<nat>)
    requires Shaped(d, m) && KeysDistinct("", d) && EncodeMap(ft, d, m).Some?
    requires IsLeaf(d, p) && !EmptyList(Leaf(d, m, p))
    ensures var (u, key) := (EncodeMap(ft, d, m).value, KeyAt("", d, p));
      key in u && LeafWritten(ft, LeafKind(d, p), Leaf(d, m, p), u[key])
  {
    hide *;
    EncodeMapIs(ft, d, m);
    LeafNotEmpty(d, p);
    EncodeHas(ft, map[], "", d, m, 0, p);
    LeafExactly(ft, LeafKind(d, p), Leaf(d, m, p), EncodeMap(ft, d, m).value[KeyAt("", d, p)]);
  }

  lemma LeafNotEmpty(d: Desc, p: seq<nat>)
    requires IsLeaf(d, p)
    ensures |p| > 0
  {
  }

  lemma EncodeMapIs(ft: FloatText, d: Desc, m: Msg)
    requires Shaped(d, m)
    ensures EncodeMap(ft, d, m) == EncodeFields(ft, map[], "", d, m, 0)
  {
  }

  /** The leaves of a message nothing is set in: zeros and empty lists, at any depth. */
  lemma {:induction false} UnsetLeaf(d: Desc, p: seq<nat>)
    requires IsLeaf(d, p)
    ensures Leaf(d, Empty(d), p) ==
      if LeafKind(d, p).Repeated? then Many([]) else One(Zero(LeafKind(d, p).kind))
    decreases |p|
  {
    if d.fields[p[0]].kind.Nested? {
      UnsetLeaf(d.fields[p[0]].kind.desc, p[1..]);
    }
  }

  /** A key prefixed above is prefixed below. */
  lemma {:induction false} KeyPrefixed(a: string, path: string, d: Desc, p: seq<nat>)
    requires IsLeaf(d, p) && path != ""
    ensures KeyAt(a + path, d, p) == a + KeyAt(path, d, p)
    decreases |p|
  {
    var key := Key(d.fields[p[0]]);
    var next := Join(path, key);
    assert Join(a + path, key) == a + next;
    if d.fields[p[0]].kind.Nested? {
      KeyPrefixed(a, next, d.fields[p[0]].kind.desc, p[1..]);
    }
  }

  /** The key of a leaf is its name, the JSON name where one is declared, behind the names of the
      messages it is in, with points between. */
  lemma KeySpelled(d: Desc, p: seq<nat>, name: string)
    requires IsLeaf(d, p) && name != ""
    requires name == if d.fields[p[0]].hasJson then d.fields[p[0]].jsonName else d.fields[p[0]].name
    ensures |p| == 1 ==> KeyAt("", d, p) == name
    ensures |p| > 1 ==> d.fields[p[0]].kind.Nested? && IsLeaf(d.fields[p[0]].kind.desc, p[1..])
    ensures |p| > 1 && Key(d.fields[p[0]].kind.desc.fields[p[1]]) != "" ==>
      KeyAt("", d, p) == name + "." + KeyAt("", d.fields[p[0]].kind.desc, p[1..])
  {
    if |p| > 1 {
      var desc := d.fields[p[0]].kind.desc;
      var key := Key(desc.fields[p[1]]);
      assert KeyAt("", d, p) == KeyAt(name, desc, p[1..]);
      assert name + "." + key == (name + ".") + key;
      if key != "" && desc.fields[p[1]].kind.Nested? {
        KeyPrefixed(name + ".", key, desc.fields[p[1]].kind.desc, p[1..][1..]);
      }
    }
  }

  // ----- scalars as they are read ------------------------------------------

  predicate InRange(v: int, low: int, high: int) {
    low <= v < high
  }

  /** A bool is 1, t or T, 0, f or F, or the word in small letters, in capitals or capitalised; an
      integer optionally signed digits in range, without sign for unsigned kinds; an enum the name
      of a value, or else the number of one; a string any text. */
  ghost predicate Read(ft: FloatText, kind: Kind, text: string, v: Scalar) {
    match kind
    case BoolKind =>
      v.Bool? &&
      text in (if v.b then {"1", "t", "T", "true", "TRUE", "True"} else {"0", "f", "F", "false", "FALSE", "False"})
    case StringKind => v == Text(text)
    case Int32Kind => v.Int? && Signed(text, v.n) && InRange(v.n, -0x8000_0000, 0x8000_0000)
    case Int64Kind =>
      v.Int? && Signed(text, v.n) && InRange(v.n, -0x8000_0000_0000_0000, 0x8000_0000_0000_0000)
    case Uint32Kind =>
      v.Int? && Unsigned(text) && v.n == StrConv.Number(text) && InRange(v.n, 0, 0x1_0000_0000)
    case Uint64Kind =>
      v.Int? && Unsigned(text) && v.n == StrConv.Number(text) && InRange(v.n, 0, 0x1_0000_0000_0000_0000)
    case EnumKind(values) =>
      v.Enum? &&
      if exists e :: e in values && e.name == text then
        exists i: nat :: FirstWithName(values, i, text) && values[i].number == v.number
      else
        && Signed(text, v.number) && InRange(v.number, -0x8000_0000, 0x8000_0000)
        && exists e :: e in values && e.number == v.number
    case _ => v.Float? && ft.read(kind, text) == Some(v.bits)
  }

  lemma Powers()
    ensures IntMath.Pow(2, 31) == 0x8000_0000 && IntMath.Pow(2, 32) == 0x1_0000_0000
    ensures IntMath.Pow(2, 63) == 0x8000_0000_0000_0000 && IntMath.Pow(2, 64) == 0x1_0000_0000_0000_0000
  {
    assert IntMath.Pow(2, 8) == 256;
    IntMath.PowAdd(2, 8, 8);
    IntMath.PowAdd(2, 16, 16);
    IntMath.PowAdd(2, 32, 32);
    IntMath.PowSucc(2, 31);
    IntMath.PowSucc(2, 63);
  }

  /** Parsing reads exactly these texts, as exactly these scalars. */
  lemma ParseExactly(ft: FloatText, kind: Kind, text: string, v: Scalar)
    ensures Parse(ft, kind, text) == Some(v) <==> Read(ft, kind, text, v)
  {
    hide IntMath.Pow, StrConv.ParseInt, StrConv.ParseUint, Signed, StrConv.Number, FindEnum, LeadingDigits;
    Powers();
    match kind
    case EnumKind(values) => FindEnumExactly(values, text);
    case Int32Kind => ParseIntExactly(text, 32);
    case Int64Kind => ParseIntExactly(text, 64);
    case Uint32Kind => UintExactly(text, 32);
    case Uint64Kind => UintExactly(text, 64);
    case _ =>
  }

  lemma UintExactly(s: string, bitSize: nat)
    ensures StrConv.ParseUint(s, bitSize).Parsed? <==> Unsigned(s) && StrConv.Number(s) < IntMath.Pow(2, bitSize)
    ensures StrConv.ParseUint(s, bitSize).Parsed? ==> StrConv.ParseUint(s, bitSize).value == StrConv.Number(s)
  {
    hide StrConv.Number, IntMath.Pow, StrConv.ParseUint;
    ParseUintExactly(s, bitSize);
    if Unsigned(s) {
      assert LeadingDigits(s) == |s| && s[..|s|] == s;
    }
  }

  lemma FindEnumExactly(values: seq<EnumValue>, text: string)
    ensures forall v: Scalar :: v.Enum? ==>
      (FindEnum(values, text).Some? && FindEnum(values, text).value.number == v.number <==>
       if exists e :: e in values && e.name == text then
         exists i: nat :: FirstWithName(values, i, text) && values[i].number == v.number
       else
         && Signed(text, v.number) && InRange(v.number, -0x8000_0000, 0x8000_0000)
         && exists e :: e in values && e.number == v.number)
  {
    hide IntMath.Pow, StrConv.ParseInt, Signed, StrConv.Number, LeadingDigits;
    Powers();
    ParseIntExactly(text, 32);
    FirstByName(values, text);
  }

  // ----- what assigning does -----------------------------------------------

  /** A name is looked up among the names, and only where none is it among the JSON names. */
  lemma LookupExactly(d: Desc, name: string)
    ensures Lookup(d, name).None? <==> forall f :: f in d.fields ==> f.name != name && f.jsonName != name
    ensures Lookup(d, name).Some? ==>
      var f := d.fields[Lookup(d, name).value];
      if exists g :: g in d.fields && g.name == name then f.name == name else f.jsonName == name
  {
  }

  /** Values are appended as they are read, up to the first that cannot be. */
  lemma {:induction false} AppendExactly(ft: FloatText, kind: Kind, list: seq<Scalar>,
      values: seq<string>) returns (n: nat)
    requires AllTyped(kind, list)
    ensures n <= |values|
    ensures var r := AppendParsed(ft, kind, list, values);
      && |r.0| == |list| + n && r.0[..|list|] == list
      && (forall i :: 0 <= i < n ==> Read(ft, kind, values[i], r.0[|list| + i]))
      && (if n == |values| then r.1.None?
          else r.1 == Some(BadValue) && forall x :: !Read(ft, kind, values[n], x))
    decreases |values|
  {
    hide Read, Parse, Typed;
    if |values| == 0 {
      n := 0;
    } else {
      ParsedIsTyped(ft, kind, values[0]);
      var x := Parse(ft, kind, values[0]);
      if x.None? {
        n := 0;
        forall y ensures !Read(ft, kind, values[0], y) {
          ParseExactly(ft, kind, values[0], y);
        }
      } else {
        ParseExactly(ft, kind, values[0], x.value);
        n := AppendExactly(ft, kind, list + [x.value], values[1..]);
        n := n + 1;
      }
    }
  }

  /** A scalar takes one value and must be able to read it; a list takes all it can read; a message
      takes none. What cannot be assigned leaves a scalar or message as it was. */
  lemma AssignExactly(ft: FloatText, kind: FieldKind, v: Value, values: seq<string>)
    requires FieldShaped(kind, v) && |values| > 0
    ensures var r := Assign(ft, kind, v, values);
      match kind
      case Single(k) =>
        if |values| > 1 then r == (v, Some(TooManyValues))
        else (r.1.None? && r.0.One? && Read(ft, k, values[0], r.0.v)) ||
             (r == (v, Some(BadValue)) && forall x :: !Read(ft, k, values[0], x))
      case Repeated(k) => r.0.Many? && (r.0.list, r.1) == AppendParsed(ft, k, v.list, values)
      case Nested(_) => r == (v, Some(if |values| > 1 then TooManyValues else UnsupportedMessage))
  {
    hide Read, Parse, Typed, AppendParsed;
    if kind.Single? {
      ParsedIsTyped(ft, kind.kind, values[0]);
      var y := Parse(ft, kind.kind, values[0]);
      if y.Some? {
        ParseExactly(ft, kind.kind, values[0], y.value);
      } else {
        forall x ensures !Read(ft, kind.kind, values[0], x) {
          ParseExactly(ft, kind.kind, values[0], x);
        }
      }
    }
  }

  // ----- keys that lead to no leaf -----------------------------------------

  /** The message type the names lead to, each being one of a single message field. */
  function Through(d: Desc, path: seq<string>): Option<Desc>
    decreases |path|
  {
    if |path| == 0 then Some(d)
    else
      var i :- Lookup(d, path[0]);
      if d.fields[i].kind.Nested? then Through(d.fields[i].kind.desc, path[1..]) else None
  }

  /** Where a key does not lead to a leaf: a name no field has is passed over in silence, names
      cannot go on below a field that is no message, and a message takes no value. */
  lemma {:induction false} PopulateStops(ft: FloatText, d: Desc, m: Msg, path: seq<string>, values: seq<string>, k: nat)
    requires Shaped(d, m) && |values| > 0 && k < |path| && Through(d, path[..k]).Some?
    ensures var (r, at) := (Populate(ft, d, m, path, values), Through(d, path[..k]).value);
      match Lookup(at, path[k])
      case None => r.1.None?
      case Some(i) =>
        if at.fields[i].kind.Nested? then
          k + 1 == |path| ==> r.1 == Some(if |values| > 1 then TooManyValues else UnsupportedMessage)
        else k + 1 < |path| ==> r.1 == Some(NotAMessage(path[k]))
    decreases k
  {
    hide Lookup;
    if k > 0 {
      var i := Lookup(d, path[0]).value;
      var desc := d.fields[i].kind.desc;
      assert FieldShaped(d.fields[i].kind, m.values[i]);
      assert path[..k][1..] == path[1..][..k - 1];
      PopulateStops(ft, desc, Child(desc, m.values[i]), path[1..], values, k - 1);
    }
  }

  /** A key reaches a leaf, or stops where it meets one of these obstacles. */
  lemma {:induction false} StopsOrReaches(d: Desc, path: seq<string>) returns (k: nat)
    requires |path| > 0
    ensures k < |path| && Through(d, path[..k]).Some?
    ensures var (at, i) := (Through(d, path[..k]).value, Lookup(Through(d, path[..k]).value, path[k]));
      Reach(d, path).Some? <==> i.Some? && k + 1 == |path| && !at.fields[i.value].kind.Nested?
    ensures var (at, i) := (Through(d, path[..k]).value, Lookup(Through(d, path[..k]).value, path[k]));
      k + 1 < |path| ==> i.None? || !at.fields[i.value].kind.Nested?
    decreases |path|
  {
    hide Lookup;
    k := 0;
    var i := Lookup(d, path[0]);
    assert path[..0] == [];
    if i.Some? && d.fields[i.value].kind.Nested? && |path| > 1 {
      k := StopsOrReaches(d.fields[i.value].kind.desc, path[1..]);
      k := k + 1;
      assert path[..k][1..] == path[1..][..k - 1];
    }
  }
}
