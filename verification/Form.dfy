/** Messages flattened to dotted keys and rebuilt from them. */
module Form {
  import opened Wrappers
  import opened FormScalar
  import StrConv

  // ----- messages ----------------------------------------------------------

  datatype FieldKind = Single(kind: Kind) | Repeated(elem: Kind) | Nested(desc: Desc)

  /** jsonName is what JSONName() answers, declared or derived; hasJson what HasJSONName() does. */
  datatype Field = Field(name: string, jsonName: string, hasJson: bool, kind: FieldKind)

  datatype Desc = Desc(fields: seq<Field>)

  datatype Value = One(v: Scalar) | Many(list: seq<Scalar>) | Sub(msg: Option<Msg>)

  /** The values in the order of the descriptor's fields. */
  datatype Msg = Msg(values: seq<Value>)

  predicate Shaped(d: Desc, m: Msg)
    decreases d
  {
    |m.values| == |d.fields| && forall i :: 0 <= i < |d.fields| ==> FieldShaped(d.fields[i].kind, m.values[i])
  }

  predicate FieldShaped(kind: FieldKind, v: Value)
    decreases kind
  {
    match kind
    case Single(k) => v.One? && Typed(k, v.v)
    case Repeated(k) => v.Many? && AllTyped(k, v.list)
    case Nested(desc) => v.Sub? && (v.msg.Some? ==> Shaped(desc, v.msg.value))
  }

  predicate AllTyped(kind: Kind, list: seq<Scalar>) {
    forall x :: x in list ==> Typed(kind, x)
  }

  function ZeroValue(kind: FieldKind): (v: Value)
    ensures FieldShaped(kind, v)
  {
    match kind
    case Single(k) => One(Zero(k))
    case Repeated(_) => Many([])
    case Nested(_) => Sub(None)
  }

  /** The message with nothing set. */
  function Empty(d: Desc): (m: Msg)
    ensures Shaped(d, m)
  {
    Msg(seq(|d.fields|, i requires 0 <= i < |d.fields| => ZeroValue(d.fields[i].kind)))
  }

  /** What reading a message field delivers: unset reads as empty. */
  function Child(desc: Desc, v: Value): (m: Msg)
    requires FieldShaped(Nested(desc), v)
    ensures Shaped(desc, m)
  {
    if v.msg.Some? then v.msg.value else Empty(desc)
  }

  // ----- encoding ----------------------------------------------------------

  type Table = map<string, seq<string>>

  function Key(f: Field): string {
    if f.hasJson then f.jsonName else f.name
  }

  function Join(path: string, key: string): string {
    if path == "" then key else path + "." + key
  }

  function FormatAll(ft: FloatText, kind: Kind, list: seq<Scalar>): (r: Option<seq<string>>)
    requires AllTyped(kind, list)
    ensures r.Some? ==> |r.value| == |list|
    decreases |list|
  {
    if |list| == 0 then Some([])
    else
      var front :- FormatAll(ft, kind, list[..|list| - 1]);
      var last :- Format(ft, kind, list[|list| - 1]);
      Some(front + [last])
  }

  /** The table u with the fields from field i on written to it; None where formatting panics. */
  function EncodeFields(ft: FloatText, u: Table, path: string, d: Desc, m: Msg, i: nat): Option<Table>
    requires Shaped(d, m) && i <= |d.fields|
    decreases d, |d.fields| - i
  {
    if i == |d.fields| then Some(u)
    else
      var u' :- EncodeField(ft, u, Join(path, Key(d.fields[i])), d.fields[i].kind, m.values[i]);
      EncodeFields(ft, u', path, d, m, i + 1)
  }

  function EncodeField(ft: FloatText, u: Table, path: string, kind: FieldKind, v: Value): Option<Table>
    requires FieldShaped(kind, v)
    decreases kind
  {
    match kind
    case Repeated(k) =>
      if |v.list| == 0 then Some(u) else var list :- FormatAll(ft, k, v.list); Some(u[path := list])
    case Nested(desc) => EncodeFields(ft, u, path, desc, Child(desc, v), 0)
    case Single(k) => var s :- Format(ft, k, v.v); Some(u[path := [s]])
  }

  function EncodeMap(ft: FloatText, d: Desc, m: Msg): Option<Table>
    requires Shaped(d, m)
  {
    EncodeFields(ft, map[], "", d, m, 0)
  }

  /** The url.Values being filled. */
  class Values {
    var m: Table

    constructor ()
      ensures m == map[]
    {
      m := map[];
    }
  }

  method EncodeRepeatedField(ft: FloatText, kind: Kind, list: seq<Scalar>) returns (r: Option<seq<string>>)
    requires AllTyped(kind, list)
    ensures r == FormatAll(ft, kind, list)
  {
    var values: seq<string> := [];
    for i := 0 to |list|
      invariant FormatAll(ft, kind, list[..i]) == Some(values)
    {
      assert list[..i + 1][..i] == list[..i];
      var value := Format(ft, kind, list[i]);
      if value.None? {
        FormatAllStops(ft, kind, list, i);
        return None;
      }
      values := values + [value.value];
    }
    assert list[..|list|] == list;
    return Some(values);
  }

  lemma {:induction false} FormatAllStops(ft: FloatText, kind: Kind, list: seq<Scalar>, i: nat)
    requires AllTyped(kind, list) && i < |list| && Format(ft, kind, list[i]).None?
    ensures FormatAll(ft, kind, list).None?
    decreases |list|
  {
    if i < |list| - 1 {
      FormatAllStops(ft, kind, list[..|list| - 1], i);
    }
  }

  /** Writes the fields of v to u under path. */
  method EncodeByField(ft: FloatText, u: Values, path: string, d: Desc, v: Msg) returns (ok: bool)
    requires Shaped(d, v)
    modifies u
    ensures ok <==> EncodeFields(ft, old(u.m), path, d, v, 0).Some?
    ensures ok ==> EncodeFields(ft, old(u.m), path, d, v, 0) == Some(u.m)
    decreases d
  {
    for i := 0 to |d.fields|
      invariant EncodeFields(ft, old(u.m), path, d, v, 0) == EncodeFields(ft, u.m, path, d, v, i)
    {
      var f, x := d.fields[i], v.values[i];
      var key := if f.hasJson then f.jsonName else f.name;
      var newPath := if path == "" then key else path + "." + key;
      match f.kind {
        case Repeated(k) =>
          if |x.list| > 0 {
            var list := EncodeRepeatedField(ft, k, x.list);
            if list.None? {
              return false;
            }
            u.m := u.m[newPath := list.value];
          }
        case Nested(desc) =>
          var done := EncodeByField(ft, u, newPath, desc, Child(desc, x));
          if !done {
            return false;
          }
        case Single(k) =>
          var value := Format(ft, k, x.v);
          if value.None? {
            return false;
          }
          u.m := u.m[newPath := [value.value]];
      }
    }
    return true;
  }

  /** No message gives no entries; None where formatting panics. */
  method EncodeMessage(ft: FloatText, d: Desc, msg: Option<Msg>) returns (r: Option<Table>)
    requires msg.Some? ==> Shaped(d, msg.value)
    ensures r == if msg.Some? then EncodeMap(ft, d, msg.value) else Some(map[])
  {
    if msg.None? {
      return Some(map[]);
    }
    var u := new Values();
    var ok := EncodeByField(ft, u, "", d, msg.value);
    return if ok then Some(u.m) else None;
  }

  // ----- decoding ----------------------------------------------------------

  datatype Error = NoValue | NotAMessage(name: string) | TooManyValues | BadValue | UnsupportedMessage

  function ByFieldName(fields: seq<Field>, name: string): (r: Option<nat>)
    ensures r.Some? ==> r.value < |fields| && fields[r.value].name == name
    ensures r.None? ==> forall f :: f in fields ==> f.name != name
    decreases |fields|
  {
    if |fields| == 0 then None
    else if fields[0].name == name then Some(0)
    else var i :- ByFieldName(fields[1..], name); Some(i + 1)
  }

  function ByJsonName(fields: seq<Field>, name: string): (r: Option<nat>)
    ensures r.Some? ==> r.value < |fields| && fields[r.value].jsonName == name
    ensures r.None? ==> forall f :: f in fields ==> f.jsonName != name
    decreases |fields|
  {
    if |fields| == 0 then None
    else if fields[0].jsonName == name then Some(0)
    else var i :- ByJsonName(fields[1..], name); Some(i + 1)
  }

  function Lookup(d: Desc, name: string): (r: Option<nat>)
    ensures r.Some? ==> r.value < |d.fields|
  {
    if ByFieldName(d.fields, name).Some? then ByFieldName(d.fields, name) else ByJsonName(d.fields, name)
  }

  /** The list with the values parsed and appended, up to the first that does not parse. */
  function AppendParsed(ft: FloatText, kind: Kind, list: seq<Scalar>,
      values: seq<string>): (r: (seq<Scalar>, Option<Error>))
    requires AllTyped(kind, list)
    ensures AllTyped(kind, r.0)
    decreases |values|
  {
    if |values| == 0 then (list, None)
    else
      ParsedIsTyped(ft, kind, values[0]);
      match Parse(ft, kind, values[0])
      case None => (list, Some(BadValue))
      case Some(x) => AppendParsed(ft, kind, list + [x], values[1..])
  }

  /** The field a path ends at, given its values. */
  function Assign(ft: FloatText, kind: FieldKind, v: Value, values: seq<string>): (r: (Value, Option<Error>))
    requires FieldShaped(kind, v) && |values| > 0
    ensures FieldShaped(kind, r.0)
  {
    match kind
    case Repeated(k) =>
      var r := AppendParsed(ft, k, v.list, values);
      (Many(r.0), r.1)
    case Nested(_) =>
      (v, Some(if |values| > 1 then TooManyValues else UnsupportedMessage))
    case Single(k) =>
      if |values| > 1 then (v, Some(TooManyValues))
      else
        ParsedIsTyped(ft, k, values[0]);
        match Parse(ft, k, values[0])
        case None => (v, Some(BadValue))
        case Some(x) => (One(x), None)
  }

  /** The message with the values stored where the path leads: messages on the way come to be
      set, an unknown name is passed over in silence. */
  function Populate(ft: FloatText, d: Desc, m: Msg, path: seq<string>, values: seq<string>): (r: (Msg, Option<Error>))
    requires Shaped(d, m) && |path| > 0 && |values| > 0
    ensures Shaped(d, r.0)
    decreases |path|
  {
    match Lookup(d, path[0])
    case None => (m, None)
    case Some(i) =>
      var f, v := d.fields[i], m.values[i];
      if |path| == 1 then
        var r := Assign(ft, f.kind, v, values);
        (Msg(m.values[i := r.0]), r.1)
      else if !f.kind.Nested? then (m, Some(NotAMessage(path[0])))
      else
        var r := Populate(ft, f.kind.desc, Child(f.kind.desc, v), path[1..], values);
        (Msg(m.values[i := Sub(Some(r.0))]), r.1)
  }

  /** The entries of u taken in this order, up to the first error. */
  function MapAll(ft: FloatText, d: Desc, m: Msg, order: seq<string>, u: Table): (r: (Msg, Option<Error>))
    requires Shaped(d, m) && forall key :: key in order ==> key in u
    ensures Shaped(d, r.0)
    decreases |order|
  {
    if |order| == 0 then (m, None)
    else
      var r := PopulateKey(ft, d, m, order[0], u[order[0]]);
      if r.1.Some? then r else MapAll(ft, d, r.0, order[1..], u)
  }

  function PopulateKey(ft: FloatText, d: Desc, m: Msg, key: string, values: seq<string>): (r: (Msg, Option<Error>))
    requires Shaped(d, m)
    ensures Shaped(d, r.0)
    ensures |values| == 0 ==> r == (m, Some(NoValue))
  {
    if |values| == 0 then (m, Some(NoValue)) else Populate(ft, d, m, StrConv.Split(key, '.'), values)
  }
}
