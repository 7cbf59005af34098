/** Flattening and rebuilding a message restores every leaf and list, in any key order. */
module FormLaws {
  import opened Wrappers
  import opened FormScalar
  import opened Form
  import opened FormMessage
  import StrConv

  // ----- leaves ------------------------------------------------------------

  /** A leaf is a scalar or list field, by the field indices leading to it. */
  predicate IsLeaf(d: Desc, p: seq<nat>)
    decreases |p|
  {
    |p| > 0 && p[0] < |d.fields| &&
    match d.fields[p[0]].kind
    case Nested(desc) => IsLeaf(desc, p[1..])
    case _ => |p| == 1
  }

  function LeafKind(d: Desc, p: seq<nat>): (k: FieldKind)
    requires IsLeaf(d, p)
    ensures !k.Nested?
    decreases |p|
  {
    match d.fields[p[0]].kind
    case Nested(desc) => LeafKind(desc, p[1..])
    case k => k
  }

  function Leaf(d: Desc, m: Msg, p: seq<nat>): (v: Value)
    requires Shaped(d, m) && IsLeaf(d, p)
    ensures FieldShaped(LeafKind(d, p), v)
    decreases |p|
  {
    assert FieldShaped(d.fields[p[0]].kind, m.values[p[0]]);
    match d.fields[p[0]].kind
    case Nested(desc) => Leaf(desc, Child(desc, m.values[p[0]]), p[1..])
    case _ => m.values[p[0]]
  }

  /** What a leaf holds after a value has been decoded into it: lists grow, scalars are replaced. */
  function Merge(old_: Value, new_: Value): Value {
    if old_.Many? && new_.Many? then Many(old_.list + new_.list) else new_
  }

  // ----- keys --------------------------------------------------------------

  /** The key under which the encoder writes a leaf, below a path. */
  function KeyAt(path: string, d: Desc, p: seq<nat>): string
    requires IsLeaf(d, p)
    decreases |p|
  {
    var newPath := Join(path, Key(d.fields[p[0]]));
    match d.fields[p[0]].kind
    case Nested(desc) => KeyAt(newPath, desc, p[1..])
    case _ => newPath
  }

  /** The leaf at which the decoder stores what comes under a split key, if it gets to one. */
  function Reach(d: Desc, path: seq<string>): (p: Option<seq<nat>>)
    requires |path| > 0
    ensures p.Some? ==> IsLeaf(d, p.value)
    decreases |path|
  {
    match Lookup(d, path[0])
    case None => None
    case Some(i) =>
      if |path| == 1 then if d.fields[i].kind.Nested? then None else Some([i])
      else if !d.fields[i].kind.Nested? then None
      else
        var rest :- Reach(d.fields[i].kind.desc, path[1..]);
        assert ([i] + rest)[1..] == rest;
        Some([i] + rest)
  }

  /** The key of a leaf leads the decoder to that leaf. */
  predicate LeadsBack(d: Desc, p: seq<nat>)
    requires IsLeaf(d, p)
  {
    Reach(d, StrConv.Split(KeyAt("", d, p), '.')) == Some(p)
  }

  ghost predicate KeysLeadBack(d: Desc) {
    forall p :: IsLeaf(d, p) ==> LeadsBack(d, p)
  }

  ghost predicate KeysDistinct(path: string, d: Desc) {
    forall p, q :: IsLeaf(d, p) && IsLeaf(d, q) && KeyAt(path, d, p) == KeyAt(path, d, q) ==> p == q
  }

  /** Then no two leaves share a key. */
  lemma KeysApart(d: Desc)
    requires KeysLeadBack(d)
    ensures KeysDistinct("", d)
  {
    forall p, q | IsLeaf(d, p) && IsLeaf(d, q) && KeyAt("", d, p) == KeyAt("", d, q)
      ensures p == q
    {
      assert LeadsBack(d, p) && LeadsBack(d, q);
    }
  }

  lemma LeafInto(d: Desc, i: nat, p: seq<nat>)
    requires i < |d.fields| && d.fields[i].kind.Nested? && IsLeaf(d.fields[i].kind.desc, p)
    ensures IsLeaf(d, [i] + p) && LeafKind(d, [i] + p) == LeafKind(d.fields[i].kind.desc, p)
    ensures forall path: string ::
      KeyAt(path, d, [i] + p) == KeyAt(Join(path, Key(d.fields[i])), d.fields[i].kind.desc, p)
  {
    assert ([i] + p)[1..] == p;
  }

  // ----- what the encoder writes -------------------------------------------

  function FormatLeaf(ft: FloatText, kind: FieldKind, v: Value): Option<seq<string>>
    requires FieldShaped(kind, v) && !kind.Nested?
  {
    match kind
    case Single(k) => var s :- Format(ft, k, v.v); Some([s])
    case Repeated(k) => FormatAll(ft, k, v.list)
  }

  predicate EmptyList(v: Value) {
    v.Many? && |v.list| == 0
  }

  /** A leaf from field i on that the encoder writes under this key. */
  predicate Writes(path: string, d: Desc, m: Msg, i: nat, p: seq<nat>, key: string)
    requires Shaped(d, m)
  {
    IsLeaf(d, p) && p[0] >= i && !EmptyList(Leaf(d, m, p)) && key == KeyAt(path, d, p)
  }

  predicate SameAt(u: Table, u': Table, key: string) {
    (key in u' <==> key in u) && (key in u ==> u'[key] == u[key])
  }

  /** Keys of no written leaf are left as they are. */
  lemma {:induction false} EncodeFrame(ft: FloatText, u: Table, path: string, d: Desc, m: Msg, i: nat, key: string)
    requires Shaped(d, m) && i <= |d.fields|
    requires EncodeFields(ft, u, path, d, m, i).Some?
    requires forall p :: !Writes(path, d, m, i, p, key)
    ensures SameAt(u, EncodeFields(ft, u, path, d, m, i).value, key)
    decreases d, |d.fields| - i, 1
  {
    hide Writes, EncodeField;
    if i < |d.fields| {
      var f, v := d.fields[i], m.values[i];
      assert FieldShaped(f.kind, v);
      FieldFrame(ft, u, path, d, m, i, key);
      WritesNoneLater(path, d, m, i, i + 1, key);
      EncodeFrame(ft, EncodeField(ft, u, Join(path, Key(f)), f.kind, v).value, path, d, m, i + 1, key);
    }
  }

  lemma WritesNoneLater(path: string, d: Desc, m: Msg, i: nat, n: nat, key: string)
    requires Shaped(d, m) && i <= n && forall p :: !Writes(path, d, m, i, p, key)
    ensures forall p :: !Writes(path, d, m, n, p, key)
  {
    forall p | Writes(path, d, m, n, p, key)
      ensures Writes(path, d, m, i, p, key)
    {
    }
  }

  lemma {:induction false} FieldFrame(ft: FloatText, u: Table, path: string, d: Desc, m: Msg, i: nat, key: string)
    requires Shaped(d, m) && i < |d.fields|
    requires FieldShaped(d.fields[i].kind, m.values[i])
    requires EncodeField(ft, u, Join(path, Key(d.fields[i])), d.fields[i].kind, m.values[i]).Some?
    requires forall p :: !Writes(path, d, m, i, p, key)
    ensures SameAt(u, EncodeField(ft, u, Join(path, Key(d.fields[i])), d.fields[i].kind, m.values[i]).value, key)
    decreases d, |d.fields| - i, 0
  {
    var f, v := d.fields[i], m.values[i];
    if f.kind.Nested? {
      var desc, newPath := f.kind.desc, Join(path, Key(f));
      forall p | IsLeaf(desc, p)
        ensures !Writes(newPath, desc, Child(desc, v), 0, p, key)
      {
        LeafInto(d, i, p);
        assert ([i] + p)[1..] == p;
        assert !Writes(path, d, m, i, [i] + p, key);
      }
      EncodeFrame(ft, u, newPath, desc, Child(desc, v), 0, key);
    } else {
      assert IsLeaf(d, [i]);
      assert !Writes(path, d, m, i, [i], key);
    }
  }

  lemma LaterLeavesWriteElsewhere(path: string, d: Desc, m: Msg, p: seq<nat>, i: nat)
    requires Shaped(d, m) && KeysDistinct(path, d) && IsLeaf(d, p) && i == p[0] + 1
    ensures forall q :: !Writes(path, d, m, i, q, KeyAt(path, d, p))
  {
  }

  lemma DistinctBelow(path: string, d: Desc, i: nat)
    requires KeysDistinct(path, d) && i < |d.fields| && d.fields[i].kind.Nested?
    ensures KeysDistinct(Join(path, Key(d.fields[i])), d.fields[i].kind.desc)
  {
    var newPath, desc := Join(path, Key(d.fields[i])), d.fields[i].kind.desc;
    forall p, q | IsLeaf(desc, p) && IsLeaf(desc, q) && KeyAt(newPath, desc, p) == KeyAt(newPath, desc, q)
      ensures p == q
    {
      LeafInto(d, i, p);
      LeafInto(d, i, q);
      assert ([i] + p)[1..] == p && ([i] + q)[1..] == q;
    }
  }

  lemma LaterKeeps(ft: FloatText, u: Table, path: string, d: Desc, m: Msg, i: nat, p: seq<nat>)
    requires Shaped(d, m) && i <= |d.fields| && KeysDistinct(path, d) && IsLeaf(d, p) && i == p[0] + 1
    requires EncodeFields(ft, u, path, d, m, i).Some?
    ensures SameAt(u, EncodeFields(ft, u, path, d, m, i).value, KeyAt(path, d, p))
  {
    hide Writes, KeysDistinct, EncodeFields, SameAt;
    LaterLeavesWriteElsewhere(path, d, m, p, i);
    EncodeFrame(ft, u, path, d, m, i, KeyAt(path, d, p));
  }

  /** Every leaf from field i on, empty lists apart, is under its key. */
  lemma {:induction false} EncodeHas(ft: FloatText, u: Table, path: string, d: Desc, m: Msg, i: nat, p: seq<nat>)
    requires Shaped(d, m) && i <= |d.fields| && KeysDistinct(path, d)
    requires EncodeFields(ft, u, path, d, m, i).Some?
    requires IsLeaf(d, p) && p[0] >= i && !EmptyList(Leaf(d, m, p))
    ensures var u', key := EncodeFields(ft, u, path, d, m, i).value, KeyAt(path, d, p);
      key in u' && FormatLeaf(ft, LeafKind(d, p), Leaf(d, m, p)) == Some(u'[key])
    decreases d, |d.fields| - i
  {
    hide KeysDistinct, Writes;
    var f, v := d.fields[i], m.values[i];
    assert FieldShaped(f.kind, v);
    var newPath := Join(path, Key(f));
    var u1 := EncodeField(ft, u, newPath, f.kind, v).value;
    if p[0] > i {
      EncodeHas(ft, u1, path, d, m, i + 1, p);
    } else {
      if f.kind.Nested? {
        DistinctBelow(path, d, i);
        EncodeHas(ft, u, newPath, f.kind.desc, Child(f.kind.desc, v), 0, p[1..]);
      } else {
        assert p == [i];
      }
      LaterKeeps(ft, u1, path, d, m, i + 1, p);
    }
  }

  /** The encoder succeeds exactly if every leaf can be formatted. */
  lemma {:induction false} EncodeSucceeds(ft: FloatText, u: Table, path: string, d: Desc, m: Msg, i: nat)
    requires Shaped(d, m) && i <= |d.fields|
    ensures EncodeFields(ft, u, path, d, m, i).Some? <==>
            forall p :: IsLeaf(d, p) && p[0] >= i ==> FormatLeaf(ft, LeafKind(d, p), Leaf(d, m, p)).Some?
    decreases d, |d.fields| - i
  {
    if i < |d.fields| {
      var f, v := d.fields[i], m.values[i];
      assert FieldShaped(f.kind, v);
      var newPath := Join(path, Key(f));
      FieldSucceeds(ft, u, newPath, d, m, i);
      var r := EncodeField(ft, u, newPath, f.kind, v);
      if r.Some? {
        EncodeSucceeds(ft, r.value, path, d, m, i + 1);
      }
    }
  }

  lemma {:induction false} FieldSucceeds(ft: FloatText, u: Table, newPath: string, d: Desc, m: Msg, i: nat)
    requires Shaped(d, m) && i < |d.fields|
    ensures FieldShaped(d.fields[i].kind, m.values[i])
    ensures EncodeField(ft, u, newPath, d.fields[i].kind, m.values[i]).Some? <==>
            forall p :: IsLeaf(d, p) && p[0] == i ==> FormatLeaf(ft, LeafKind(d, p), Leaf(d, m, p)).Some?
    decreases d, |d.fields| - i, 0
  {
    var f, v := d.fields[i], m.values[i];
    assert FieldShaped(f.kind, v);
    if f.kind.Nested? {
      var desc := f.kind.desc;
      EncodeSucceeds(ft, u, newPath, desc, Child(desc, v), 0);
      forall p | IsLeaf(desc, p)
        ensures IsLeaf(d, [i] + p) && Leaf(d, m, [i] + p) == Leaf(desc, Child(desc, v), p)
        ensures LeafKind(d, [i] + p) == LeafKind(desc, p)
      {
        assert ([i] + p)[1..] == p;
      }
    } else {
      assert IsLeaf(d, [i]);
      forall p | IsLeaf(d, p) && p[0] == i
        ensures p == [i]
      {
      }
    }
  }

  // ----- what the decoder reads back ---------------------------------------

  predicate ScalarRestores(ft: FloatText, kind: Kind, v: Scalar) {
    Typed(kind, v) && Format(ft, kind, v).Some? && Parse(ft, kind, Format(ft, kind, v).value) == Some(v)
  }

  /** Every scalar of the leaf survives formatting and parsing. */
  predicate LeafRestores(ft: FloatText, kind: FieldKind, v: Value)
    requires FieldShaped(kind, v) && !kind.Nested?
  {
    match kind
    case Single(k) => ScalarRestores(ft, k, v.v)
    case Repeated(k) => forall x :: x in v.list ==> ScalarRestores(ft, k, x)
  }

  lemma {:induction false} FormatAllAt(ft: FloatText, kind: Kind, list: seq<Scalar>)
    requires forall x :: x in list ==> ScalarRestores(ft, kind, x)
    ensures AllTyped(kind, list) && FormatAll(ft, kind, list).Some?
    ensures forall i :: 0 <= i < |list| ==> Parse(ft, kind, FormatAll(ft, kind, list).value[i]) == Some(list[i])
    decreases |list|
  {
    hide Format, Parse, Typed;
    if |list| > 0 {
      FormatAllAt(ft, kind, list[..|list| - 1]);
      assert ScalarRestores(ft, kind, list[|list| - 1]);
    }
  }

  lemma {:induction false} AppendFrom(ft: FloatText, kind: Kind, list0: seq<Scalar>, list: seq<Scalar>,
      values: seq<string>, i: nat)
    requires AllTyped(kind, list0) && AllTyped(kind, list) && |values| == |list| && i <= |list|
    requires forall j :: 0 <= j < |list| ==> Parse(ft, kind, values[j]) == Some(list[j])
    ensures AppendParsed(ft, kind, list0 + list[..i], values[i..]) == (list0 + list, None)
    decreases |list| - i
  {
    if i == |list| {
      assert list[..i] == list;
    } else {
      AppendFrom(ft, kind, list0, list, values, i + 1);
      assert list0 + list[..i] + [list[i]] == list0 + list[..i + 1];
      assert values[i..][1..] == values[i + 1..];
    }
  }

  lemma AssignLeaf(ft: FloatText, kind: FieldKind, was: Value, v: Value)
    requires FieldShaped(kind, was) && FieldShaped(kind, v) && !kind.Nested?
    requires LeafRestores(ft, kind, v) && !EmptyList(v)
    ensures FormatLeaf(ft, kind, v).Some? && |FormatLeaf(ft, kind, v).value| > 0
    ensures Assign(ft, kind, was, FormatLeaf(ft, kind, v).value) == (Merge(was, v), None)
  {
    match kind
    case Single(k) =>
    case Repeated(k) =>
      FormatAllAt(ft, k, v.list);
      var values := FormatAll(ft, k, v.list).value;
      AppendFrom(ft, k, was.list, v.list, values, 0);
      assert was.list + v.list[..0] == was.list && values[0..] == values;
  }

  /** Decoding an entry changes at most the leaf its key leads to. */
  lemma {:induction false} PopulateLeaf(ft: FloatText, d: Desc, m: Msg, path: seq<string>,
      values: seq<string>, q: seq<nat>)
    requires Shaped(d, m) && |path| > 0 && |values| > 0 && IsLeaf(d, q)
    ensures var r := Populate(ft, d, m, path, values);
      if Reach(d, path) == Some(q) then (Leaf(d, r.0, q), r.1) == Assign(ft, LeafKind(d, q), Leaf(d, m, q), values)
      else Leaf(d, r.0, q) == Leaf(d, m, q)
    decreases |path|
  {
    hide Assign, Lookup;
    var i := Lookup(d, path[0]);
    if i.Some? {
      var kind, x := d.fields[i.value].kind, m.values[i.value];
      assert FieldShaped(kind, x);
      if |path| == 1 {
        AssignNested(ft, kind, x, values);
        assert |q| == 1 ==> q == [q[0]];
      } else if kind.Nested? && q[0] == i.value {
        PopulateLeaf(ft, kind.desc, Child(kind.desc, x), path[1..], values, q[1..]);
        assert q == [q[0]] + q[1..];
      }
    }
  }

  lemma AssignNested(ft: FloatText, kind: FieldKind, v: Value, values: seq<string>)
    requires FieldShaped(kind, v) && |values| > 0
    ensures kind.Nested? ==> Assign(ft, kind, v, values).0 == v
  {
  }

  ghost predicate Restorable(ft: FloatText, d: Desc, m: Msg)
    requires Shaped(d, m)
  {
    forall p :: IsLeaf(d, p) ==> LeafRestores(ft, LeafKind(d, p), Leaf(d, m, p))
  }

  /** What keeps a scalar from being lost: enum numbers have to be known, and the text of a
      floating-point number has to read back. */
  predicate Storable(ft: FloatText, kind: Kind, v: Scalar) {
    Typed(kind, v) &&
    match kind
    case EnumKind(values) => DistinctNames(values) && exists e :: e in values && e.number == v.number
    case FloatKind => ft.read(kind, ft.show(kind, v.bits)) == Some(v.bits)
    case DoubleKind => ft.read(kind, ft.show(kind, v.bits)) == Some(v.bits)
    case _ => true
  }

  /** A scalar survives formatting and parsing exactly then. */
  lemma StorableRestores(ft: FloatText, kind: Kind, v: Scalar)
    requires kind.EnumKind? ==> DistinctNames(kind.values)
    ensures ScalarRestores(ft, kind, v) <==> Storable(ft, kind, v)
  {
    if Typed(kind, v) && !v.Float? {
      ScalarRoundTrip(ft, kind, v);
    }
  }

  /** So a message can be restored if all scalars in it are of that sort. */
  lemma StorableMessage(ft: FloatText, d: Desc, m: Msg)
    requires Shaped(d, m)
    requires forall p :: IsLeaf(d, p) ==> LeafStorable(ft, LeafKind(d, p), Leaf(d, m, p))
    ensures Restorable(ft, d, m)
  {
    forall p | IsLeaf(d, p)
      ensures LeafRestores(ft, LeafKind(d, p), Leaf(d, m, p))
    {
      var kind, v := LeafKind(d, p), Leaf(d, m, p);
      match kind
      case Single(k) => StorableRestores(ft, k, v.v);
      case Repeated(k) =>
        forall x | x in v.list
          ensures ScalarRestores(ft, k, x)
        {
          StorableRestores(ft, k, x);
        }
    }
  }

  predicate LeafStorable(ft: FloatText, kind: FieldKind, v: Value)
    requires FieldShaped(kind, v) && !kind.Nested?
  {
    match kind
    case Single(k) => Storable(ft, k, v.v)
    case Repeated(k) => forall x :: x in v.list ==> Storable(ft, k, x)
  }

  /** The key and values of a leaf of m. */
  predicate IsEntry(ft: FloatText, d: Desc, m: Msg, p: seq<nat>, key: string, values: seq<string>)
    requires Shaped(d, m)
  {
    IsLeaf(d, p) && !EmptyList(Leaf(d, m, p)) && key == KeyAt("", d, p) &&
    FormatLeaf(ft, LeafKind(d, p), Leaf(d, m, p)) == Some(values)
  }

  ghost predicate Entries(ft: FloatText, d: Desc, m: Msg, order: seq<string>, u: Table)
    requires Shaped(d, m)
  {
    forall key :: key in order ==> key in u && exists p :: IsEntry(ft, d, m, p, key, u[key])
  }

  lemma PopulateEntry(ft: FloatText, d: Desc, m0: Msg, m: Msg, p: seq<nat>, key: string, values: seq<string>)
    requires Shaped(d, m0) && Shaped(d, m) && KeysLeadBack(d) && Restorable(ft, d, m)
    requires IsEntry(ft, d, m, p, key, values)
    ensures var r := PopulateKey(ft, d, m0, key, values);
      r.1.None? && Leaf(d, r.0, p) == Merge(Leaf(d, m0, p), Leaf(d, m, p)) &&
      forall q :: IsLeaf(d, q) && q != p ==> Leaf(d, r.0, q) == Leaf(d, m0, q)
  {
    hide Reach, Populate;
    assert LeadsBack(d, p);
    AssignLeaf(ft, LeafKind(d, p), Leaf(d, m0, p), Leaf(d, m, p));
    var path := StrConv.Split(key, '.');
    forall q | IsLeaf(d, q)
      ensures var r := Populate(ft, d, m0, path, values);
        if q == p then (Leaf(d, r.0, q), r.1) == Assign(ft, LeafKind(d, q), Leaf(d, m0, q), values)
        else Leaf(d, r.0, q) == Leaf(d, m0, q)
    {
      PopulateLeaf(ft, d, m0, path, values, q);
    }
  }

  /** Decoding entries of m one after another restores the leaves they belong to. */
  lemma {:induction false} MapEntries(ft: FloatText, d: Desc, m0: Msg, m: Msg, order: seq<string>, u: Table)
    requires Shaped(d, m0) && Shaped(d, m) && KeysLeadBack(d) && Restorable(ft, d, m)
    requires Distinct(order) && Entries(ft, d, m, order, u)
    ensures var r := MapAll(ft, d, m0, order, u);
      r.1.None? && forall p :: IsLeaf(d, p) ==>
        Leaf(d, r.0, p) ==
        if KeyAt("", d, p) in order then Merge(Leaf(d, m0, p), Leaf(d, m, p)) else Leaf(d, m0, p)
    decreases |order|
  {
    if |order| > 0 {
      var key := order[0];
      var p :| IsEntry(ft, d, m, p, key, u[key]);
      PopulateEntry(ft, d, m0, m, p, key, u[key]);
      var m1 := PopulateKey(ft, d, m0, key, u[key]).0;
      MapEntries(ft, d, m1, m, order[1..], u);
      KeysApart(d);
      forall q | IsLeaf(d, q) && q != p
        ensures KeyAt("", d, q) in order <==> KeyAt("", d, q) in order[1..]
      {
      }
      assert key !in order[1..];
    }
  }

  /** Flattening any message that can be restored leaf by leaf succeeds, and decoding the result
      into any message, in any key order, succeeds and puts every leaf back: scalars are
      replaced, lists are appended to what was there. */
  lemma RoundTrip(ft: FloatText, d: Desc, m: Msg, m0: Msg, order: seq<string>)
    requires Shaped(d, m) && Shaped(d, m0) && KeysLeadBack(d) && Restorable(ft, d, m)
    requires Distinct(order)
    requires EncodeMap(ft, d, m).Some? ==> forall key :: key in order <==> key in EncodeMap(ft, d, m).value
    ensures EncodeMap(ft, d, m).Some?
    ensures var r := MapAll(ft, d, m0, order, EncodeMap(ft, d, m).value);
      r.1.None? && forall p :: IsLeaf(d, p) ==> Leaf(d, r.0, p) == Merge(Leaf(d, m0, p), Leaf(d, m, p))
  {
    forall p | IsLeaf(d, p)
      ensures FormatLeaf(ft, LeafKind(d, p), Leaf(d, m, p)).Some?
    {
      RestorableFormats(ft, LeafKind(d, p), Leaf(d, m, p));
    }
    EncodeSucceeds(ft, map[], "", d, m, 0);
    var u := EncodeMap(ft, d, m).value;
    forall key | key in order
      ensures exists p :: IsEntry(ft, d, m, p, key, u[key])
    {
      KeyIsOfLeaf(ft, d, m, key);
    }
    MapEntries(ft, d, m0, m, order, u);
    KeysApart(d);
    forall p | IsLeaf(d, p)
      ensures KeyAt("", d, p) in order || EmptyList(Leaf(d, m, p))
    {
      if !EmptyList(Leaf(d, m, p)) {
        EncodeHas(ft, map[], "", d, m, 0, p);
      }
    }
    forall p | IsLeaf(d, p) && EmptyList(Leaf(d, m, p))
      ensures Merge(Leaf(d, m0, p), Leaf(d, m, p)) == Leaf(d, m0, p)
    {
      MergeEmpty(LeafKind(d, p), Leaf(d, m0, p), Leaf(d, m, p));
    }
  }

  lemma MergeEmpty(kind: FieldKind, was: Value, v: Value)
    requires FieldShaped(kind, was) && FieldShaped(kind, v) && EmptyList(v)
    ensures Merge(was, v) == was
  {
    assert was.Many? ==> was.list + v.list == was.list;
  }

  lemma RestorableFormats(ft: FloatText, kind: FieldKind, v: Value)
    requires FieldShaped(kind, v) && !kind.Nested? && LeafRestores(ft, kind, v)
    ensures FormatLeaf(ft, kind, v).Some?
  {
    if kind.Repeated? {
      FormatAllAt(ft, kind.elem, v.list);
    }
  }

  /** The encoder writes nothing but the entries of the leaves. */
  lemma KeyIsOfLeaf(ft: FloatText, d: Desc, m: Msg, key: string)
    requires Shaped(d, m) && KeysLeadBack(d) && EncodeMap(ft, d, m).Some? && key in EncodeMap(ft, d, m).value
    ensures exists p :: IsEntry(ft, d, m, p, key, EncodeMap(ft, d, m).value[key])
  {
    if forall p :: !Writes("", d, m, 0, p, key) {
      EncodeFrame(ft, map[], "", d, m, 0, key);
      assert false;
    }
    var p :| Writes("", d, m, 0, p, key);
    KeysApart(d);
    EncodeHas(ft, map[], "", d, m, 0, p);
    assert IsEntry(ft, d, m, p, key, EncodeMap(ft, d, m).value[key]);
  }

  /** In particular a fresh message ends up equal to the one encoded, leaf by leaf. */
  lemma FreshRoundTrip(ft: FloatText, d: Desc, m: Msg, order: seq<string>)
    requires Shaped(d, m) && KeysLeadBack(d) && Restorable(ft, d, m) && Distinct(order)
    requires EncodeMap(ft, d, m).Some? ==> forall key :: key in order <==> key in EncodeMap(ft, d, m).value
    ensures EncodeMap(ft, d, m).Some?
    ensures var r := MapAll(ft, d, Empty(d), order, EncodeMap(ft, d, m).value);
      r.1.None? && forall p :: IsLeaf(d, p) ==> Leaf(d, r.0, p) == Leaf(d, m, p)
  {
    RoundTrip(ft, d, m, Empty(d), order);
    forall p | IsLeaf(d, p)
      ensures Merge(Leaf(d, Empty(d), p), Leaf(d, m, p)) == Leaf(d, m, p)
    {
      EmptyLeaf(d, p);
      MergeInto(LeafKind(d, p), Leaf(d, m, p));
    }
  }

  lemma MergeInto(kind: FieldKind, v: Value)
    requires FieldShaped(kind, v) && !kind.Nested?
    ensures Merge(ZeroValue(kind), v) == v
  {
    assert v.Many? ==> [] + v.list == v.list;
  }

  lemma {:induction false} EmptyLeaf(d: Desc, p: seq<nat>)
    requires IsLeaf(d, p)
    ensures Leaf(d, Empty(d), p) == ZeroValue(LeafKind(d, p))
    decreases |p|
  {
    if d.fields[p[0]].kind.Nested? {
      EmptyLeaf(d.fields[p[0]].kind.desc, p[1..]);
    }
  }
}
