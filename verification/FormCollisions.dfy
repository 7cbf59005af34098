/** Where the round trip fails: a key that the decoder looks up as another field. */
module FormCollisions {
  import opened Wrappers
  import opened FormScalar
  import opened Form
  import opened FormLaws
  import opened FormNames
  import StrConv

  // ----- the texts of a message --------------------------------------------

  function TextsOf(ft: FloatText, kind: FieldKind, v: Value): set<string>
    requires FieldShaped(kind, v)
    decreases kind
  {
    match kind
    case Single(k) => if Format(ft, k, v.v).Some? then {Format(ft, k, v.v).value} else {}
    case Repeated(k) => if FormatAll(ft, k, v.list).Some? then (set t | t in FormatAll(ft, k, v.list).value) else {}
    case Nested(desc) => TextsFrom(ft, desc, Child(desc, v), 0)
  }

  /** The texts of the fields from field i on. */
  function TextsFrom(ft: FloatText, d: Desc, m: Msg, i: nat): set<string>
    requires Shaped(d, m) && i <= |d.fields|
    decreases d, |d.fields| - i
  {
    if i == |d.fields| then {}
    else TextsOf(ft, d.fields[i].kind, m.values[i]) + TextsFrom(ft, d, m, i + 1)
  }

  /** Some text is longer than all of them. */
  lemma {:induction false} NewText(texts: set<string>) returns (s: string)
    ensures s != "" && forall t :: t in texts ==> |t| < |s|
    decreases |texts|
  {
    if texts == {} {
      s := "x";
    } else {
      var t :| t in texts;
      var rest := NewText(texts - {t});
      s := rest + t + "x";
      forall t' | t' in texts
        ensures |t'| < |s|
      {
        assert t' == t || t' in texts - {t};
      }
    }
  }

  // ----- where a text ends up ----------------------------------------------

  /** The text s is under no key but this one. */
  predicate OnlyUnder(u: Table, s: string, key: string) {
    forall k :: k in u && s in u[k] ==> k == key
  }

  lemma {:induction false} EncodeOnly(ft: FloatText, u: Table, path: string, d: Desc, m: Msg, i: nat,
      s: string, key: string)
    requires Shaped(d, m) && i <= |d.fields| && OnlyUnder(u, s, key) && s !in TextsFrom(ft, d, m, i)
    requires EncodeFields(ft, u, path, d, m, i).Some?
    ensures OnlyUnder(EncodeFields(ft, u, path, d, m, i).value, s, key)
    decreases d, |d.fields| - i, 1
  {
    if i < |d.fields| {
      var newPath := Join(path, Key(d.fields[i]));
      assert FieldShaped(d.fields[i].kind, m.values[i]);
      EncodeFieldOnly(ft, u, newPath, d, m, i, s, key);
      EncodeOnly(ft, EncodeField(ft, u, newPath, d.fields[i].kind, m.values[i]).value, path, d, m, i + 1, s, key);
    }
  }

  lemma {:induction false} EncodeFieldOnly(ft: FloatText, u: Table, path: string, d: Desc, m: Msg, i: nat,
      s: string, key: string)
    requires Shaped(d, m) && i < |d.fields| && OnlyUnder(u, s, key)
    requires FieldShaped(d.fields[i].kind, m.values[i])
    requires s !in TextsOf(ft, d.fields[i].kind, m.values[i])
    requires EncodeField(ft, u, path, d.fields[i].kind, m.values[i]).Some?
    ensures OnlyUnder(EncodeField(ft, u, path, d.fields[i].kind, m.values[i]).value, s, key)
    decreases d, |d.fields| - i, 0
  {
    match d.fields[i].kind
    case Nested(desc) => EncodeOnly(ft, u, path, desc, Child(desc, m.values[i]), 0, s, key);
    case _ =>
  }

  /** With s in string field i and nowhere else, the encoder writes s under that field's key only. */
  lemma {:induction false} EncodeOnlyField(ft: FloatText, u: Table, d: Desc, m: Msg, l: nat, i: nat, s: string)
    requires Shaped(d, m) && l <= |d.fields| && i < |d.fields|
    requires d.fields[i].kind == Single(StringKind) && m.values[i] == One(Text(s))
    requires forall j :: 0 <= j < |d.fields| && j != i ==>
      FieldShaped(d.fields[j].kind, m.values[j]) && s !in TextsOf(ft, d.fields[j].kind, m.values[j])
    requires OnlyUnder(u, s, Key(d.fields[i])) && EncodeFields(ft, u, "", d, m, l).Some?
    ensures OnlyUnder(EncodeFields(ft, u, "", d, m, l).value, s, Key(d.fields[i]))
    decreases |d.fields| - l
  {
    if l < |d.fields| {
      var newPath := Key(d.fields[l]);
      assert FieldShaped(d.fields[l].kind, m.values[l]);
      if l != i {
        EncodeFieldOnly(ft, u, newPath, d, m, l, s, Key(d.fields[i]));
      }
      var u' := EncodeField(ft, u, newPath, d.fields[l].kind, m.values[l]).value;
      EncodeOnlyField(ft, u', d, m, l + 1, i, s);
    }
  }

  /** Only an entry holding s alone, under a key looked up as field i, puts s there. */
  lemma PopulateMisses(ft: FloatText, d: Desc, m: Msg, path: seq<string>, values: seq<string>, i: nat, s: string)
    requires Shaped(d, m) && |path| > 0 && |values| > 0 && i < |d.fields|
    requires d.fields[i].kind == Single(StringKind) && m.values[i] != One(Text(s))
    requires s in values ==> Lookup(d, path[0]) != Some(i)
    ensures Populate(ft, d, m, path, values).0.values[i] != One(Text(s))
  {
    assert FieldShaped(d.fields[i].kind, m.values[i]);
  }

  lemma {:induction false} MapMisses(ft: FloatText, d: Desc, m: Msg, order: seq<string>, u: Table, i: nat, s: string)
    requires Shaped(d, m) && i < |d.fields| && forall key :: key in order ==> key in u
    requires d.fields[i].kind == Single(StringKind) && m.values[i] != One(Text(s))
    requires OnlyUnder(u, s, Key(d.fields[i])) && DotFree(Key(d.fields[i]))
    requires Lookup(d, Key(d.fields[i])) != Some(i)
    ensures MapAll(ft, d, m, order, u).0.values[i] != One(Text(s))
    decreases |order|
  {
    if |order| > 0 {
      var key := order[0];
      StrConv.SplitWithout(Key(d.fields[i]), '.');
      if |u[key]| > 0 {
        PopulateMisses(ft, d, m, StrConv.Split(key, '.'), u[key], i, s);
      }
      var r := PopulateKey(ft, d, m, key, u[key]);
      if r.1.None? {
        MapMisses(ft, d, r.0, order[1..], u, i, s);
      }
    }
  }

  // ----- main result -------------------------------------------------------

  /** The condition on keys cannot be dropped: where the key of a string field is looked up as
      another field, some text put in that field of any restorable message is lost, whatever the
      order the entries are decoded in. */
  lemma MisledFieldIsLost(ft: FloatText, d: Desc, m0: Msg, i: nat) returns (m: Msg)
    requires Shaped(d, m0) && Restorable(ft, d, m0) && i < |d.fields|
    requires d.fields[i].kind == Single(StringKind) && DotFree(Key(d.fields[i]))
    requires Lookup(d, Key(d.fields[i])) != Some(i)
    ensures Shaped(d, m) && Restorable(ft, d, m) && EncodeMap(ft, d, m).Some? && IsLeaf(d, [i])
    ensures forall order: seq<string> ::
      (forall key :: key in order <==> key in EncodeMap(ft, d, m).value) ==>
        Leaf(d, MapAll(ft, d, Empty(d), order, EncodeMap(ft, d, m).value).0, [i]) != Leaf(d, m, [i])
  {
    var s := NewText(TextsFrom(ft, d, m0, 0));
    m := Msg(m0.values[i := One(Text(s))]);
    ReplacedIsRestorable(ft, d, m0, m, i, s);
    forall p | IsLeaf(d, p)
      ensures FormatLeaf(ft, LeafKind(d, p), Leaf(d, m, p)).Some?
    {
      RestorableFormats(ft, LeafKind(d, p), Leaf(d, m, p));
    }
    EncodeSucceeds(ft, map[], "", d, m, 0);
    forall j | 0 <= j < |d.fields| && j != i
      ensures FieldShaped(d.fields[j].kind, m.values[j]) && s !in TextsOf(ft, d.fields[j].kind, m.values[j])
    {
      assert FieldShaped(d.fields[j].kind, m0.values[j]);
      TextsAt(ft, d, m0, 0, j);
    }
    EncodeOnlyField(ft, map[], d, m, 0, i, s);
    var u := EncodeMap(ft, d, m).value;
    forall order: seq<string> | forall key :: key in order <==> key in u
      ensures Leaf(d, MapAll(ft, d, Empty(d), order, u).0, [i]) != Leaf(d, m, [i])
    {
      MapMisses(ft, d, Empty(d), order, u, i, s);
    }
  }

  lemma {:induction false} TextsAt(ft: FloatText, d: Desc, m: Msg, l: nat, j: nat)
    requires Shaped(d, m) && l <= j < |d.fields|
    ensures FieldShaped(d.fields[j].kind, m.values[j])
    ensures TextsOf(ft, d.fields[j].kind, m.values[j]) <= TextsFrom(ft, d, m, l)
    decreases j - l
  {
    assert FieldShaped(d.fields[j].kind, m.values[j]);
    if l < j {
      TextsAt(ft, d, m, l + 1, j);
    }
  }

  /** Replacing the text of a string field keeps a message restorable. */
  lemma ReplacedIsRestorable(ft: FloatText, d: Desc, m0: Msg, m: Msg, i: nat, s: string)
    requires Shaped(d, m0) && Restorable(ft, d, m0) && i < |d.fields|
    requires d.fields[i].kind == Single(StringKind) && m == Msg(m0.values[i := One(Text(s))])
    ensures Shaped(d, m) && Restorable(ft, d, m)
  {
    forall j | 0 <= j < |d.fields|
      ensures FieldShaped(d.fields[j].kind, m.values[j])
    {
      assert FieldShaped(d.fields[j].kind, m0.values[j]);
    }
    forall p | IsLeaf(d, p)
      ensures LeafRestores(ft, LeafKind(d, p), Leaf(d, m, p))
    {
      assert LeafRestores(ft, LeafKind(d, p), Leaf(d, m0, p));
    }
  }

  /** A JSON name that is another field's name sends the value to that other field: with field a
      written as b beside a field named b, the decoder stores a's text in b. */
  lemma JsonNameCollision(ft: FloatText)
    ensures var d := Desc([Field("a", "b", true, Single(StringKind)), Field("b", "c", true, Repeated(StringKind))]);
      var m := Msg([One(Text("x")), Many([])]);
      Shaped(d, m) && Restorable(ft, d, m) && !WellNamed(d) &&
      EncodeMap(ft, d, m) == Some(map["b" := ["x"]]) &&
      MapAll(ft, d, Empty(d), ["b"], map["b" := ["x"]]) == (Msg([One(Text("")), Many([Text("x")])]), None)
  {
    var d := Desc([Field("a", "b", true, Single(StringKind)), Field("b", "c", true, Repeated(StringKind))]);
    var e := Empty(d);
    assert "b" != "a";
    assert d.fields[1..] == [d.fields[1]];
    assert ByFieldName(d.fields[1..], "b") == Some(0);
    assert Lookup(d, "b") == Some(1) && Key(d.fields[0]) == "b";
    assert !Resolves(d, 0);
    StrConv.SplitWithout("b", '.');
    AppendOne(ft, "x");
    assert Empty(d).values == [One(Text("")), Many([])];
    assert Assign(ft, Repeated(StringKind), Many([]), ["x"]) == (Many([Text("x")]), None);
    assert Populate(ft, d, e, ["b"], ["x"]) == (Msg(e.values[1 := Many([Text("x")])]), None);
    assert e.values[1 := Many([Text("x")])] == [One(Text("")), Many([Text("x")])];
    assert ["b"][1..] == [];
  }

  lemma AppendOne(ft: FloatText, s: string)
    ensures AppendParsed(ft, StringKind, [], [s]) == ([Text(s)], None)
  {
    assert [s][1..] == [];
    assert AppendParsed(ft, StringKind, [Text(s)], []) == ([Text(s)], None);
    assert [] + [Text(s)] == [Text(s)];
  }
}
