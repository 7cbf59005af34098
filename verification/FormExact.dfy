/** Exactly when the round trip holds: every key has to lead back to its own leaf. */
module FormExact {
  import opened Wrappers
  import opened FormScalar
  import opened Form
  import opened FormMessage
  import opened FormLaws
  import IntMath
  import StrConv

  // ----- messages that differ at one leaf ----------------------------------

  ghost predicate DifferOnlyAt(d: Desc, a: Msg, b: Msg, p: seq<nat>)
    requires Shaped(d, a) && Shaped(d, b)
  {
    forall q :: IsLeaf(d, q) && q != p ==> Leaf(d, a, q) == Leaf(d, b, q)
  }

  /** From field i on, the leaves written under this key are the same. */
  ghost predicate AgreeUnder(path: string, d: Desc, a: Msg, b: Msg, i: nat, key: string)
    requires Shaped(d, a) && Shaped(d, b)
  {
    forall q :: IsLeaf(d, q) && q[0] >= i && KeyAt(path, d, q) == key ==> Leaf(d, a, q) == Leaf(d, b, q)
  }

  /** The encoder then treats that key alike in both. */
  lemma {:induction false} EncodeAlike(ft: FloatText, u: Table, v: Table, path: string, d: Desc, a: Msg, b: Msg, i: nat,
      key: string)
    requires Shaped(d, a) && Shaped(d, b) && i <= |d.fields| && SameAt(u, v, key)
    requires EncodeFields(ft, u, path, d, a, i).Some? && EncodeFields(ft, v, path, d, b, i).Some?
    requires AgreeUnder(path, d, a, b, i, key)
    ensures SameAt(EncodeFields(ft, u, path, d, a, i).value, EncodeFields(ft, v, path, d, b, i).value, key)
    decreases d, |d.fields| - i, 1
  {
    hide AgreeUnder, SameAt, EncodeField;
    if i < |d.fields| {
      var f := d.fields[i];
      assert FieldShaped(f.kind, a.values[i]) && FieldShaped(f.kind, b.values[i]);
      FieldAlike(ft, u, v, path, d, a, b, i, key);
      AgreeLater(path, d, a, b, i, i + 1, key);
      var newPath := Join(path, Key(f));
      EncodeAlike(ft, EncodeField(ft, u, newPath, f.kind, a.values[i]).value,
                  EncodeField(ft, v, newPath, f.kind, b.values[i]).value, path, d, a, b, i + 1, key);
    }
  }

  lemma AgreeLater(path: string, d: Desc, a: Msg, b: Msg, i: nat, n: nat, key: string)
    requires Shaped(d, a) && Shaped(d, b) && AgreeUnder(path, d, a, b, i, key) && i <= n
    ensures AgreeUnder(path, d, a, b, n, key)
  {
  }

  lemma {:induction false} FieldAlike(ft: FloatText, u: Table, v: Table, path: string, d: Desc, a: Msg, b: Msg, i: nat,
      key: string)
    requires Shaped(d, a) && Shaped(d, b) && i < |d.fields| && SameAt(u, v, key)
    requires FieldShaped(d.fields[i].kind, a.values[i]) && FieldShaped(d.fields[i].kind, b.values[i])
    requires EncodeField(ft, u, Join(path, Key(d.fields[i])), d.fields[i].kind, a.values[i]).Some?
    requires EncodeField(ft, v, Join(path, Key(d.fields[i])), d.fields[i].kind, b.values[i]).Some?
    requires AgreeUnder(path, d, a, b, i, key)
    ensures SameAt(EncodeField(ft, u, Join(path, Key(d.fields[i])), d.fields[i].kind, a.values[i]).value,
                   EncodeField(ft, v, Join(path, Key(d.fields[i])), d.fields[i].kind, b.values[i]).value, key)
    decreases d, |d.fields| - i, 0
  {
    var kind, newPath := d.fields[i].kind, Join(path, Key(d.fields[i]));
    if kind.Nested? {
      var desc := kind.desc;
      var a', b' := Child(desc, a.values[i]), Child(desc, b.values[i]);
      forall q | IsLeaf(desc, q) && KeyAt(newPath, desc, q) == key
        ensures Leaf(desc, a', q) == Leaf(desc, b', q)
      {
        LeafInto(d, i, q);
        assert ([i] + q)[1..] == q;
        assert Leaf(d, a, [i] + q) == Leaf(d, b, [i] + q);
      }
      EncodeAlike(ft, u, v, newPath, desc, a', b', 0, key);
    } else {
      assert IsLeaf(d, [i]) && KeyAt(path, d, [i]) == newPath;
      assert newPath == key ==> Leaf(d, a, [i]) == Leaf(d, b, [i]);
    }
  }

  // ----- every written leaf has an entry -----------------------------------

  lemma {:induction false} EncodeGrows(ft: FloatText, u: Table, path: string, d: Desc, m: Msg, i: nat)
    requires Shaped(d, m) && i <= |d.fields| && EncodeFields(ft, u, path, d, m, i).Some?
    ensures u.Keys <= EncodeFields(ft, u, path, d, m, i).value.Keys
    decreases d, |d.fields| - i, 1
  {
    if i < |d.fields| {
      assert FieldShaped(d.fields[i].kind, m.values[i]);
      FieldGrows(ft, u, Join(path, Key(d.fields[i])), d, m, i);
      var u' := EncodeField(ft, u, Join(path, Key(d.fields[i])), d.fields[i].kind, m.values[i]).value;
      EncodeGrows(ft, u', path, d, m, i + 1);
    }
  }

  lemma {:induction false} FieldGrows(ft: FloatText, u: Table, path: string, d: Desc, m: Msg, i: nat)
    requires Shaped(d, m) && i < |d.fields| && FieldShaped(d.fields[i].kind, m.values[i])
    requires EncodeField(ft, u, path, d.fields[i].kind, m.values[i]).Some?
    ensures u.Keys <= EncodeField(ft, u, path, d.fields[i].kind, m.values[i]).value.Keys
    decreases d, |d.fields| - i, 0
  {
    match d.fields[i].kind
    case Nested(desc) => EncodeGrows(ft, u, path, desc, Child(desc, m.values[i]), 0);
    case _ =>
  }

  lemma {:induction false} KeyPresent(ft: FloatText, u: Table, path: string, d: Desc, m: Msg, i: nat, p: seq<nat>)
    requires Shaped(d, m) && i <= |d.fields| && EncodeFields(ft, u, path, d, m, i).Some?
    requires IsLeaf(d, p) && p[0] >= i && !EmptyList(Leaf(d, m, p))
    ensures KeyAt(path, d, p) in EncodeFields(ft, u, path, d, m, i).value
    decreases d, |d.fields| - i
  {
    var f, v := d.fields[i], m.values[i];
    assert FieldShaped(f.kind, v);
    var newPath := Join(path, Key(f));
    var u1 := EncodeField(ft, u, newPath, f.kind, v).value;
    if p[0] > i {
      KeyPresent(ft, u1, path, d, m, i + 1, p);
    } else {
      if f.kind.Nested? {
        KeyPresent(ft, u, newPath, f.kind.desc, Child(f.kind.desc, v), 0, p[1..]);
      } else {
        assert p == [i];
      }
      EncodeGrows(ft, u1, path, d, m, i + 1);
    }
  }

  // ----- decoding two such messages ----------------------------------------

  /** Entries that are alike, or lead elsewhere, leave a leaf alike. */
  lemma {:induction false} MapAlike(ft: FloatText, d: Desc, a: Msg, b: Msg, order: seq<string>, u: Table, v: Table,
      p: seq<nat>, key: string)
    requires Shaped(d, a) && Shaped(d, b) && IsLeaf(d, p) && Leaf(d, a, p) == Leaf(d, b, p)
    requires forall k :: k in order ==> k in u && k in v && (k != key ==> u[k] == v[k])
    requires Reach(d, StrConv.Split(key, '.')) != Some(p)
    requires MapAll(ft, d, a, order, u).1.None? && MapAll(ft, d, b, order, v).1.None?
    ensures Leaf(d, MapAll(ft, d, a, order, u).0, p) == Leaf(d, MapAll(ft, d, b, order, v).0, p)
    decreases |order|
  {
    hide Reach, Populate;
    if |order| > 0 {
      var k := order[0];
      var path := StrConv.Split(k, '.');
      PopulateLeaf(ft, d, a, path, u[k], p);
      PopulateLeaf(ft, d, b, path, v[k], p);
      MapAlike(ft, d, PopulateKey(ft, d, a, k, u[k]).0, PopulateKey(ft, d, b, k, v[k]).0, order[1..], u, v, p, key);
    }
  }

  ghost predicate IsOrder(order: seq<string>, u: Table) {
    Distinct(order) && forall key :: key in order <==> key in u
  }

  /** Encoding m and decoding its entries in this order gives m back, leaf by leaf. */
  ghost predicate Restored(ft: FloatText, d: Desc, m: Msg, order: seq<string>)
    requires Shaped(d, m)
  {
    var u := EncodeMap(ft, d, m);
    u.Some? && IsOrder(order, u.value) &&
    var r := MapAll(ft, d, Empty(d), order, u.value);
    r.1.None? && forall q :: IsLeaf(d, q) ==> Leaf(d, r.0, q) == Leaf(d, m, q)
  }

  lemma RestorableEncodes(ft: FloatText, d: Desc, m: Msg)
    requires Shaped(d, m) && Restorable(ft, d, m)
    ensures EncodeMap(ft, d, m).Some?
  {
    forall p | IsLeaf(d, p)
      ensures FormatLeaf(ft, LeafKind(d, p), Leaf(d, m, p)).Some?
    {
      RestorableFormats(ft, LeafKind(d, p), Leaf(d, m, p));
    }
    EncodeSucceeds(ft, map[], "", d, m, 0);
  }

  /** The entries of two messages that differ at one leaf differ at most under its key. */
  lemma TablesAlike(ft: FloatText, d: Desc, a: Msg, b: Msg, p: seq<nat>)
    requires Shaped(d, a) && Shaped(d, b) && IsLeaf(d, p) && DifferOnlyAt(d, a, b, p)
    requires EncodeMap(ft, d, a).Some? && EncodeMap(ft, d, b).Some?
    requires !EmptyList(Leaf(d, a, p)) && !EmptyList(Leaf(d, b, p))
    ensures var (u, v) := (EncodeMap(ft, d, a).value, EncodeMap(ft, d, b).value);
      u.Keys == v.Keys && forall k :: k in u && k != KeyAt("", d, p) ==> u[k] == v[k]
  {
    hide SameAt;
    var u, v := EncodeMap(ft, d, a).value, EncodeMap(ft, d, b).value;
    KeyPresent(ft, map[], "", d, a, 0, p);
    KeyPresent(ft, map[], "", d, b, 0, p);
    forall k | k in u.Keys + v.Keys && k != KeyAt("", d, p)
      ensures k in u && k in v && u[k] == v[k]
    {
      NothingAlike(k);
      EncodeAlike(ft, map[], map[], "", d, a, b, 0, k);
      AlikeMeans(u, v, k);
    }
  }

  lemma NothingAlike(key: string)
    ensures SameAt(map[], map[], key)
  {
  }

  lemma AlikeMeans(u: Table, v: Table, key: string)
    requires SameAt(u, v, key)
    ensures (key in u <==> key in v) && (key in u ==> u[key] == v[key])
  {
  }

  /** Where the key of a leaf does not lead back to it, no order of the entries restores both of
      two messages that differ there. */
  lemma NotBothRestored(ft: FloatText, d: Desc, a: Msg, b: Msg, p: seq<nat>, order: seq<string>)
    requires Shaped(d, a) && Shaped(d, b) && IsLeaf(d, p) && DifferOnlyAt(d, a, b, p)
    requires Leaf(d, a, p) != Leaf(d, b, p) && !EmptyList(Leaf(d, a, p)) && !EmptyList(Leaf(d, b, p))
    requires !LeadsBack(d, p)
    ensures !(Restored(ft, d, a, order) && Restored(ft, d, b, order))
  {
    if EncodeMap(ft, d, a).Some? && EncodeMap(ft, d, b).Some? {
      TablesAlike(ft, d, a, b, p);
      var u, v := EncodeMap(ft, d, a).value, EncodeMap(ft, d, b).value;
      if IsOrder(order, u) && MapAll(ft, d, Empty(d), order, u).1.None? && MapAll(ft, d, Empty(d), order, v).1.None? {
        MapAlike(ft, d, Empty(d), Empty(d), order, u, v, p, KeyAt("", d, p));
      }
    }
  }

  // ----- any leaf can be given another value -------------------------------

  function Put(d: Desc, m: Msg, p: seq<nat>, v: Value): (r: Msg)
    requires Shaped(d, m) && IsLeaf(d, p) && FieldShaped(LeafKind(d, p), v)
    ensures Shaped(d, r)
    decreases |p|
  {
    var x := m.values[p[0]];
    assert FieldShaped(d.fields[p[0]].kind, x);
    var y := match d.fields[p[0]].kind
             case Nested(desc) => Sub(Some(Put(desc, Child(desc, x), p[1..], v)))
             case _ => v;
    AssignShaped(d, m, p[0], y);
    Msg(m.values[p[0] := y])
  }

  lemma {:induction false} PutLeaf(d: Desc, m: Msg, p: seq<nat>, v: Value, q: seq<nat>)
    requires Shaped(d, m) && IsLeaf(d, p) && FieldShaped(LeafKind(d, p), v) && IsLeaf(d, q)
    ensures Leaf(d, Put(d, m, p, v), q) == if q == p then v else Leaf(d, m, q)
    decreases |p|
  {
    var x := m.values[p[0]];
    assert FieldShaped(d.fields[p[0]].kind, x);
    if q[0] == p[0] {
      assert p == [p[0]] + p[1..] && q == [q[0]] + q[1..];
      if d.fields[p[0]].kind.Nested? {
        var desc := d.fields[p[0]].kind.desc;
        PutLeaf(desc, Child(desc, x), p[1..], v, q[1..]);
      }
    }
  }

  lemma PutRestorable(ft: FloatText, d: Desc, m: Msg, p: seq<nat>, v: Value)
    requires Shaped(d, m) && Restorable(ft, d, m) && IsLeaf(d, p)
    requires FieldShaped(LeafKind(d, p), v) && LeafRestores(ft, LeafKind(d, p), v)
    ensures Restorable(ft, d, Put(d, m, p, v))
  {
    forall q | IsLeaf(d, q)
      ensures LeafRestores(ft, LeafKind(d, q), Leaf(d, Put(d, m, p, v), q))
    {
      PutLeaf(d, m, p, v, q);
    }
  }

  /** Two different values, neither an empty list, that a leaf of this kind can carry through. */
  ghost predicate HasTwo(ft: FloatText, kind: FieldKind)
    requires !kind.Nested?
  {
    exists v, w :: Carries(ft, kind, v) && Carries(ft, kind, w) && v != w
  }

  predicate Carries(ft: FloatText, kind: FieldKind, v: Value)
    requires !kind.Nested?
  {
    FieldShaped(kind, v) && LeafRestores(ft, kind, v) && !EmptyList(v)
  }

  predicate IsPlain(kind: Kind) {
    kind.BoolKind? || kind.StringKind? ||
    kind.Int32Kind? || kind.Int64Kind? || kind.Uint32Kind? || kind.Uint64Kind?
  }

  /** Bools, strings and integers have, and so has a list of anything that carries a value. */
  lemma PlainKindsHaveTwo(ft: FloatText, kind: Kind)
    requires IsPlain(kind)
    ensures HasTwo(ft, Single(kind)) && HasTwo(ft, Repeated(kind))
  {
    var x, y := TwoScalars(kind);
    StorableRestores(ft, kind, x);
    StorableRestores(ft, kind, y);
    assert Carries(ft, Single(kind), One(x)) && Carries(ft, Single(kind), One(y));
    ListsHaveTwo(ft, kind, x);
  }

  lemma ListsHaveTwo(ft: FloatText, kind: Kind, x: Scalar)
    requires ScalarRestores(ft, kind, x)
    ensures HasTwo(ft, Repeated(kind))
  {
    assert Carries(ft, Repeated(kind), Many([x])) && Carries(ft, Repeated(kind), Many([x, x]));
    assert |[x]| != |[x, x]|;
  }

  lemma TwoScalars(kind: Kind) returns (x: Scalar, y: Scalar)
    requires IsPlain(kind)
    ensures Typed(kind, x) && Typed(kind, y) && x != y
  {
    x := Zero(kind);
    y := match kind
         case BoolKind => Bool(true)
         case StringKind => Text("x")
         case _ => Int(1);
    BitsEnough();
  }

  lemma BitsEnough()
    ensures IntMath.Pow(2, 31) > 1 && IntMath.Pow(2, 63) > 1 && IntMath.Pow(2, 32) > 1 && IntMath.Pow(2, 64) > 1
  {
    IntMath.PowPositive(2, 30);
    IntMath.PowPositive(2, 62);
    IntMath.PowPositive(2, 31);
    IntMath.PowPositive(2, 63);
    IntMath.PowSucc(2, 30);
    IntMath.PowSucc(2, 62);
    IntMath.PowSucc(2, 31);
    IntMath.PowSucc(2, 63);
  }

  // ----- the exact condition -----------------------------------------------

  /** Every restorable message comes back from its entries, in every order. */
  ghost predicate RoundTrips(ft: FloatText, d: Desc) {
    forall m, order :: Shaped(d, m) && Restorable(ft, d, m) && IsOrderOf(ft, d, m, order) ==> Restored(ft, d, m, order)
  }

  ghost predicate IsOrderOf(ft: FloatText, d: Desc, m: Msg, order: seq<string>)
    requires Shaped(d, m)
  {
    EncodeMap(ft, d, m).Some? && IsOrder(order, EncodeMap(ft, d, m).value)
  }

  lemma {:induction false} SomeOrder(keys: set<string>) returns (order: seq<string>)
    ensures Distinct(order) && forall key :: key in order <==> key in keys
    decreases |keys|
  {
    if keys == {} {
      order := [];
    } else {
      var k :| k in keys;
      var rest := SomeOrder(keys - {k});
      order := rest + [k];
    }
  }

  /** For a message type of which some message can be restored, and every leaf of which can carry
      two values: the round trip holds for all messages and orders if and only if every key leads
      back to its own leaf. */
  lemma RoundTripExactly(ft: FloatText, d: Desc, m0: Msg)
    requires Shaped(d, m0) && Restorable(ft, d, m0)
    requires forall p :: IsLeaf(d, p) ==> HasTwo(ft, LeafKind(d, p))
    ensures RoundTrips(ft, d) <==> KeysLeadBack(d)
  {
    if KeysLeadBack(d) {
      forall m, order | Shaped(d, m) && Restorable(ft, d, m) && IsOrderOf(ft, d, m, order)
        ensures Restored(ft, d, m, order)
      {
        FreshRoundTrip(ft, d, m, order);
      }
    }
    if RoundTrips(ft, d) {
      forall p | IsLeaf(d, p)
        ensures LeadsBack(d, p)
      {
        if !LeadsBack(d, p) {
          TwoToTell(ft, d, m0, p);
        }
      }
    }
  }

  /** A leaf that does not lead back is the ruin of some message. */
  lemma TwoToTell(ft: FloatText, d: Desc, m0: Msg, p: seq<nat>)
    requires Shaped(d, m0) && Restorable(ft, d, m0) && IsLeaf(d, p) && HasTwo(ft, LeafKind(d, p)) && !LeadsBack(d, p)
    ensures !RoundTrips(ft, d)
  {
    var x, y :| Carries(ft, LeafKind(d, p), x) && Carries(ft, LeafKind(d, p), y) && x != y;
    var a, b := Put(d, m0, p, x), Put(d, m0, p, y);
    forall q | IsLeaf(d, q)
      ensures Leaf(d, a, q) == if q == p then x else Leaf(d, m0, q)
      ensures Leaf(d, b, q) == if q == p then y else Leaf(d, m0, q)
    {
      PutLeaf(d, m0, p, x, q);
      PutLeaf(d, m0, p, y, q);
    }
    PutRestorable(ft, d, m0, p, x);
    PutRestorable(ft, d, m0, p, y);
    RestorableEncodes(ft, d, a);
    RestorableEncodes(ft, d, b);
    TablesAlike(ft, d, a, b, p);
    var order := SomeOrder(EncodeMap(ft, d, a).value.Keys);
    NotBothRestored(ft, d, a, b, p, order);
    assert IsOrderOf(ft, d, a, order) && IsOrderOf(ft, d, b, order);
  }
}
