/** Names under which every key leads the decoder back to the leaf it was written for. */
module FormNames {
  import opened Wrappers
  import opened Form
  import opened FormLaws
  import StrConv

  /** The keys of the fields on the way to a leaf. */
  function Names(d: Desc, p: seq<nat>): (names: seq<string>)
    requires IsLeaf(d, p)
    ensures |names| > 0
    decreases |p|
  {
    match d.fields[p[0]].kind
    case Nested(desc) => [Key(d.fields[p[0]])] + Names(desc, p[1..])
    case _ => [Key(d.fields[p[0]])]
  }

  function Dotted(names: seq<string>): string
    requires |names| > 0
    decreases |names|
  {
    if |names| == 1 then names[0] else names[0] + "." + Dotted(names[1..])
  }

  predicate DotFree(s: string) {
    s != "" && '.' !in s
  }

  /** Within each message, the key the encoder uses for a field is not empty, holds no dot and is
      looked up as that field by the decoder. */
  predicate WellNamed(d: Desc)
    decreases d
  {
    && (forall i :: 0 <= i < |d.fields| ==> DotFree(Key(d.fields[i])))
    && (forall i :: 0 <= i < |d.fields| ==> Resolves(d, i))
    && (forall i :: 0 <= i < |d.fields| && d.fields[i].kind.Nested? ==> WellNamed(d.fields[i].kind.desc))
  }

  predicate Resolves(d: Desc, i: nat)
    requires i < |d.fields|
  {
    Lookup(d, Key(d.fields[i])) == Some(i)
  }

  predicate NamesApart(f: Field, g: Field) {
    f.name != g.name && f.jsonName != g.jsonName && f.jsonName != g.name
  }

  /** Names that do not clash within a message: names and JSON names are distinct, and no JSON
      name is another field's name. Then every key leads the decoder back to its field. */
  lemma KeyFindsField(d: Desc, i: nat)
    requires i < |d.fields|
    requires forall j, k :: 0 <= j < |d.fields| && 0 <= k < |d.fields| && j != k ==>
      NamesApart(d.fields[j], d.fields[k])
    ensures Lookup(d, Key(d.fields[i])) == Some(i)
  {
    var f := d.fields[i];
    assert f in d.fields;
    assert forall j :: 0 <= j < |d.fields| && j != i ==> NamesApart(f, d.fields[j]) && NamesApart(d.fields[j], f);
  }

  /** No names clash in any message of the tree. */
  predicate ClashFree(d: Desc)
    decreases d
  {
    && (forall i :: 0 <= i < |d.fields| ==> DotFree(Key(d.fields[i])))
    && (forall j, k :: 0 <= j < |d.fields| && 0 <= k < |d.fields| && j != k ==>
          NamesApart(d.fields[j], d.fields[k]))
    && (forall i :: 0 <= i < |d.fields| && d.fields[i].kind.Nested? ==> ClashFree(d.fields[i].kind.desc))
  }

  lemma {:induction false} ClashFreeIsWellNamed(d: Desc)
    requires ClashFree(d)
    ensures WellNamed(d)
    decreases d
  {
    forall i | 0 <= i < |d.fields|
      ensures Resolves(d, i)
      ensures d.fields[i].kind.Nested? ==> WellNamed(d.fields[i].kind.desc)
    {
      KeyFindsField(d, i);
      if d.fields[i].kind.Nested? {
        ClashFreeIsWellNamed(d.fields[i].kind.desc);
      }
    }
  }

  lemma {:induction false} DottedSplits(names: seq<string>)
    requires |names| > 0 && forall s :: s in names ==> DotFree(s)
    ensures StrConv.Split(Dotted(names), '.') == names
    decreases |names|
  {
    assert DotFree(names[0]);
    if |names| == 1 {
      StrConv.SplitWithout(names[0], '.');
    } else {
      DottedSplits(names[1..]);
      StrConv.SplitAt(names[0], '.', Dotted(names[1..]));
      assert names[0] + "." + Dotted(names[1..]) == names[0] + ['.'] + Dotted(names[1..]);
    }
  }

  lemma {:induction false} NamesDotFree(d: Desc, p: seq<nat>)
    requires WellNamed(d) && IsLeaf(d, p)
    ensures forall s :: s in Names(d, p) ==> DotFree(s)
    decreases |p|
  {
    if d.fields[p[0]].kind.Nested? {
      NamesDotFree(d.fields[p[0]].kind.desc, p[1..]);
    }
  }

  lemma KeyIsFound(d: Desc, i: nat)
    requires WellNamed(d) && i < |d.fields|
    ensures Lookup(d, Key(d.fields[i])) == Some(i)
  {
    assert Resolves(d, i);
  }

  lemma NestedNames(d: Desc, i: nat)
    requires WellNamed(d) && i < |d.fields| && d.fields[i].kind.Nested?
    ensures WellNamed(d.fields[i].kind.desc) && Key(d.fields[i]) != ""
  {
    assert DotFree(Key(d.fields[i]));
  }

  /** The key of a leaf is its dotted names. */
  lemma {:induction false} KeyIsDotted(path: string, d: Desc, p: seq<nat>)
    requires WellNamed(d) && IsLeaf(d, p)
    ensures KeyAt(path, d, p) == Join(path, Dotted(Names(d, p)))
    decreases |p|
  {
    hide Join, WellNamed;
    if d.fields[p[0]].kind.Nested? {
      var f := d.fields[p[0]];
      NestedNames(d, p[0]);
      KeyIsDotted(Join(path, Key(f)), f.kind.desc, p[1..]);
      assert Names(d, p)[1..] == Names(f.kind.desc, p[1..]);
      JoinInto(path, Key(f), Dotted(Names(f.kind.desc, p[1..])));
    }
  }

  lemma JoinInto(path: string, key: string, rest: string)
    requires key != ""
    ensures Join(path, key + "." + rest) == Join(Join(path, key), rest)
  {
    assert path + "." + (key + "." + rest) == path + "." + key + "." + rest;
  }

  lemma {:induction false} NamesReach(d: Desc, p: seq<nat>)
    requires WellNamed(d) && IsLeaf(d, p)
    ensures Reach(d, Names(d, p)) == Some(p)
    decreases |p|
  {
    KeyIsFound(d, p[0]);
    if d.fields[p[0]].kind.Nested? {
      var desc := d.fields[p[0]].kind.desc;
      assert Names(d, p)[1..] == Names(desc, p[1..]);
      NamesReach(desc, p[1..]);
      assert p == [p[0]] + p[1..];
    } else {
      assert p == [p[0]];
    }
  }

  /** In a well-named tree all keys lead back. */
  lemma WellNamedLeadsBack(d: Desc)
    requires WellNamed(d)
    ensures KeysLeadBack(d)
  {
    forall p | IsLeaf(d, p)
      ensures LeadsBack(d, p)
    {
      NamesDotFree(d, p);
      DottedSplits(Names(d, p));
      KeyIsDotted("", d, p);
      NamesReach(d, p);
    }
  }
}
