/** The message object the decoder fills: a loop walks down the path of a key, setting the
    messages it passes, and stores the values where it ends. */
module FormMessage {
  import opened Wrappers
  import opened FormScalar
  import opened Form
  import StrConv

  // ----- positions in a message --------------------------------------------

  /** A position is the field indices leading down from the root; it stands for the reference
      to the message there. */
  predicate Leads(d: Desc, at: seq<nat>)
    decreases |at|
  {
    |at| == 0 ||
    (at[0] < |d.fields| && d.fields[at[0]].kind.Nested? && Leads(d.fields[at[0]].kind.desc, at[1..]))
  }

  function DescAt(d: Desc, at: seq<nat>): Desc
    requires Leads(d, at)
    decreases |at|
  {
    if |at| == 0 then d else DescAt(d.fields[at[0]].kind.desc, at[1..])
  }

  function MsgAt(d: Desc, m: Msg, at: seq<nat>): (c: Msg)
    requires Shaped(d, m) && Leads(d, at)
    ensures Shaped(DescAt(d, at), c)
    decreases |at|
  {
    if |at| == 0 then m
    else MsgAt(d.fields[at[0]].kind.desc, Child(d.fields[at[0]].kind.desc, m.values[at[0]]), at[1..])
  }

  /** m with c put in at the position, and the messages on the way there set. */
  function Graft(d: Desc, m: Msg, at: seq<nat>, c: Msg): (r: Msg)
    requires Shaped(d, m) && Leads(d, at) && Shaped(DescAt(d, at), c)
    ensures Shaped(d, r)
    decreases |at|
  {
    if |at| == 0 then c
    else
      var desc := d.fields[at[0]].kind.desc;
      Msg(m.values[at[0] := Sub(Some(Graft(desc, Child(desc, m.values[at[0]]), at[1..], c)))])
  }

  lemma {:induction false} MsgAtGraft(d: Desc, m: Msg, at: seq<nat>, c: Msg)
    requires Shaped(d, m) && Leads(d, at) && Shaped(DescAt(d, at), c)
    ensures MsgAt(d, Graft(d, m, at, c), at) == c
    decreases |at|
  {
    if |at| > 0 {
      MsgAtGraft(d.fields[at[0]].kind.desc, Child(d.fields[at[0]].kind.desc, m.values[at[0]]), at[1..], c);
    }
  }

  lemma {:induction false} GraftTwice(d: Desc, m: Msg, at: seq<nat>, b: Msg, c: Msg)
    requires Shaped(d, m) && Leads(d, at) && Shaped(DescAt(d, at), b) && Shaped(DescAt(d, at), c)
    ensures Graft(d, Graft(d, m, at, b), at, c) == Graft(d, m, at, c)
    decreases |at|
  {
    if |at| > 0 {
      GraftTwice(d.fields[at[0]].kind.desc, Child(d.fields[at[0]].kind.desc, m.values[at[0]]), at[1..], b, c);
    }
  }

  lemma {:induction false} LeadsOn(d: Desc, at: seq<nat>, j: nat)
    requires Leads(d, at) && j < |DescAt(d, at).fields| && DescAt(d, at).fields[j].kind.Nested?
    ensures Leads(d, at + [j]) && DescAt(d, at + [j]) == DescAt(d, at).fields[j].kind.desc
    decreases |at|
  {
    if |at| == 0 {
      assert (at + [j])[1..] == [];
    } else {
      assert (at + [j])[1..] == at[1..] + [j];
      LeadsOn(d.fields[at[0]].kind.desc, at[1..], j);
    }
  }

  lemma {:induction false} GraftOn(d: Desc, m: Msg, at: seq<nat>, j: nat, c: Msg)
    requires Shaped(d, m) && Leads(d, at) && j < |DescAt(d, at).fields| && DescAt(d, at).fields[j].kind.Nested?
    requires Shaped(DescAt(d, at).fields[j].kind.desc, c)
    ensures Leads(d, at + [j]) && DescAt(d, at + [j]) == DescAt(d, at).fields[j].kind.desc
    ensures Graft(d, m, at + [j], c) == Graft(d, m, at, Msg(MsgAt(d, m, at).values[j := Sub(Some(c))]))
    ensures MsgAt(d, m, at + [j]) == Child(DescAt(d, at).fields[j].kind.desc, MsgAt(d, m, at).values[j])
    decreases |at|
  {
    LeadsOn(d, at, j);
    if |at| == 0 {
      assert (at + [j])[1..] == [];
    } else {
      assert (at + [j])[1..] == at[1..] + [j];
      GraftOn(d.fields[at[0]].kind.desc, Child(d.fields[at[0]].kind.desc, m.values[at[0]]), at[1..], j, c);
    }
  }

  // ----- the object --------------------------------------------------------

  class Message {
    const desc: Desc
    var root: Msg

    ghost predicate Valid()
      reads this
    {
      Shaped(desc, root)
    }

    constructor (d: Desc)
      ensures Valid() && desc == d && root == Empty(d)
    {
      desc, root := d, Empty(d);
    }

    /** Makes sure that the message in field j of the one at the position is set. */
    method Mutable(at: seq<nat>, j: nat)
      requires Valid() && Leads(desc, at)
      requires j < |DescAt(desc, at).fields| && DescAt(desc, at).fields[j].kind.Nested?
      modifies this
      ensures Valid() && Leads(desc, at + [j]) && DescAt(desc, at + [j]) == DescAt(desc, at).fields[j].kind.desc
      ensures root == Graft(desc, old(root), at + [j], MsgAt(desc, old(root), at + [j]))
    {
      LeadsOn(desc, at, j);
      root := Graft(desc, root, at + [j], MsgAt(desc, root, at + [j]));
    }

    method PopulateRepeatedField(ft: FloatText, kind: Kind, list: seq<Scalar>, values: seq<string>)
      returns (filled: seq<Scalar>, err: Option<Error>)
      requires AllTyped(kind, list)
      ensures (filled, err) == AppendParsed(ft, kind, list, values)
    {
      filled := list;
      for i := 0 to |values|
        invariant AllTyped(kind, filled)
        invariant AppendParsed(ft, kind, list, values) == AppendParsed(ft, kind, filled, values[i..])
      {
        ParsedIsTyped(ft, kind, values[i]);
        var v := Parse(ft, kind, values[i]);
        if v.None? {
          return filled, Some(BadValue);
        }
        filled := filled + [v.value];
        assert values[i..][1..] == values[i + 1..];
      }
      return filled, None;
    }

    /** Stores the values in field j of the message at the position. */
    method PopulateAt(ft: FloatText, at: seq<nat>, j: nat, values: seq<string>) returns (err: Option<Error>)
      requires Valid() && Leads(desc, at) && j < |DescAt(desc, at).fields| && |values| > 0
      requires root == Graft(desc, root, at, MsgAt(desc, root, at))
      modifies this
      ensures Valid()
      ensures var v, kind := MsgAt(desc, old(root), at), DescAt(desc, at).fields[j].kind;
        FieldShaped(kind, v.values[j]) &&
        var r := Assign(ft, kind, v.values[j], values);
        Shaped(DescAt(desc, at), Msg(v.values[j := r.0])) &&
        err == r.1 && root == Graft(desc, old(root), at, Msg(v.values[j := r.0]))
    {
      var v, kind := MsgAt(desc, root, at), DescAt(desc, at).fields[j].kind;
      var x := v.values[j];
      assert FieldShaped(kind, x);
      AssignShaped(DescAt(desc, at), v, j, Assign(ft, kind, x, values).0);
      assert v.values[j := x] == v.values;
      match kind {
        case Repeated(k) =>
          var list;
          list, err := PopulateRepeatedField(ft, k, x.list, values);
          root := Graft(desc, root, at, Msg(v.values[j := Many(list)]));
        case Nested(_) =>
          return Some(if |values| > 1 then TooManyValues else UnsupportedMessage);
        case Single(k) =>
          if |values| > 1 {
            return Some(TooManyValues);
          }
          var val := Parse(ft, k, values[0]);
          if val.None? {
            return Some(BadValue);
          }
          root := Graft(desc, root, at, Msg(v.values[j := One(val.value)]));
          return None;
      }
    }

    /** Stores the values of one key. */
    method PopulateFieldValues(ft: FloatText, fieldPath: seq<string>, values: seq<string>) returns (err: Option<Error>)
      requires Valid() && |fieldPath| > 0
      modifies this
      ensures Valid()
      ensures |values| == 0 ==> root == old(root) && err == Some(NoValue)
      ensures |values| > 0 ==> (root, err) == Populate(ft, desc, old(root), fieldPath, values)
    {
      if |values| < 1 {
        return Some(NoValue);
      }
      var at, i := [], 0;
      assert fieldPath[0..] == fieldPath;
      while i < |fieldPath| - 1
        invariant i <= |fieldPath| - 1 && Valid() && Leads(desc, at)
        invariant Pending(ft, desc, old(root), fieldPath, root, at, fieldPath[i..], values)
      {
        var fields := DescAt(desc, at);
        var j := Lookup(fields, fieldPath[i]);
        if j.None? {
          return None;
        }
        if !fields.fields[j.value].kind.Nested? {
          return Some(NotAMessage(fieldPath[i]));
        }
        PendingOn(ft, desc, old(root), fieldPath, root, at, fieldPath[i..], values, j.value);
        Mutable(at, j.value);
        at := at + [j.value];
        assert fieldPath[i..][1..] == fieldPath[i + 1..];
        i := i + 1;
      }
      var j := Lookup(DescAt(desc, at), fieldPath[i]);
      if j.None? {
        return None;
      }
      err := PopulateAt(ft, at, j.value, values);
    }

    /** Stores the entries of the map in some order; order is a ghost record of it. */
    method MapProto(ft: FloatText, values: Table) returns (err: Option<Error>, ghost order: seq<string>)
      requires Valid()
      modifies this
      ensures Valid()
      ensures Distinct(order) && forall key :: key in order ==> key in values
      ensures err.None? ==> forall key :: key in values ==> key in order
      ensures (root, err) == MapAll(ft, desc, old(root), order, values)
    {
      var keys := values.Keys;
      order := [];
      err := None;
      while keys != {}
        invariant Valid() && keys <= values.Keys && Distinct(order)
        invariant forall key :: key in values <==> key in order || key in keys
        invariant forall key :: key in order ==> key !in keys
        invariant err.None? && MapAll(ft, desc, old(root), order, values) == (root, None)
        decreases |keys|
      {
        var key :| key in keys;
        keys := keys - {key};
        MapAllOn(ft, desc, old(root), order, key, values);
        err := PopulateFieldValues(ft, StrConv.Split(key, '.'), values[key]);
        order := order + [key];
        if err.Some? {
          return;
        }
      }
    }
  }

  lemma AssignShaped(d: Desc, m: Msg, j: nat, x: Value)
    requires Shaped(d, m) && j < |d.fields| && FieldShaped(d.fields[j].kind, x)
    ensures Shaped(d, Msg(m.values[j := x]))
  {
    forall i | 0 <= i < |d.fields|
      ensures FieldShaped(d.fields[i].kind, m.values[j := x][i])
    {
      assert FieldShaped(d.fields[i].kind, m.values[i]);
    }
  }

  predicate Distinct(order: seq<string>) {
    forall i, j :: 0 <= i < j < |order| ==> order[i] != order[j]
  }

  /** One more entry at the end. */
  lemma {:induction false} MapAllOn(ft: FloatText, d: Desc, m: Msg, order: seq<string>, key: string, u: Table)
    requires Shaped(d, m) && key in u && forall k :: k in order ==> k in u
    ensures var r := MapAll(ft, d, m, order, u);
      MapAll(ft, d, m, order + [key], u) == if r.1.Some? then r else PopulateKey(ft, d, r.0, key, u[key])
    decreases |order|
  {
    if |order| == 0 {
      assert (order + [key])[1..] == [];
    } else {
      assert (order + [key])[1..] == order[1..] + [key];
      var r := PopulateKey(ft, d, m, order[0], u[order[0]]);
      if r.1.None? {
        MapAllOn(ft, d, r.0, order[1..], key, u);
      }
    }
  }

  /** What is left to do at a position on the way down gives what was to be done at the root. */
  predicate Pending(ft: FloatText, d: Desc, m0: Msg, path0: seq<string>,
      m: Msg, at: seq<nat>, path: seq<string>, values: seq<string>)
    requires Shaped(d, m0) && Shaped(d, m) && Leads(d, at) && |path0| > 0 && |path| > 0 && |values| > 0
  {
    var r := Populate(ft, DescAt(d, at), MsgAt(d, m, at), path, values);
    m == Graft(d, m, at, MsgAt(d, m, at)) &&
    Populate(ft, d, m0, path0, values) == (Graft(d, m, at, r.0), r.1)
  }

  lemma PendingOn(ft: FloatText, d: Desc, m0: Msg, path0: seq<string>,
      m: Msg, at: seq<nat>, path: seq<string>, values: seq<string>, j: nat)
    requires Shaped(d, m0) && Shaped(d, m) && Leads(d, at) && |path0| > 0 && |path| > 1 && |values| > 0
    requires Pending(ft, d, m0, path0, m, at, path, values)
    requires Lookup(DescAt(d, at), path[0]) == Some(j) && DescAt(d, at).fields[j].kind.Nested?
    ensures Leads(d, at + [j])
    ensures var m' := Graft(d, m, at + [j], MsgAt(d, m, at + [j]));
      Pending(ft, d, m0, path0, m', at + [j], path[1..], values)
  {
    LeadsOn(d, at, j);
    var desc := DescAt(d, at).fields[j].kind.desc;
    var c := MsgAt(d, m, at + [j]);
    GraftOn(d, m, at, j, c);
    var r := Populate(ft, desc, c, path[1..], values);
    GraftOn(d, m, at, j, r.0);
    GraftTwice(d, m, at + [j], c, r.0);
    GraftTwice(d, m, at + [j], c, c);
    MsgAtGraft(d, m, at + [j], c);
  }
}
