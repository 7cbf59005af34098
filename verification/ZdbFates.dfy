/** Which way each handle goes: nested scopes included, the first scope on its transaction to end
    after it was begun decides. */
module ZdbFates {
  import opened Zdb
  import opened ZdbLaws

  // ----- the ends of scopes ------------------------------------------------

  /** The function of a Transaction on tx has returned: whether it succeeded, how many handles had
      been begun by then, and whether the loop of Commit or Rollback found any. */
  datatype End = End(tx: TxId, ok: bool, begun: nat, found: bool)

  /** The ends a program passes, in order. */
  function Ends(w: World, s: State, txs: seq<TxId>, p: Prog): seq<End>
    requires Sound(s) && Issued(s, txs) && Scoped(p, |txs|)
    decreases p, 0
  {
    match p
    case Open(k, name, begins, next, refused) =>
      var r := Opened(w, s, txs[k], name, begins);
      if r.None? then Ends(w, s, txs, refused) else Ends(w, r.value, txs, next)
    case OpenPlain(name, next, refused) =>
      Ends(w, s, txs, if name !in w.known then refused else next)
    case Nest(k, body, _, _, _) =>
      var r := Scope(w, s, txs, txs[k], body);
      ScopeEnds(w, s, txs, txs[k], body) + Ends(w, r.0, txs, After(p, r.1))
    case Separate(body, _, _, _) =>
      var r := Separated(w, s, txs, body);
      SeparateEnds(w, s, txs, body) + Ends(w, r.0, txs, After(p, r.1))
    case _ => []
  }

  function EndOf(s: State, t: TxId, o: Outcome): End {
    End(t, o == Ok, |s.handles|, t in s.m && s.m[t] != map[])
  }

  function ScopeEnds(w: World, s: State, txs: seq<TxId>, t: TxId, body: Prog): seq<End>
    requires Sound(s) && Issued(s, txs) && Scoped(body, |txs|) && t < s.nextId
    decreases body, 1
  {
    var r := Run(w, s, txs, body);
    Ends(w, s, txs, body) + [EndOf(r.0, t, r.1)]
  }

  function SeparateEnds(w: World, s: State, txs: seq<TxId>, body: Prog): seq<End>
    requires Sound(s) && Issued(s, txs) && Scoped(body, |txs| + 1)
    decreases body, 2
  {
    ScopeEnds(w, s.(nextId := s.nextId + 1), txs + [s.nextId], s.nextId, body)
  }

  /** The first of these ends on transaction t that comes after handle i was begun. */
  function First(ends: seq<End>, t: TxId, i: nat): (k: nat)
    ensures k <= |ends|
    ensures k < |ends| ==> ends[k].tx == t && i < ends[k].begun
    ensures forall j :: 0 <= j < k ==> !(ends[j].tx == t && i < ends[j].begun)
    decreases |ends|
  {
    if |ends| == 0 || (ends[0].tx == t && i < ends[0].begun) then 0 else 1 + First(ends[1..], t, i)
  }

  lemma {:induction false} FirstAppend(a: seq<End>, b: seq<End>, t: TxId, i: nat)
    ensures First(a + b, t, i) == if First(a, t, i) < |a| then First(a, t, i) else |a| + First(b, t, i)
    decreases |a|
  {
    if |a| == 0 {
      assert a + b == b;
    } else {
      assert (a + b)[1..] == a[1..] + b;
      FirstAppend(a[1..], b, t, i);
    }
  }

  // ----- one end -----------------------------------------------------------

  /** With no failures an ending scope finishes exactly the unfinished handles of its
      transaction, the way it ended. */
  lemma EndedExactly(w: World, s: State, t: TxId, o: Outcome)
    requires ValidWorld(w) && NoFailure(w) && Tidy(s) && Live(s)
    ensures var r := Ended(w, s, t, o);
      r.1 == o && |r.0.handles| == |s.handles| &&
      forall i :: 0 <= i < |s.handles| ==>
        (r.0.handles[i] ==
         if s.handles[i].tx == t && Unfinished(s.handles[i]) then Finished(s.handles[i], o == Ok) else s.handles[i])
  {
    hide Finish;
    FinishEffect(w, s, t, o == Ok);
    FinishAllHeld(w, s, t, o == Ok);
    var s' := Finish(w, s, t, o == Ok).0;
    forall i | 0 <= i < |s.handles| && !Unfinished(s.handles[i])
      ensures s'.handles[i] == s.handles[i]
    {
      assert s'.handles[i].commits + s'.handles[i].rollbacks <= 1;
    }
  }

  // ----- runs --------------------------------------------------------------

  /** How a handle stands after these ends. */
  predicate Stands(h: Handle, ends: seq<End>, i: nat) {
    var k := First(ends, h.tx, i);
    h.commits == (if k < |ends| && ends[k].ok then 1 else 0) &&
    h.rollbacks == (if k < |ends| && !ends[k].ok then 1 else 0)
  }

  /** Handle i was not finished before. */
  predicate WasOpen(s: State, i: nat) {
    i < |s.handles| ==> Unfinished(s.handles[i])
  }

  /** Every handle unfinished at s, or begun since, stands at s' as its first end decided. */
  predicate Decided(s: State, s': State, ends: seq<End>) {
    |s.handles| <= |s'.handles| &&
    forall i :: 0 <= i < |s'.handles| ==>
      if WasOpen(s, i) then Stands(s'.handles[i], ends, i) else i < |s.handles| && s'.handles[i] == s.handles[i]
  }

  /** An end found something to finish exactly if it is the first end of some handle. */
  predicate Accounted(s: State, s': State, ends: seq<End>) {
    forall k :: 0 <= k < |ends| ==>
      (ends[k].found <==> exists i :: 0 <= i < |s'.handles| && FirstIs(s, s', ends, i, k))
  }

  predicate FirstIs(s: State, s': State, ends: seq<End>, i: nat, k: nat)
    requires i < |s'.handles| && k < |ends|
  {
    WasOpen(s, i) && s'.handles[i].tx == ends[k].tx && First(ends, ends[k].tx, i) == k
  }

  predicate Within(ends: seq<End>, n: nat) {
    forall k :: 0 <= k < |ends| ==> ends[k].begun <= n
  }

  predicate SameOwners(s: State, s': State) {
    |s.handles| <= |s'.handles| && forall i :: 0 <= i < |s.handles| ==> s'.handles[i].tx == s.handles[i].tx
  }

  /** The whole account of a stretch of a run. */
  predicate Account(s: State, s': State, ends: seq<End>) {
    SameOwners(s, s') && Within(ends, |s'.handles|) && Decided(s, s', ends) && Accounted(s, s', ends)
  }

  lemma DecidedTrans(s: State, s1: State, s2: State, a: seq<End>, b: seq<End>)
    requires Account(s, s1, a) && Account(s1, s2, b)
    ensures SameOwners(s, s2) && Within(a + b, |s2.handles|) && Decided(s, s2, a + b)
  {
    hide First, Accounted;
    forall i | 0 <= i < |s2.handles|
      ensures if WasOpen(s, i) then Stands(s2.handles[i], a + b, i)
              else i < |s.handles| && s2.handles[i] == s.handles[i]
    {
      FirstAppend(a, b, s2.handles[i].tx, i);
      if i < |s1.handles| {
        assert s1.handles[i].tx == s2.handles[i].tx;
        assert WasOpen(s, i) ==> Stands(s1.handles[i], a, i);
      }
    }
  }

  lemma FoundEarly(s: State, s1: State, s2: State, a: seq<End>, b: seq<End>, k: nat)
    requires Account(s, s1, a) && Account(s1, s2, b) && k < |a|
    ensures a[k].found <==> exists i :: 0 <= i < |s2.handles| && FirstIs(s, s2, a + b, i, k)
  {
    hide First, Decided;
    forall i | 0 <= i < |s2.handles|
      ensures FirstIs(s, s2, a + b, i, k) <==> i < |s1.handles| && FirstIs(s, s1, a, i, k)
    {
      FirstAppend(a, b, a[k].tx, i);
    }
    if a[k].found {
      var i :| 0 <= i < |s1.handles| && FirstIs(s, s1, a, i, k);
      assert FirstIs(s, s2, a + b, i, k);
    }
  }

  lemma FoundLate(s: State, s1: State, s2: State, a: seq<End>, b: seq<End>, k: nat, n: nat)
    requires Account(s, s1, a) && Account(s1, s2, b) && k < |b| && n == |a| + k
    ensures b[k].found <==> exists i :: 0 <= i < |s2.handles| && FirstIs(s, s2, a + b, i, n)
  {
    hide First;
    forall i | 0 <= i < |s2.handles|
      ensures FirstIs(s, s2, a + b, i, n) <==> FirstIs(s1, s2, b, i, k)
    {
      FirstAppend(a, b, b[k].tx, i);
      if i < |s1.handles| {
        assert s1.handles[i].tx == s2.handles[i].tx;
        assert WasOpen(s, i) ==> Stands(s1.handles[i], a, i);
        assert !WasOpen(s, i) ==> !WasOpen(s1, i);
      }
    }
    if b[k].found {
      var i :| 0 <= i < |s2.handles| && FirstIs(s1, s2, b, i, k);
      assert FirstIs(s, s2, a + b, i, n);
    }
  }

  lemma AccountTrans(s: State, s1: State, s2: State, a: seq<End>, b: seq<End>)
    requires Account(s, s1, a) && Account(s1, s2, b)
    ensures Account(s, s2, a + b)
  {
    hide First, FirstIs;
    DecidedTrans(s, s1, s2, a, b);
    forall k | 0 <= k < |a + b|
      ensures (a + b)[k].found <==> exists i :: 0 <= i < |s2.handles| && FirstIs(s, s2, a + b, i, k)
    {
      if k < |a| {
        FoundEarly(s, s1, s2, a, b, k);
      } else {
        FoundLate(s, s1, s2, a, b, k - |a|, k);
      }
    }
  }

  lemma AccountNone(s: State, s': State)
    requires OnlyAdds(s, s')
    ensures Account(s, s', [])
  {
  }

  lemma AccountEnd(w: World, s: State, t: TxId, o: Outcome)
    requires ValidWorld(w) && NoFailure(w) && Tidy(s) && Live(s)
    ensures Account(s, Ended(w, s, t, o).0, [EndOf(s, t, o)])
  {
    hide Ended;
    EndedExactly(w, s, t, o);
    var s', ends := Ended(w, s, t, o).0, [EndOf(s, t, o)];
    forall i | 0 <= i < |s'.handles|
      ensures FirstIs(s, s', ends, i, 0) <==> s.handles[i].tx == t && Unfinished(s.handles[i])
    {
    }
    if ends[0].found {
      var name :| name in s.m[t];
      assert FirstIs(s, s', ends, s.m[t][name], 0);
    }
    if i :| 0 <= i < |s.handles| && s.handles[i].tx == t && Unfinished(s.handles[i]) {
      assert Held(s, i);
    }
  }

  /** The account holds over every run. */
  lemma {:induction false} RunAccount(w: World, s: State, txs: seq<TxId>, p: Prog)
    requires ValidWorld(w) && NoFailure(w) && Tidy(s) && Live(s) && Issued(s, txs) && Scoped(p, |txs|)
    ensures Account(s, Run(w, s, txs, p).0, Ends(w, s, txs, p))
    decreases p, 0
  {
    hide Account, Keeps, Live, Opened, Scope, ScopeEnds, SeparateEnds;
    AccountNone(s, s);
    match p
    case Return =>
    case Fail =>
    case Throw =>
    case Open(k, name, begins, next, refused) =>
      OpenedKeeps(w, s, txs, k, name, begins);
      var r := Opened(w, s, txs[k], name, begins);
      if r.Some? {
        TidyOf(s, r.value, txs);
        AccountNone(s, r.value);
        RunAccount(w, r.value, txs, next);
        AccountTrans(s, r.value, Run(w, r.value, txs, next).0, [], Ends(w, r.value, txs, next));
        assert [] + Ends(w, r.value, txs, next) == Ends(w, r.value, txs, next);
      } else {
        RunAccount(w, s, txs, refused);
      }
    case OpenPlain(name, next, refused) =>
      RunAccount(w, s, txs, if name in w.known then next else refused);
    case Nest(k, body, _, _, _) =>
      ScopeKeeps(w, s, txs, k, body);
      ScopeAccount(w, s, txs, k, body);
      var r := Scope(w, s, txs, txs[k], body);
      TidyOf(s, r.0, txs);
      RunAccount(w, r.0, txs, After(p, r.1));
      AccountTrans(s, r.0, Run(w, r.0, txs, After(p, r.1)).0,
                   ScopeEnds(w, s, txs, txs[k], body), Ends(w, r.0, txs, After(p, r.1)));
    case Separate(body, _, _, _) =>
      SeparateKeeps(w, s, txs, body);
      SeparateAccount(w, s, txs, body);
      var r := Separated(w, s, txs, body);
      TidyOf(s, r.0, txs);
      RunAccount(w, r.0, txs, After(p, r.1));
      AccountTrans(s, r.0, Run(w, r.0, txs, After(p, r.1)).0,
                   SeparateEnds(w, s, txs, body), Ends(w, r.0, txs, After(p, r.1)));
  }

  lemma {:induction false} ScopeAccount(w: World, s: State, txs: seq<TxId>, k: nat, body: Prog)
    requires ValidWorld(w) && NoFailure(w) && Tidy(s) && Live(s) && Issued(s, txs) && Scoped(body, |txs|) && k < |txs|
    ensures Account(s, Scope(w, s, txs, txs[k], body).0, ScopeEnds(w, s, txs, txs[k], body))
    decreases body, 1
  {
    hide Account, Keeps, Live, Ended, EndOf;
    RunKeeps(w, s, txs, body);
    RunAccount(w, s, txs, body);
    var r := Run(w, s, txs, body);
    TidyOf(s, r.0, txs);
    AccountEnd(w, r.0, txs[k], r.1);
    AccountTrans(s, r.0, Ended(w, r.0, txs[k], r.1).0, Ends(w, s, txs, body), [EndOf(r.0, txs[k], r.1)]);
  }

  lemma {:induction false} SeparateAccount(w: World, s: State, txs: seq<TxId>, body: Prog)
    requires ValidWorld(w) && NoFailure(w) && Tidy(s) && Live(s) && Issued(s, txs) && Scoped(body, |txs| + 1)
    ensures Account(s, Separated(w, s, txs, body).0, SeparateEnds(w, s, txs, body))
    decreases body, 2
  {
    hide Scope, ScopeEnds;
    var s0, txs' := s.(nextId := s.nextId + 1), txs + [s.nextId];
    assert Tidy(s0);
    LiveWithId(s);
    ScopeAccount(w, s0, txs', |txs|, body);
    AccountIgnoresIds(s, s0, Separated(w, s, txs, body).0, SeparateEnds(w, s, txs, body));
  }

  lemma LiveWithId(s: State)
    requires Live(s)
    ensures Live(s.(nextId := s.nextId + 1))
  {
    var s0 := s.(nextId := s.nextId + 1);
    forall i | 0 <= i < |s0.handles| && Unfinished(s0.handles[i])
      ensures Held(s0, i)
    {
      assert Held(s, i);
    }
  }

  lemma AccountIgnoresIds(s: State, s0: State, s': State, ends: seq<End>)
    requires s0.handles == s.handles && Account(s0, s', ends)
    ensures Account(s, s', ends)
  {
    hide First;
    forall i | 0 <= i < |s'.handles|
      ensures WasOpen(s0, i) <==> WasOpen(s, i)
    {
    }
    forall i, k | 0 <= i < |s'.handles| && 0 <= k < |ends|
      ensures FirstIs(s0, s', ends, i, k) <==> FirstIs(s, s', ends, i, k)
    {
    }
  }

  // ----- main results ------------------------------------------------------

  function OutermostEnds(w: World, s: State, body: Prog): seq<End>
    requires Sound(s) && Scoped(body, 1)
  {
    SeparateEnds(w, s, [], body)
  }

  /** Every handle begun during the outermost Transaction has a first end, is committed if the
      scope ending there succeeded, and is rolled back if it did not. */
  lemma FirstEndDecides(w: World, s: State, body: Prog, i: nat)
    requires ValidWorld(w) && NoFailure(w) && Tidy(s) && Live(s) && Scoped(body, 1)
    requires |s.handles| <= i < |Outermost(w, s, body).0.handles|
    ensures var h, ends := Outermost(w, s, body).0.handles[i], OutermostEnds(w, s, body);
      var k := First(ends, h.tx, i);
      k < |ends| && (h.commits, h.rollbacks) == if ends[k].ok then (1, 0) else (0, 1)
  {
    hide Separated, SeparateEnds, First;
    FinishedExactlyOnce(w, s, body);
    SeparateAccount(w, s, [], body);
    assert WasOpen(s, i);
  }

  /** All handles of the outermost transaction go the way it ends. */
  predicate AllFollow(s: State, t: TxId, o: Outcome) {
    forall i :: 0 <= i < |s.handles| && s.handles[i].tx == t ==>
      (s.handles[i].commits, s.handles[i].rollbacks) == if o == Ok then (1, 0) else (0, 1)
  }

  /** All or nothing holds, nested or not, exactly if no scope on the transaction found handles to
      finish and ended otherwise than the outermost one. */
  lemma AllOrNothingExactly(w: World, s: State, body: Prog)
    requires ValidWorld(w) && NoFailure(w) && Tidy(s) && Live(s) && Scoped(body, 1)
    ensures var (s', o) := Outermost(w, s, body);
      AllFollow(s', s.nextId, o) <==>
      forall k :: 0 <= k < |OutermostEnds(w, s, body)| ==>
        var e := OutermostEnds(w, s, body)[k]; e.tx == s.nextId && e.found ==> e.ok == (o == Ok)
  {
    hide Separated, SeparateEnds, First;
    var (s', o) := Outermost(w, s, body);
    var ends, t := OutermostEnds(w, s, body), s.nextId;
    SeparateAccount(w, s, [], body);
    FinishedExactlyOnce(w, s, body);
    OwnersAreNew(s, s', t);
    forall i | 0 <= i < |s'.handles| && s'.handles[i].tx == t
      ensures First(ends, t, i) < |ends| && ends[First(ends, t, i)].found && WasOpen(s, i)
      ensures (s'.handles[i].commits, s'.handles[i].rollbacks) == if ends[First(ends, t, i)].ok then (1, 0) else (0, 1)
    {
      FirstEndDecides(w, s, body, i);
      assert FirstIs(s, s', ends, i, First(ends, t, i));
    }
    if AllFollow(s', t, o) {
      forall k | 0 <= k < |ends| && ends[k].tx == t && ends[k].found
        ensures ends[k].ok == (o == Ok)
      {
        var i :| 0 <= i < |s'.handles| && FirstIs(s, s', ends, i, k);
        assert s'.handles[i].tx == t;
      }
    }
  }

  lemma OwnersAreNew(s: State, s': State, t: TxId)
    requires Tidy(s) && t == s.nextId && SameOwners(s, s')
    ensures forall i :: 0 <= i < |s'.handles| && s'.handles[i].tx == t ==> i >= |s.handles|
  {
  }
}
