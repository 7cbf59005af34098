/** What transaction scopes guarantee, for every program, world and starting state. */
module ZdbLaws {
  import opened Wrappers
  import opened Zdb

  // ----- one loop over an entry --------------------------------------------

  /** How many handles the loop finishes before it meets one that fails. */
  function Stop(w: World, e: Entry, order: seq<string>): (n: nat)
    requires forall name :: name in order ==> name in e
    ensures n <= |order|
    ensures n < |order| ==> w.fails(e[order[n]])
    ensures forall i :: 0 <= i < n ==> !w.fails(e[order[i]])
    decreases |order|
  {
    if |order| == 0 || w.fails(e[order[0]]) then 0 else 1 + Stop(w, e, order[1..])
  }

  predicate Injective(e: Entry) {
    forall a, b :: a in e && b in e && a != b ==> e[a] != e[b]
  }

  /** Exactly the handles before the first failing one are finished, each once. */
  lemma {:induction false} FinishExactly(w: World, handles: seq<Handle>, e: Entry, order: seq<string>, commit: bool)
    requires Bounded(e, |handles|) && Injective(e) && forall n :: n in order ==> n in e
    requires forall i, j :: 0 <= i < j < |order| ==> order[i] != order[j]
    ensures var r := FinishAll(w, handles, e, order, commit);
      (r.1 <==> Stop(w, e, order) == |order|) &&
      (forall i :: 0 <= i < |order| ==>
        r.0[e[order[i]]] ==
        if i < Stop(w, e, order) then Finished(handles[e[order[i]]], commit) else handles[e[order[i]]]) &&
      (forall h :: 0 <= h < |handles| && (forall n :: n in order ==> e[n] != h) ==> r.0[h] == handles[h])
    decreases |order|
  {
    if |order| > 0 && !w.fails(e[order[0]]) {
      var h0 := e[order[0]];
      var handles1 := handles[h0 := Finished(handles[h0], commit)];
      FinishExactly(w, handles1, e, order[1..], commit);
      var r := FinishAll(w, handles, e, order, commit);
      assert forall n :: n in order[1..] ==> e[n] != h0;
      forall i | 0 < i < |order|
        ensures r.0[e[order[i]]] ==
                if i < Stop(w, e, order) then Finished(handles[e[order[i]]], commit) else handles[e[order[i]]]
      {
        assert order[i] == order[1..][i - 1];
      }
    }
  }

  // ----- the invariant -----------------------------------------------------

  predicate Unfinished(h: Handle) {
    h.commits == 0 && h.rollbacks == 0
  }

  /** Entries hold unfinished handles of their own transaction and database; no handle has been
      finished twice. */
  predicate Tidy(s: State) {
    && Sound(s)
    && (forall t, n :: t in s.m && n in s.m[t] ==>
          var h := s.handles[s.m[t][n]]; h.tx == t && h.name == n && Unfinished(h))
    && (forall i :: 0 <= i < |s.handles| ==>
          s.handles[i].tx < s.nextId && s.handles[i].commits + s.handles[i].rollbacks <= 1)
  }

  predicate Held(s: State, i: nat)
    requires i < |s.handles|
  {
    var h := s.handles[i];
    h.tx in s.m && h.name in s.m[h.tx] && s.m[h.tx][h.name] == i
  }

  /** Whatever has not been finished can still be. */
  predicate Live(s: State) {
    forall i :: 0 <= i < |s.handles| && Unfinished(s.handles[i]) ==> Held(s, i)
  }

  predicate SameEntry(s: State, s': State, t: TxId) {
    (t in s.m <==> t in s'.m) && (t in s.m ==> s.m[t] == s'.m[t])
  }

  ghost predicate NoFailure(w: World) {
    forall h :: !w.fails(h)
  }

  lemma FinishEffect(w: World, s: State, t: TxId, commit: bool)
    requires ValidWorld(w) && Tidy(s)
    ensures var r := Finish(w, s, t, commit);
      && Tidy(r.0) && t !in r.0.m && |r.0.handles| == |s.handles| && r.0.nextId == s.nextId
      && (forall u :: u != t ==> SameEntry(s, r.0, u))
      && (forall i :: 0 <= i < |s.handles| ==>
            r.0.handles[i] == s.handles[i] ||
            (s.handles[i].tx == t && r.0.handles[i] == Finished(s.handles[i], commit)))
  {
    if t in s.m {
      var e := s.m[t];
      var order := Visited(w, s.loops, e);
      assert Enumerates(order, e.Keys);
      FinishExactly(w, s.handles, e, order, commit);
      var r := Finish(w, s, t, commit);
      forall i | 0 <= i < |s.handles|
        ensures r.0.handles[i] == s.handles[i] ||
          (s.handles[i].tx == t && Unfinished(s.handles[i]) && r.0.handles[i] == Finished(s.handles[i], commit))
      {
        if exists n :: n in order && e[n] == i {
          var n :| n in order && e[n] == i;
          var j :| 0 <= j < |order| && order[j] == n;
        }
      }
    }
  }

  /** With no failures, all handles within reach are finished. */
  lemma FinishAllHeld(w: World, s: State, t: TxId, commit: bool)
    requires ValidWorld(w) && Tidy(s) && NoFailure(w)
    ensures var r := Finish(w, s, t, commit);
      r.1 && |r.0.handles| == |s.handles| &&
      forall i :: 0 <= i < |s.handles| && s.handles[i].tx == t && Held(s, i) ==>
        r.0.handles[i] == Finished(s.handles[i], commit)
  {
    if t in s.m {
      var e := s.m[t];
      var order := Visited(w, s.loops, e);
      assert Enumerates(order, e.Keys);
      FinishExactly(w, s.handles, e, order, commit);
      var r := Finish(w, s, t, commit);
      forall i | 0 <= i < |s.handles| && s.handles[i].tx == t && Held(s, i)
        ensures r.0.handles[i] == Finished(s.handles[i], commit)
      {
        var j :| 0 <= j < |order| && order[j] == s.handles[i].name;
      }
    }
  }

  /** With no failures, an ended transaction leaves only live handles live. */
  lemma FinishLive(w: World, s: State, t: TxId, commit: bool)
    requires ValidWorld(w) && Tidy(s) && Live(s) && NoFailure(w)
    ensures Live(Finish(w, s, t, commit).0)
  {
    FinishEffect(w, s, t, commit);
    FinishAllHeld(w, s, t, commit);
    var s' := Finish(w, s, t, commit).0;
    forall i | 0 <= i < |s'.handles| && Unfinished(s'.handles[i])
      ensures Held(s', i)
    {
      assert Unfinished(s.handles[i]);
      assert Held(s, i);
      assert s.handles[i].tx != t;
      assert SameEntry(s, s', s.handles[i].tx);
    }
  }

  // ----- whole programs ----------------------------------------------------

  /** What running with some contexts visible leaves alone: entries and handles of all other
      transactions; of the transactions started on the way nothing remains. */
  predicate Keeps(s: State, s': State, txs: seq<TxId>) {
    && Tidy(s') && |s.handles| <= |s'.handles| && s.nextId <= s'.nextId
    && (forall t :: t in s.m.Keys + s'.m.Keys && t < s.nextId && t !in txs ==> SameEntry(s, s', t))
    && (forall t :: t in s'.m ==> t < s.nextId)
    && (forall i :: 0 <= i < |s.handles| ==>
          s'.handles[i].tx == s.handles[i].tx && s'.handles[i].name == s.handles[i].name &&
          (s.handles[i].tx !in txs ==> s'.handles[i] == s.handles[i]))
    && (forall i :: |s.handles| <= i < |s'.handles| ==> s'.handles[i].tx in txs || s'.handles[i].tx >= s.nextId)
  }

  lemma KeepsTrans(s: State, s1: State, s2: State, txs: seq<TxId>)
    requires Keeps(s, s1, txs) && Keeps(s1, s2, txs) && Issued(s, txs)
    ensures Keeps(s, s2, txs)
  {
    hide Tidy;
    forall t | t in s.m.Keys + s2.m.Keys && t < s.nextId && t !in txs
      ensures SameEntry(s, s2, t)
    {
      assert t in s.m || t in s1.m.Keys + s2.m.Keys;
      if t in s.m {
        assert SameEntry(s, s1, t);
      }
      assert SameEntry(s1, s2, t);
    }
    forall t | t in s2.m
      ensures t < s.nextId
    {
      assert t in s1.m.Keys + s2.m.Keys && t < s1.nextId;
      assert t !in txs ==> SameEntry(s1, s2, t);
    }
  }

  /** The handles there were are as they were, new ones are unfinished. */
  predicate OnlyAdds(s: State, s': State) {
    |s.handles| <= |s'.handles| &&
    forall i :: 0 <= i < |s'.handles| ==>
      if i < |s.handles| then s'.handles[i] == s.handles[i] else Unfinished(s'.handles[i])
  }

  lemma OpenedKeeps(w: World, s: State, txs: seq<TxId>, k: nat, name: string, begins: bool)
    requires Tidy(s) && Issued(s, txs) && k < |txs|
    ensures var r := Opened(w, s, txs[k], name, begins);
      r.Some? ==> Keeps(s, r.value, txs) && (Live(s) ==> Live(r.value)) && OnlyAdds(s, r.value)
  {
    var r := Opened(w, s, txs[k], name, begins);
    if r.Some? && Live(s) {
      forall i | 0 <= i < |r.value.handles| && Unfinished(r.value.handles[i])
        ensures Held(r.value, i)
      {
        if i < |s.handles| {
          assert Held(s, i);
        }
      }
    }
  }

  lemma KeepsItself(s: State, txs: seq<TxId>)
    requires Tidy(s)
    ensures Keeps(s, s, txs)
  {
  }

  /** Every run keeps the invariant and what is not its own; without failures it keeps every
      unfinished handle within reach. */
  lemma {:induction false} RunKeeps(w: World, s: State, txs: seq<TxId>, p: Prog)
    requires ValidWorld(w) && Tidy(s) && Issued(s, txs) && Scoped(p, |txs|)
    ensures var s' := Run(w, s, txs, p).0;
      Keeps(s, s', txs) && (NoFailure(w) && Live(s) ==> Live(s'))
    decreases p, 0
  {
    hide Keeps, Live, Opened;
    KeepsItself(s, txs);
    match p
    case Return =>
    case Fail =>
    case Throw =>
    case Open(k, name, begins, next, refused) =>
      OpenedKeeps(w, s, txs, k, name, begins);
      var r := Opened(w, s, txs[k], name, begins);
      if r.Some? {
        TidyOf(s, r.value, txs);
        RunKeeps(w, r.value, txs, next);
        KeepsTrans(s, r.value, Run(w, r.value, txs, next).0, txs);
      } else {
        RunKeeps(w, s, txs, refused);
      }
    case OpenPlain(name, next, refused) =>
      RunKeeps(w, s, txs, if name in w.known then next else refused);
    case Nest(k, body, _, _, _) =>
      ScopeKeeps(w, s, txs, k, body);
      var r := Scope(w, s, txs, txs[k], body);
      TidyOf(s, r.0, txs);
      RunKeeps(w, r.0, txs, After(p, r.1));
      KeepsTrans(s, r.0, Run(w, r.0, txs, After(p, r.1)).0, txs);
    case Separate(body, _, _, _) =>
      SeparateKeeps(w, s, txs, body);
      var r := Separated(w, s, txs, body);
      TidyOf(s, r.0, txs);
      RunKeeps(w, r.0, txs, After(p, r.1));
      KeepsTrans(s, r.0, Run(w, r.0, txs, After(p, r.1)).0, txs);
  }

  lemma TidyOf(s: State, s': State, txs: seq<TxId>)
    requires Keeps(s, s', txs)
    ensures Tidy(s') && s.nextId <= s'.nextId
  {
  }

  /** Transaction with a plain context: a new transaction id, then the scope. */
  function Separated(w: World, s: State, txs: seq<TxId>, body: Prog): (r: (State, Outcome))
    requires Sound(s) && Issued(s, txs) && Scoped(body, |txs| + 1)
    ensures Sound(r.0) && s.nextId <= r.0.nextId
  {
    Scope(w, s.(nextId := s.nextId + 1), txs + [s.nextId], s.nextId, body)
  }

  lemma {:induction false} ScopeKeeps(w: World, s: State, txs: seq<TxId>, k: nat, body: Prog)
    requires ValidWorld(w) && Tidy(s) && Issued(s, txs) && Scoped(body, |txs|) && k < |txs|
    ensures var s' := Scope(w, s, txs, txs[k], body).0;
      Keeps(s, s', txs) && txs[k] !in s'.m && (NoFailure(w) && Live(s) ==> Live(s'))
    decreases body, 1
  {
    hide Keeps, Live;
    RunKeeps(w, s, txs, body);
    var r := Run(w, s, txs, body);
    TidyOf(s, r.0, txs);
    EndedKeeps(w, r.0, txs, k, r.1);
    KeepsTrans(s, r.0, Ended(w, r.0, txs[k], r.1).0, txs);
  }

  lemma EndedKeeps(w: World, s: State, txs: seq<TxId>, k: nat, o: Outcome)
    requires ValidWorld(w) && Tidy(s) && Issued(s, txs) && k < |txs|
    ensures var s' := Ended(w, s, txs[k], o).0;
      Keeps(s, s', txs) && txs[k] !in s'.m && (NoFailure(w) && Live(s) ==> Live(s'))
  {
    hide Keeps, Finish, Live;
    var t := txs[k];
    FinishKeeps(w, s, txs, k, o == Ok);
    var c := Finish(w, s, t, o == Ok);
    if o == Ok && !c.1 {
      TidyOf(s, c.0, txs);
      FinishKeeps(w, c.0, txs, k, false);
      KeepsTrans(s, c.0, Finish(w, c.0, t, false).0, txs);
    }
  }

  lemma FinishKeeps(w: World, s: State, txs: seq<TxId>, k: nat, commit: bool)
    requires ValidWorld(w) && Tidy(s) && Issued(s, txs) && k < |txs|
    ensures var r := Finish(w, s, txs[k], commit);
      Keeps(s, r.0, txs) && txs[k] !in r.0.m && (NoFailure(w) && Live(s) ==> Live(r.0))
  {
    hide Finish, Live;
    FinishEffect(w, s, txs[k], commit);
    if NoFailure(w) && Live(s) {
      FinishLive(w, s, txs[k], commit);
    }
    var s' := Finish(w, s, txs[k], commit).0;
    forall t | t in s'.m
      ensures t < s.nextId
    {
      assert SameEntry(s, s', t);
    }
  }

  lemma {:induction false} SeparateKeeps(w: World, s: State, txs: seq<TxId>, body: Prog)
    requires ValidWorld(w) && Tidy(s) && Issued(s, txs) && Scoped(body, |txs| + 1)
    ensures var s' := Separated(w, s, txs, body).0;
      Keeps(s, s', txs) && (NoFailure(w) && Live(s) ==> Live(s'))
    decreases body, 2
  {
    hide Keeps, Live, Scope;
    var s0, txs' := s.(nextId := s.nextId + 1), txs + [s.nextId];
    assert Tidy(s0);
    ScopeKeeps(w, s0, txs', |txs|, body);
    NarrowKeeps(s, Separated(w, s, txs, body).0, txs);
  }

  /** Seen from outside, the new transaction has left no entry. */
  lemma NarrowKeeps(s: State, s': State, txs: seq<TxId>)
    requires Tidy(s) && Issued(s, txs) && s.nextId !in s'.m
    requires Keeps(s.(nextId := s.nextId + 1), s', txs + [s.nextId])
    ensures Keeps(s, s', txs)
    ensures Live(s) ==> Live(s.(nextId := s.nextId + 1))
  {
    var s0 := s.(nextId := s.nextId + 1);
    forall t | t in s.m.Keys + s'.m.Keys && t < s.nextId && t !in txs
      ensures SameEntry(s, s', t)
    {
      assert t in s0.m.Keys + s'.m.Keys && SameEntry(s0, s', t);
    }
    if Live(s) {
      forall i | 0 <= i < |s0.handles| && Unfinished(s0.handles[i])
        ensures Held(s0, i)
      {
        assert Held(s, i);
      }
    }
  }

  // ----- main results ------------------------------------------------------

  function Outermost(w: World, s: State, body: Prog): (r: (State, Outcome))
    requires Sound(s) && Scoped(body, 1)
  {
    Separated(w, s, [], body)
  }

  /** Once the outermost Transaction has ended the transaction map is what it was, whatever
      failed on the way; and no handle has been finished twice. */
  lemma NoEntryLeft(w: World, s: State, body: Prog)
    requires ValidWorld(w) && Tidy(s) && Scoped(body, 1)
    ensures Outermost(w, s, body).0.m == s.m && Tidy(Outermost(w, s, body).0)
  {
    hide Tidy, Separated;
    SoundOf(s);
    var txs: seq<TxId> := [];
    SeparateKeeps(w, s, txs, body);
    var s' := Outermost(w, s, body).0;
    forall t | t in s.m.Keys + s'.m.Keys
      ensures SameEntry(s, s', t)
    {
      assert t < s.nextId;
    }
    assert forall t :: t in s.m ==> t in s.m.Keys + s'.m.Keys;
    assert forall t :: t in s'.m ==> t in s.m.Keys + s'.m.Keys;
  }

  lemma SoundOf(s: State)
    requires Tidy(s)
    ensures Sound(s)
  {
  }

  /** If no commit or rollback itself fails, every handle begun during the outermost Transaction
      is finished exactly once, and the handles there were before are not touched. */
  lemma FinishedExactlyOnce(w: World, s: State, body: Prog)
    requires ValidWorld(w) && NoFailure(w) && Tidy(s) && Live(s) && Scoped(body, 1)
    ensures var s' := Outermost(w, s, body).0;
      Live(s') && |s.handles| <= |s'.handles| &&
      (forall i :: 0 <= i < |s.handles| ==> s'.handles[i] == s.handles[i]) &&
      (forall i :: |s.handles| <= i < |s'.handles| ==> s'.handles[i].commits + s'.handles[i].rollbacks == 1)
  {
    hide Separated;
    var txs: seq<TxId> := [];
    SeparateKeeps(w, s, txs, body);
    NoEntryLeft(w, s, body);
    var s' := Outermost(w, s, body).0;
    forall i | |s.handles| <= i < |s'.handles|
      ensures !Unfinished(s'.handles[i])
    {
      assert !Held(s', i);
    }
  }

  /** No nested Transaction with a transaction context; others may be started inside. */
  predicate NoNest(p: Prog) {
    match p
    case Open(_, _, _, next, refused) => NoNest(next) && NoNest(refused)
    case OpenPlain(_, next, refused) => NoNest(next) && NoNest(refused)
    case Nest(_, _, _, _, _) => false
    case Separate(body, a, b, c) => NoNest(body) && NoNest(a) && NoNest(b) && NoNest(c)
    case _ => true
  }

  /** Nothing begun under these transactions has been finished. */
  predicate AllOpen(s: State, txs: seq<TxId>) {
    forall i :: 0 <= i < |s.handles| && s.handles[i].tx in txs ==> Unfinished(s.handles[i])
  }

  /** Without nesting a transaction's handles stay open until it ends. */
  lemma {:induction false} StaysOpen(w: World, s: State, txs: seq<TxId>, p: Prog)
    requires ValidWorld(w) && Tidy(s) && Issued(s, txs) && Scoped(p, |txs|)
    requires NoNest(p) && AllOpen(s, txs)
    ensures AllOpen(Run(w, s, txs, p).0, txs)
    decreases p, 0
  {
    hide Keeps, Live, Opened;
    match p
    case Return =>
    case Fail =>
    case Throw =>
    case Open(k, name, begins, next, refused) =>
      OpenedKeeps(w, s, txs, k, name, begins);
      var r := Opened(w, s, txs[k], name, begins);
      if r.Some? {
        TidyOf(s, r.value, txs);
        StaysOpen(w, r.value, txs, next);
      } else {
        StaysOpen(w, s, txs, refused);
      }
    case OpenPlain(name, next, refused) =>
      StaysOpen(w, s, txs, if name in w.known then next else refused);
    case Separate(body, _, _, _) =>
      SeparateKeeps(w, s, txs, body);
      SeparateStaysOpen(w, s, txs, body);
      var r := Separated(w, s, txs, body);
      TidyOf(s, r.0, txs);
      StaysOpen(w, r.0, txs, After(p, r.1));
  }

  lemma {:induction false} SeparateStaysOpen(w: World, s: State, txs: seq<TxId>, body: Prog)
    requires ValidWorld(w) && Tidy(s) && Issued(s, txs) && Scoped(body, |txs| + 1)
    requires NoNest(body) && AllOpen(s, txs)
    ensures AllOpen(Separated(w, s, txs, body).0, txs)
    decreases body, 1
  {
    hide Keeps, Ended;
    var s0, txs' := s.(nextId := s.nextId + 1), txs + [s.nextId];
    assert AllOpen(s0, txs');
    StaysOpen(w, s0, txs', body);
    RunKeeps(w, s0, txs', body);
    var r := Run(w, s0, txs', body);
    TidyOf(s0, r.0, txs');
    EndedStaysOpen(w, r.0, txs, s.nextId, r.1);
  }

  lemma EndedStaysOpen(w: World, s: State, txs: seq<TxId>, t: TxId, o: Outcome)
    requires ValidWorld(w) && Tidy(s) && t !in txs && AllOpen(s, txs)
    ensures AllOpen(Ended(w, s, t, o).0, txs)
  {
    hide Finish;
    FinishEffect(w, s, t, o == Ok);
    var c := Finish(w, s, t, o == Ok);
    if o == Ok && !c.1 {
      FinishEffect(w, c.0, t, false);
    }
  }

  /** Without nesting and without failing commits or rollbacks, all handles of the transaction
      are committed if it succeeds and all are rolled back if it fails or panics; and it succeeds
      exactly if its function does. */
  lemma AllOrNothing(w: World, s: State, body: Prog)
    requires ValidWorld(w) && NoFailure(w) && Tidy(s) && Live(s) && Scoped(body, 1) && NoNest(body)
    ensures var (s', o) := Outermost(w, s, body);
      o == Run(w, s.(nextId := s.nextId + 1), [s.nextId], body).1 &&
      forall i :: 0 <= i < |s'.handles| && s'.handles[i].tx == s.nextId ==>
        (s'.handles[i].commits, s'.handles[i].rollbacks) == if o == Ok then (1, 0) else (0, 1)
  {
    hide Keeps, Run, Finish;
    var s0, txs := s.(nextId := s.nextId + 1), [s.nextId];
    assert [] + [s.nextId] == txs;
    assert Live(s0) by {
      forall i | 0 <= i < |s0.handles| && Unfinished(s0.handles[i])
        ensures Held(s0, i)
      {
        assert Held(s, i);
      }
    }
    RunKeeps(w, s0, txs, body);
    StaysOpen(w, s0, txs, body);
    var r := Run(w, s0, txs, body);
    TidyOf(s0, r.0, txs);
    FinishEffect(w, r.0, s.nextId, r.1 == Ok);
    FinishAllHeld(w, r.0, s.nextId, r.1 == Ok);
    forall i | 0 <= i < |r.0.handles| && r.0.handles[i].tx == s.nextId
      ensures Unfinished(r.0.handles[i]) && Held(r.0, i)
    {
    }
  }

  /** A nested Transaction that succeeds, after which the function fails. */
  function NestThenFail(): (p: Prog)
    ensures Scoped(p, 1)
  {
    Nest(0, Return, Fail, Fail, Throw)
  }

  function OpenNestFail(name: string): (p: Prog)
    ensures Scoped(p, 1)
  {
    Open(0, name, true, NestThenFail(), Throw)
  }

  /** Nesting gives up atomicity: the inner Transaction commits what the outer one has begun, so
      the outer one can fail with its work committed. */
  lemma NestedCommitsOuter(w: World, s: State, name: string)
    requires ValidWorld(w) && NoFailure(w) && Tidy(s) && name in w.known
    ensures var (s', o) := Outermost(w, s, OpenNestFail(name));
      o == Err && |s'.handles| == |s.handles| + 1 && s'.handles[|s.handles|] == Handle(name, s.nextId, 1, 0)
  {
    hide Run, Scope, Opened, Tidy, OpenNestFail;
    var s0, t := s.(nextId := s.nextId + 1), s.nextId;
    assert [] + [t] == [t];
    NewIdIsFree(s);
    var s1 := OpenedFirst(w, s0, t, name);
    var s2 := InnerCommits(w, s1, t, |s.handles|);
    SoundOf(s0);
    SoundOf(s1);
    OuterFails(w, s0, s1, s2, t, name);
  }

  lemma NewIdIsFree(s: State)
    requires Tidy(s)
    ensures s.nextId !in s.m && Tidy(s.(nextId := s.nextId + 1))
  {
  }

  /** The outer function begins the database. */
  lemma OpenedFirst(w: World, s: State, t: TxId, name: string) returns (s1: State)
    requires Tidy(s) && t < s.nextId && t !in s.m && name in w.known
    ensures Tidy(s1) && s1.nextId == s.nextId && Opened(w, s, t, name, true).Some?
    ensures s1 == Opened(w, s, t, name, true).value
    ensures |s1.handles| == |s.handles| + 1 && s1.handles[|s.handles|] == Handle(name, t, 0, 0) && Held(s1, |s.handles|)
  {
    s1 := Opened(w, s, t, name, true).value;
    OpenedKeeps(w, s, [t], 0, name, true);
  }

  /** The inner scope commits it. */
  lemma InnerCommits(w: World, s1: State, t: TxId, i: nat) returns (s2: State)
    requires ValidWorld(w) && NoFailure(w) && Tidy(s1) && t < s1.nextId
    requires i < |s1.handles| && s1.handles[i].tx == t && Held(s1, i)
    ensures Scope(w, s1, [t], t, Return) == (s2, Ok)
    ensures Sound(s2) && s2.nextId == s1.nextId && t !in s2.m && |s2.handles| == |s1.handles|
    ensures s2.handles[i] == Finished(s1.handles[i], true)
  {
    hide Finish;
    FinishEffect(w, s1, t, true);
    FinishAllHeld(w, s1, t, true);
    s2 := Finish(w, s1, t, true).0;
  }

  /** The outer one fails, and has nothing left to roll back. */
  lemma OuterFails(w: World, s0: State, s1: State, s2: State, t: TxId, name: string)
    requires Sound(s0) && t < s0.nextId && Sound(s1) && t < s1.nextId && Sound(s2) && t < s2.nextId && t !in s2.m
    requires Opened(w, s0, t, name, true) == Some(s1) && Scope(w, s1, [t], t, Return) == (s2, Ok)
    ensures Scope(w, s0, [t], t, OpenNestFail(name)) == (s2, Err)
  {
    hide Finish, Opened;
    FinishNothing(w, s2, t, false);
    assert Run(w, s1, [t], NestThenFail()) == Run(w, s2, [t], Fail) == (s2, Err);
    assert Run(w, s0, [t], OpenNestFail(name)) == Run(w, s1, [t], NestThenFail());
  }

  lemma FinishNothing(w: World, s: State, t: TxId, commit: bool)
    requires Sound(s) && t !in s.m
    ensures Finish(w, s, t, commit) == (s, true)
  {
  }

  /** When a commit fails, that handle and those after it in the loop are finished by nobody: the
      rollback that follows finds the entry gone. */
  lemma FailedCommitStrands(w: World, s: State, t: TxId)
    requires ValidWorld(w) && Tidy(s) && t in s.m
    ensures var order := Visited(w, s.loops, s.m[t]);
      var (s', o) := Ended(w, s, t, Ok);
      (o == Ok <==> Stop(w, s.m[t], order) == |order|) &&
      forall i :: 0 <= i < |order| ==>
        s'.handles[s.m[t][order[i]]] ==
        if i < Stop(w, s.m[t], order) then Finished(s.handles[s.m[t][order[i]]], true) else s.handles[s.m[t][order[i]]]
  {
    var order := Visited(w, s.loops, s.m[t]);
    assert Enumerates(order, s.m[t].Keys);
    FinishExactly(w, s.handles, s.m[t], order, true);
    var c := Finish(w, s, t, true);
    FinishNothing(w, c.0, t, false);
  }

  /** How a scope ends, whatever fails: the entry goes; the handles of the loop before the first
      failing one are committed if the function succeeded and rolled back if not; all others stay;
      and the outcome is the function's, except that a failing commit makes it an error. */
  lemma ScopeEndsExactly(w: World, s: State, t: TxId, o: Outcome)
    requires ValidWorld(w) && Tidy(s)
    ensures var e: Entry := if t in s.m then s.m[t] else map[];
      var order := Visited(w, s.loops, e);
      var (s', r) := Ended(w, s, t, o);
      && r == (if o == Ok && t in s.m && Stop(w, e, order) < |order| then Err else o)
      && s'.m == s.m - {t} && |s'.handles| == |s.handles|
      && (forall i :: 0 <= i < |order| && t in s.m ==>
            s'.handles[e[order[i]]] ==
            if i < Stop(w, e, order) then Finished(s.handles[e[order[i]]], o == Ok) else s.handles[e[order[i]]])
      && (forall h :: 0 <= h < |s.handles| && (t in s.m ==> forall n :: n in order ==> e[n] != h) ==>
            s'.handles[h] == s.handles[h])
  {
    var c := Finish(w, s, t, o == Ok);
    if t in s.m {
      var order := Visited(w, s.loops, s.m[t]);
      assert Enumerates(order, s.m[t].Keys);
      FinishExactly(w, s.handles, s.m[t], order, o == Ok);
    } else {
      assert s.m - {t} == s.m;
    }
    FinishNothing(w, c.0, t, false);
  }

  /** What the calls answer to the function that makes them: a Transaction the outcome of its
      scope, which has a new transaction if its context was plain; NewOrm a handle or a panic. */
  lemma CallsAnswer(w: World, s: State, txs: seq<TxId>, k: nat, body: Prog, name: string, begins: bool)
    requires Sound(s) && Issued(s, txs) && k < |txs|
    ensures Scoped(body, |txs|) ==>
      Run(w, s, txs, Nest(k, body, Return, Fail, Throw)) == Scope(w, s, txs, txs[k], body)
    ensures Scoped(body, |txs| + 1) ==>
      Run(w, s, txs, Separate(body, Return, Fail, Throw)) ==
      Scope(w, s.(nextId := s.nextId + 1), txs + [s.nextId], s.nextId, body)
    ensures Run(w, s, txs, OpenPlain(name, Return, Throw)) == (s, if name in w.known then Ok else Panicked)
    ensures Run(w, s, txs, Open(k, name, begins, Return, Throw)).1 ==
      if Registered(s.m, txs[k], name).Some? || (name in w.known && begins) then Ok else Panicked
  {
    hide Scope;
    OpenedExactly(w, s, txs[k], name, begins);
  }
}
