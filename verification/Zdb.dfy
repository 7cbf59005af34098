/** Transaction scopes over several databases: NewOrm begins a handle the first time a database
    is used under a transaction, Transaction commits or rolls back what has been begun. */
module Zdb {
  import opened Wrappers

  type TxId = nat

  // ----- programs and the world --------------------------------------------

  /** What a function run inside transactions does, as a tree: each step is followed by what
      happens next. The visible contexts are numbered from the outside in.

      Open is NewOrm under a visible transaction context, with whether Begin would succeed;
      OpenPlain is NewOrm under a plain one. Either panics when refused; a program that does not
      recover goes on with Throw. Nest calls Transaction with a visible transaction
      context, Separate with a plain one; both continue according to how the call ended, where
      going on after a panic means having recovered from it. */
  datatype Prog =
    | Return | Fail | Throw
    | Open(k: nat, name: string, begins: bool, next: Prog, refused: Prog)
    | OpenPlain(name: string, next: Prog, refused: Prog)
    | Nest(k: nat, body: Prog, onOk: Prog, onErr: Prog, onPanic: Prog)
    | Separate(body: Prog, onOk: Prog, onErr: Prog, onPanic: Prog)

  /** Only visible contexts are used. */
  predicate Scoped(p: Prog, n: nat) {
    match p
    case Open(k, _, _, next, refused) => k < n && Scoped(next, n) && Scoped(refused, n)
    case OpenPlain(_, next, refused) => Scoped(next, n) && Scoped(refused, n)
    case Nest(k, body, a, b, c) => k < n && Scoped(body, n) && Scoped(a, n) && Scoped(b, n) && Scoped(c, n)
    case Separate(body, a, b, c) => Scoped(body, n + 1) && Scoped(a, n) && Scoped(b, n) && Scoped(c, n)
    case _ => true
  }

  datatype Outcome = Ok | Err | Panicked

  /** The databases that exist, the handles whose Commit or Rollback would fail, and the order
      in which the n-th loop over an entry visits its names. */
  datatype World = World(known: set<string>, fails: nat -> bool, order: (nat, set<string>) -> seq<string>)

  ghost predicate Enumerates(order: seq<string>, names: set<string>) {
    (forall i, j :: 0 <= i < j < |order| ==> order[i] != order[j]) && forall n :: n in order <==> n in names
  }

  ghost predicate ValidWorld(w: World) {
    forall n: nat, names: set<string> :: Enumerates(w.order(n, names), names)
  }

  // ----- the state ---------------------------------------------------------

  /** A begun handle: its database and transaction, and how often it has been finished. */
  datatype Handle = Handle(name: string, tx: TxId, commits: nat, rollbacks: nat)

  type Entry = map<string, nat>

  datatype State = State(handles: seq<Handle>, m: map<TxId, Entry>, nextId: TxId, loops: nat)

  function Finished(h: Handle, commit: bool): Handle {
    if commit then h.(commits := h.commits + 1) else h.(rollbacks := h.rollbacks + 1)
  }

  predicate Bounded(e: Entry, n: nat) {
    forall name :: name in e ==> e[name] < n
  }

  /** The loop of Commit and of Rollback: it stops at the first handle that fails. */
  function FinishAll(w: World, handles: seq<Handle>, e: Entry, order: seq<string>,
      commit: bool): (r: (seq<Handle>, bool))
    requires Bounded(e, |handles|) && forall n :: n in order ==> n in e
    ensures |r.0| == |handles|
    decreases |order|
  {
    if |order| == 0 then (handles, true)
    else
      var h := e[order[0]];
      if w.fails(h) then (handles, false)
      else FinishAll(w, handles[h := Finished(handles[h], commit)], e, order[1..], commit)
  }

  /** Entries name handles that exist, under ids already given out. */
  predicate Sound(s: State) {
    forall t :: t in s.m ==> t < s.nextId && Bounded(s.m[t], |s.handles|)
  }

  /** Commit or Rollback of a transaction; its entry goes whatever happens. */
  function Finish(w: World, s: State, t: TxId, commit: bool): (r: (State, bool))
    requires Sound(s)
    ensures Sound(r.0)
  {
    if t !in s.m then (s, true)
    else
      var order := Visited(w, s.loops, s.m[t]);
      var r := FinishAll(w, s.handles, s.m[t], order, commit);
      (State(r.0, s.m - {t}, s.nextId, s.loops + 1), r.1)
  }

  /** The names of an entry in the order of the n-th loop. */
  function Visited(w: World, n: nat, e: Entry): (order: seq<string>)
    ensures forall name :: name in order ==> name in e
  {
    var order := w.order(n, e.Keys);
    if forall name :: name in order ==> name in e then order else []
  }

  /** NewOrm under transaction t; None for a panic. */
  function Opened(w: World, s: State, t: TxId, name: string, begins: bool): (r: Option<State>)
    requires Sound(s) && t < s.nextId
    ensures r.Some? ==> Sound(r.value) && r.value.nextId == s.nextId
  {
    if t in s.m && name in s.m[t] then Some(s)
    else if name !in w.known || !begins then None
    else
      var e: Entry := if t in s.m then s.m[t] else map[];
      Some(State(s.handles + [Handle(name, t, 0, 0)], s.m[t := e[name := |s.handles|]], s.nextId, s.loops))
  }

  /** The handle registered for a database under a transaction. */
  function Registered(m: map<TxId, Entry>, t: TxId, name: string): Option<nat> {
    if t in m && name in m[t] then Some(m[t][name]) else None
  }

  /** One handle a transaction and database: it is there already, or it is begun, which takes a
      known database and a Begin that succeeds, and registered beside all others. */
  lemma OpenedExactly(w: World, s: State, t: TxId, name: string, begins: bool)
    requires Sound(s) && t < s.nextId
    ensures var (r, before) := (Opened(w, s, t, name, begins), Registered(s.m, t, name));
      && (r.Some? <==> before.Some? || (name in w.known && begins))
      && (before.Some? ==> r == Some(s))
      && (r.Some? && before.None? ==>
            && Registered(r.value.m, t, name) == Some(|s.handles|)
            && r.value.handles == s.handles + [Handle(name, t, 0, 0)]
            && r.value.nextId == s.nextId && r.value.loops == s.loops)
      && (r.Some? ==> forall u: TxId, other: string :: u != t || other != name ==>
            Registered(r.value.m, u, other) == Registered(s.m, u, other))
  {
  }

  predicate Issued(s: State, txs: seq<TxId>) {
    forall k :: 0 <= k < |txs| ==> txs[k] < s.nextId
  }

  /** A program run with these contexts visible. */
  function Run(w: World, s: State, txs: seq<TxId>, p: Prog): (r: (State, Outcome))
    requires Sound(s) && Issued(s, txs) && Scoped(p, |txs|)
    ensures Sound(r.0) && s.nextId <= r.0.nextId
    decreases p, 0
  {
    match p
    case Return => (s, Ok)
    case Fail => (s, Err)
    case Throw => (s, Panicked)
    case Open(k, name, begins, next, refused) =>
      var r := Opened(w, s, txs[k], name, begins);
      if r.None? then Run(w, s, txs, refused) else Run(w, r.value, txs, next)
    case OpenPlain(name, next, refused) =>
      if name !in w.known then Run(w, s, txs, refused) else Run(w, s, txs, next)
    case Nest(k, body, _, _, _) =>
      var r := Scope(w, s, txs, txs[k], body);
      Run(w, r.0, txs, After(p, r.1))
    case Separate(body, _, _, _) =>
      var r := Scope(w, s.(nextId := s.nextId + 1), txs + [s.nextId], s.nextId, body);
      Run(w, r.0, txs, After(p, r.1))
  }

  function After(p: Prog, o: Outcome): (q: Prog)
    requires p.Nest? || p.Separate?
    ensures q < p
    ensures forall n :: Scoped(p, n) ==> Scoped(q, n)
  {
    match o
    case Ok => p.onOk
    case Err => p.onErr
    case Panicked => p.onPanic
  }

  /** Transaction with the context of transaction t. */
  function Scope(w: World, s: State, txs: seq<TxId>, t: TxId, body: Prog): (r: (State, Outcome))
    requires Sound(s) && Issued(s, txs) && Scoped(body, |txs|) && t < s.nextId
    ensures Sound(r.0) && s.nextId <= r.0.nextId
    decreases body, 1
  {
    var r := Run(w, s, txs, body);
    Ended(w, r.0, t, r.1)
  }

  /** Commit on success; a failing commit is followed by a rollback, as are errors and panics. */
  function Ended(w: World, s: State, t: TxId, o: Outcome): (r: (State, Outcome))
    requires Sound(s)
    ensures Sound(r.0) && r.0.nextId == s.nextId
  {
    if o != Ok then (Finish(w, s, t, false).0, o)
    else
      var c := Finish(w, s, t, true);
      if c.1 then (c.0, Ok) else (Finish(w, c.0, t, false).0, Err)
  }

  // ----- the objects -------------------------------------------------------

  class TxManager {
    const w: World
    var handles: seq<Handle>
    var m: map<TxId, Entry>
    var nextId: TxId
    var loops: nat

    function Now(): State
      reads this
    {
      State(handles, m, nextId, loops)
    }

    constructor (w: World)
      ensures this.w == w && Now() == State([], map[], 0, 0)
    {
      this.w, handles, m, nextId, loops := w, [], map[], 0, 0;
    }

    method GetDB(name: string, txId: TxId) returns (db: Option<nat>)
      ensures db == Registered(m, txId, name)
    {
      if txId in m {
        var dbs := m[txId];
        if name in dbs {
          return Some(dbs[name]);
        }
      }
      return None;
    }

    method AddDB(name: string, txId: TxId, db: nat)
      modifies `m
      ensures m == old(m)[txId := (if txId in old(m) then old(m)[txId] else map[])[name := db]]
      ensures Registered(m, txId, name) == Some(db)
      ensures forall u: TxId, other: string :: u != txId || other != name ==>
        Registered(m, u, other) == Registered(old(m), u, other)
    {
      var dbs := map[];
      if txId in m {
        dbs := m[txId];
      }
      m := m[txId := dbs[name := db]];
    }

    /** A new context; ids are assumed never to repeat. */
    method BeginTx() returns (txId: TxId)
      modifies `nextId
      ensures txId == old(nextId) && nextId == txId + 1
    {
      txId := nextId;
      nextId := nextId + 1;
    }

    method FinishLoop(txId: TxId, commit: bool) returns (ok: bool)
      requires Sound(Now()) && txId in m
      modifies `handles
      ensures (handles, ok) == FinishAll(w, old(handles), m[txId], Visited(w, loops, m[txId]), commit)
    {
      var dbs := m[txId];
      var order := Visited(w, loops, dbs);
      ghost var start := handles;
      assert order[0..] == order;
      for i := 0 to |order|
        invariant Bounded(dbs, |handles|)
        invariant FinishAll(w, start, dbs, order, commit) == FinishAll(w, handles, dbs, order[i..], commit)
      {
        var db := dbs[order[i]];
        assert order[i..][1..] == order[i + 1..];
        if w.fails(db) {
          return false;
        }
        handles := handles[db := Finished(handles[db], commit)];
      }
      return true;
    }

    method Commit(txId: TxId) returns (ok: bool)
      requires Sound(Now())
      modifies `handles, `m, `loops
      ensures (Now(), ok) == Finish(w, old(Now()), txId, true)
    {
      ok := true;
      if txId in m {
        ok := FinishLoop(txId, true);
        loops := loops + 1;
      }
      m := m - {txId};
      assert txId !in old(m) ==> m == old(m);
    }

    method Rollback(txId: TxId) returns (ok: bool)
      requires Sound(Now())
      modifies `handles, `m, `loops
      ensures (Now(), ok) == Finish(w, old(Now()), txId, false)
    {
      ok := true;
      if txId in m {
        ok := FinishLoop(txId, false);
        loops := loops + 1;
      }
      m := m - {txId};
      assert txId !in old(m) ==> m == old(m);
    }

    /** NewOrm under a transaction context: false for a panic. */
    method NewOrm(txId: TxId, name: string, begins: bool) returns (ok: bool)
      requires Sound(Now()) && txId < nextId
      modifies `handles, `m
      ensures ok == Opened(w, old(Now()), txId, name, begins).Some?
      ensures Now() == if ok then Opened(w, old(Now()), txId, name, begins).value else old(Now())
      ensures ok <==> Registered(old(m), txId, name).Some? || (name in w.known && begins)
      ensures ok ==> Registered(m, txId, name).Some?
      ensures !ok || Registered(old(m), txId, name).Some? ==> Now() == old(Now())
      ensures ok && Registered(old(m), txId, name).None? ==>
        handles == old(handles) + [Handle(name, txId, 0, 0)] && m[txId][name] == |old(handles)|
      ensures forall u: TxId, other: string :: u != txId || other != name ==>
        Registered(m, u, other) == Registered(old(m), u, other)
    {
      OpenedExactly(w, Now(), txId, name, begins);
      var db := GetDB(name, txId);
      if db.Some? {
        return true;
      }
      if name !in w.known || !begins {
        return false;
      }
      handles := handles + [Handle(name, txId, 0, 0)];
      AddDB(name, txId, |handles| - 1);
      return true;
    }

    /** Transaction with the context of txId: run the function, then commit or, when it failed
        or panicked or the commit failed, roll back. */
    method Transaction(txs: seq<TxId>, txId: TxId, fn: Prog) returns (o: Outcome)
      requires Sound(Now()) && Issued(Now(), txs) && Scoped(fn, |txs|) && txId < nextId
      modifies this
      ensures (Now(), o) == Scope(w, old(Now()), txs, txId, fn)
      decreases fn, 1
    {
      o := Execute(txs, fn);
      if o == Ok {
        var ok := Commit(txId);
        if !ok {
          o := Err;
        }
      }
      if o != Ok {
        var ok := Rollback(txId);
      }
    }

    method Execute(txs: seq<TxId>, p: Prog) returns (o: Outcome)
      requires Sound(Now()) && Issued(Now(), txs) && Scoped(p, |txs|)
      modifies this
      ensures (Now(), o) == Run(w, old(Now()), txs, p)
      decreases p, 0
    {
      match p {
        case Return => return Ok;
        case Fail => return Err;
        case Throw => return Panicked;
        case Open(k, name, begins, next, refused) =>
          var ok := NewOrm(txs[k], name, begins);
          o := Execute(txs, if ok then next else refused);
        case OpenPlain(name, next, refused) =>
          o := Execute(txs, if name in w.known then next else refused);
        case Nest(k, body, _, _, _) =>
          var r := Transaction(txs, txs[k], body);
          o := Execute(txs, After(p, r));
        case Separate(body, _, _, _) =>
          var txId := BeginTx();
          var r := Transaction(txs + [txId], txId, body);
          o := Execute(txs, After(p, r));
      }
    }
  }
}
