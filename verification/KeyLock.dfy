/** The per-key lock as an object, one call at a time, and the bridge from its calls to the
    interleaved steps of KeyLockProtocol. */
module KeyLockObject {
  import opened Wrappers
  import opened KeyLockProtocol

  // ----- the table of entries ----------------------------------------------

  datatype Entry = Entry(count: int, held: bool)

  type Table = map<Key, Entry>

  function CountOf(t: Table, key: Key): int {
    if key in t then t[key].count else 0
  }

  /** After a Lock that did not have to wait. */
  function Locked(t: Table, key: Key): Table {
    t[key := Entry(CountOf(t, key) + 1, true)]
  }

  function Unlocked(t: Table, key: Key): Table {
    if key in t then t[key := Entry(t[key].count - 1, false)] else t
  }

  function Cleaned(t: Table): Table {
    map k | k in t && t[k].count != 0 :: t[k]
  }

  /** Lock, Unlock and Clean leave no trace of a key nobody else uses. */
  lemma LockUnlockClean(t: Table, key: Key)
    requires key in t ==> !t[key].held
    ensures Cleaned(Unlocked(Locked(t, key), key)) == Cleaned(t)
  {
    var u := Unlocked(Locked(t, key), key);
    assert key in t ==> u[key] == t[key];
    assert forall k :: k != key ==> (k in u <==> k in t) && (k in t ==> u[k] == t[k]);
    assert Cleaned(u).Keys == Cleaned(t).Keys;
  }

  // ----- the object --------------------------------------------------------

  class InnerLock {
    var count: int
    var held: bool

    constructor ()
      ensures count == 0 && !held
    {
      count, held := 0, false;
    }
  }

  class KeyLock {
    var locks: map<Key, InnerLock>

    /** No two keys share an inner lock. */
    ghost predicate Valid()
      reads this
    {
      forall k, m :: k in locks && m in locks && k != m ==> locks[k] != locks[m]
    }

    ghost function Contents(): Table
      reads this, locks.Values
    {
      map k | k in locks :: Entry(locks[k].count, locks[k].held)
    }

    constructor ()
      ensures Valid() && Contents() == map[]
    {
      locks := map[];
    }

    /** A Lock of a key whose mutex is free (a held one would block). */
    method Lock(key: Key)
      requires Valid() && (key in locks ==> !locks[key].held)
      modifies this, locks.Values
      ensures Valid() && Contents() == Locked(old(Contents()), key)
      ensures locks.Keys == old(locks.Keys) + {key}
      ensures forall k :: k in old(locks) ==> locks[k] == old(locks[k])
      ensures key !in old(locks) ==> fresh(locks[key])
    {
      if key !in locks {
        var inner := new InnerLock();
        locks := locks[key := inner];
      }
      var keyLock := locks[key];
      keyLock.count := keyLock.count + 1;
      keyLock.held := true;
    }

    /** An Unlock; unlocking a mutex that is not held would be fatal. */
    method Unlock(key: Key)
      requires Valid() && (key in locks ==> locks[key].held)
      modifies locks.Values
      ensures Valid() && Contents() == Unlocked(old(Contents()), key)
    {
      if key in locks {
        var keyLock := locks[key];
        keyLock.count := keyLock.count - 1;
        keyLock.held := false;
      }
    }

    /** Clean's loop visits the entries in no particular order. */
    method Clean()
      requires Valid()
      modifies this
      ensures Valid() && Contents() == Cleaned(old(Contents()))
      ensures locks.Keys <= old(locks.Keys) && forall k :: k in locks ==> locks[k] == old(locks[k])
    {
      var todo := locks.Keys;
      while todo != {}
        invariant todo <= locks.Keys <= old(locks.Keys)
        invariant forall k :: k in locks ==> locks[k] == old(locks[k])
        invariant forall k :: k in old(locks) && k !in todo ==> (k in locks <==> old(locks[k].count) != 0)
        decreases |todo|
      {
        var k :| k in todo;
        if locks[k].count == 0 {
          locks := locks - {k};
        }
        todo := todo - {k};
      }
    }
  }

  // ----- one client running alone ------------------------------------------

  /** The table as the protocol's state holds it. */
  function TableOf(s: State): (t: Table)
    requires TableFits(s)
  {
    map k | k in s.locks :: Entry(s.inners[s.locks[k]].count, s.inners[s.locks[k]].holder.Some?)
  }

  predicate TableFits(s: State) {
    forall k :: k in s.locks ==> s.locks[k] < |s.inners|
  }

  /** t is where client c gets to from s by making these choices, nobody else moving. */
  ghost predicate Alone(s: State, c: nat, choices: seq<Choice>, t: State)
    decreases |choices|
  {
    if |choices| == 0 then s == t
    else Enabled(s, c, choices[0]) && Alone(Next(s, c, choices[0]), c, choices[1..], t)
  }

  lemma {:induction false} AloneThen(s: State, c: nat, xs: seq<Choice>, t: State, ys: seq<Choice>, u: State)
    requires Alone(s, c, xs, t) && Alone(t, c, ys, u)
    ensures Alone(s, c, xs + ys, u)
    decreases |xs|
  {
    if |xs| == 0 {
      assert xs + ys == ys;
    } else {
      AloneThen(Next(s, c, xs[0]), c, xs[1..], t, ys, u);
      assert (xs + ys)[1..] == xs[1..] + ys;
    }
  }

  /** One more step at the end. */
  lemma AloneNext(s: State, c: nat, xs: seq<Choice>, t: State, a: Choice)
    requires Alone(s, c, xs, t) && Enabled(t, c, a)
    ensures Alone(s, c, xs + [a], Next(t, c, a))
  {
    assert Alone(Next(t, c, a), c, [], Next(t, c, a));
    assert [a][1..] == [];
    AloneThen(s, c, xs, t, [a], Next(t, c, a));
  }

  ghost predicate Idles(s: State, c: nat) {
    Inv(s) && Free(s) && c < |s.pcs| && s.pcs[c] == Idle
  }

  /** Run alone, the protocol's Lock does to the table what the object's Lock does. */
  lemma SoloLock(s: State, c: nat, key: Key) returns (choices: seq<Choice>, t: State)
    requires Idles(s, c)
    requires key in s.locks ==> s.inners[s.locks[key]].holder.None?
    ensures TableFits(s) && TableFits(t)
    ensures Alone(s, c, choices, t)
    ensures c < |t.pcs| && t.pcs[c].Critical? && t.pcs[c].key == key
    ensures TableOf(t) == Locked(TableOf(s), key)
  {
    if key in s.locks {
      choices, t := SoloLockEntry(s, c, key);
    } else {
      choices, t := SoloLockNew(s, c, key);
    }
  }

  lemma SoloLockEntry(s: State, c: nat, key: Key) returns (choices: seq<Choice>, t: State)
    requires Idles(s, c)
    requires key in s.locks && s.locks[key] < |s.inners| && s.inners[s.locks[key]].holder.None?
    ensures TableFits(s) && TableFits(t)
    ensures Alone(s, c, choices, t)
    ensures c < |t.pcs| && t.pcs[c].Critical? && t.pcs[c].key == key
    ensures TableOf(t) == Locked(TableOf(s), key)
  {
    hide Alone, PcsOk, CountsOk, HoldersOk;
    var il := s.locks[key];
    choices, t := [], s;
    AloneNone(s, c);
    choices, t := Extend(s, c, choices, t, CallLock(key));
    choices, t := Extend(s, c, choices, t, Continue);
    choices, t := Extend(s, c, choices, t, Continue);
    assert t.pcs[c] == LockFound(key, il);
    choices, t := Extend(s, c, choices, t, Continue);
    choices, t := Extend(s, c, choices, t, Continue);
    assert t.pcs[c] == LockWait(key, il);
    choices, t := Extend(s, c, choices, t, Continue);
    assert t.pcs[c] == Critical(key, il);
    assert t.locks == s.locks;
    assert t.inners == s.inners[il := Inner(key, s.inners[il].count + 1, Some(c))];
  }

  /** The look under the read lock that finds no entry. */
  lemma SoloMiss(s: State, c: nat, key: Key) returns (choices: seq<Choice>, t: State)
    requires Idles(s, c) && key !in s.locks
    ensures Alone(s, c, choices, t)
    ensures t == Goto(s, c, LockSlow(key))
  {
    hide Alone, PcsOk, CountsOk, HoldersOk;
    choices, t := [], s;
    AloneNone(s, c);
    choices, t := Extend(s, c, choices, t, CallLock(key));
    choices, t := Extend(s, c, choices, t, Continue);
    choices, t := Extend(s, c, choices, t, Continue);
    choices, t := Extend(s, c, choices, t, Continue);
    assert t.readers == s.readers && t.pcs == s.pcs[c := LockSlow(key)];
  }

  lemma SoloLockNew(s: State, c: nat, key: Key) returns (choices: seq<Choice>, t: State)
    requires Idles(s, c) && key !in s.locks
    ensures TableFits(s) && TableFits(t)
    ensures Alone(s, c, choices, t)
    ensures t == Goto(s, c, Critical(key, |s.inners|)).(
                   locks := s.locks[key := |s.inners|], inners := s.inners + [Inner(key, 1, Some(c))])
    ensures TableOf(t) == Locked(TableOf(s), key)
  {
    hide Alone, PcsOk, CountsOk, HoldersOk;
    var il := |s.inners|;
    choices, t := SoloMiss(s, c, key);
    choices, t := Extend(s, c, choices, t, Continue);
    choices, t := Extend(s, c, choices, t, Continue);
    assert t.pcs[c] == LockInsert(key);
    choices, t := Extend(s, c, choices, t, Continue);
    assert t.pcs[c] == LockAdd(key, il);
    choices, t := Extend(s, c, choices, t, Continue);
    choices, t := Extend(s, c, choices, t, Continue);
    assert t.pcs[c] == LockWait(key, il);
    choices, t := Extend(s, c, choices, t, Continue);
    assert t.inners == s.inners + [Inner(key, 1, Some(c))];
    assert t.readers == s.readers && t.pcs == s.pcs[c := Critical(key, il)];
  }

  lemma AloneNone(s: State, c: nat)
    ensures Alone(s, c, [], s)
  {
  }

  lemma Extend(s: State, c: nat, xs: seq<Choice>, t: State, a: Choice) returns (ys: seq<Choice>, u: State)
    requires Alone(s, c, xs, t) && Enabled(t, c, a)
    ensures ys == xs + [a] && u == Next(t, c, a) && Alone(s, c, ys, u)
  {
    AloneNext(s, c, xs, t, a);
    ys, u := xs + [a], Next(t, c, a);
  }

  /** Run alone, the protocol's Unlock does to the table what the object's Unlock does. */
  lemma SoloUnlock(s: State, c: nat) returns (choices: seq<Choice>, t: State)
    requires Inv(s) && Free(s) && c < |s.pcs| && s.pcs[c].Critical?
    ensures TableFits(s) && TableFits(t)
    ensures Alone(s, c, choices, t)
    ensures c < |t.pcs| && t.pcs[c] == Idle
    ensures TableOf(t) == Unlocked(TableOf(s), s.pcs[c].key)
  {
    hide Alone, Inv, Unlocked, TableOf;
    var key, il := s.pcs[c].key, s.pcs[c].il;
    CriticalFacts(s, c);
    choices, t := [], s;
    AloneNone(s, c);
    choices, t := Extend(s, c, choices, t, Continue);
    choices, t := Extend(s, c, choices, t, Continue);
    choices, t := Extend(s, c, choices, t, Continue);
    assert t.pcs[c] == UnlockFound(key, il, il);
    choices, t := Extend(s, c, choices, t, Continue);
    choices, t := Extend(s, c, choices, t, Continue);
    assert t.pcs[c] == UnlockRelease(key, il, Some(il));
    choices, t := Extend(s, c, choices, t, Continue);
    assert t.locks == s.locks;
    assert t.inners == s.inners[il := Inner(key, s.inners[il].count - 1, None)];
    UnlockedTable(s, t, key, il);
  }

  lemma CriticalFacts(s: State, c: nat)
    requires Inv(s) && c < |s.pcs| && s.pcs[c].Critical?
    ensures var p := s.pcs[c]; p.il < |s.inners| && Lookup(s, p.key) == Some(p.il)
    ensures var p := s.pcs[c]; s.inners[p.il].holder == Some(c) && s.inners[p.il].key == p.key
    ensures TableOk(s)
  {
    var p := s.pcs[c];
    assert PcOk(s, p) && Relies(p, p.il) && Holding(p, p.il);
  }

  lemma UnlockedTable(s: State, t: State, key: Key, il: nat)
    requires TableOk(s) && Lookup(s, key) == Some(il) && il < |s.inners|
    requires t.locks == s.locks && t.inners == s.inners[il := Inner(key, s.inners[il].count - 1, None)]
    ensures TableFits(s) && TableFits(t) && TableOf(t) == Unlocked(TableOf(s), key)
  {
    var u := Unlocked(TableOf(s), key);
    assert TableOf(t).Keys == u.Keys;
    forall k | k in t.locks ensures TableOf(t)[k] == u[k] {
      assert s.locks[k] == il <==> k == key by {
        assert s.inners[s.locks[k]].key == k;
        assert s.inners[il].key == key;
      }
    }
  }

  lemma SweepStart(s: State, c: nat) returns (choices: seq<Choice>, t: State)
    requires Idles(s, c)
    ensures Alone(s, c, choices, t)
    ensures c < |t.pcs| && t.pcs[c] == CleanSweep(s.locks.Keys) && t.inners == s.inners && t.locks == s.locks
  {
    hide Alone, Inv;
    IdleFacts(s, c);
    choices, t := [], s;
    AloneNone(s, c);
    choices, t := Extend(s, c, choices, t, CallClean);
    choices, t := Extend(s, c, choices, t, Continue);
  }

  /** Visiting a key drops its entry if the count is zero. */
  lemma VisitEffect(t: State, c: nat, todo: set<Key>, k: Key)
    requires c < |t.pcs| && t.pcs[c] == CleanSweep(todo) && k in todo && k in t.locks && t.locks[k] < |t.inners|
    ensures Enabled(t, c, Visit(k))
    ensures var u := Next(t, c, Visit(k));
      && u.pcs == t.pcs[c := CleanSweep(todo - {k})] && u.inners == t.inners
      && u.locks == if t.inners[t.locks[k]].count == 0 then t.locks - {k} else t.locks
  {
  }

  /** Clean's loop, up to its end: the entries with count zero are gone. */
  lemma SoloSweep(s: State, c: nat) returns (choices: seq<Choice>, t: State)
    requires Idles(s, c)
    ensures Alone(s, c, choices, t)
    ensures c < |t.pcs| && t.pcs[c] == CleanSweep({}) && t.inners == s.inners && t.locks.Keys <= s.locks.Keys
    ensures forall k :: k in t.locks ==> t.locks[k] == s.locks[k]
    ensures forall k :: k in s.locks ==> s.locks[k] < |s.inners| && (k in t.locks <==> s.inners[s.locks[k]].count != 0)
  {
    hide Alone, Inv, Cleaned, TableOf, Next, Enabled;
    IdleFacts(s, c);
    choices, t := SweepStart(s, c);
    var todo := s.locks.Keys;
    while todo != {}
      invariant Alone(s, c, choices, t)
      invariant c < |t.pcs| && t.pcs[c] == CleanSweep(todo)
      invariant t.inners == s.inners && todo <= t.locks.Keys <= s.locks.Keys
      invariant forall k :: k in t.locks ==> t.locks[k] == s.locks[k]
      invariant forall k :: k in s.locks && k !in todo ==> (k in t.locks <==> s.inners[s.locks[k]].count != 0)
      decreases |todo|
    {
      var k :| k in todo;
      VisitEffect(t, c, todo, k);
      choices, t := Extend(s, c, choices, t, Visit(k));
      todo := todo - {k};
    }
  }

  /** Run alone, the protocol's Clean does to the table what the object's Clean does. */
  lemma SoloClean(s: State, c: nat) returns (choices: seq<Choice>, t: State)
    requires Idles(s, c)
    ensures TableFits(s) && TableFits(t)
    ensures Alone(s, c, choices, t)
    ensures c < |t.pcs| && t.pcs[c] == Idle
    ensures TableOf(t) == Cleaned(TableOf(s))
  {
    hide Alone, Inv, Cleaned, TableOf;
    IdleFacts(s, c);
    choices, t := SoloSweep(s, c);
    choices, t := Extend(s, c, choices, t, Continue);
    choices, t := Extend(s, c, choices, t, Continue);
    CleanedTable(s, t);
  }

  lemma IdleFacts(s: State, c: nat)
    requires Idles(s, c)
    ensures TableFits(s)
  {
  }

  lemma CleanedTable(s: State, t: State)
    requires TableFits(s) && t.inners == s.inners && t.locks.Keys <= s.locks.Keys
    requires forall k :: k in t.locks ==> t.locks[k] == s.locks[k]
    requires forall k :: k in s.locks ==> (k in t.locks <==> s.inners[s.locks[k]].count != 0)
    ensures TableFits(t) && TableOf(t) == Cleaned(TableOf(s))
  {
    assert TableOf(t).Keys == Cleaned(TableOf(s)).Keys;
  }

  // ----- why the argument is not the obvious one ---------------------------

  lemma {:induction false} ExtendRun(run: seq<State>, c: nat, choices: seq<Choice>, t: State)
    returns (longer: seq<State>)
    requires IsRun(run) && Alone(run[|run| - 1], c, choices, t)
    ensures IsRun(longer) && longer[|longer| - 1] == t
    decreases |choices|
  {
    if |choices| == 0 {
      longer := run;
    } else {
      var s := run[|run| - 1];
      var u := Next(s, c, choices[0]);
      assert Follows(s, u);
      longer := ExtendRun(run + [u], c, choices[1..], t);
    }
  }

  /** The first client has locked, and is between done() and unlocking the inner mutex. */
  lemma FirstHalfway(key: Key) returns (run: seq<State>)
    ensures IsRun(run)
    ensures run[|run| - 1] ==
      State(map[key := 0], [Inner(key, 0, Some(0))], None, {}, [UnlockRelease(key, 0, Some(0)), Idle], false)
  {
    var s := State(map[], [], None, {}, [Idle, Idle], false);
    run := [s];
    InitInv(s);
    var choices, t := SoloLockNew(s, 0, key);
    run := ExtendRun(run, 0, choices, t);
    choices, t := HalfUnlock(t, key);
    run := ExtendRun(run, 0, choices, t);
  }

  /** Two inner mutexes of one key can be held at once: the second client is in its critical
      section while the first, past done(), has not yet unlocked a mutex Clean has dropped. */
  lemma TwoMutexesHeldForOneKey(key: Key) returns (run: seq<State>)
    ensures IsRun(run)
    ensures var s := run[|run| - 1];
      && |s.pcs| == 2 && s.pcs[1] == Critical(key, 1)
      && s.inners == [Inner(key, 0, Some(0)), Inner(key, 1, Some(1))]
  {
    run := FirstHalfway(key);
    ReachableInv(run, |run| - 1);
    var choices, t := SweepOne(run[|run| - 1], key);
    run := ExtendRun(run, 1, choices, t);
    ReachableInv(run, |run| - 1);
    choices, t := SoloLockNew(t, 1, key);
    run := ExtendRun(run, 1, choices, t);
  }

  lemma HalfUnlock(s: State, key: Key) returns (choices: seq<Choice>, t: State)
    requires s == State(map[key := 0], [Inner(key, 1, Some(0))], None, {}, [Critical(key, 0), Idle], false)
    ensures Alone(s, 0, choices, t)
    ensures t == State(map[key := 0], [Inner(key, 0, Some(0))], None, {}, [UnlockRelease(key, 0, Some(0)), Idle], false)
  {
    hide Alone;
    choices, t := [], s;
    AloneNone(s, 0);
    choices, t := Extend(s, 0, choices, t, Continue);
    choices, t := Extend(s, 0, choices, t, Continue);
    choices, t := Extend(s, 0, choices, t, Continue);
    choices, t := Extend(s, 0, choices, t, Continue);
    choices, t := Extend(s, 0, choices, t, Continue);
  }

  lemma SweepOne(s: State, key: Key) returns (choices: seq<Choice>, t: State)
    requires s ==
      State(map[key := 0], [Inner(key, 0, Some(0))], None, {}, [UnlockRelease(key, 0, Some(0)), Idle], false)
    ensures Alone(s, 1, choices, t)
    ensures t == s.(locks := map[])
  {
    hide Alone;
    choices, t := [], s;
    AloneNone(s, 1);
    choices, t := Extend(s, 1, choices, t, CallClean);
    choices, t := Extend(s, 1, choices, t, Continue);
    assert s.locks.Keys == {key};
    choices, t := Extend(s, 1, choices, t, Visit(key));
    assert {key} - {key} == {} && map[key := 0] - {key} == map[];
    choices, t := Extend(s, 1, choices, t, Continue);
    choices, t := Extend(s, 1, choices, t, Continue);
  }
}
