/** What a call of the per-key lock does from its start to its return: a Lock ends holding the
    inner mutex of its key, an Unlock with that mutex released, a Clean with every entry visited. */
module KeyLockCalls {
  import opened Wrappers
  import opened KeyLockProtocol

  predicate InLock(pc: PC) {
    || pc.LockStart? || pc.LockLookup? || pc.LockFound? || pc.LockLeave? || pc.LockSlow?
    || pc.LockRecheck? || pc.LockInsert? || pc.LockAdd? || pc.LockUnwrite? || pc.LockWait?
  }

  predicate InUnlock(pc: PC) {
    pc.UnlockStart? || pc.UnlockLookup? || pc.UnlockFound? || pc.UnlockLeave? || pc.UnlockRelease?
  }

  predicate InClean(pc: PC) {
    pc.CleanStart? || pc.CleanSweep? || pc.CleanLeave?
  }

  /** Lock(key) has returned to client c: it holds the inner mutex of the key. */
  predicate Locked(s: State, c: nat, key: Key) {
    && c < |s.pcs| && s.pcs[c].Critical? && s.pcs[c].key == key
    && s.pcs[c].il < |s.inners| && s.inners[s.pcs[c].il] == Inner(key, s.inners[s.pcs[c].il].count, Some(c))
    && Lookup(s, key) == Some(s.pcs[c].il)
  }

  predicate HeldBy(s: State, c: nat, il: nat) {
    il < |s.inners| && s.inners[il].holder == Some(c)
  }

  /** Unlock has returned to client c: inner mutex il is free. */
  predicate Released(s: State, c: nat, il: nat) {
    c < |s.pcs| && s.pcs[c] == Idle && il < |s.inners| && s.inners[il].holder.None? && !s.fatal
  }

  /** An upper bound on the steps a call still has to take itself. */
  function Ahead(pc: PC): nat {
    match pc
    case Idle => 0
    case LockStart(_) => 10
    case LockLookup(_) => 9
    case LockFound(_, _) => 8
    case LockLeave(_, _) => 7
    case LockSlow(_) => 6
    case LockRecheck(_) => 5
    case LockInsert(_) => 4
    case LockAdd(_, _) => 3
    case LockUnwrite(_, _) => 2
    case LockWait(_, _) => 1
    case Critical(_, _) => 0
    case UnlockStart(_, _) => 5
    case UnlockLookup(_, _) => 4
    case UnlockFound(_, _, _) => 3
    case UnlockLeave(_, _, _) => 2
    case UnlockRelease(_, _, _) => 1
    case CleanStart => 0
    case CleanSweep(todo) => |todo| + 2
    case CleanLeave => 1
  }

  // ----- one step ----------------------------------------------------------

  /** The places of the others do not change, and an idle client or one that has locked starts the
      call it chooses. */
  lemma CallsStart(s: State, c: nat, a: Choice)
    requires Enabled(s, c, a)
    ensures c < |s.pcs| == |Next(s, c, a).pcs|
    ensures forall d: nat :: d < |s.pcs| && d != c ==> Next(s, c, a).pcs[d] == s.pcs[d]
    ensures s.pcs[c].Idle? ==>
      Next(s, c, a) == s.(pcs := s.pcs[c := if a.CallLock? then LockStart(a.key) else CleanStart])
    ensures s.pcs[c].Critical? ==>
      Next(s, c, a) == s.(pcs := s.pcs[c := UnlockStart(s.pcs[c].key, s.pcs[c].il)])
  {
  }

  /** Any number of clients can start, and an idle client can call Lock of any key, or Clean. */
  lemma CanCall(n: nat, s: State, c: nat, key: Key)
    ensures Init(State(map[], [], None, {}, seq(n, i => Idle), false))
    ensures c < |s.pcs| && s.pcs[c].Idle? ==> Enabled(s, c, CallLock(key)) && Enabled(s, c, CallClean)
    ensures c < |s.pcs| && s.pcs[c].Critical? ==> Enabled(s, c, Continue)
  {
  }

  /** A step of Lock(key) leads to a later place of the same call, or to its return. */
  lemma LockStep(s: State, c: nat, a: Choice)
    requires Inv(s) && Enabled(s, c, a) && c < |s.pcs| && InLock(s.pcs[c])
    ensures c < |Next(s, c, a).pcs|
    ensures var t := Next(s, c, a); var (p, q) := (s.pcs[c], t.pcs[c]);
      (InLock(q) && q.key == p.key && Ahead(q) < Ahead(p)) || (p.LockWait? && Locked(t, c, p.key))
  {
    hide Next, CountsOk, HoldersOk, RwOk, Locked;
    if s.pcs[c].LockWait? {
      assert PcOk(s, s.pcs[c]);
      assert Relies(s.pcs[c], s.pcs[c].il);
      LockWaited(s, c, a);
    } else {
      LockPlaces(s, c, a);
    }
  }

  lemma LockPlaces(s: State, c: nat, a: Choice)
    requires Enabled(s, c, a) && c < |s.pcs| && InLock(s.pcs[c]) && !s.pcs[c].LockWait?
    ensures c < |Next(s, c, a).pcs|
    ensures var t := Next(s, c, a); var (p, q) := (s.pcs[c], t.pcs[c]);
      InLock(q) && q.key == p.key && Ahead(q) < Ahead(p)
  {
  }

  lemma LockWaited(s: State, c: nat, a: Choice)
    requires TableOk(s) && Enabled(s, c, a) && c < |s.pcs| && s.pcs[c].LockWait?
    requires Lookup(s, s.pcs[c].key) == Some(s.pcs[c].il)
    ensures Locked(Next(s, c, a), c, s.pcs[c].key)
  {
  }

  /** Where Lock looks its key up, under either mutex, it goes on with the entry there is. */
  lemma LockFinds(s: State, c: nat, a: Choice)
    requires Enabled(s, c, a) && c < |s.pcs| && (s.pcs[c].LockLookup? || s.pcs[c].LockRecheck?)
    ensures c < |Next(s, c, a).pcs|
    ensures var (p, q) := (s.pcs[c], Next(s, c, a).pcs[c]);
      if p.key in s.locks then (q.LockFound? || q.LockAdd?) && q.il == s.locks[p.key]
      else q == LockLeave(p.key, None) || q == LockInsert(p.key)
  {
  }

  /** A step of Unlock leads to a later place of the same call, or ends it with the inner mutex
      its client had locked released. */
  lemma UnlockStep(s: State, c: nat, a: Choice)
    requires Inv(s) && Enabled(s, c, a) && c < |s.pcs| && InUnlock(s.pcs[c])
    ensures c < |Next(s, c, a).pcs|
    ensures var t := Next(s, c, a); var (p, q) := (s.pcs[c], t.pcs[c]);
      || (InUnlock(q) && q.key == p.key && q.il == p.il && Ahead(q) < Ahead(p))
      || (p.UnlockRelease? && HeldBy(s, c, p.il) && Released(t, c, p.il))
  {
    hide Next, CountsOk, RwOk, Released;
    if s.pcs[c].UnlockRelease? {
      assert PcOk(s, s.pcs[c]);
      assert Holding(s.pcs[c], s.pcs[c].il);
      UnlockReleased(s, c, a);
    } else {
      UnlockPlaces(s, c, a);
    }
  }

  lemma UnlockPlaces(s: State, c: nat, a: Choice)
    requires Enabled(s, c, a) && c < |s.pcs| && InUnlock(s.pcs[c]) && !s.pcs[c].UnlockRelease?
    ensures c < |Next(s, c, a).pcs|
    ensures var (p, q) := (s.pcs[c], Next(s, c, a).pcs[c]);
      InUnlock(q) && q.key == p.key && q.il == p.il && Ahead(q) < Ahead(p)
  {
  }

  lemma UnlockReleased(s: State, c: nat, a: Choice)
    requires Enabled(s, c, a) && c < |s.pcs| && s.pcs[c].UnlockRelease? && !s.fatal
    requires s.pcs[c].found == Some(s.pcs[c].il)
    requires HeldBy(s, c, s.pcs[c].il)
    ensures Released(Next(s, c, a), c, s.pcs[c].il)
  {
  }

  /** A Clean begins with all keys to visit, visits one a step, and ends when it has visited all. */
  lemma CleanStep(s: State, c: nat, a: Choice)
    requires Enabled(s, c, a) && c < |s.pcs| && InClean(s.pcs[c])
    ensures c < |Next(s, c, a).pcs|
    ensures var t := Next(s, c, a); var (p, q) := (s.pcs[c], t.pcs[c]);
      match p
      case CleanStart => q == CleanSweep(s.locks.Keys) && t.locks == s.locks
      case CleanSweep(todo) =>
        if todo == {} then q == CleanLeave && t.locks == s.locks
        else a.Visit? && a.key in todo && q == CleanSweep(todo - {a.key}) && Ahead(q) < Ahead(p) &&
             t.locks.Keys + {a.key} == s.locks.Keys
      case CleanLeave => q == Idle && t.locks == s.locks && t.writer.None?
      case _ => true
  {
  }

  // ----- over a run --------------------------------------------------------

  ghost predicate LockGoesOn(run: seq<State>, i: nat, j: nat, c: nat, key: Key) {
    forall m :: i <= m < j && m < |run| ==> c < |run[m].pcs| && InLock(run[m].pcs[c]) && run[m].pcs[c].key == key
  }

  ghost predicate UnlockGoesOn(run: seq<State>, i: nat, j: nat, c: nat, key: Key, il: nat) {
    forall m :: i <= m < j && m < |run| ==>
      c < |run[m].pcs| && InUnlock(run[m].pcs[c]) && run[m].pcs[c].key == key && run[m].pcs[c].il == il
  }

  lemma LockMoves(s: State, t: State, c: nat)
    requires Inv(s) && Follows(s, t) && c < |s.pcs| && InLock(s.pcs[c])
    ensures c < |t.pcs|
    ensures (InLock(t.pcs[c]) && t.pcs[c].key == s.pcs[c].key) || Locked(t, c, s.pcs[c].key)
  {
    hide Next, Enabled, Inv, Locked;
    var d: nat, a :| Enabled(s, d, a) && t == Next(s, d, a);
    CallsStart(s, d, a);
    if d == c {
      LockStep(s, c, a);
    }
  }

  lemma UnlockMoves(s: State, t: State, c: nat)
    requires Inv(s) && Follows(s, t) && c < |s.pcs| && InUnlock(s.pcs[c])
    ensures c < |t.pcs|
    ensures (InUnlock(t.pcs[c]) && t.pcs[c].key == s.pcs[c].key && t.pcs[c].il == s.pcs[c].il) ||
            Released(t, c, s.pcs[c].il)
  {
    hide Next, Enabled, Inv, Released;
    var d: nat, a :| Enabled(s, d, a) && t == Next(s, d, a);
    CallsStart(s, d, a);
    if d == c {
      UnlockStep(s, c, a);
    }
  }

  /** In every run, a call of Lock(key) is still under way or has ended with the key locked. */
  lemma {:induction false} LockEndsLocked(run: seq<State>, i: nat, j: nat, c: nat)
    requires IsRun(run) && i <= j < |run| && c < |run[i].pcs| && InLock(run[i].pcs[c])
    ensures var key := run[i].pcs[c].key;
      || LockGoesOn(run, i, j + 1, c, key)
      || exists m :: i < m <= j && LockGoesOn(run, i, m, c, key) && Locked(run[m], c, key)
    decreases j
  {
    hide Next, Enabled, Inv, Init, Locked, Follows;
    var key := run[i].pcs[c].key;
    if i < j {
      LockEndsLocked(run, i, j - 1, c);
      if LockGoesOn(run, i, j, c, key) {
        ReachableInv(run, j - 1);
        assert Follows(run[j - 1], run[j]);
        LockMoves(run[j - 1], run[j], c);
      }
    }
  }

  /** In every run, a call of Unlock is still under way or has ended with its mutex released. */
  lemma {:induction false} UnlockEndsReleased(run: seq<State>, i: nat, j: nat, c: nat)
    requires IsRun(run) && i <= j < |run| && c < |run[i].pcs| && InUnlock(run[i].pcs[c])
    ensures var (key, il) := (run[i].pcs[c].key, run[i].pcs[c].il);
      || UnlockGoesOn(run, i, j + 1, c, key, il)
      || exists m :: i < m <= j && UnlockGoesOn(run, i, m, c, key, il) && Released(run[m], c, il)
    decreases j
  {
    hide Next, Enabled, Inv, Init, Released, Follows;
    var key, il := run[i].pcs[c].key, run[i].pcs[c].il;
    if i < j {
      UnlockEndsReleased(run, i, j - 1, c);
      if UnlockGoesOn(run, i, j, c, key, il) {
        ReachableInv(run, j - 1);
        assert Follows(run[j - 1], run[j]);
        UnlockMoves(run[j - 1], run[j], c);
      }
    }
  }

  // ----- who waits for whom ------------------------------------------------

  /** What client c waits for client d to give up. */
  ghost predicate WaitsFor(s: State, c: nat, d: nat) {
    c < |s.pcs| && d < |s.pcs| && c != d &&
    match s.pcs[c]
    case LockStart(_) => InWrite(s.pcs[d])
    case UnlockStart(_, _) => InWrite(s.pcs[d])
    case LockSlow(_) => InWrite(s.pcs[d]) || InRead(s.pcs[d])
    case CleanStart => InWrite(s.pcs[d]) || InRead(s.pcs[d])
    case LockWait(_, il) => Holding(s.pcs[d], il)
    case _ => false
  }

  /** A client that cannot go on is about to take a mutex another client holds. */
  lemma HeldUpByHolder(run: seq<State>, i: nat, c: nat) returns (d: nat)
    requires IsRun(run) && i < |run| && c < |run[i].pcs| && !CanStep(run[i], c)
    ensures WaitsFor(run[i], c, d)
  {
    ReachableInv(run, i);
    var s := run[i];
    d := Holder(s, c);
  }

  lemma Holder(s: State, c: nat) returns (d: nat)
    requires Inv(s) && c < |s.pcs| && !CanStep(s, c)
    ensures WaitsFor(s, c, d)
  {
    hide Next, CountsOk, TableOk;
    var p := s.pcs[c];
    assert PcOk(s, p);
    MustWait(s, c);
    if p.LockWait? {
      assert Relies(p, p.il);
      d := s.inners[p.il].holder.value;
    } else if s.writer.Some? {
      d := s.writer.value;
    } else {
      d :| d in s.readers;
    }
  }

  /** Only these places wait, and only for a mutex that is held. */
  lemma MustWait(s: State, c: nat)
    requires Inv(s) && c < |s.pcs| && !CanStep(s, c)
    ensures match s.pcs[c]
      case LockStart(_) => s.writer.Some?
      case UnlockStart(_, _) => s.writer.Some?
      case LockSlow(_) => !Free(s)
      case CleanStart => !Free(s)
      case LockWait(_, il) => il < |s.inners| && s.inners[il].holder.Some?
      case _ => false
  {
    hide Next, CountsOk, TableOk, HoldersOk;
    var p := s.pcs[c];
    assert PcOk(s, p);
    if InWrite(p) || InRead(p) {
      assert s.writer == Some(c) || c in s.readers;
      InsideProceeds(s, c);
      assert false;
    }
    assert !Enabled(s, c, Continue) && !Enabled(s, c, CallClean);
    if p.LockWait? {
      assert Relies(p, p.il);
    }
  }
}
