/** The per-key lock as interleaved steps of any number of clients: reference-counted inner
    locks, found under a read-write mutex and swept by Clean. */
module KeyLockProtocol {
  import opened Wrappers

  type Key = string

  /** One innerLock. `key` and the identity of `holder` are bookkeeping of the model; the
      program sees the count and whether the mutex is held. */
  datatype Inner = Inner(key: Key, count: int, holder: Option<nat>)

  /** Where a client is. In the Unlock states `il` is the inner lock its Lock acquired. */
  datatype PC =
    | Idle
    | LockStart(key: Key)                                   // about to take the read lock
    | LockLookup(key: Key)                                  // read lock held
    | LockFound(key: Key, il: nat)                          // entry found, about to add
    | LockLeave(key: Key, found: Option<nat>)               // about to give up the read lock
    | LockSlow(key: Key)                                    // about to take the write lock
    | LockRecheck(key: Key)                                 // write lock held
    | LockInsert(key: Key)                                  // still no entry
    | LockAdd(key: Key, il: nat)                            // about to add under the write lock
    | LockUnwrite(key: Key, il: nat)                        // about to give up the write lock
    | LockWait(key: Key, il: nat)                           // about to lock the inner mutex
    | Critical(key: Key, il: nat)                           // Lock has returned
    | UnlockStart(key: Key, il: nat)                        // Unlock called
    | UnlockLookup(key: Key, il: nat)                       // read lock held
    | UnlockFound(key: Key, il: nat, entry: nat)            // entry found, about to call done
    | UnlockLeave(key: Key, il: nat, found: Option<nat>)    // about to give up the read lock
    | UnlockRelease(key: Key, il: nat, found: Option<nat>)  // about to unlock the inner mutex
    | CleanStart                                            // about to take the write lock
    | CleanSweep(todo: set<Key>)                            // keys the loop has not visited
    | CleanLeave                                            // about to give up the write lock

  /** `fatal` records an Unlock of an unlocked inner mutex. */
  datatype State = State(
    locks: map<Key, nat>,
    inners: seq<Inner>,
    writer: Option<nat>,
    readers: set<nat>,
    pcs: seq<PC>,
    fatal: bool)

  /** The choices a client makes; every other step is determined by where it is. */
  datatype Choice = CallLock(key: Key) | CallClean | Visit(key: Key) | Continue

  // ----- steps -------------------------------------------------------------

  predicate Free(s: State) {
    s.writer.None? && s.readers == {}
  }

  predicate Enabled(s: State, c: nat, a: Choice) {
    c < |s.pcs| &&
    match s.pcs[c]
    case Idle => a.CallLock? || a.CallClean?
    case LockStart(_) => a.Continue? && s.writer.None?
    case LockSlow(_) => a.Continue? && Free(s)
    case LockWait(_, il) => a.Continue? && il < |s.inners| && s.inners[il].holder.None?
    case UnlockStart(_, _) => a.Continue? && s.writer.None?
    case CleanStart => a.Continue? && Free(s)
    case CleanSweep(todo) => if todo == {} then a.Continue? else a.Visit? && a.key in todo && a.key in s.locks
    case _ => a.Continue?
  }

  function Goto(s: State, c: nat, pc: PC): State
    requires c < |s.pcs|
  {
    s.(pcs := s.pcs[c := pc])
  }

  function AddTo(s: State, il: nat, delta: int): State {
    if il < |s.inners| then s.(inners := s.inners[il := s.inners[il].(count := s.inners[il].count + delta)])
    else s
  }

  function SetHolder(s: State, il: nat, holder: Option<nat>): State {
    if il < |s.inners| then s.(inners := s.inners[il := s.inners[il].(holder := holder)]) else s
  }

  function Lookup(s: State, key: Key): Option<nat> {
    if key in s.locks then Some(s.locks[key]) else None
  }

  function Insert(s: State, key: Key): State {
    s.(inners := s.inners + [Inner(key, 0, None)], locks := s.locks[key := |s.inners|])
  }

  /** One iteration of Clean's loop. */
  function Sweep(s: State, key: Key): State
    requires key in s.locks
  {
    var il := s.locks[key];
    if il < |s.inners| && s.inners[il].count == 0 then s.(locks := s.locks - {key}) else s
  }

  /** Unlocking an inner mutex; fatal when it is not locked. */
  function Release(s: State, il: nat): State {
    if il < |s.inners| && s.inners[il].holder.Some? then SetHolder(s, il, None) else s.(fatal := true)
  }

  function Next(s: State, c: nat, a: Choice): State
    requires Enabled(s, c, a)
  {
    match s.pcs[c]
    case Idle => Goto(s, c, if a.CallLock? then LockStart(a.key) else CleanStart)
    case LockStart(key) => Goto(s.(readers := s.readers + {c}), c, LockLookup(key))
    case LockLookup(key) =>
      (match Lookup(s, key)
       case Some(il) => Goto(s, c, LockFound(key, il))
       case None => Goto(s, c, LockLeave(key, None)))
    case LockFound(key, il) => Goto(AddTo(s, il, 1), c, LockLeave(key, Some(il)))
    case LockLeave(key, found) =>
      Goto(s.(readers := s.readers - {c}), c,
           if found.Some? then LockWait(key, found.value) else LockSlow(key))
    case LockSlow(key) => Goto(s.(writer := Some(c)), c, LockRecheck(key))
    case LockRecheck(key) =>
      (match Lookup(s, key)
       case Some(il) => Goto(s, c, LockAdd(key, il))
       case None => Goto(s, c, LockInsert(key)))
    case LockInsert(key) => Goto(Insert(s, key), c, LockAdd(key, |s.inners|))
    case LockAdd(key, il) => Goto(AddTo(s, il, 1), c, LockUnwrite(key, il))
    case LockUnwrite(key, il) => Goto(s.(writer := None), c, LockWait(key, il))
    case LockWait(key, il) => Goto(SetHolder(s, il, Some(c)), c, Critical(key, il))
    case Critical(key, il) => Goto(s, c, UnlockStart(key, il))
    case UnlockStart(key, il) => Goto(s.(readers := s.readers + {c}), c, UnlockLookup(key, il))
    case UnlockLookup(key, il) =>
      (match Lookup(s, key)
       case Some(entry) => Goto(s, c, UnlockFound(key, il, entry))
       case None => Goto(s, c, UnlockLeave(key, il, None)))
    case UnlockFound(key, il, entry) => Goto(AddTo(s, entry, -1), c, UnlockLeave(key, il, Some(entry)))
    case UnlockLeave(key, il, found) => Goto(s.(readers := s.readers - {c}), c, UnlockRelease(key, il, found))
    case UnlockRelease(key, il, found) => Goto(if found.Some? then Release(s, found.value) else s, c, Idle)
    case CleanStart => Goto(s.(writer := Some(c)), c, CleanSweep(s.locks.Keys))
    case CleanSweep(todo) =>
      if todo == {} then Goto(s, c, CleanLeave) else Goto(Sweep(s, a.key), c, CleanSweep(todo - {a.key}))
    case CleanLeave => Goto(s.(writer := None), c, Idle)
  }

  predicate Init(s: State) {
    && s.locks == map[] && s.inners == [] && s.writer.None? && s.readers == {} && !s.fatal
    && forall c :: 0 <= c < |s.pcs| ==> s.pcs[c] == Idle
  }

  /** A run: every state follows from the one before by some client's enabled step. */
  ghost predicate IsRun(run: seq<State>) {
    && |run| >= 1 && Init(run[0])
    && forall i :: 0 < i < |run| ==> Follows(run[i - 1], run[i])
  }

  ghost predicate Follows(s: State, t: State) {
    exists c: nat, a: Choice :: Enabled(s, c, a) && t == Next(s, c, a)
  }

  // ----- the invariant -----------------------------------------------------

  predicate InRead(pc: PC) {
    pc.LockLookup? || pc.LockFound? || pc.LockLeave? || pc.UnlockLookup? || pc.UnlockFound? || pc.UnlockLeave?
  }

  predicate InWrite(pc: PC) {
    pc.LockRecheck? || pc.LockInsert? || pc.LockAdd? || pc.LockUnwrite? || pc.CleanSweep? || pc.CleanLeave?
  }

  /** Past add() and not yet past done() on inner lock il. */
  predicate Counted(pc: PC, il: nat) {
    match pc
    case LockLeave(_, found) => found == Some(il)
    case LockUnwrite(_, i) => i == il
    case LockWait(_, i) => i == il
    case Critical(_, i) => i == il
    case UnlockStart(_, i) => i == il
    case UnlockLookup(_, i) => i == il
    case UnlockFound(_, i, _) => i == il
    case _ => false
  }

  /** Owns the mutex of inner lock il. */
  predicate Holding(pc: PC, il: nat) {
    match pc
    case Critical(_, i) => i == il
    case UnlockStart(_, i) => i == il
    case UnlockLookup(_, i) => i == il
    case UnlockFound(_, i, _) => i == il
    case UnlockLeave(_, i, _) => i == il
    case UnlockRelease(_, i, _) => i == il
    case _ => false
  }

  /** Relies on il being the entry of its key. */
  predicate Relies(pc: PC, il: nat) {
    Counted(pc, il) || (pc.LockFound? && pc.il == il) || (pc.LockAdd? && pc.il == il)
  }

  ghost predicate ReliesOk(s: State, pc: PC) {
    forall il: nat :: Relies(pc, il) ==> il < |s.inners| && Lookup(s, pc.key) == Some(il)
  }

  ghost predicate HoldsOk(s: State, pc: PC) {
    forall il: nat :: Holding(pc, il) ==> il < |s.inners| && s.inners[il].key == pc.key
  }

  ghost predicate PlaceOk(s: State, pc: PC) {
    match pc
    case LockInsert(key) => key !in s.locks
    case UnlockFound(_, il, entry) => entry == il
    case UnlockLeave(_, il, found) => found == Some(il)
    case UnlockRelease(_, il, found) => found == Some(il)
    case CleanSweep(todo) => Swept(s, todo)
    case CleanLeave => Swept(s, {})
    case _ => true
  }

  ghost predicate PcOk(s: State, pc: PC) {
    ReliesOk(s, pc) && HoldsOk(s, pc) && PlaceOk(s, pc)
  }

  /** Every entry is still to be visited or in use. */
  ghost predicate Swept(s: State, todo: set<Key>) {
    && todo <= s.locks.Keys
    && forall k :: k in s.locks && k !in todo ==> s.locks[k] < |s.inners| && s.inners[s.locks[k]].count > 0
  }

  function Users(pcs: seq<PC>, il: nat): set<nat> {
    set c: nat | c < |pcs| && Counted(pcs[c], il)
  }

  ghost predicate TableOk(s: State) {
    forall k :: k in s.locks ==> s.locks[k] < |s.inners| && s.inners[s.locks[k]].key == k
  }

  ghost predicate RwOk(s: State) {
    && (forall c: nat :: s.writer == Some(c) <==> c < |s.pcs| && InWrite(s.pcs[c]))
    && (forall c: nat :: c in s.readers <==> c < |s.pcs| && InRead(s.pcs[c]))
    && (s.writer.Some? ==> s.readers == {})
  }

  ghost predicate CountsOk(s: State) {
    forall il: nat :: il < |s.inners| ==> s.inners[il].count == |Users(s.pcs, il)|
  }

  ghost predicate HoldersOk(s: State) {
    forall il: nat, c: nat :: il < |s.inners| ==>
      (s.inners[il].holder == Some(c) <==> c < |s.pcs| && Holding(s.pcs[c], il))
  }

  ghost predicate PcsOk(s: State) {
    forall c: nat :: c < |s.pcs| ==> PcOk(s, s.pcs[c])
  }

  ghost predicate Inv(s: State) {
    TableOk(s) && RwOk(s) && CountsOk(s) && HoldersOk(s) && PcsOk(s) && !s.fatal
  }

  // ----- every step keeps the invariant ------------------------------------

  /** A client that moves joins or leaves the users of a lock, and nobody else does. */
  lemma UsersAfter(pcs: seq<PC>, c: nat, pc: PC, il: nat)
    requires c < |pcs|
    ensures Users(pcs[c := pc], il) == if Counted(pc, il) then Users(pcs, il) + {c} else Users(pcs, il) - {c}
    ensures c in Users(pcs, il) <==> Counted(pcs[c], il)
  {
  }

  lemma TableStep(s: State, c: nat, a: Choice)
    requires Inv(s) && Enabled(s, c, a)
    ensures TableOk(Next(s, c, a))
  {
    hide RwOk, CountsOk, HoldersOk, PcsOk, Next, Enabled;
    EntriesEffect(s, c, a);
    KeysEffect(s, c, a);
  }

  /** An entry after a step was one before, or is the new inner lock of its key. */
  lemma EntriesEffect(s: State, c: nat, a: Choice)
    requires Enabled(s, c, a)
    ensures var t := Next(s, c, a);
      forall k :: k in t.locks ==>
        (k in s.locks && t.locks[k] == s.locks[k]) ||
        (t.locks[k] == |s.inners| < |t.inners| && t.inners[|s.inners|].key == k)
  {
  }

  /** What a step does to the read-write mutex, in terms of where the client was and is. */
  lemma RwEffect(s: State, c: nat, a: Choice)
    requires Inv(s) && Enabled(s, c, a)
    ensures c < |s.pcs| == |Next(s, c, a).pcs|
    ensures var t := Next(s, c, a); var (p, q) := (s.pcs[c], t.pcs[c]);
      && c < |s.pcs| && t.pcs == s.pcs[c := q]
      && t.writer == (if InWrite(q) then Some(c) else if InWrite(p) then None else s.writer)
      && t.readers == (if InRead(q) then s.readers + {c} else s.readers - {c})
      && (InWrite(q) && !InWrite(p) ==> Free(s))
      && (InRead(q) && !InRead(p) ==> s.writer.None?)
  {
    hide PcsOk, CountsOk, HoldersOk, TableOk, Next, InRead, InWrite, Free;
    assert InWrite(s.pcs[c]) <==> s.writer == Some(c);
    assert InRead(s.pcs[c]) <==> c in s.readers;
    PcsEffect(s, c, a);
    WriterEffect(s, c, a);
    ReadersEffect(s, c, a);
  }

  lemma PcsEffect(s: State, c: nat, a: Choice)
    requires Enabled(s, c, a)
    ensures c < |s.pcs| == |Next(s, c, a).pcs| && Next(s, c, a).pcs == s.pcs[c := Next(s, c, a).pcs[c]]
  {
  }

  lemma WriterEffect(s: State, c: nat, a: Choice)
    requires Enabled(s, c, a) && (InWrite(s.pcs[c]) <==> s.writer == Some(c))
    ensures c < |s.pcs| == |Next(s, c, a).pcs|
    ensures var t := Next(s, c, a); var (p, q) := (s.pcs[c], t.pcs[c]);
      && t.writer == (if InWrite(q) then Some(c) else if InWrite(p) then None else s.writer)
      && (InWrite(q) && !InWrite(p) ==> Free(s))
  {
  }

  lemma ReadersEffect(s: State, c: nat, a: Choice)
    requires Enabled(s, c, a) && (InRead(s.pcs[c]) <==> c in s.readers)
    ensures c < |s.pcs| == |Next(s, c, a).pcs|
    ensures var t := Next(s, c, a); var (p, q) := (s.pcs[c], t.pcs[c]);
      && t.readers == (if InRead(q) then s.readers + {c} else s.readers - {c})
      && (InRead(q) && !InRead(p) ==> s.writer.None?)
  {
  }

  lemma RwStep(s: State, c: nat, a: Choice)
    requires Inv(s) && Enabled(s, c, a)
    ensures RwOk(Next(s, c, a))
  {
    hide Next, Enabled, PcsOk, CountsOk, HoldersOk, TableOk;
    RwEffect(s, c, a);
  }

  /** What a step does to the inner mutexes. */
  lemma HolderEffect(s: State, c: nat, a: Choice)
    requires Inv(s) && Enabled(s, c, a)
    ensures c < |s.pcs| == |Next(s, c, a).pcs|
    ensures var t := Next(s, c, a); var (p, q) := (s.pcs[c], t.pcs[c]);
      && |t.inners| >= |s.inners| && t.pcs == s.pcs[c := q] && !t.fatal
      && (forall il: nat :: il < |s.inners| ==>
            && t.inners[il].holder ==
               (if Holding(q, il) then Some(c) else if Holding(p, il) then None else s.inners[il].holder)
            && (Holding(q, il) && !Holding(p, il) ==> s.inners[il].holder.None?))
      && (forall il: nat :: |s.inners| <= il < |t.inners| ==> t.inners[il].holder.None? && !Holding(q, il))
  {
    hide RwOk, CountsOk, TableOk;
    assert PcOk(s, s.pcs[c]);
    assert s.pcs[c].UnlockRelease? ==> Holding(s.pcs[c], s.pcs[c].il);
    forall il: nat | il < |s.inners| && Holding(s.pcs[c], il) ensures s.inners[il].holder == Some(c) {
    }
    hide HoldersOk;
  }

  lemma HoldersStep(s: State, c: nat, a: Choice)
    requires Inv(s) && Enabled(s, c, a)
    ensures HoldersOk(Next(s, c, a)) && !Next(s, c, a).fatal
  {
    hide Next, Enabled, RwOk, CountsOk, TableOk;
    HolderEffect(s, c, a);
    var t := Next(s, c, a);
    forall il: nat, d: nat | il < |t.inners|
      ensures t.inners[il].holder == Some(d) <==> d < |t.pcs| && Holding(t.pcs[d], il)
    {
      if il >= |s.inners| && d < |s.pcs| {
        assert PcOk(s, s.pcs[d]);
      }
    }
  }

  /** What a step does to the counts. */
  lemma CountEffect(s: State, c: nat, a: Choice)
    requires Inv(s) && Enabled(s, c, a)
    ensures c < |s.pcs| == |Next(s, c, a).pcs|
    ensures var t := Next(s, c, a);
      && |t.inners| >= |s.inners| && |t.pcs| == |s.pcs| && t.pcs == s.pcs[c := t.pcs[c]]
      && (forall il: nat :: il < |s.inners| ==>
            t.inners[il].count == s.inners[il].count + (if Counted(t.pcs[c], il) then 1 else 0)
                                  - (if Counted(s.pcs[c], il) then 1 else 0))
      && (forall il: nat :: |s.inners| <= il < |t.inners| ==> t.inners[il].count == 0 && !Counted(t.pcs[c], il))
  {
    hide RwOk, CountsOk, HoldersOk, TableOk, HoldsOk, Next, Counted;
    assert PcOk(s, s.pcs[c]);
    var p := s.pcs[c];
    CountedRelies(s, c);
    PcsEffect(s, c, a);
    if p.LockFound? || p.LockAdd? || p.UnlockFound? {
      assert Relies(p, p.il) by { CountedOrAbout(p); }
      CountMoves(s, c, a);
    } else if p.LockInsert? {
      CountInserts(s, c, a);
    } else {
      if p.UnlockLookup? {
        assert Relies(p, p.il) by { CountedOrAbout(p); }
      }
      CountStays(s, c, a);
    }
  }

  lemma CountedRelies(s: State, c: nat)
    requires c < |s.pcs| && PcOk(s, s.pcs[c])
    ensures forall il: nat :: Counted(s.pcs[c], il) ==> il < |s.inners|
  {
    forall il: nat | Counted(s.pcs[c], il)
      ensures il < |s.inners|
    {
      assert Relies(s.pcs[c], il);
    }
  }

  lemma CountedOrAbout(p: PC)
    requires p.LockFound? || p.LockAdd? || p.UnlockFound? || p.UnlockLookup?
    ensures Relies(p, p.il)
  {
  }

  /** add() and done() move one client and one count. */
  lemma CountMoves(s: State, c: nat, a: Choice)
    requires Enabled(s, c, a)
    requires s.pcs[c].LockFound? || s.pcs[c].LockAdd? || s.pcs[c].UnlockFound?
    requires s.pcs[c].il < |s.inners| && PlaceOk(s, s.pcs[c])
    ensures c < |s.pcs| == |Next(s, c, a).pcs| && |Next(s, c, a).inners| == |s.inners|
    ensures var t := Next(s, c, a);
      forall il: nat :: il < |s.inners| ==>
        t.inners[il].count == s.inners[il].count + (if Counted(t.pcs[c], il) then 1 else 0)
                              - (if Counted(s.pcs[c], il) then 1 else 0)
  {
  }

  lemma CountInserts(s: State, c: nat, a: Choice)
    requires Enabled(s, c, a) && s.pcs[c].LockInsert?
    ensures c < |s.pcs| == |Next(s, c, a).pcs| && |Next(s, c, a).inners| == |s.inners| + 1
    ensures forall il: nat :: !Counted(s.pcs[c], il) && !Counted(Next(s, c, a).pcs[c], il)
    ensures forall il: nat :: il < |s.inners| ==> Next(s, c, a).inners[il] == s.inners[il]
    ensures Next(s, c, a).inners[|s.inners|].count == 0
  {
  }

  /** Any other step changes neither. */
  lemma CountStays(s: State, c: nat, a: Choice)
    requires Enabled(s, c, a)
    requires !s.pcs[c].LockFound? && !s.pcs[c].LockAdd? && !s.pcs[c].UnlockFound? && !s.pcs[c].LockInsert?
    requires s.pcs[c].UnlockLookup? ==> Lookup(s, s.pcs[c].key).Some?
    ensures c < |s.pcs| == |Next(s, c, a).pcs| && |Next(s, c, a).inners| == |s.inners|
    ensures forall il: nat :: Counted(Next(s, c, a).pcs[c], il) <==> Counted(s.pcs[c], il)
    ensures forall il: nat :: il < |s.inners| ==> Next(s, c, a).inners[il].count == s.inners[il].count
  {
  }

  lemma CountsStep(s: State, c: nat, a: Choice)
    requires Inv(s) && Enabled(s, c, a)
    ensures CountsOk(Next(s, c, a))
  {
    hide Next, Enabled, RwOk, HoldersOk, TableOk;
    var t := Next(s, c, a);
    CountEffect(s, c, a);
    forall il: nat | il < |t.inners| ensures t.inners[il].count == |Users(t.pcs, il)| {
      UsersAfter(s.pcs, c, t.pcs[c], il);
      if il >= |s.inners| {
        NoUsersYet(s, il);
      }
    }
  }

  lemma NoUsersYet(s: State, il: nat)
    requires PcsOk(s) && il >= |s.inners|
    ensures Users(s.pcs, il) == {}
  {
    forall c: nat | c < |s.pcs| ensures !Counted(s.pcs[c], il) {
      assert PcOk(s, s.pcs[c]);
      assert Counted(s.pcs[c], il) ==> Relies(s.pcs[c], il);
    }
  }

  lemma MoverRelies(s: State, c: nat, a: Choice)
    requires Inv(s) && Enabled(s, c, a)
    ensures c < |Next(s, c, a).pcs| && ReliesOk(Next(s, c, a), Next(s, c, a).pcs[c])
  {
    hide CountsOk, HoldersOk, RwOk, HoldsOk, ReliesOk, Next;
    assert PcOk(s, s.pcs[c]);
    if s.pcs[c].LockLookup? || s.pcs[c].LockRecheck? || s.pcs[c].LockInsert? {
      FinderRelies(s, c, a);
    } else {
      KeeperRelies(s, c, a);
    }
  }

  /** A client that looks an entry up, or makes one, relies on what is there. */
  lemma FinderRelies(s: State, c: nat, a: Choice)
    requires Enabled(s, c, a) && TableOk(s)
    requires s.pcs[c].LockLookup? || s.pcs[c].LockRecheck? || s.pcs[c].LockInsert?
    ensures c < |Next(s, c, a).pcs| && ReliesOk(Next(s, c, a), Next(s, c, a).pcs[c])
  {
  }

  /** Any other relies on nothing new and leaves the entry it relies on in place. */
  lemma KeeperRelies(s: State, c: nat, a: Choice)
    requires Enabled(s, c, a) && PcOk(s, s.pcs[c])
    requires !s.pcs[c].LockLookup? && !s.pcs[c].LockRecheck? && !s.pcs[c].LockInsert?
    ensures c < |Next(s, c, a).pcs| && ReliesOk(Next(s, c, a), Next(s, c, a).pcs[c])
  {
    hide HoldsOk, PlaceOk, TableOk, Next, Enabled, Relies;
    ReliesBefore(s, c, a);
    var t := Next(s, c, a);
    if !s.pcs[c].CleanSweep? {
      LocksKept(s, c, a);
    }
  }

  lemma ReliesBefore(s: State, c: nat, a: Choice)
    requires Enabled(s, c, a)
    requires !s.pcs[c].LockLookup? && !s.pcs[c].LockRecheck? && !s.pcs[c].LockInsert?
    ensures c < |s.pcs| == |Next(s, c, a).pcs|
    ensures forall il: nat :: Relies(Next(s, c, a).pcs[c], il) ==>
      Relies(s.pcs[c], il) && Next(s, c, a).pcs[c].key == s.pcs[c].key && !s.pcs[c].CleanSweep?
  {
  }

  lemma LocksKept(s: State, c: nat, a: Choice)
    requires Enabled(s, c, a) && !s.pcs[c].LockInsert? && !s.pcs[c].CleanSweep?
    ensures Next(s, c, a).locks == s.locks && |Next(s, c, a).inners| >= |s.inners|
  {
  }

  /** The mover keeps holding what it held, or has just locked what it waited for; the locks it
      may hold keep their keys. */
  lemma HoldEffect(s: State, c: nat, a: Choice)
    requires Enabled(s, c, a)
    ensures c < |s.pcs| == |Next(s, c, a).pcs|
    ensures var p, q := s.pcs[c], Next(s, c, a).pcs[c];
      forall il: nat :: Holding(q, il) ==>
        (Holding(p, il) || (p.LockWait? && p.il == il)) &&
        !p.Idle? && !p.CleanStart? && !p.CleanSweep? && !p.CleanLeave? &&
        !q.Idle? && !q.CleanStart? && !q.CleanSweep? && !q.CleanLeave? && q.key == p.key
  {
  }

  lemma KeysEffect(s: State, c: nat, a: Choice)
    requires Enabled(s, c, a)
    ensures |s.inners| <= |Next(s, c, a).inners|
    ensures forall il: nat :: il < |s.inners| ==> Next(s, c, a).inners[il].key == s.inners[il].key
  {
  }

  lemma MoverHolds(s: State, c: nat, a: Choice)
    requires Inv(s) && Enabled(s, c, a)
    ensures c < |Next(s, c, a).pcs| && HoldsOk(Next(s, c, a), Next(s, c, a).pcs[c])
  {
    HoldEffect(s, c, a);
    hide CountsOk, HoldersOk, RwOk, PlaceOk, Next, Enabled;
    KeysEffect(s, c, a);
    assert PcOk(s, s.pcs[c]);
    var p, t := s.pcs[c], Next(s, c, a);
    forall il: nat | Holding(t.pcs[c], il)
      ensures il < |t.inners| && t.inners[il].key == t.pcs[c].key
    {
      if !Holding(p, il) {
        assert Relies(p, il);
        WaitedFor(s, p, il);
      }
    }
  }

  lemma WaitedFor(s: State, p: PC, il: nat)
    requires TableOk(s) && ReliesOk(s, p) && Relies(p, il)
    ensures il < |s.inners| && s.inners[il].key == p.key
  {
  }

  lemma MoverPlace(s: State, c: nat, a: Choice)
    requires Inv(s) && Enabled(s, c, a)
    ensures c < |Next(s, c, a).pcs| && PlaceOk(Next(s, c, a), Next(s, c, a).pcs[c])
  {
    hide CountsOk, HoldersOk, RwOk, HoldsOk;
    assert PcOk(s, s.pcs[c]);
    if s.pcs[c].UnlockLookup? {
      assert Relies(s.pcs[c], s.pcs[c].il);
    }
    if s.pcs[c].CleanSweep? && s.pcs[c].todo != {} {
      CountsNonNegative(s);
    }
  }

  lemma CountsNonNegative(s: State)
    requires CountsOk(s)
    ensures forall il: nat :: il < |s.inners| ==> s.inners[il].count >= 0
  {
  }

  lemma MoverStep(s: State, c: nat, a: Choice)
    requires Inv(s) && Enabled(s, c, a)
    ensures c < |Next(s, c, a).pcs| && PcOk(Next(s, c, a), Next(s, c, a).pcs[c])
  {
    hide *;
    MoverRelies(s, c, a);
    MoverHolds(s, c, a);
    MoverPlace(s, c, a);
    PcParts(Next(s, c, a), c);
  }

  lemma PcParts(t: State, c: nat)
    requires c < |t.pcs| && ReliesOk(t, t.pcs[c]) && HoldsOk(t, t.pcs[c]) && PlaceOk(t, t.pcs[c])
    ensures PcOk(t, t.pcs[c])
  {
  }

  /** What a step does to the map of entries, as others see it. */
  lemma TableEffect(s: State, c: nat, a: Choice)
    requires Inv(s) && Enabled(s, c, a)
    ensures c < |s.pcs| == |Next(s, c, a).pcs|
    ensures var t := Next(s, c, a); var p := s.pcs[c];
      && t.pcs == s.pcs[c := t.pcs[c]]
      && |t.inners| >= |s.inners|
      && (forall il: nat :: il < |s.inners| ==> t.inners[il].key == s.inners[il].key)
      && (!InWrite(p) ==> t.locks == s.locks)
      && (!InWrite(p) && !InRead(p) ==>
            forall il: nat :: il < |s.inners| ==> t.inners[il].count == s.inners[il].count)
      && (forall k :: k in s.locks ==>
            (k in t.locks && t.locks[k] == s.locks[k]) ||
            (InWrite(p) && s.locks[k] < |s.inners| && s.inners[s.locks[k]].count == 0))
  {
    hide RwOk, CountsOk, HoldersOk, TableOk, Next;
    assert PcOk(s, s.pcs[c]);
    PcsEffect(s, c, a);
    KeysEffect(s, c, a);
    LocksEffect(s, c, a);
    if !InWrite(s.pcs[c]) && !InRead(s.pcs[c]) {
      CountsOutside(s, c, a);
    }
  }

  lemma LocksEffect(s: State, c: nat, a: Choice)
    requires Enabled(s, c, a) && PlaceOk(s, s.pcs[c])
    ensures c < |s.pcs|
    ensures var t := Next(s, c, a); var p := s.pcs[c];
      && (!InWrite(p) ==> t.locks == s.locks)
      && (forall k :: k in s.locks ==>
            (k in t.locks && t.locks[k] == s.locks[k]) ||
            (InWrite(p) && s.locks[k] < |s.inners| && s.inners[s.locks[k]].count == 0))
  {
  }

  lemma CountsOutside(s: State, c: nat, a: Choice)
    requires Enabled(s, c, a) && !InWrite(s.pcs[c]) && !InRead(s.pcs[c])
    ensures |Next(s, c, a).inners| >= |s.inners|
    ensures forall il: nat :: il < |s.inners| ==> Next(s, c, a).inners[il].count == s.inners[il].count
  {
  }

  /** A counted client keeps the count of its lock positive. */
  lemma CountedPositive(s: State, d: nat, il: nat)
    requires CountsOk(s) && d < |s.pcs| && Counted(s.pcs[d], il) && il < |s.inners|
    ensures s.inners[il].count > 0
  {
    assert d in Users(s.pcs, il);
  }

  lemma BystanderStep(s: State, c: nat, a: Choice, d: nat)
    requires Inv(s) && Enabled(s, c, a) && d < |s.pcs| && d != c
    ensures |Next(s, c, a).pcs| == |s.pcs|
    ensures Next(s, c, a).pcs[d] == s.pcs[d] && PcOk(Next(s, c, a), s.pcs[d])
  {
    hide Next, Enabled, CountsOk, HoldersOk;
    var t := Next(s, c, a);
    TableEffect(s, c, a);
    assert PcOk(s, s.pcs[d]);
    Exclusion(s, c, d);
    forall il: nat | Relies(s.pcs[d], il) ensures il < |t.inners| && Lookup(t, s.pcs[d].key) == Some(il) {
      if Counted(s.pcs[d], il) {
        CountedPositive(s, d, il);
      }
    }
  }

  /** Nobody reads or writes the map while another client writes it. */
  lemma Exclusion(s: State, c: nat, d: nat)
    requires RwOk(s) && c < |s.pcs| && d < |s.pcs| && c != d
    ensures InWrite(s.pcs[c]) ==> !InWrite(s.pcs[d]) && !InRead(s.pcs[d])
    ensures InWrite(s.pcs[d]) ==> !InWrite(s.pcs[c]) && !InRead(s.pcs[c])
  {
    assert InRead(s.pcs[c]) <==> c in s.readers;
    assert InRead(s.pcs[d]) <==> d in s.readers;
    assert InWrite(s.pcs[c]) <==> s.writer == Some(c);
    assert InWrite(s.pcs[d]) <==> s.writer == Some(d);
  }

  lemma StepKeepsInv(s: State, c: nat, a: Choice)
    requires Inv(s) && Enabled(s, c, a)
    ensures Inv(Next(s, c, a))
  {
    hide Next, Enabled, PcOk, CountsOk, HoldersOk, TableOk, RwOk;
    TableStep(s, c, a);
    RwStep(s, c, a);
    CountsStep(s, c, a);
    HoldersStep(s, c, a);
    var t := Next(s, c, a);
    RwEffect(s, c, a);
    forall d: nat | d < |t.pcs| ensures PcOk(t, t.pcs[d]) {
      if d == c {
        MoverStep(s, c, a);
      } else {
        BystanderStep(s, c, a, d);
      }
    }
  }

  // ----- what holds in every reachable state -------------------------------

  lemma InitInv(s: State)
    requires Init(s)
    ensures Inv(s)
  {
  }

  lemma {:induction false} ReachableInv(run: seq<State>, i: nat)
    requires IsRun(run) && i < |run|
    ensures Inv(run[i])
  {
    hide Inv, Init, Enabled, Next;
    if i == 0 {
      InitInv(run[0]);
    } else {
      ReachableInv(run, i - 1);
      assert Follows(run[i - 1], run[i]);
      var c: nat, a :| Enabled(run[i - 1], c, a) && run[i] == Next(run[i - 1], c, a);
      StepKeepsInv(run[i - 1], c, a);
    }
  }

  /** Mutual exclusion: between the return from Lock and the call of Unlock, a key has one client. */
  lemma MutualExclusion(run: seq<State>, i: nat, c: nat, d: nat)
    requires IsRun(run) && i < |run| && c < |run[i].pcs| && d < |run[i].pcs| && c != d
    requires run[i].pcs[c].Critical? && run[i].pcs[d].Critical?
    ensures run[i].pcs[c].key != run[i].pcs[d].key
  {
    ReachableInv(run, i);
    var s := run[i];
    var p, q := s.pcs[c], s.pcs[d];
    assert PcOk(s, p) && PcOk(s, q);
    assert Relies(p, p.il) && Relies(q, q.il);
    assert Holding(p, p.il) && Holding(q, q.il);
    assert s.inners[p.il].holder == Some(c) && s.inners[q.il].holder == Some(d);
  }

  /** Unlock finds the inner lock its caller acquired and unlocks exactly that one, while it is held. */
  lemma UnlockReleasesOwnLock(run: seq<State>, i: nat, c: nat)
    requires IsRun(run) && i < |run| && c < |run[i].pcs|
    ensures run[i].pcs[c].UnlockLookup? ==> Lookup(run[i], run[i].pcs[c].key) == Some(run[i].pcs[c].il)
    ensures run[i].pcs[c].UnlockRelease? ==>
      && run[i].pcs[c].found == Some(run[i].pcs[c].il)
      && run[i].pcs[c].il < |run[i].inners|
      && run[i].inners[run[i].pcs[c].il].holder == Some(c)
    ensures !run[i].fatal
  {
    ReachableInv(run, i);
    var s := run[i];
    var p := s.pcs[c];
    assert PcOk(s, p);
    if p.UnlockLookup? {
      assert Relies(p, p.il);
    }
    if p.UnlockRelease? {
      assert Holding(p, p.il);
    }
  }

  /** The reference counts are exact, and a lock in use is the one its key maps to. */
  lemma CountsAreExact(run: seq<State>, i: nat, il: nat)
    requires IsRun(run) && i < |run| && il < |run[i].inners|
    ensures run[i].inners[il].count == |Users(run[i].pcs, il)|
    ensures run[i].inners[il].count > 0 ==> Lookup(run[i], run[i].inners[il].key) == Some(il)
  {
    ReachableInv(run, i);
    var s := run[i];
    if s.inners[il].count > 0 {
      assert Users(s.pcs, il) != {};
      var c: nat :| c in Users(s.pcs, il);
      assert PcOk(s, s.pcs[c]);
      assert Relies(s.pcs[c], il);
      assert s.inners[il].key == s.pcs[c].key;
    }
  }

  /** At the end of a Clean the entries are exactly the keys some client is using; with no
      such client the map is empty. */
  lemma CleanLeavesUsedKeys(run: seq<State>, i: nat, c: nat)
    requires IsRun(run) && i < |run| && c < |run[i].pcs| && run[i].pcs[c].CleanLeave?
    ensures forall k :: k in run[i].locks <==>
      exists d: nat, il: nat :: d < |run[i].pcs| && Counted(run[i].pcs[d], il) && run[i].pcs[d].key == k
    ensures (forall d: nat, il: nat :: d < |run[i].pcs| ==> !Counted(run[i].pcs[d], il)) ==> run[i].locks == map[]
  {
    ReachableInv(run, i);
    var s := run[i];
    assert PcOk(s, s.pcs[c]);
    forall k | k in s.locks
      ensures exists d: nat, il: nat :: d < |s.pcs| && Counted(s.pcs[d], il) && s.pcs[d].key == k
    {
      var il := s.locks[k];
      assert s.inners[il].count == |Users(s.pcs, il)|;
      assert Users(s.pcs, il) != {};
      var d: nat :| d in Users(s.pcs, il);
      assert Relies(s.pcs[d], il) && PcOk(s, s.pcs[d]);
    }
    forall d: nat, il: nat | d < |s.pcs| && Counted(s.pcs[d], il) ensures s.pcs[d].key in s.locks {
      assert Relies(s.pcs[d], il) && PcOk(s, s.pcs[d]);
    }
    if forall d: nat, il: nat :: d < |s.pcs| ==> !Counted(s.pcs[d], il) {
      assert s.locks.Keys == {};
    }
  }

  ghost predicate CanStep(s: State, c: nat) {
    exists a: Choice :: Enabled(s, c, a)
  }

  lemma CanContinue(s: State, c: nat)
    requires Enabled(s, c, Continue)
    ensures CanStep(s, c)
  {
  }

  /** No deadlock: while some call is under way, some call can go on. */
  lemma NoDeadlock(run: seq<State>, i: nat, c: nat) returns (d: nat)
    requires IsRun(run) && i < |run| && c < |run[i].pcs| && run[i].pcs[c] != Idle
    ensures d < |run[i].pcs| && run[i].pcs[d] != Idle && CanStep(run[i], d)
  {
    ReachableInv(run, i);
    var s := run[i];
    if s.writer.Some? {
      d := s.writer.value;
      InsideProceeds(s, d);
    } else if s.readers != {} {
      d :| d in s.readers;
      InsideProceeds(s, d);
    } else {
      d := c;
      if s.pcs[c].LockWait? {
        assert PcOk(s, s.pcs[c]) && Relies(s.pcs[c], s.pcs[c].il);
        var holder := s.inners[s.pcs[c].il].holder;
        if holder.Some? {
          d := holder.value;
          assert Holding(s.pcs[d], s.pcs[c].il);
        }
      }
      assert !InWrite(s.pcs[d]) by {
        assert s.writer != Some(d);
      }
      assert !InRead(s.pcs[d]);
      CanContinue(s, d);
    }
  }

  /** A client that holds the read-write mutex is never blocked. */
  lemma InsideProceeds(s: State, d: nat)
    requires Inv(s) && (s.writer == Some(d) || d in s.readers)
    ensures d < |s.pcs| && s.pcs[d] != Idle && CanStep(s, d)
  {
    assert InWrite(s.pcs[d]) || InRead(s.pcs[d]);
    assert PcOk(s, s.pcs[d]);
    if s.pcs[d].CleanSweep? && s.pcs[d].todo != {} {
      var k :| k in s.pcs[d].todo;
      assert Enabled(s, d, Visit(k));
    } else {
      CanContinue(s, d);
    }
  }
}
