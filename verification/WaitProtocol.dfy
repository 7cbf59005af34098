/** The sharded rendezvous table as interleaved steps: Register and Trigger under one mutex
    per shard, with Trigger's send and close after the mutex is given up. */
module WaitProtocol {
  import opened Wrappers

  const SHARDS := 64

  type Id = nat

  /** A channel of capacity one. `key` and `sent` record which registration made it and every
      value ever sent on it. */
  datatype Chan<V> = Chan(key: Id, buf: seq<V>, closed: bool, sent: seq<V>)

  /** Where a thread is. */
  datatype PC<V> =
    | Idle
    | RegLock(id: Id, ch: nat)                       // channel made, about to lock the shard
    | RegIn(id: Id, ch: nat)                         // shard mutex held
    | RegLeave(id: Id, result: Option<nat>)          // stored, or about to panic; mutex held
    | TrigLock(id: Id, x: V)
    | TrigIn(id: Id, x: V)                           // shard mutex held, about to look up
    | TrigFound(id: Id, x: V, found: Option<nat>)    // about to delete the entry
    | TrigLeave(id: Id, x: V, found: Option<nat>)    // about to unlock
    | TrigSend(id: Id, ch: nat, x: V)                // about to send
    | TrigClose(id: Id, ch: nat, x: V)               // sent, about to close

  /** `flat` is what one unsharded map would hold; `panics` counts duplicate registrations;
      `fatal` records a send on, or a close of, a closed channel. */
  datatype State<V> = State(
    shards: seq<map<Id, nat>>,
    locks: seq<Option<nat>>,
    chans: seq<Chan<V>>,
    pcs: seq<PC<V>>,
    flat: map<Id, nat>,
    panics: nat,
    fatal: bool)

  datatype Choice<V> = CallRegister(id: Id) | CallTrigger(id: Id, x: V) | Receive(ch: nat) | Continue

  // ----- steps -------------------------------------------------------------

  predicate Shaped<V>(s: State<V>) {
    |s.shards| == SHARDS && |s.locks| == SHARDS
  }

  predicate Enabled<V>(s: State<V>, c: nat, a: Choice<V>) {
    Shaped(s) && c < |s.pcs| &&
    match s.pcs[c]
    case Idle => a.CallRegister? || a.CallTrigger? || (a.Receive? && a.ch < |s.chans| && s.chans[a.ch].buf != [])
    case RegLock(id, _) => a.Continue? && s.locks[id % SHARDS].None?
    case TrigLock(id, _) => a.Continue? && s.locks[id % SHARDS].None?
    case TrigSend(_, ch, _) => a.Continue? && ch < |s.chans| && (s.chans[ch].closed || s.chans[ch].buf == [])
    case _ => a.Continue?
  }

  function Goto<V>(s: State<V>, c: nat, pc: PC<V>): State<V>
    requires c < |s.pcs|
  {
    s.(pcs := s.pcs[c := pc])
  }

  function SetLock<V>(s: State<V>, id: Id, holder: Option<nat>): State<V>
    requires Shaped(s)
  {
    s.(locks := s.locks[id % SHARDS := holder])
  }

  /** Store a channel, or panic when the identifier is registered already. */
  function Store<V>(s: State<V>, id: Id, ch: nat): State<V>
    requires Shaped(s)
  {
    var j := id % SHARDS;
    var stored: map<Id, nat> := s.shards[j][id := ch];
    if id !in s.shards[j] then s.(shards := s.shards[j := stored], flat := s.flat[id := ch])
    else s.(panics := s.panics + 1)
  }

  function Drop<V>(s: State<V>, id: Id): State<V>
    requires Shaped(s)
  {
    var j := id % SHARDS;
    var left: map<Id, nat> := s.shards[j] - {id};
    s.(shards := s.shards[j := left], flat := s.flat - {id})
  }

  function Lookup<V>(s: State<V>, id: Id): Option<nat>
    requires Shaped(s)
  {
    if id in s.shards[id % SHARDS] then Some(s.shards[id % SHARDS][id]) else None
  }

  function Send<V>(s: State<V>, ch: nat, x: V): State<V>
    requires ch < |s.chans|
  {
    var k := s.chans[ch];
    if k.closed then s.(fatal := true)
    else s.(chans := s.chans[ch := k.(buf := k.buf + [x], sent := k.sent + [x])])
  }

  function CloseChan<V>(s: State<V>, ch: nat): State<V> {
    if ch < |s.chans| && !s.chans[ch].closed then s.(chans := s.chans[ch := s.chans[ch].(closed := true)])
    else s.(fatal := true)
  }

  function Next<V>(s: State<V>, c: nat, a: Choice<V>): State<V>
    requires Enabled(s, c, a)
  {
    match s.pcs[c]
    case Idle =>
      (match a
       case CallRegister(id) =>
         Goto(s.(chans := s.chans + [Chan(id, [], false, [])]), c, RegLock(id, |s.chans|))
       case CallTrigger(id, x) => Goto(s, c, TrigLock(id, x))
       case Receive(ch) => s.(chans := s.chans[ch := s.chans[ch].(buf := s.chans[ch].buf[1..])])
       case Continue => s)
    case RegLock(id, ch) => Goto(SetLock(s, id, Some(c)), c, RegIn(id, ch))
    case RegIn(id, ch) => Goto(Store(s, id, ch), c, RegLeave(id, if Lookup(s, id).None? then Some(ch) else None))
    case RegLeave(id, _) => Goto(SetLock(s, id, None), c, Idle)
    case TrigLock(id, x) => Goto(SetLock(s, id, Some(c)), c, TrigIn(id, x))
    case TrigIn(id, x) => Goto(s, c, TrigFound(id, x, Lookup(s, id)))
    case TrigFound(id, x, found) => Goto(Drop(s, id), c, TrigLeave(id, x, found))
    case TrigLeave(id, x, found) =>
      Goto(SetLock(s, id, None), c, if found.Some? then TrigSend(id, found.value, x) else Idle)
    case TrigSend(id, ch, x) => Goto(Send(s, ch, x), c, TrigClose(id, ch, x))
    case TrigClose(_, ch, _) => Goto(CloseChan(s, ch), c, Idle)
  }

  predicate Init<V>(s: State<V>) {
    && Shaped(s) && s.chans == [] && s.flat == map[] && !s.fatal
    && (forall j :: 0 <= j < SHARDS ==> s.shards[j] == map[] && s.locks[j].None?)
    && (forall c :: 0 <= c < |s.pcs| ==> s.pcs[c].Idle?)
  }

  ghost predicate Follows<V(!new)>(s: State<V>, t: State<V>) {
    exists c: nat, a: Choice<V> :: Enabled(s, c, a) && t == Next(s, c, a)
  }

  ghost predicate IsRun<V(!new)>(run: seq<State<V>>) {
    && |run| >= 1 && Init(run[0])
    && forall i :: 0 < i < |run| ==> Follows(run[i - 1], run[i])
  }

  // ----- the invariant -----------------------------------------------------

  /** The shard whose mutex the thread holds. */
  function Inside<V>(pc: PC<V>): Option<nat> {
    if pc.RegIn? || pc.RegLeave? || pc.TrigIn? || pc.TrigFound? || pc.TrigLeave? then Some(pc.id % SHARDS) else None
  }

  ghost predicate LocksOk<V>(s: State<V>) {
    Shaped(s) &&
    forall c: nat, j: nat :: j < SHARDS ==> (s.locks[j] == Some(c) <==> c < |s.pcs| && Inside(s.pcs[c]) == Some(j))
  }

  /** The channel a thread alone knows: made but not yet stored, or already taken out. */
  function Owned<V>(pc: PC<V>): Option<nat> {
    match pc
    case RegLock(_, ch) => Some(ch)
    case RegIn(_, ch) => Some(ch)
    case TrigLeave(_, _, found) => found
    case TrigSend(_, ch, _) => Some(ch)
    case TrigClose(_, ch, _) => Some(ch)
    case _ => None
  }

  ghost predicate Untouched<V>(s: State<V>, ch: nat) {
    ch < |s.chans| && !s.chans[ch].closed && s.chans[ch].buf == [] && s.chans[ch].sent == []
  }

  /** An identifier lives only in its own shard, with an untouched channel of its own. */
  ghost predicate TableOk<V>(s: State<V>) {
    Shaped(s) &&
    forall j: nat, id: Id :: j < SHARDS && id in s.shards[j] ==>
      id % SHARDS == j && Untouched(s, s.shards[j][id]) && s.chans[s.shards[j][id]].key == id
  }

  /** The shards together are the flat map. */
  ghost predicate FlatOk<V>(s: State<V>) {
    Shaped(s) &&
    forall id: Id :: (id in s.flat <==> id in s.shards[id % SHARDS]) &&
                     (id in s.flat ==> s.flat[id] == s.shards[id % SHARDS][id])
  }

  ghost predicate PcOk<V>(s: State<V>, pc: PC<V>)
    requires Shaped(s)
  {
    && (Owned(pc).Some? && !pc.TrigClose? ==> Untouched(s, Owned(pc).value))
    && (Owned(pc).Some? ==> forall id: Id :: Lookup(s, id) != Owned(pc))
    && (Owned(pc).Some? ==> Owned(pc).value < |s.chans| && s.chans[Owned(pc).value].key == pc.id)
    && (pc.TrigFound? ==> pc.found == Lookup(s, pc.id))
    && (pc.TrigClose? ==> !s.chans[pc.ch].closed && s.chans[pc.ch].sent == [pc.x])
    && (pc.RegLeave? && pc.result.Some? ==> pc.result == Lookup(s, pc.id))
  }

  ghost predicate PcsOk<V>(s: State<V>) {
    Shaped(s) && forall c :: 0 <= c < |s.pcs| ==> PcOk(s, s.pcs[c])
  }

  /** No two threads own the same channel. */
  ghost predicate OwnersOk<V>(s: State<V>) {
    forall c, d :: 0 <= c < |s.pcs| && 0 <= d < |s.pcs| && c != d && Owned(s.pcs[c]).Some? ==>
      Owned(s.pcs[c]) != Owned(s.pcs[d])
  }

  /** Every channel got at most one value, and was closed only after it. */
  ghost predicate ChansOk<V>(s: State<V>) {
    forall ch :: 0 <= ch < |s.chans| ==>
      && |s.chans[ch].sent| <= 1
      && (s.chans[ch].closed ==> |s.chans[ch].sent| == 1)
      && (s.chans[ch].buf == [] || s.chans[ch].buf == s.chans[ch].sent)
  }

  ghost predicate Inv<V>(s: State<V>) {
    LocksOk(s) && TableOk(s) && FlatOk(s) && PcsOk(s) && OwnersOk(s) && ChansOk(s) && !s.fatal
  }

  // ----- every step keeps it -----------------------------------------------

  /** What a step does to the thread that takes it and to the shard mutexes. */
  lemma LocksEffect<V>(s: State<V>, c: nat, a: Choice<V>)
    requires Enabled(s, c, a) && (Inside(s.pcs[c]).Some? ==> s.locks[Inside(s.pcs[c]).value] == Some(c))
    ensures var t := Next(s, c, a); Shaped(t) && c < |s.pcs| == |t.pcs| && t.pcs == s.pcs[c := t.pcs[c]]
    ensures var t := Next(s, c, a); var (p, q) := (s.pcs[c], t.pcs[c]);
      forall j: nat :: j < SHARDS ==>
        && t.locks[j] == (if Inside(q) == Some(j) then Some(c) else if Inside(p) == Some(j) then None else s.locks[j])
        && (Inside(q) == Some(j) && Inside(p) != Some(j) ==> s.locks[j].None?)
  {
  }

  /** What it does to the channels: only their owner sends and closes, anybody receives. */
  lemma ChansEffect<V>(s: State<V>, c: nat, a: Choice<V>)
    requires Enabled(s, c, a)
    ensures var t := Next(s, c, a);
      && |t.chans| >= |s.chans|
      && forall ch: nat :: ch < |s.chans| ==>
           && t.chans[ch].key == s.chans[ch].key
           && (Owned(s.pcs[c]) != Some(ch) ==>
                 && t.chans[ch].closed == s.chans[ch].closed && t.chans[ch].sent == s.chans[ch].sent
                 && (t.chans[ch].buf == s.chans[ch].buf || s.chans[ch].buf != []))
  {
  }

  /** What it does to the table. */
  lemma TableEffect<V>(s: State<V>, c: nat, a: Choice<V>)
    requires Enabled(s, c, a)
    ensures Shaped(Next(s, c, a))
    ensures var t := Next(s, c, a); var p := s.pcs[c];
      forall j: nat, id: Id :: j < SHARDS ==>
        if p.RegIn? && id == p.id && j == id % SHARDS && id !in s.shards[j] then
          id in t.shards[j] && t.shards[j][id] == p.ch
        else if p.TrigFound? && id == p.id && j == id % SHARDS then id !in t.shards[j]
        else (id in t.shards[j] <==> id in s.shards[j]) && (id in s.shards[j] ==> t.shards[j][id] == s.shards[j][id])
  {
  }

  lemma LocksStep<V>(s: State<V>, c: nat, a: Choice<V>)
    requires Inv(s) && Enabled(s, c, a)
    ensures LocksOk(Next(s, c, a))
  {
    hide TableOk, FlatOk, PcsOk, OwnersOk, ChansOk, Next, Enabled;
    InsideHolds(s, c, a);
    LocksEffect(s, c, a);
    var t := Next(s, c, a);
    forall d: nat, j: nat | j < SHARDS
      ensures t.locks[j] == Some(d) <==> d < |t.pcs| && Inside(t.pcs[d]) == Some(j)
    {
      assert s.locks[j] == Some(d) <==> d < |s.pcs| && Inside(s.pcs[d]) == Some(j);
    }
  }

  lemma InsideHolds<V>(s: State<V>, c: nat, a: Choice<V>)
    requires LocksOk(s) && Enabled(s, c, a)
    ensures c < |s.pcs| && (Inside(s.pcs[c]).Some? ==> s.locks[Inside(s.pcs[c]).value] == Some(c))
  {
    hide Next;
    if Inside(s.pcs[c]).Some? {
      var j := Inside(s.pcs[c]).value;
      assert s.locks[j] == Some(c) <==> Inside(s.pcs[c]) == Some(j);
    }
  }

  lemma UntouchedStays<V>(s: State<V>, c: nat, a: Choice<V>, ch: nat)
    requires Enabled(s, c, a) && Untouched(s, ch) && Owned(s.pcs[c]) != Some(ch)
    ensures ch < |Next(s, c, a).chans| && Untouched(Next(s, c, a), ch) && Next(s, c, a).chans[ch].key == s.chans[ch].key
  {
    hide Next, Enabled;
    ChansEffect(s, c, a);
  }

  lemma TableStep<V>(s: State<V>, c: nat, a: Choice<V>)
    requires c < |s.pcs| && Inv(s) && Enabled(s, c, a)
    ensures TableOk(Next(s, c, a))
  {
    hide FlatOk, OwnersOk, ChansOk, LocksOk, Next, Enabled, Untouched;
    var t := Next(s, c, a);
    var p := s.pcs[c];
    assert PcOk(s, p);
    TableEffect(s, c, a);
    forall j: nat, id: Id | j < SHARDS && id in t.shards[j]
      ensures id % SHARDS == j && Untouched(t, t.shards[j][id])
      ensures t.shards[j][id] < |t.chans| && t.chans[t.shards[j][id]].key == id
    {
      if id in s.shards[j] {
        assert Lookup(s, id) != Owned(p) || Owned(p).None?;
        UntouchedStays(s, c, a, t.shards[j][id]);
      } else {
        StoredFresh(s, c, a);
      }
    }
  }

  lemma StoredFresh<V>(s: State<V>, c: nat, a: Choice<V>)
    requires Enabled(s, c, a) && s.pcs[c].RegIn? && PcOk(s, s.pcs[c])
    ensures s.pcs[c].ch < |Next(s, c, a).chans|
    ensures Untouched(Next(s, c, a), s.pcs[c].ch) && Next(s, c, a).chans[s.pcs[c].ch].key == s.pcs[c].id
  {
  }

  lemma FlatStep<V>(s: State<V>, c: nat, a: Choice<V>)
    requires Inv(s) && Enabled(s, c, a)
    ensures FlatOk(Next(s, c, a))
  {
    hide TableOk, PcsOk, OwnersOk, ChansOk, LocksOk;
  }

  /** Where a thread's channel can come from. */
  lemma OwnedEffect<V>(s: State<V>, c: nat, a: Choice<V>)
    requires Enabled(s, c, a)
    requires s.pcs[c].TrigFound? ==> s.pcs[c].found == Lookup(s, s.pcs[c].id)
    ensures var t := Next(s, c, a); var (p, q) := (s.pcs[c], t.pcs[c]);
      && Shaped(t) && c < |s.pcs| == |t.pcs| && t.pcs == s.pcs[c := q]
      && (Owned(q).None? || Owned(q) == Owned(p) || Owned(q) == Some(|s.chans|)
          || (p.TrigFound? && Owned(q) == Lookup(s, p.id)))
  {
  }

  lemma OwnersStep<V>(s: State<V>, c: nat, a: Choice<V>)
    requires c < |s.pcs| && Inv(s) && Enabled(s, c, a)
    ensures OwnersOk(Next(s, c, a))
  {
    hide FlatOk, ChansOk, LocksOk, TableOk, Next, Enabled;
    assert PcOk(s, s.pcs[c]);
    OwnedEffect(s, c, a);
    var t := Next(s, c, a);
    forall d | 0 <= d < |s.pcs| && d != c && Owned(s.pcs[d]).Some? ensures Owned(s.pcs[d]) != Owned(t.pcs[c]) {
      assert PcOk(s, s.pcs[d]);
    }
  }

  lemma ChansStep<V>(s: State<V>, c: nat, a: Choice<V>)
    requires Inv(s) && Enabled(s, c, a)
    ensures ChansOk(Next(s, c, a)) && !Next(s, c, a).fatal
  {
    hide FlatOk, OwnersOk, LocksOk, TableOk;
    assert PcOk(s, s.pcs[c]);
  }

  lemma MoverStep<V>(s: State<V>, c: nat, a: Choice<V>)
    requires Inv(s) && Enabled(s, c, a)
    ensures Shaped(Next(s, c, a)) && c < |Next(s, c, a).pcs|
    ensures PcOk(Next(s, c, a), Next(s, c, a).pcs[c])
  {
    hide FlatOk, OwnersOk, LocksOk, ChansOk;
    var t := Next(s, c, a);
    assert PcOk(s, s.pcs[c]);
    forall id: Id | Owned(t.pcs[c]).Some? ensures Lookup(t, id) != Owned(t.pcs[c]) {
      EntryFacts(s, id);
      if s.pcs[c].TrigFound? {
        EntryFacts(s, s.pcs[c].id);
      }
      assert Owned(s.pcs[c]).Some? ==> Lookup(s, id) != Owned(s.pcs[c]);
    }
  }

  lemma EntryFacts<V>(s: State<V>, id: Id)
    requires TableOk(s)
    ensures Lookup(s, id).Some? ==> Untouched(s, Lookup(s, id).value) && s.chans[Lookup(s, id).value].key == id
  {
  }

  lemma BystanderStep<V>(s: State<V>, c: nat, a: Choice<V>, d: nat)
    requires c < |s.pcs| && Inv(s) && Enabled(s, c, a) && d < |s.pcs| && d != c
    ensures Shaped(Next(s, c, a)) && PcOk(Next(s, c, a), s.pcs[d])
  {
    hide FlatOk, ChansOk, TableOk, Next, Enabled;
    var t := Next(s, c, a);
    var p, q := s.pcs[c], s.pcs[d];
    assert PcOk(s, p) && PcOk(s, q);
    TableEffect(s, c, a);
    ChansEffect(s, c, a);
    assert Owned(q).Some? ==> Owned(q) != Owned(p);
    forall id: Id | Owned(q).Some? ensures Lookup(t, id) != Owned(q) {
      assert Lookup(s, id) != Owned(q);
    }
    if q.TrigFound? || q.RegLeave? {
      SameShard(s, c, d);
    }
  }

  /** Two threads are never inside one shard. */
  lemma SameShard<V>(s: State<V>, c: nat, d: nat)
    requires LocksOk(s) && c < |s.pcs| && d < |s.pcs| && c != d
    ensures Inside(s.pcs[c]).Some? ==> Inside(s.pcs[c]) != Inside(s.pcs[d])
  {
    if Inside(s.pcs[c]).Some? {
      var j := Inside(s.pcs[c]).value;
      assert s.locks[j] == Some(c) <==> Inside(s.pcs[c]) == Some(j);
      assert s.locks[j] == Some(d) <==> Inside(s.pcs[d]) == Some(j);
    }
  }

  lemma PcsStep<V>(s: State<V>, c: nat, a: Choice<V>)
    requires Inv(s) && Enabled(s, c, a)
    ensures PcsOk(Next(s, c, a))
  {
    InsideHolds(s, c, a);
    LocksEffect(s, c, a);
    hide Next, Enabled, PcOk;
    var t := Next(s, c, a);
    forall d | 0 <= d < |t.pcs| ensures PcOk(t, t.pcs[d]) {
      if d == c {
        MoverStep(s, c, a);
      } else {
        BystanderStep(s, c, a, d);
      }
    }
  }

  // ----- what holds in every reachable state -------------------------------

  lemma StepKeepsInv<V>(s: State<V>, c: nat, a: Choice<V>)
    requires c < |s.pcs| && Inv(s) && Enabled(s, c, a)
    ensures Inv(Next(s, c, a))
  {
    hide Next, Enabled, LocksOk, TableOk, FlatOk, PcsOk, OwnersOk, ChansOk;
    LocksStep(s, c, a);
    TableStep(s, c, a);
    FlatStep(s, c, a);
    PcsStep(s, c, a);
    OwnersStep(s, c, a);
    ChansStep(s, c, a);
  }

  lemma InitInv<V>(s: State<V>)
    requires Init(s)
    ensures Inv(s)
  {
  }

  lemma EnabledIndex<V>(s: State<V>, c: nat, a: Choice<V>)
    requires Enabled(s, c, a)
    ensures c < |s.pcs|
  {
  }

  lemma {:induction false} ReachableInv<V(!new)>(run: seq<State<V>>, i: nat)
    requires IsRun(run) && i < |run|
    ensures Inv(run[i])
  {
    hide Inv, Init, Enabled, Next;
    if i == 0 {
      InitInv(run[0]);
    } else {
      ReachableInv(run, i - 1);
      assert Follows(run[i - 1], run[i]);
      var c: nat, a :| Enabled(run[i - 1], c, a) && run[i] == Next(run[i - 1], c, a);
      EnabledIndex(run[i - 1], c, a);
      StepKeepsInv(run[i - 1], c, a);
    }
  }

  /** The 64 shards refine one flat map, an identifier living only in shard id % 64. */
  lemma ShardsAreOneMap<V(!new)>(run: seq<State<V>>, i: nat, id: Id)
    requires IsRun(run) && i < |run|
    ensures Shaped(run[i])
    ensures Lookup(run[i], id) == (if id in run[i].flat then Some(run[i].flat[id]) else None)
    ensures forall j: nat :: j < SHARDS && id in run[i].shards[j] ==> j == id % SHARDS
  {
    ReachableInv(run, i);
  }

  /** Under the shard mutex, Register and Trigger act on the flat map as its insertion and
      removal; a duplicate registration panics and changes nothing. */
  lemma StepsActOnFlatMap<V>(s: State<V>, c: nat, a: Choice<V>)
    requires c < |s.pcs| && Inv(s) && Enabled(s, c, a)
    ensures var t := Next(s, c, a);
      match s.pcs[c]
      case RegIn(id, ch) =>
        if id in s.flat then t.flat == s.flat && t.panics == s.panics + 1
        else t.flat == s.flat[id := ch] && t.panics == s.panics
      case TrigFound(id, x, found) =>
        && t.flat == s.flat - {id} && t.panics == s.panics
        && found == (if id in s.flat then Some(s.flat[id]) else None)
      case _ => t.flat == s.flat && t.panics == s.panics
  {
    assert PcOk(s, s.pcs[c]);
    hide PcsOk, OwnersOk, LocksOk, ChansOk;
  }

  /** Each channel gets at most one value and at most one close, the close after the value,
      and never a send or close once closed. */
  lemma OneValueThenOneClose<V(!new)>(run: seq<State<V>>, i: nat, ch: nat)
    requires IsRun(run) && i < |run| && ch < |run[i].chans|
    ensures |run[i].chans[ch].sent| <= 1
    ensures run[i].chans[ch].closed ==> |run[i].chans[ch].sent| == 1
    ensures run[i].chans[ch].buf == [] || run[i].chans[ch].buf == run[i].chans[ch].sent
    ensures !run[i].fatal
  {
    ReachableInv(run, i);
  }

  /** Trigger's send never blocks: it goes to a fresh, open channel registered for its identifier. */
  lemma SendNeverBlocks<V(!new)>(run: seq<State<V>>, i: nat, c: nat)
    requires IsRun(run) && i < |run| && c < |run[i].pcs| && run[i].pcs[c].TrigSend?
    ensures Enabled(run[i], c, Continue)
    ensures Untouched(run[i], run[i].pcs[c].ch) && run[i].chans[run[i].pcs[c].ch].key == run[i].pcs[c].id
  {
    ReachableInv(run, i);
    assert PcOk(run[i], run[i].pcs[c]);
  }
}
