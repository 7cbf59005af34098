/** The blocking queue as interleaved steps of any number of threads around one mutex and
    one condition variable. */
module QueueProtocol {
  import opened Wrappers

  /** Where a thread is; InMutex says which places hold the mutex. */
  datatype PC<V> =
    | Idle
    | PushStart(v: V)               // about to lock
    | PushIn(v: V)                  // mutex held
    | PushAdded                     // item added, about to signal
    | PushLeave                     // about to unlock
    | PopStart                      // about to lock
    | PopCheck                      // mutex held, at the loop's test
    | PopWaiting                    // in Wait, mutex given up, not yet signalled
    | PopWoken                      // signalled, about to lock again
    | PopTake                       // mutex held, past the loop
    | PopLeave(result: Option<V>)   // about to unlock and return
    | TryStart
    | TryIn
    | TryLeave(result: Option<V>, ok: bool)
    | CloseStart
    | CloseIn
    | CloseMarked                   // closed set, about to broadcast
    | CloseLeave

  /** `accepted` and `delivered` record the pushes the queue took and the items it returned. */
  datatype State<V> = State(
    buffer: seq<V>,
    closed: bool,
    holder: Option<nat>,
    pcs: seq<PC<V>>,
    accepted: seq<V>,
    delivered: seq<V>)

  datatype Choice<V> = CallPush(v: V) | CallPop | CallTryPop | CallClose | Wake(d: nat) | Continue

  // ----- steps -------------------------------------------------------------

  predicate NeedsMutex<V>(pc: PC<V>) {
    pc.PushStart? || pc.PopStart? || pc.PopWoken? || pc.TryStart? || pc.CloseStart?
  }

  predicate InMutex<V>(pc: PC<V>) {
    !pc.Idle? && !pc.PopWaiting? && !NeedsMutex(pc)
  }

  predicate IsWaiting<V>(s: State<V>, d: nat) {
    d < |s.pcs| && s.pcs[d].PopWaiting?
  }

  predicate SomeoneWaits<V>(s: State<V>) {
    exists d :: 0 <= d < |s.pcs| && s.pcs[d].PopWaiting?
  }

  predicate Enabled<V>(s: State<V>, c: nat, a: Choice<V>) {
    c < |s.pcs| &&
    match s.pcs[c]
    case Idle => a.CallPush? || a.CallPop? || a.CallTryPop? || a.CallClose?
    case PopWaiting => false
    case PushAdded => if SomeoneWaits(s) then a.Wake? && IsWaiting(s, a.d) else a.Continue?
    case pc => a.Continue? && (NeedsMutex(pc) ==> s.holder.None?)
  }

  function Goto<V>(s: State<V>, c: nat, pc: PC<V>): State<V>
    requires c < |s.pcs|
  {
    s.(pcs := s.pcs[c := pc])
  }

  /** Locking the mutex. */
  function Enter<V>(s: State<V>, c: nat, pc: PC<V>): State<V>
    requires c < |s.pcs|
  {
    Goto(s, c, pc).(holder := Some(c))
  }

  /** Unlocking it. */
  function Exit<V>(s: State<V>, c: nat, pc: PC<V>): State<V>
    requires c < |s.pcs|
  {
    Goto(s, c, pc).(holder := None)
  }

  function Append<V>(s: State<V>, v: V): State<V> {
    s.(buffer := s.buffer + [v], accepted := s.accepted + [v])
  }

  function Deliver<V>(s: State<V>, result: Option<V>): State<V> {
    if result.Some? then s.(delivered := s.delivered + [result.value]) else s
  }

  /** Broadcast moves every waiting thread on. */
  function WakeAll<V>(pcs: seq<PC<V>>): seq<PC<V>> {
    seq(|pcs|, i requires 0 <= i < |pcs| => if pcs[i].PopWaiting? then PopWoken else pcs[i])
  }

  function Next<V>(s: State<V>, c: nat, a: Choice<V>): State<V>
    requires Enabled(s, c, a)
  {
    match s.pcs[c]
    case Idle =>
      Goto(s, c, match a
                 case CallPush(v) => PushStart(v)
                 case CallPop => PopStart
                 case CallTryPop => TryStart
                 case _ => CloseStart)
    case PushStart(v) => Enter(s, c, PushIn(v))
    case PushIn(v) => if !s.closed then Goto(Append(s, v), c, PushAdded) else Goto(s, c, PushLeave)
    case PushAdded => Goto(if a.Wake? then Goto(s, a.d, PopWoken) else s, c, PushLeave)
    case PushLeave => Exit(s, c, Idle)
    case PopStart => Enter(s, c, PopCheck)
    case PopCheck => if s.buffer == [] && !s.closed then Exit(s, c, PopWaiting) else Goto(s, c, PopTake)
    case PopWoken => Enter(s, c, PopCheck)
    case PopTake =>
      if s.closed then Goto(s, c, PopLeave(None))
      else if s.buffer != [] then Goto(s.(buffer := s.buffer[1..]), c, PopLeave(Some(s.buffer[0])))
      else Goto(s, c, PopLeave(None))
    case PopLeave(result) => Exit(Deliver(s, result), c, Idle)
    case TryStart => Enter(s, c, TryIn)
    case TryIn =>
      if s.buffer != [] then Goto(s.(buffer := s.buffer[1..]), c, TryLeave(Some(s.buffer[0]), true))
      else Goto(s, c, TryLeave(None, s.closed))
    case TryLeave(result, _) => Exit(Deliver(s, result), c, Idle)
    case CloseStart => Enter(s, c, CloseIn)
    case CloseIn => if !s.closed then Goto(s.(closed := true), c, CloseMarked) else Goto(s, c, CloseLeave)
    case CloseMarked => Goto(s.(pcs := WakeAll(s.pcs)), c, CloseLeave)
    case CloseLeave => Exit(s, c, Idle)
  }

  predicate Init<V>(s: State<V>) {
    && s.buffer == [] && !s.closed && s.holder.None? && s.accepted == [] && s.delivered == []
    && forall c :: 0 <= c < |s.pcs| ==> s.pcs[c].Idle?
  }

  ghost predicate Follows<V(!new)>(s: State<V>, t: State<V>) {
    exists c: nat, a: Choice<V> :: Enabled(s, c, a) && t == Next(s, c, a)
  }

  ghost predicate IsRun<V(!new)>(run: seq<State<V>>) {
    && |run| >= 1 && Init(run[0])
    && forall i :: 0 < i < |run| ==> Follows(run[i - 1], run[i])
  }

  // ----- the invariant -----------------------------------------------------

  ghost predicate MutexOk<V>(s: State<V>) {
    forall c: nat :: s.holder == Some(c) <==> c < |s.pcs| && InMutex(s.pcs[c])
  }

  /** The item already removed from the buffer by the call that holds the mutex. */
  function Pending<V>(s: State<V>): seq<V> {
    if s.holder.Some? && s.holder.value < |s.pcs| then
      match s.pcs[s.holder.value]
      case PopLeave(Some(v)) => [v]
      case TryLeave(Some(v), _) => [v]
      case _ => []
    else []
  }

  ghost predicate FifoOk<V>(s: State<V>) {
    s.accepted == s.delivered + Pending(s) + s.buffer
  }

  /** On its way to take an item, or about to signal somebody who will. */
  predicate Ready<V>(pc: PC<V>) {
    pc.PopWoken? || pc.PopCheck? || pc.PopTake? || pc.PushAdded?
  }

  function ReadySet<V>(pcs: seq<PC<V>>): set<nat> {
    set c: nat | c < |pcs| && Ready(pcs[c])
  }

  ghost predicate WakeupsOk<V>(s: State<V>) {
    SomeoneWaits(s) ==> |s.buffer| <= |ReadySet(s.pcs)|
  }

  ghost predicate ClosedOk<V>(s: State<V>) {
    s.closed && SomeoneWaits(s) ==> s.holder.Some? && s.holder.value < |s.pcs| && s.pcs[s.holder.value].CloseMarked?
  }

  ghost predicate PlacesOk<V>(s: State<V>) {
    forall c :: 0 <= c < |s.pcs| ==> PlaceOk(s, s.pcs[c])
  }

  ghost predicate PlaceOk<V>(s: State<V>, pc: PC<V>) {
    match pc
    case PopTake => s.closed || s.buffer != []
    case PopLeave(result) => result.None? ==> s.closed
    case PushAdded => !s.closed
    case CloseMarked => s.closed
    case CloseLeave => s.closed
    case TryLeave(result, ok) => if result.None? then s.buffer == [] && ok == s.closed else ok
    case _ => true
  }

  ghost predicate Inv<V>(s: State<V>) {
    MutexOk(s) && FifoOk(s) && WakeupsOk(s) && ClosedOk(s) && PlacesOk(s)
  }

  // ----- every step keeps it -----------------------------------------------

  /** What a step does to the other threads. */
  lemma PcsEffect<V>(s: State<V>, c: nat, a: Choice<V>)
    requires Enabled(s, c, a)
    ensures c < |s.pcs| == |Next(s, c, a).pcs|
    ensures forall d :: 0 <= d < |s.pcs| && d != c ==>
      var p, q := s.pcs[d], Next(s, c, a).pcs[d]; q == p || (p.PopWaiting? && q.PopWoken?)
  {
    hide Next;
    if s.pcs[c].CloseMarked? || s.pcs[c].PushAdded? {
      WakingPcs(s, c, a);
    } else {
      OwnPcs(s, c, a);
    }
  }

  lemma OwnPcs<V>(s: State<V>, c: nat, a: Choice<V>)
    requires Enabled(s, c, a) && !s.pcs[c].CloseMarked? && !s.pcs[c].PushAdded?
    ensures c < |s.pcs| == |Next(s, c, a).pcs| && Next(s, c, a).pcs == s.pcs[c := Next(s, c, a).pcs[c]]
  {
  }

  lemma WakingPcs<V>(s: State<V>, c: nat, a: Choice<V>)
    requires Enabled(s, c, a) && (s.pcs[c].CloseMarked? || s.pcs[c].PushAdded?)
    ensures c < |s.pcs| == |Next(s, c, a).pcs|
    ensures forall d :: 0 <= d < |s.pcs| && d != c ==>
      var p, q := s.pcs[d], Next(s, c, a).pcs[d]; q == p || (p.PopWaiting? && q.PopWoken?)
  {
  }

  lemma HolderEffect<V>(s: State<V>, c: nat, a: Choice<V>)
    requires Enabled(s, c, a) && (InMutex(s.pcs[c]) ==> s.holder == Some(c))
    ensures c < |s.pcs| == |Next(s, c, a).pcs|
    ensures var t := Next(s, c, a);
      t.holder == (if InMutex(t.pcs[c]) then Some(c) else if InMutex(s.pcs[c]) then None else s.holder)
  {
    hide Next, InMutex;
    if InMutex(s.pcs[c]) {
      HolderInside(s, c, a);
    } else {
      HolderOutside(s, c, a);
    }
  }

  lemma HolderInside<V>(s: State<V>, c: nat, a: Choice<V>)
    requires Enabled(s, c, a) && InMutex(s.pcs[c]) && s.holder == Some(c)
    ensures c < |s.pcs| == |Next(s, c, a).pcs|
    ensures Next(s, c, a).holder == if InMutex(Next(s, c, a).pcs[c]) then Some(c) else None
  {
  }

  lemma HolderOutside<V>(s: State<V>, c: nat, a: Choice<V>)
    requires Enabled(s, c, a) && !InMutex(s.pcs[c])
    ensures c < |s.pcs| == |Next(s, c, a).pcs|
    ensures Next(s, c, a).holder == if InMutex(Next(s, c, a).pcs[c]) then Some(c) else s.holder
  {
  }

  lemma EntryEffect<V>(s: State<V>, c: nat, a: Choice<V>)
    requires Enabled(s, c, a) && !InMutex(s.pcs[c])
    ensures c < |s.pcs| == |Next(s, c, a).pcs|
    ensures var t := Next(s, c, a);
      && (InMutex(t.pcs[c]) ==> s.holder.None?) && t.buffer == s.buffer && t.closed == s.closed
      && t.accepted == s.accepted && t.delivered == s.delivered
      && !t.pcs[c].PopLeave? && !t.pcs[c].TryLeave?
  {
  }

  /** What it does to the mutex and, without it, to the queue. */
  lemma MutexEffect<V>(s: State<V>, c: nat, a: Choice<V>)
    requires Enabled(s, c, a) && (InMutex(s.pcs[c]) ==> s.holder == Some(c))
    ensures c < |s.pcs| == |Next(s, c, a).pcs|
    ensures var t := Next(s, c, a);
      && t.holder == (if InMutex(t.pcs[c]) then Some(c) else if InMutex(s.pcs[c]) then None else s.holder)
      && (InMutex(t.pcs[c]) && !InMutex(s.pcs[c]) ==> s.holder.None?)
      && (!InMutex(s.pcs[c]) ==> t.buffer == s.buffer && t.closed == s.closed)
  {
    hide Next, Enabled, InMutex;
    HolderEffect(s, c, a);
    if !InMutex(s.pcs[c]) {
      EntryEffect(s, c, a);
    }
  }

  lemma MutexStep<V>(s: State<V>, c: nat, a: Choice<V>)
    requires Inv(s) && Enabled(s, c, a)
    ensures MutexOk(Next(s, c, a))
  {
    hide FifoOk, WakeupsOk, ClosedOk, PlacesOk, Next, Enabled;
    PcsEffect(s, c, a);
    assert InMutex(s.pcs[c]) ==> s.holder == Some(c);
    MutexEffect(s, c, a);
    var t := Next(s, c, a);
    forall d: nat ensures t.holder == Some(d) <==> d < |t.pcs| && InMutex(t.pcs[d]) {
      assert s.holder == Some(d) <==> d < |s.pcs| && InMutex(s.pcs[d]);
    }
  }

  /** Steps outside the mutex touch neither the queue nor the item under way. */
  lemma FifoOutside<V>(s: State<V>, c: nat, a: Choice<V>)
    requires MutexOk(s) && FifoOk(s) && Enabled(s, c, a) && !InMutex(s.pcs[c])
    ensures FifoOk(Next(s, c, a))
  {
    hide Next, Enabled;
    PcsEffect(s, c, a);
    HolderEffect(s, c, a);
    EntryEffect(s, c, a);
    var t := Next(s, c, a);
    assert s.holder == Some(c) <==> InMutex(s.pcs[c]);
    if s.holder.Some? {
      var d := s.holder.value;
      assert s.holder == Some(d) <==> d < |s.pcs| && InMutex(s.pcs[d]);
      assert t.pcs[d] == s.pcs[d];
    }
    assert Pending(t) == Pending(s);
  }

  predicate Takes<V>(pc: PC<V>) {
    pc.PopTake? || pc.TryIn?
  }

  predicate Returns<V>(pc: PC<V>) {
    pc.PopLeave? || pc.TryLeave?
  }

  lemma FifoTakes<V>(s: State<V>, c: nat, a: Choice<V>)
    requires FifoOk(s) && Enabled(s, c, a) && Takes(s.pcs[c]) && s.holder == Some(c)
    ensures FifoOk(Next(s, c, a))
  {
    assert s.buffer != [] ==> s.buffer == [s.buffer[0]] + s.buffer[1..];
  }

  lemma FifoReturns<V>(s: State<V>, c: nat, a: Choice<V>)
    requires FifoOk(s) && Enabled(s, c, a) && Returns(s.pcs[c]) && s.holder == Some(c)
    ensures FifoOk(Next(s, c, a))
  {
  }

  lemma FifoInside<V>(s: State<V>, c: nat, a: Choice<V>)
    requires FifoOk(s) && Enabled(s, c, a) && InMutex(s.pcs[c]) && s.holder == Some(c)
    requires !Takes(s.pcs[c]) && !Returns(s.pcs[c])
    ensures FifoOk(Next(s, c, a))
  {
    var t := Next(s, c, a);
    assert Pending(s) == [];
    assert Pending(t) == [] by {
      HolderEffect(s, c, a);
    }
  }

  lemma FifoStep<V>(s: State<V>, c: nat, a: Choice<V>)
    requires Inv(s) && Enabled(s, c, a)
    ensures FifoOk(Next(s, c, a))
  {
    hide WakeupsOk, ClosedOk, PlacesOk, FifoOk, Next;
    assert InMutex(s.pcs[c]) ==> s.holder == Some(c);
    if Takes(s.pcs[c]) {
      FifoTakes(s, c, a);
    } else if Returns(s.pcs[c]) {
      FifoReturns(s, c, a);
    } else if InMutex(s.pcs[c]) {
      FifoInside(s, c, a);
    } else {
      FifoOutside(s, c, a);
    }
  }

  lemma MoverPlace<V>(s: State<V>, c: nat, a: Choice<V>)
    requires Inv(s) && Enabled(s, c, a)
    ensures c < |Next(s, c, a).pcs| && PlaceOk(Next(s, c, a), Next(s, c, a).pcs[c])
  {
    hide FifoOk, WakeupsOk, ClosedOk, MutexOk, Next;
    assert PlaceOk(s, s.pcs[c]);
    if Takes(s.pcs[c]) {
      TakerPlace(s, c, a);
    } else {
      OtherPlace(s, c, a);
    }
  }

  lemma TakerPlace<V>(s: State<V>, c: nat, a: Choice<V>)
    requires Enabled(s, c, a) && PlaceOk(s, s.pcs[c]) && Takes(s.pcs[c])
    ensures c < |Next(s, c, a).pcs| && PlaceOk(Next(s, c, a), Next(s, c, a).pcs[c])
  {
  }

  lemma OtherPlace<V>(s: State<V>, c: nat, a: Choice<V>)
    requires Enabled(s, c, a) && PlaceOk(s, s.pcs[c]) && !Takes(s.pcs[c])
    ensures c < |Next(s, c, a).pcs| && PlaceOk(Next(s, c, a), Next(s, c, a).pcs[c])
  {
  }

  lemma PlacesStep<V>(s: State<V>, c: nat, a: Choice<V>)
    requires Inv(s) && Enabled(s, c, a)
    ensures PlacesOk(Next(s, c, a))
  {
    hide FifoOk, WakeupsOk, ClosedOk, Next, Enabled;
    PcsEffect(s, c, a);
    assert InMutex(s.pcs[c]) ==> s.holder == Some(c);
    MutexEffect(s, c, a);
    var t := Next(s, c, a);
    forall d | 0 <= d < |t.pcs| ensures PlaceOk(t, t.pcs[d]) {
      if d == c {
        MoverPlace(s, c, a);
      } else {
        assert PlaceOk(s, s.pcs[d]);
        assert InMutex(s.pcs[c]) ==> s.holder == Some(c);
        assert InMutex(s.pcs[d]) ==> s.holder == Some(d);
      }
    }
  }

  lemma ClosedStep<V>(s: State<V>, c: nat, a: Choice<V>)
    requires Inv(s) && Enabled(s, c, a)
    ensures ClosedOk(Next(s, c, a))
  {
    hide FifoOk, WakeupsOk;
    assert InMutex(s.pcs[c]) ==> s.holder == Some(c);
    assert PlaceOk(s, s.pcs[c]);
  }

  lemma ReadyAfter<V>(pcs: seq<PC<V>>, c: nat, pc: PC<V>)
    requires c < |pcs|
    ensures ReadySet(pcs[c := pc]) == if Ready(pc) then ReadySet(pcs) + {c} else ReadySet(pcs) - {c}
    ensures c in ReadySet(pcs) <==> Ready(pcs[c])
  {
  }

  /** A step makes nobody wait but the thread that takes it. */
  lemma WaitersStay<V>(s: State<V>, c: nat, a: Choice<V>)
    requires Inv(s) && Enabled(s, c, a)
    ensures c < |Next(s, c, a).pcs|
    ensures SomeoneWaits(Next(s, c, a)) && !Next(s, c, a).pcs[c].PopWaiting? ==> SomeoneWaits(s)
  {
    hide Next, Enabled;
    PcsEffect(s, c, a);
  }

  lemma WakeupsStep<V>(s: State<V>, c: nat, a: Choice<V>)
    requires Inv(s) && Enabled(s, c, a)
    ensures WakeupsOk(Next(s, c, a))
  {
    hide FifoOk;
    if s.pcs[c].PushAdded? {
      SignalStep(s, c, a);
    } else if s.pcs[c].CloseMarked? {
      assert !SomeoneWaits(Next(s, c, a));
    } else {
      PlainStep(s, c, a);
    }
  }

  lemma SignalStep<V>(s: State<V>, c: nat, a: Choice<V>)
    requires Inv(s) && Enabled(s, c, a) && s.pcs[c].PushAdded?
    ensures WakeupsOk(Next(s, c, a))
  {
    if a.Wake? {
      ReadyAfter(s.pcs, a.d, PopWoken);
      ReadyAfter(s.pcs[a.d := PopWoken], c, PushLeave);
    }
  }

  /** A thread that stops being ready took an item, found none, or found the queue closed. */
  lemma PlainEffect<V>(s: State<V>, c: nat, a: Choice<V>)
    requires Enabled(s, c, a) && !s.pcs[c].PushAdded? && !s.pcs[c].CloseMarked? && PlaceOk(s, s.pcs[c])
    ensures c < |s.pcs| == |Next(s, c, a).pcs|
    ensures var t := Next(s, c, a); var (p, q) := (s.pcs[c], t.pcs[c]);
      && t.pcs == s.pcs[c := q]
      && |t.buffer| <= |s.buffer| + (if Ready(q) && !Ready(p) then 1 else 0)
      && (Ready(p) && !Ready(q) ==> InMutex(p) && (|t.buffer| < |s.buffer| || t.buffer == [] || s.closed))
      && (q.PopWaiting? ==> t.buffer == [])
  {
  }

  lemma PlainStep<V>(s: State<V>, c: nat, a: Choice<V>)
    requires c < |s.pcs| && Inv(s) && Enabled(s, c, a) && !s.pcs[c].PushAdded? && !s.pcs[c].CloseMarked?
    ensures WakeupsOk(Next(s, c, a))
  {
    hide FifoOk, Next, Enabled, PlaceOk;
    assert PlaceOk(s, s.pcs[c]);
    PlainEffect(s, c, a);
    ReadyAfter(s.pcs, c, Next(s, c, a).pcs[c]);
    WaitersStay(s, c, a);
    assert InMutex(s.pcs[c]) ==> s.holder == Some(c);
  }

  // ----- what holds in every reachable state -------------------------------

  lemma StepKeepsInv<V>(s: State<V>, c: nat, a: Choice<V>)
    requires Inv(s) && Enabled(s, c, a)
    ensures Inv(Next(s, c, a))
  {
    hide Next, Enabled, MutexOk, FifoOk, WakeupsOk, ClosedOk, PlacesOk;
    MutexStep(s, c, a);
    FifoStep(s, c, a);
    WakeupsStep(s, c, a);
    ClosedStep(s, c, a);
    PlacesStep(s, c, a);
  }

  lemma InitInv<V>(s: State<V>)
    requires Init(s)
    ensures Inv(s)
  {
  }

  lemma {:induction false} ReachableInv<V(!new)>(run: seq<State<V>>, i: nat)
    requires IsRun(run) && i < |run|
    ensures Inv(run[i])
  {
    hide Inv, Init, Enabled, Next;
    if i == 0 {
      InitInv(run[0]);
    } else {
      ReachableInv(run, i - 1);
      assert Follows(run[i - 1], run[i]);
      var c: nat, a :| Enabled(run[i - 1], c, a) && run[i] == Next(run[i - 1], c, a);
      StepKeepsInv(run[i - 1], c, a);
    }
  }

  function Woken<V>(pcs: seq<PC<V>>): set<nat> {
    set c: nat | c < |pcs| && pcs[c].PopWoken?
  }

  /** No lost wakeup: while a popper waits unsignalled, every item in the buffer has a thread
      on its way to it; with the mutex free these threads are signalled poppers. */
  lemma NoLostWakeup<V(!new)>(run: seq<State<V>>, i: nat)
    requires IsRun(run) && i < |run| && SomeoneWaits(run[i])
    ensures |run[i].buffer| <= |ReadySet(run[i].pcs)|
    ensures run[i].holder.None? ==> |run[i].buffer| <= |Woken(run[i].pcs)|
  {
    ReachableInv(run, i);
    var s := run[i];
    if s.holder.None? {
      forall c: nat | c < |s.pcs| ensures !InMutex(s.pcs[c]) {
        assert s.holder != Some(c);
      }
      assert ReadySet(s.pcs) == Woken(s.pcs);
    }
  }

  /** First in, first out, nothing lost, nothing twice: what was accepted is what was
      returned, then the item in a caller's hands, then the buffer. */
  lemma FirstInFirstOut<V(!new)>(run: seq<State<V>>, i: nat)
    requires IsRun(run) && i < |run|
    ensures run[i].accepted == run[i].delivered + Pending(run[i]) + run[i].buffer
    ensures i > 0 ==> run[i - 1].accepted <= run[i].accepted && run[i - 1].delivered <= run[i].delivered
  {
    hide Next, Enabled;
    ReachableInv(run, i);
    if i > 0 {
      assert Follows(run[i - 1], run[i]);
      var c: nat, a :| Enabled(run[i - 1], c, a) && run[i] == Next(run[i - 1], c, a);
      HistoriesGrow(run[i - 1], c, a);
    }
  }

  lemma HistoriesGrow<V>(s: State<V>, c: nat, a: Choice<V>)
    requires Enabled(s, c, a)
    ensures s.accepted <= Next(s, c, a).accepted && s.delivered <= Next(s, c, a).delivered
  {
  }

  /** A Pop comes back empty-handed only from a closed queue, and an item it brings back is
      the next one in the order of acceptance. TryPop's ok tells an empty open queue apart. */
  lemma ResultsAreItems<V(!new)>(run: seq<State<V>>, i: nat, c: nat)
    requires IsRun(run) && i < |run| && c < |run[i].pcs|
    ensures run[i].pcs[c].PopLeave? && run[i].pcs[c].result.None? ==> run[i].closed
    ensures (run[i].pcs[c].PopLeave? || run[i].pcs[c].TryLeave?) && run[i].pcs[c].result.Some? ==>
      run[i].delivered + [run[i].pcs[c].result.value] <= run[i].accepted
    ensures run[i].pcs[c].TryLeave? ==>
      run[i].pcs[c].ok == (run[i].pcs[c].result.Some? || run[i].closed)
  {
    ReachableInv(run, i);
    var s := run[i];
    assert PlaceOk(s, s.pcs[c]);
    assert InMutex(s.pcs[c]) ==> s.holder == Some(c);
  }

  ghost predicate CanStep<V(!new)>(s: State<V>, c: nat) {
    exists a: Choice<V> :: Enabled(s, c, a)
  }

  lemma CanContinue<V(!new)>(s: State<V>, c: nat, a: Choice<V>)
    requires Enabled(s, c, a)
    ensures CanStep(s, c)
  {
  }

  /** Poppers are the only threads ever left waiting, and only on an empty, open queue. */
  lemma OnlyAnEmptyQueueBlocks<V(!new)>(run: seq<State<V>>, i: nat, c: nat)
    requires IsRun(run) && i < |run| && c < |run[i].pcs| && !run[i].pcs[c].Idle?
    requires forall d: nat :: d < |run[i].pcs| && !run[i].pcs[d].Idle? ==> !CanStep(run[i], d)
    ensures run[i].pcs[c].PopWaiting? && run[i].buffer == [] && !run[i].closed
  {
    ReachableInv(run, i);
    var s := run[i];
    assert s.holder.None? by {
      if s.holder.Some? {
        HolderProceeds(s, s.holder.value);
      }
    }
    forall d: nat | d < |s.pcs| && !s.pcs[d].Idle? ensures s.pcs[d].PopWaiting? {
      assert s.holder != Some(d);
      if NeedsMutex(s.pcs[d]) {
        CanContinue(s, d, Continue);
      }
    }
    assert SomeoneWaits(s);
    assert ReadySet(s.pcs) == {};
  }

  lemma HolderProceeds<V(!new)>(s: State<V>, d: nat)
    requires Inv(s) && s.holder == Some(d)
    ensures d < |s.pcs| && !s.pcs[d].Idle? && CanStep(s, d)
  {
    assert InMutex(s.pcs[d]);
    if s.pcs[d].PushAdded? && SomeoneWaits(s) {
      var w :| 0 <= w < |s.pcs| && s.pcs[w].PopWaiting?;
      CanContinue(s, d, Wake(w));
    } else {
      CanContinue(s, d, Continue);
    }
  }
}
