/** What a call on the blocking queue does from its start to its return: it takes its effect
    before it ends, and is held up only by the mutex or, in Pop, by an empty open queue. */
module QueueCalls {
  import opened Wrappers
  import opened QueueProtocol

  datatype Call = Push | Pop | TryPop | Close

  /** The call a thread is in. */
  function CallOf<V>(pc: PC<V>): Option<Call> {
    match pc
    case Idle => None
    case PushStart(_) => Some(Push)
    case PushIn(_) => Some(Push)
    case PushAdded => Some(Push)
    case PushLeave => Some(Push)
    case TryStart => Some(TryPop)
    case TryIn => Some(TryPop)
    case TryLeave(_, _) => Some(TryPop)
    case CloseStart => Some(Close)
    case CloseIn => Some(Close)
    case CloseMarked => Some(Close)
    case CloseLeave => Some(Close)
    case _ => Some(Pop)
  }

  /** An upper bound on the steps a call still has to take itself, unless it has to wait. */
  function Ahead<V>(pc: PC<V>): nat {
    match pc
    case Idle => 0
    case PushStart(_) => 4
    case PushIn(_) => 3
    case PushAdded => 2
    case PushLeave => 1
    case PopStart => 4
    case PopCheck => 3
    case PopWaiting => 5
    case PopWoken => 4
    case PopTake => 2
    case PopLeave(_) => 1
    case TryStart => 3
    case TryIn => 2
    case TryLeave(_, _) => 1
    case CloseStart => 4
    case CloseIn => 3
    case CloseMarked => 2
    case CloseLeave => 1
  }

  predicate Leaving<V>(pc: PC<V>) {
    pc.PushLeave? || pc.PopLeave? || pc.TryLeave? || pc.CloseLeave?
  }

  ghost predicate SameQueue<V>(s: State<V>, t: State<V>) {
    t.buffer == s.buffer && t.closed == s.closed && t.accepted == s.accepted && t.delivered == s.delivered
  }

  /** An idle thread starts the call it chooses and touches nothing else. */
  lemma CallsStart<V>(s: State<V>, c: nat, a: Choice<V>)
    requires Enabled(s, c, a) && c < |s.pcs| && s.pcs[c].Idle?
    ensures match a
      case CallPush(v) => Next(s, c, a) == s.(pcs := s.pcs[c := PushStart(v)])
      case CallPop => Next(s, c, a) == s.(pcs := s.pcs[c := PopStart])
      case CallTryPop => Next(s, c, a) == s.(pcs := s.pcs[c := TryStart])
      case CallClose => Next(s, c, a) == s.(pcs := s.pcs[c := CloseStart])
      case _ => true
  {
  }

  /** Any number of threads can start, and an idle one can make any call. */
  lemma CanCall<V>(n: nat, s: State<V>, c: nat, v: V)
    ensures Init<V>(State([], false, None, seq(n, i => Idle), [], []))
    ensures c < |s.pcs| && s.pcs[c].Idle? ==>
      && Enabled(s, c, CallPush(v)) && Enabled(s, c, CallPop)
      && Enabled(s, c, CallTryPop) && Enabled(s, c, CallClose)
  {
  }

  /** A step leads on within the same call, nearer to its end or to waiting; only a call that is
      leaving ends. The calls of all others stay what they are. */
  lemma CallsGoOn<V>(s: State<V>, c: nat, a: Choice<V>)
    requires Enabled(s, c, a) && c < |s.pcs| && !s.pcs[c].Idle?
    ensures c < |s.pcs| == |Next(s, c, a).pcs|
    ensures var (p, q) := (s.pcs[c], Next(s, c, a).pcs[c]);
      if Leaving(p) then q.Idle?
      else CallOf(q) == CallOf(p) && (Ahead(q) < Ahead(p) || (p.PopCheck? && q.PopWaiting?))
    ensures forall d: nat :: d < |s.pcs| && d != c ==> CallOf(Next(s, c, a).pcs[d]) == CallOf(s.pcs[d])
  {
    hide Next, Ahead, CallOf;
    PcsEffect(s, c, a);
    OwnCall(s, c, a);
    WokenCall<V>();
  }

  lemma WokenCall<V>()
    ensures CallOf<V>(PopWaiting) == CallOf<V>(PopWoken)
  {
  }

  ghost predicate GoesOn<V>(p: PC<V>, q: PC<V>) {
    if Leaving(p) then q.Idle?
    else CallOf(q) == CallOf(p) && (Ahead(q) < Ahead(p) || (p.PopCheck? && q.PopWaiting?))
  }

  lemma OwnCall<V>(s: State<V>, c: nat, a: Choice<V>)
    requires Enabled(s, c, a) && c < |s.pcs| && !s.pcs[c].Idle?
    ensures c < |Next(s, c, a).pcs| && GoesOn(s.pcs[c], Next(s, c, a).pcs[c])
  {
    hide GoesOn, Next;
    if CallOf(s.pcs[c]) == Some(Push) {
      OwnPush(s, c, a);
    } else if CallOf(s.pcs[c]) == Some(Pop) {
      OwnPop(s, c, a);
    } else {
      OwnOther(s, c, a);
    }
  }

  lemma OwnPush<V>(s: State<V>, c: nat, a: Choice<V>)
    requires Enabled(s, c, a) && c < |s.pcs| && CallOf(s.pcs[c]) == Some(Push)
    ensures c < |Next(s, c, a).pcs| && GoesOn(s.pcs[c], Next(s, c, a).pcs[c])
  {
  }

  lemma OwnPop<V>(s: State<V>, c: nat, a: Choice<V>)
    requires Enabled(s, c, a) && c < |s.pcs| && CallOf(s.pcs[c]) == Some(Pop)
    ensures c < |Next(s, c, a).pcs| && GoesOn(s.pcs[c], Next(s, c, a).pcs[c])
  {
  }

  lemma OwnOther<V>(s: State<V>, c: nat, a: Choice<V>)
    requires Enabled(s, c, a) && c < |s.pcs|
    requires CallOf(s.pcs[c]) == Some(TryPop) || CallOf(s.pcs[c]) == Some(Close)
    ensures c < |Next(s, c, a).pcs| && GoesOn(s.pcs[c], Next(s, c, a).pcs[c])
  {
  }

  /** Push adds its item once, unless the queue is closed, and only then leaves. */
  lemma PushStep<V>(s: State<V>, c: nat, a: Choice<V>)
    requires Enabled(s, c, a) && c < |s.pcs| && CallOf(s.pcs[c]) == Some(Push)
    ensures c < |Next(s, c, a).pcs|
    ensures var t := Next(s, c, a); var (p, q) := (s.pcs[c], t.pcs[c]);
      if p.PushStart? then q == PushIn(p.v) && SameQueue(s, t)
      else if p.PushIn? && !s.closed then
        q.PushAdded? && t == s.(pcs := t.pcs, buffer := s.buffer + [p.v], accepted := s.accepted + [p.v])
      else SameQueue(s, t) && (q.PushLeave? || p.PushLeave?)
  {
  }

  /** Signalling wakes one waiting popper if there is one, and nobody else moves. */
  lemma SignalStep<V>(s: State<V>, c: nat, a: Choice<V>)
    requires Enabled(s, c, a) && c < |s.pcs| && s.pcs[c].PushAdded?
    ensures c < |s.pcs| == |Next(s, c, a).pcs|
    ensures if SomeoneWaits(s) then
              a.Wake? && IsWaiting(s, a.d) && a.d != c
              && Next(s, c, a).pcs == s.pcs[a.d := PopWoken][c := PushLeave]
            else Next(s, c, a).pcs == s.pcs[c := PushLeave]
  {
  }

  /** Closing, where it is not closed already, wakes every waiting popper. */
  lemma CloseStep<V>(s: State<V>, c: nat, a: Choice<V>)
    requires Inv(s) && Enabled(s, c, a) && c < |s.pcs| && CallOf(s.pcs[c]) == Some(Close)
    ensures c < |Next(s, c, a).pcs|
    ensures var t := Next(s, c, a); var (p, q) := (s.pcs[c], t.pcs[c]);
      && t.buffer == s.buffer && t.accepted == s.accepted && t.delivered == s.delivered
      && (p.CloseStart? ==> q.CloseIn? && t.closed == s.closed)
      && (!p.CloseStart? ==> t.closed)
      && (p.CloseMarked? ==> !SomeoneWaits(t))
  {
    hide MutexOk, FifoOk, WakeupsOk, ClosedOk;
    assert PlaceOk(s, s.pcs[c]);
  }

  /** Pop waits exactly for an empty open queue, looks again whenever it has been woken, and
      comes back with nothing from a closed queue and with the first item from an open one. */
  lemma PopStep<V>(s: State<V>, c: nat, a: Choice<V>)
    requires Inv(s) && Enabled(s, c, a) && c < |s.pcs| && CallOf(s.pcs[c]) == Some(Pop)
    ensures c < |Next(s, c, a).pcs|
    ensures var t := Next(s, c, a); var (p, q) := (s.pcs[c], t.pcs[c]);
      match p
      case PopCheck =>
        SameQueue(s, t) && if s.buffer == [] && !s.closed then q.PopWaiting? && t.holder.None? else q.PopTake?
      case PopTake =>
        if s.closed then q == PopLeave(None) && SameQueue(s, t)
        else |s.buffer| > 0 && q == PopLeave(Some(s.buffer[0])) && t == s.(pcs := t.pcs, buffer := s.buffer[1..])
      case PopLeave(result) =>
        q.Idle? && t.buffer == s.buffer && t.closed == s.closed && t.accepted == s.accepted
        && t.delivered == s.delivered + if result.Some? then [result.value] else []
      case _ => q.PopCheck? && SameQueue(s, t)
  {
    hide MutexOk, FifoOk, WakeupsOk, ClosedOk;
    assert PlaceOk(s, s.pcs[c]);
  }

  /** TryPop takes the first item if there is one, and tells an empty open queue apart. */
  lemma TryPopStep<V>(s: State<V>, c: nat, a: Choice<V>)
    requires Enabled(s, c, a) && c < |s.pcs| && CallOf(s.pcs[c]) == Some(TryPop)
    ensures c < |Next(s, c, a).pcs|
    ensures var t := Next(s, c, a); var (p, q) := (s.pcs[c], t.pcs[c]);
      match p
      case TryIn =>
        if s.buffer == [] then q == TryLeave(None, s.closed) && SameQueue(s, t)
        else q == TryLeave(Some(s.buffer[0]), true) && t == s.(pcs := t.pcs, buffer := s.buffer[1..])
      case TryLeave(result, _) =>
        q.Idle? && t.buffer == s.buffer && t.closed == s.closed && t.accepted == s.accepted
        && t.delivered == s.delivered + if result.Some? then [result.value] else []
      case _ => q.TryIn? && SameQueue(s, t)
  {
  }

  // ----- over a run --------------------------------------------------------

  ghost predicate PushPending<V>(pc: PC<V>, v: V) {
    pc == PushStart(v) || pc == PushIn(v)
  }

  /** The push of v by thread c takes effect in the step from s to t: v is appended, or the queue
      is closed. */
  ghost predicate PushDone<V>(s: State<V>, t: State<V>, c: nat, v: V) {
    && c < |s.pcs| && s.pcs[c] == PushIn(v) && c < |t.pcs|
    && if s.closed then SameQueue(s, t) && t.pcs[c].PushLeave?
       else t.accepted == s.accepted + [v] && t.buffer == s.buffer + [v] && t.pcs[c].PushAdded?
  }

  ghost predicate PushDoneBetween<V>(run: seq<State<V>>, i: nat, j: nat, c: nat, v: V) {
    exists k: nat :: i < k <= j && k < |run| && PushDone(run[k - 1], run[k], c, v)
  }

  lemma PushMoves<V(!new)>(s: State<V>, t: State<V>, c: nat, v: V)
    requires Follows(s, t) && c < |s.pcs| && PushPending(s.pcs[c], v)
    ensures c < |t.pcs| && (PushPending(t.pcs[c], v) || PushDone(s, t, c, v))
  {
    hide Next, Enabled;
    var d: nat, a :| Enabled(s, d, a) && t == Next(s, d, a);
    PcsEffect(s, d, a);
    if d == c {
      PushStep(s, c, a);
    }
  }

  /** In every run, a Push has not got to the queue yet, or has added its item or found the queue
      closed. */
  lemma {:induction false} PushTakesEffect<V(!new)>(run: seq<State<V>>, i: nat, j: nat, c: nat, v: V)
    requires IsRun(run) && i <= j < |run| && c < |run[i].pcs| && PushPending(run[i].pcs[c], v)
    ensures c < |run[j].pcs| && (PushPending(run[j].pcs[c], v) || PushDoneBetween(run, i, j, c, v))
    decreases j
  {
    hide Follows, PushDone, PushPending, Init;
    if i < j {
      PushTakesEffect(run, i, j - 1, c, v);
      assert Follows(run[j - 1], run[j]);
      SameThreads(run[j - 1], run[j]);
      if PushPending(run[j - 1].pcs[c], v) {
        PushMoves(run[j - 1], run[j], c, v);
      }
    }
  }

  lemma SameThreads<V(!new)>(s: State<V>, t: State<V>)
    requires Follows(s, t)
    ensures |t.pcs| == |s.pcs|
  {
    hide Next, Enabled;
    var d: nat, a :| Enabled(s, d, a) && t == Next(s, d, a);
    PcsEffect(s, d, a);
  }

  // ----- who waits for whom ------------------------------------------------

  /** A thread that cannot go on waits in Pop for an item or the closing, or waits for the mutex
      and the holder can go on. */
  lemma HeldUpByHolder<V(!new)>(run: seq<State<V>>, i: nat, c: nat)
    requires IsRun(run) && i < |run| && c < |run[i].pcs| && !CanStep(run[i], c)
    ensures run[i].pcs[c].PopWaiting? ||
      (NeedsMutex(run[i].pcs[c]) && run[i].holder.Some? && run[i].holder.value != c &&
       CanStep(run[i], run[i].holder.value))
  {
    ReachableInv(run, i);
    StuckWaits(run[i], c);
  }

  lemma StuckWaits<V(!new)>(s: State<V>, c: nat)
    requires Inv(s) && c < |s.pcs| && !CanStep(s, c)
    ensures s.pcs[c].PopWaiting? ||
      (NeedsMutex(s.pcs[c]) && s.holder.Some? && s.holder.value != c && CanStep(s, s.holder.value))
  {
    hide FifoOk, WakeupsOk, ClosedOk, PlacesOk;
    if !s.pcs[c].PopWaiting? {
      assert !Enabled(s, c, CallPop) && !Enabled(s, c, Continue);
      assert s.holder != Some(c) by {
        if s.holder == Some(c) {
          HolderProceeds(s, c);
        }
      }
      assert !InMutex(s.pcs[c]);
      HolderProceeds(s, s.holder.value);
    }
  }
}
