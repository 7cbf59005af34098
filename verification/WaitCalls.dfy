/** What becomes of a registered channel and of the calls of Register and Trigger: the Trigger
    that takes a channel out delivers its argument to it, whatever happens in between. */
module WaitCalls {
  import opened Wrappers
  import opened WaitProtocol

  // ----- where a channel can be --------------------------------------------

  /** In the table, with nothing sent. */
  ghost predicate Stored<V>(s: State<V>, ch: nat) {
    Shaped(s) && ch < |s.chans| && Lookup(s, s.chans[ch].key) == Some(ch) && Untouched(s, ch)
  }

  /** Taken out by the Trigger of thread d, which is about to send x or has just sent it. */
  ghost predicate OnItsWay<V>(s: State<V>, ch: nat, d: nat, x: V) {
    ch < |s.chans| && d < |s.pcs| &&
    match s.pcs[d]
    case TrigLeave(id, y, found) => id == s.chans[ch].key && y == x && found == Some(ch) && Untouched(s, ch)
    case TrigSend(id, k, y) => id == s.chans[ch].key && y == x && k == ch && Untouched(s, ch)
    case TrigClose(id, k, y) =>
      id == s.chans[ch].key && y == x && k == ch && !s.chans[ch].closed && s.chans[ch].sent == [x]
    case _ => false
  }

  /** Closed, x having been the one value sent. */
  ghost predicate Delivered<V>(s: State<V>, ch: nat, x: V) {
    ch < |s.chans| && s.chans[ch].closed && s.chans[ch].sent == [x]
  }

  /** The step by which the Trigger(_, x) of thread d takes channel ch out of the table. */
  ghost predicate Takes<V>(s: State<V>, d: nat, ch: nat, x: V) {
    d < |s.pcs| && ch < |s.chans| && s.pcs[d] == TrigFound(s.chans[ch].key, x, Some(ch))
  }

  lemma StagesApart<V>(s: State<V>, ch: nat, d: nat, x: V, e: nat, y: V)
    requires Inv(s)
    ensures !(Stored(s, ch) && OnItsWay(s, ch, d, x))
    ensures !(Stored(s, ch) && Delivered(s, ch, x))
    ensures !(OnItsWay(s, ch, d, x) && Delivered(s, ch, y))
    ensures OnItsWay(s, ch, d, x) && OnItsWay(s, ch, e, y) ==> d == e && x == y
    ensures Delivered(s, ch, x) && Delivered(s, ch, y) ==> x == y
  {
    hide LocksOk, TableOk, FlatOk, ChansOk;
    if OnItsWay(s, ch, d, x) {
      assert PcOk(s, s.pcs[d]) && Owned(s.pcs[d]) == Some(ch);
    }
    if Delivered(s, ch, x) && Delivered(s, ch, y) {
      assert s.chans[ch].sent[0] == x;
    }
  }

  // ----- one step ----------------------------------------------------------

  /** A thread's step leaves the places of all others. */
  lemma OthersStay<V>(s: State<V>, c: nat, a: Choice<V>)
    requires Enabled(s, c, a)
    ensures Shaped(Next(s, c, a)) && c < |s.pcs| == |Next(s, c, a).pcs|
    ensures forall d: nat :: d < |s.pcs| && d != c ==> Next(s, c, a).pcs[d] == s.pcs[d]
  {
  }

  /** A stored channel stays stored until the step of a Trigger for its identifier takes it. */
  lemma StoredStep<V>(s: State<V>, c: nat, a: Choice<V>, ch: nat)
    requires Inv(s) && Enabled(s, c, a) && Stored(s, ch)
    ensures var t := Next(s, c, a);
      if c < |s.pcs| && s.pcs[c].TrigFound? && s.pcs[c].id == s.chans[ch].key then
        Takes(s, c, ch, s.pcs[c].x) && OnItsWay(t, ch, c, s.pcs[c].x)
      else Stored(t, ch)
  {
    hide LocksOk, TableOk, FlatOk, ChansOk, OwnersOk, Next, Untouched;
    assert PcOk(s, s.pcs[c]);
    UntouchedStays(s, c, a, ch);
    TableEffect(s, c, a);
    if s.pcs[c].TrigFound? && s.pcs[c].id == s.chans[ch].key {
      TakenOut(s, c, a);
    }
  }

  lemma TakenOut<V>(s: State<V>, c: nat, a: Choice<V>)
    requires Enabled(s, c, a) && c < |s.pcs| && s.pcs[c].TrigFound?
    ensures c < |Next(s, c, a).pcs|
    ensures Next(s, c, a).pcs[c] == TrigLeave(s.pcs[c].id, s.pcs[c].x, s.pcs[c].found)
  {
  }

  /** A channel on its way stays with its Trigger until that has closed it. */
  lemma OnItsWayStep<V>(s: State<V>, c: nat, a: Choice<V>, ch: nat, d: nat, x: V)
    requires Inv(s) && Enabled(s, c, a) && OnItsWay(s, ch, d, x)
    ensures OnItsWay(Next(s, c, a), ch, d, x) || (c == d && s.pcs[d].TrigClose? && Delivered(Next(s, c, a), ch, x))
  {
    hide LocksOk, TableOk, FlatOk, ChansOk, Next, Enabled;
    OthersStay(s, c, a);
    assert PcOk(s, s.pcs[d]);
    if c == d {
      OwnerStep(s, c, a, ch, x);
    } else {
      assert Owned(s.pcs[c]) != Some(ch);
      ChansEffect(s, c, a);
    }
  }

  lemma OwnerStep<V>(s: State<V>, d: nat, a: Choice<V>, ch: nat, x: V)
    requires Enabled(s, d, a) && OnItsWay(s, ch, d, x)
    ensures OnItsWay(Next(s, d, a), ch, d, x) || (s.pcs[d].TrigClose? && Delivered(Next(s, d, a), ch, x))
  {
  }

  lemma DeliveredStep<V>(s: State<V>, c: nat, a: Choice<V>, ch: nat, x: V)
    requires Inv(s) && Enabled(s, c, a) && Delivered(s, ch, x)
    ensures Delivered(Next(s, c, a), ch, x)
  {
    hide LocksOk, TableOk, FlatOk, OwnersOk;
    assert PcOk(s, s.pcs[c]);
  }

  /** A buffer is filled by the one send and emptied only by a receive, which gets the value sent. */
  lemma BufferStep<V>(s: State<V>, c: nat, a: Choice<V>, ch: nat)
    requires Inv(s) && Enabled(s, c, a) && ch < |s.chans|
    ensures c < |s.pcs| && ch < |Next(s, c, a).chans|
    ensures var (p, was, now) := (s.pcs[c], s.chans[ch].buf, Next(s, c, a).chans[ch].buf);
      if p.Idle? && a == Receive(ch) then was == s.chans[ch].sent && |was| == 1 && now == []
      else if p.TrigSend? && p.ch == ch then was == [] && now == [p.x]
      else now == was
  {
    hide LocksOk, TableOk, FlatOk, OwnersOk;
    assert PcOk(s, s.pcs[c]);
  }

  // ----- the calls ---------------------------------------------------------

  predicate InTrigger<V>(pc: PC<V>) {
    pc.TrigLock? || pc.TrigIn? || pc.TrigFound? || pc.TrigLeave? || pc.TrigSend? || pc.TrigClose?
  }

  predicate InRegister<V>(pc: PC<V>) {
    pc.RegLock? || pc.RegIn? || pc.RegLeave?
  }

  /** The channel a Trigger has found, once it has looked. */
  function Found<V>(pc: PC<V>): Option<nat> {
    match pc
    case TrigFound(_, _, found) => found
    case TrigLeave(_, _, found) => found
    case TrigSend(_, ch, _) => Some(ch)
    case TrigClose(_, ch, _) => Some(ch)
    case _ => None
  }

  predicate HasLooked<V>(pc: PC<V>) {
    pc.TrigFound? || pc.TrigLeave? || pc.TrigSend? || pc.TrigClose?
  }

  /** An upper bound on the steps a call still has to take itself. */
  function Ahead<V>(pc: PC<V>): nat {
    match pc
    case Idle => 0
    case RegLock(_, _) => 3
    case RegIn(_, _) => 2
    case RegLeave(_, _) => 1
    case TrigLock(_, _) => 6
    case TrigIn(_, _) => 5
    case TrigFound(_, _, _) => 4
    case TrigLeave(_, _, _) => 3
    case TrigSend(_, _, _) => 2
    case TrigClose(_, _, _) => 1
  }

  /** An idle thread starts the call it chooses; Register brings a new channel of its own. */
  lemma CallsStart<V>(s: State<V>, c: nat, a: Choice<V>)
    requires Enabled(s, c, a) && c < |s.pcs| && s.pcs[c].Idle?
    ensures match a
      case CallRegister(id) => Next(s, c, a) ==
        s.(pcs := s.pcs[c := RegLock(id, |s.chans|)], chans := s.chans + [Chan(id, [], false, [])])
      case CallTrigger(id, x) => Next(s, c, a) == s.(pcs := s.pcs[c := TrigLock(id, x)])
      case Receive(ch) => Next(s, c, a).pcs == s.pcs && Next(s, c, a).shards == s.shards
      case Continue => true
  {
  }

  /** Any number of threads can start, and an idle one can call Register or Trigger of any
      identifier, or receive what a channel holds. */
  lemma CanCall<V>(n: nat, s: State<V>, c: nat, id: Id, x: V, ch: nat)
    ensures Init<V>(State(seq(SHARDS, i => map[]), seq(SHARDS, i => None), [], seq(n, i => Idle), map[], 0, false))
    ensures Shaped(s) && c < |s.pcs| && s.pcs[c].Idle? ==>
      Enabled(s, c, CallRegister(id)) && Enabled(s, c, CallTrigger(id, x))
    ensures Shaped(s) && c < |s.pcs| && s.pcs[c].Idle? && ch < |s.chans| && s.chans[ch].buf != [] ==>
      Enabled(s, c, Receive(ch))
  {
  }

  /** A step of Trigger(id, x) leads to a later place of the same call, with the channel it has
      found once it has looked; or it ends the call, having found nothing or with that channel
      closed after x. */
  lemma TriggerStep<V>(s: State<V>, c: nat, a: Choice<V>)
    requires Inv(s) && Enabled(s, c, a) && c < |s.pcs| && InTrigger(s.pcs[c])
    ensures Shaped(s) && c < |Next(s, c, a).pcs|
    ensures var t := Next(s, c, a); var (p, q) := (s.pcs[c], t.pcs[c]);
      || (&& InTrigger(q) && q.id == p.id && q.x == p.x && Ahead(q) < Ahead(p)
          && (HasLooked(p) ==> HasLooked(q) && Found(q) == Found(p))
          && (!HasLooked(p) && HasLooked(q) ==> Found(q) == Lookup(s, p.id)))
      || (q == Idle && HasLooked(p) &&
          if Found(p).Some? then Delivered(t, Found(p).value, p.x) else p.TrigLeave?)
  {
    hide LocksOk, TableOk, FlatOk, OwnersOk, ChansOk;
    assert PcOk(s, s.pcs[c]);
  }

  /** A step of Register(id) leads to a later place of the same call, or ends it. Its own channel
      is stored under the identifier exactly if there was none, and then returned while stored. */
  lemma RegisterStep<V>(s: State<V>, c: nat, a: Choice<V>)
    requires Inv(s) && Enabled(s, c, a) && c < |s.pcs| && InRegister(s.pcs[c])
    ensures c < |Next(s, c, a).pcs|
    ensures var t := Next(s, c, a); var (p, q) := (s.pcs[c], t.pcs[c]);
      match p
      case RegLock(id, ch) => q == RegIn(id, ch)
      case RegIn(id, ch) =>
        if id in s.flat then q == RegLeave(id, None) && t.panics == s.panics + 1
        else q == RegLeave(id, Some(ch)) && t.panics == s.panics && Stored(t, ch) && t.chans[ch].key == id
      case RegLeave(id, result) =>
        && q == Idle
        && (result.Some? ==> result.value < |t.chans| && t.chans[result.value].key == id && Stored(t, result.value))
      case _ => true
  {
    hide LocksOk, OwnersOk, ChansOk;
    assert PcOk(s, s.pcs[c]);
    if s.pcs[c].RegLeave? {
      EntryFacts(s, s.pcs[c].id);
    }
  }

  // ----- over a run --------------------------------------------------------

  ghost predicate WasTaken<V>(run: seq<State<V>>, m: nat, i: nat, d: nat, ch: nat, x: V) {
    exists k :: m <= k < i && k + 1 < |run| && Takes(run[k], d, ch, x) && OnItsWay(run[k + 1], ch, d, x)
  }

  /** Thread d took ch out for x between m and i, and delivers x to it or has done so. */
  ghost predicate Served<V>(run: seq<State<V>>, m: nat, i: nat, ch: nat, d: nat, x: V)
    requires i < |run|
  {
    WasTaken(run, m, i, d, ch, x) && (OnItsWay(run[i], ch, d, x) || Delivered(run[i], ch, x))
  }

  lemma ServedNext<V(!new)>(run: seq<State<V>>, m: nat, i: nat, ch: nat, d: nat, x: V)
    requires IsRun(run) && m < i < |run| && Served(run, m, i - 1, ch, d, x)
    ensures Served(run, m, i, ch, d, x)
  {
    hide Next, Enabled, Inv, OnItsWay, Delivered, Takes;
    ReachableInv(run, i - 1);
    assert Follows(run[i - 1], run[i]);
    var c: nat, a :| Enabled(run[i - 1], c, a) && run[i] == Next(run[i - 1], c, a);
    if OnItsWay(run[i - 1], ch, d, x) {
      OnItsWayStep(run[i - 1], c, a, ch, d, x);
    } else {
      DeliveredStep(run[i - 1], c, a, ch, x);
    }
  }

  lemma StoredNext<V(!new)>(run: seq<State<V>>, m: nat, i: nat, ch: nat)
    requires IsRun(run) && m < i < |run| && Stored(run[i - 1], ch)
    ensures Stored(run[i], ch) || exists d: nat, x :: Served(run, m, i, ch, d, x)
  {
    hide Next, Enabled, Inv, OnItsWay, Delivered, Takes;
    ReachableInv(run, i - 1);
    assert Follows(run[i - 1], run[i]);
    var c: nat, a :| Enabled(run[i - 1], c, a) && run[i] == Next(run[i - 1], c, a);
    StoredStep(run[i - 1], c, a, ch);
    if !Stored(run[i], ch) {
      assert Served(run, m, i, ch, c, run[i - 1].pcs[c].x);
    }
  }

  /** A channel that has been stored is still stored and untouched, or has been taken out by a
      Trigger that is about to deliver its argument or has delivered it and closed the channel. */
  lemma {:induction false} StoredIsServed<V(!new)>(run: seq<State<V>>, m: nat, i: nat, ch: nat)
    requires IsRun(run) && m <= i < |run| && Stored(run[m], ch)
    ensures Stored(run[i], ch) || exists d: nat, x :: Served(run, m, i, ch, d, x)
    decreases i
  {
    hide Stored, Served, Inv, IsRun;
    if m < i {
      StoredIsServed(run, m, i - 1, ch);
      if Stored(run[i - 1], ch) {
        StoredNext(run, m, i, ch);
      } else {
        var d: nat, x :| Served(run, m, i - 1, ch, d, x);
        ServedNext(run, m, i, ch, d, x);
      }
    }
  }

  ghost predicate Untaken<V>(s: State<V>, ch: nat) {
    ch < |s.chans| ==>
      && Untouched(s, ch)
      && forall d: nat :: d < |s.pcs| && InTrigger(s.pcs[d]) ==> Owned(s.pcs[d]) != Some(ch)
  }

  lemma UntakenStep<V>(s: State<V>, c: nat, a: Choice<V>, ch: nat)
    requires Inv(s) && Enabled(s, c, a) && Untaken(s, ch) && !Stored(s, ch)
    ensures Untaken(Next(s, c, a), ch)
  {
    hide LocksOk, FlatOk, ChansOk, OwnersOk;
    OthersStay(s, c, a);
    assert PcOk(s, s.pcs[c]);
    if s.pcs[c].TrigFound? {
      EntryFacts(s, s.pcs[c].id);
    }
  }

  /** A channel that was never stored, its registration having been refused or being under way,
      is never sent on nor closed. */
  lemma {:induction false} UnstoredIsUntouched<V(!new)>(run: seq<State<V>>, i: nat, ch: nat)
    requires IsRun(run) && i < |run|
    requires forall m: nat :: m <= i ==> !Stored(run[m], ch)
    ensures Untaken(run[i], ch)
    decreases i
  {
    hide Next, Enabled, Inv, Stored;
    if i > 0 {
      UnstoredIsUntouched(run, i - 1, ch);
      ReachableInv(run, i - 1);
      assert Follows(run[i - 1], run[i]);
      var c: nat, a :| Enabled(run[i - 1], c, a) && run[i] == Next(run[i - 1], c, a);
      UntakenStep(run[i - 1], c, a, ch);
    }
  }

  ghost predicate TriggerGoesOn<V>(run: seq<State<V>>, i: nat, j: nat, c: nat, id: Id, x: V, ch: nat) {
    forall m :: i <= m < j && m < |run| ==>
      && c < |run[m].pcs| && InTrigger(run[m].pcs[c]) && run[m].pcs[c].id == id && run[m].pcs[c].x == x
      && Found(run[m].pcs[c]) == Some(ch)
  }

  lemma TriggerMoves<V(!new)>(s: State<V>, t: State<V>, c: nat)
    requires Inv(s) && Follows(s, t) && c < |s.pcs| && Found(s.pcs[c]).Some?
    ensures c < |t.pcs|
    ensures var (p, q) := (s.pcs[c], t.pcs[c]); var ch := Found(p).value;
      || (InTrigger(q) && q.id == p.id && q.x == p.x && Found(q) == Some(ch))
      || (q == Idle && Delivered(t, ch, p.x))
  {
    hide Next, Enabled, Inv, Delivered;
    var d: nat, a :| Enabled(s, d, a) && t == Next(s, d, a);
    OthersStay(s, d, a);
    if d == c {
      TriggerStep(s, c, a);
    }
  }

  /** In every run, a Trigger that has found a channel is still under way, or has ended with its
      argument delivered to that channel. */
  lemma {:induction false} TriggerEndsDelivered<V(!new)>(run: seq<State<V>>, i: nat, j: nat, c: nat)
    requires IsRun(run) && i <= j < |run| && c < |run[i].pcs| && Found(run[i].pcs[c]).Some?
    ensures var p := run[i].pcs[c]; var ch := Found(p).value;
      || TriggerGoesOn(run, i, j + 1, c, p.id, p.x, ch)
      || exists m :: i < m <= j && TriggerGoesOn(run, i, m, c, p.id, p.x, ch) && Delivered(run[m], ch, p.x)
    decreases j
  {
    hide Next, Enabled, Inv, Init, Delivered, Follows;
    var p := run[i].pcs[c];
    if i < j {
      TriggerEndsDelivered(run, i, j - 1, c);
      if TriggerGoesOn(run, i, j, c, p.id, p.x, Found(p).value) {
        ReachableInv(run, j - 1);
        assert Follows(run[j - 1], run[j]);
        TriggerMoves(run[j - 1], run[j], c);
      }
    }
  }

  // ----- who waits for whom ------------------------------------------------

  ghost predicate CanStep<V(!new)>(s: State<V>, c: nat) {
    exists a: Choice<V> :: Enabled(s, c, a)
  }

  /** A thread that cannot go on waits for the mutex of its shard, and its holder can go on. */
  lemma HeldUpByHolder<V(!new)>(run: seq<State<V>>, i: nat, c: nat) returns (d: nat)
    requires IsRun(run) && i < |run| && c < |run[i].pcs| && !CanStep(run[i], c)
    ensures d < |run[i].pcs| && d != c && CanStep(run[i], d)
    ensures (run[i].pcs[c].RegLock? || run[i].pcs[c].TrigLock?)
    ensures Inside(run[i].pcs[d]) == Some(run[i].pcs[c].id % SHARDS)
  {
    ReachableInv(run, i);
    d := Holder(run[i], c);
  }

  lemma Holder<V(!new)>(s: State<V>, c: nat) returns (d: nat)
    requires Inv(s) && c < |s.pcs| && !CanStep(s, c)
    ensures d < |s.pcs| && d != c && CanStep(s, d)
    ensures (s.pcs[c].RegLock? || s.pcs[c].TrigLock?) && Inside(s.pcs[d]) == Some(s.pcs[c].id % SHARDS)
  {
    hide Next, TableOk, FlatOk, ChansOk, OwnersOk;
    var p := s.pcs[c];
    assert PcOk(s, p);
    assert !Enabled(s, c, Continue) && !Enabled(s, c, CallRegister(0));
    var j := p.id % SHARDS;
    assert s.locks[j].Some?;
    d := s.locks[j].value;
    assert s.locks[j] == Some(d);
    assert Enabled(s, d, Continue);
  }

  // ----- the calls run alone -----------------------------------------------

  /** t is where thread c gets to from s by n steps of its call, nobody else moving. */
  ghost predicate Alone<V>(s: State<V>, c: nat, n: nat, t: State<V>)
    decreases n
  {
    if n == 0 then t == s else Enabled(s, c, Continue) && Alone(Next(s, c, Continue), c, n - 1, t)
  }

  lemma AloneThree<V>(s: State<V>, c: nat, s1: State<V>, s2: State<V>, s3: State<V>, n: nat, t: State<V>)
    requires Enabled(s, c, Continue) && s1 == Next(s, c, Continue)
    requires Enabled(s1, c, Continue) && s2 == Next(s1, c, Continue)
    requires Enabled(s2, c, Continue) && s3 == Next(s2, c, Continue)
    requires Alone(s3, c, n, t)
    ensures Alone(s, c, n + 3, t)
  {
    hide Enabled, Next;
    assert Alone(s2, c, n + 1, t);
    assert Alone(s1, c, n + 2, t);
  }

  lemma AloneNone<V>(s: State<V>, c: nat)
    ensures Alone(s, c, 0, s)
  {
  }

  /** From the start of a Trigger, through its look and the removal, to the unlocking. */
  lemma SoloTakeOut<V>(s: State<V>, c: nat, n: nat, t: State<V>)
    requires Shaped(s) && c < |s.pcs| && s.pcs[c].TrigLock? && s.locks[s.pcs[c].id % SHARDS].None?
    requires var (id, x) := (s.pcs[c].id, s.pcs[c].x);
      Alone(Goto(SetLock(Drop(s, id), id, Some(c)), c, TrigLeave(id, x, Lookup(s, id))), c, n, t)
    ensures Alone(s, c, n + 3, t)
  {
    hide Alone;
    var id, x := s.pcs[c].id, s.pcs[c].x;
    var s1 := Next(s, c, Continue);
    var s2 := Next(s1, c, Continue);
    var s3 := Next(s2, c, Continue);
    assert s1.pcs[c] == TrigIn(id, x) && s2.pcs[c] == TrigFound(id, x, Lookup(s, id));
    assert s3.pcs == s.pcs[c := TrigLeave(id, x, Lookup(s, id))];
    assert s3 == Goto(SetLock(Drop(s, id), id, Some(c)), c, TrigLeave(id, x, Lookup(s, id)));
    AloneThree(s, c, s1, s2, s3, n, t);
  }

  /** From the unlocking to the end. */
  lemma SoloDeliver<V>(s: State<V>, c: nat, ch: nat) returns (t: State<V>)
    requires Shaped(s) && c < |s.pcs| && s.pcs[c].TrigLeave? && s.pcs[c].found == Some(ch)
    requires ch < |s.chans| && s.chans[ch] == Chan(s.pcs[c].id, [], false, [])
    ensures var (id, x) := (s.pcs[c].id, s.pcs[c].x);
      t == Goto(SetLock(s, id, None), c, Idle).(chans := s.chans[ch := Chan(id, [x], true, [x])])
    ensures Alone(s, c, 3, t)
  {
    hide Alone;
    var id, x := s.pcs[c].id, s.pcs[c].x;
    var s1 := Next(s, c, Continue);
    var s2 := Next(s1, c, Continue);
    t := Next(s2, c, Continue);
    assert s1.pcs[c] == TrigSend(id, ch, x) && s2.pcs[c] == TrigClose(id, ch, x);
    assert [] + [x] == [x];
    assert s2.chans == s.chans[ch := Chan(id, [x], false, [x])];
    assert t.pcs == s.pcs[c := Idle];
    AloneNone(t, c);
    AloneThree(s, c, s1, s2, t, 0, t);
  }

  /** Run alone, a Trigger that finds a channel removes the entry, sends and closes, as the
      object's does, and changes nothing else. */
  lemma SoloTrigger<V>(s: State<V>, c: nat, ch: nat) returns (t: State<V>)
    requires Inv(s) && c < |s.pcs| && s.pcs[c].TrigLock?
    requires s.locks[s.pcs[c].id % SHARDS].None? && Lookup(s, s.pcs[c].id) == Some(ch)
    ensures Alone(s, c, 6, t)
    ensures var (id, x) := (s.pcs[c].id, s.pcs[c].x);
      ch < |s.chans| && t == Goto(Drop(s, id), c, Idle).(chans := s.chans[ch := Chan(id, [x], true, [x])])
  {
    hide LocksOk, FlatOk, OwnersOk, ChansOk, PcsOk, Next, Enabled, Alone;
    var id, x := s.pcs[c].id, s.pcs[c].x;
    EntryFacts(s, id);
    var s3 := Goto(SetLock(Drop(s, id), id, Some(c)), c, TrigLeave(id, x, Some(ch)));
    t := SoloDeliver(s3, c, ch);
    SoloTakeOut(s, c, 3, t);
    assert t.pcs == s.pcs[c := Idle];
    assert s.locks[id % SHARDS := Some(c)][id % SHARDS := None] == s.locks;
  }

  /** Run alone, a Trigger that finds nothing changes nothing. */
  lemma SoloTriggerNothing<V>(s: State<V>, c: nat)
    requires Inv(s) && c < |s.pcs| && s.pcs[c].TrigLock?
    requires s.locks[s.pcs[c].id % SHARDS].None? && Lookup(s, s.pcs[c].id).None?
    ensures Alone(s, c, 4, Goto(s, c, Idle))
  {
    hide LocksOk, OwnersOk, ChansOk, PcsOk, TableOk;
    var id, x := s.pcs[c].id, s.pcs[c].x;
    var s3 := Goto(SetLock(Drop(s, id), id, Some(c)), c, TrigLeave(id, x, None));
    var t := Goto(s, c, Idle);
    assert s.shards[id % SHARDS] - {id} == s.shards[id % SHARDS];
    assert s.flat - {id} == s.flat;
    assert Drop(s, id) == s;
    assert s.locks[id % SHARDS := Some(c)][id % SHARDS := None] == s.locks;
    assert Next(s3, c, Continue).pcs == t.pcs;
    assert Next(s3, c, Continue) == t;
    assert Alone(t, c, 0, t) && Alone(s3, c, 1, t);
    SoloTakeOut(s, c, 1, t);
  }

  /** Run alone, a Register stores its own channel under a new identifier and panics on one that
      is registered, as the object's does. */
  lemma SoloRegister<V>(s: State<V>, c: nat)
    requires Inv(s) && c < |s.pcs| && s.pcs[c].RegLock? && s.locks[s.pcs[c].id % SHARDS].None?
    ensures Alone(s, c, 3, Goto(Store(s, s.pcs[c].id, s.pcs[c].ch), c, Idle))
    ensures var (id, ch, t) := (s.pcs[c].id, s.pcs[c].ch, Store(s, s.pcs[c].id, s.pcs[c].ch));
      && t.chans == s.chans
      && (id in s.flat ==> t.flat == s.flat && t.shards == s.shards && t.panics == s.panics + 1)
      && (id !in s.flat ==> t.flat == s.flat[id := ch] && t.panics == s.panics && Lookup(t, id) == Some(ch))
  {
    hide LocksOk, OwnersOk, ChansOk, PcsOk, TableOk, Alone;
    var id, ch := s.pcs[c].id, s.pcs[c].ch;
    var t := Goto(Store(s, id, ch), c, Idle);
    var s1 := Next(s, c, Continue);
    var s2 := Next(s1, c, Continue);
    var s3 := Next(s2, c, Continue);
    assert s1.pcs[c] == RegIn(id, ch) && s2.pcs[c].RegLeave?;
    assert s3.pcs == t.pcs && s3.locks == t.locks;
    assert s3 == t;
    AloneNone(t, c);
    AloneThree(s, c, s1, s2, s3, 0, t);
  }
}
