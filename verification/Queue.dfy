/** The queue as an object, and its critical sections as steps of QueueProtocol. */
module QueueObject {
  import opened Wrappers
  import opened QueueProtocol

  /** What the mutex protects. */
  datatype Content<V> = Content(buffer: seq<V>, closed: bool)

  function Pushed<V>(q: Content<V>, v: V): Content<V> {
    if q.closed then q else q.(buffer := q.buffer + [v])
  }

  function Shut<V>(q: Content<V>): Content<V> {
    q.(closed := true)
  }

  function First<V>(q: Content<V>): Option<V> {
    if q.buffer == [] then None else Some(q.buffer[0])
  }

  function Rest<V>(q: Content<V>): Content<V> {
    if q.buffer == [] then q else q.(buffer := q.buffer[1..])
  }

  /** What other goroutines do while a popper waits. */
  datatype Op<V> = OpPush(v: V) | OpTake | OpClose

  function Applied<V>(q: Content<V>, op: Op<V>): Content<V> {
    match op
    case OpPush(v) => Pushed(q, v)
    case OpTake => Rest(q)
    case OpClose => Shut(q)
  }

  function AppliedAll<V>(q: Content<V>, ops: seq<Op<V>>): Content<V>
    decreases |ops|
  {
    if |ops| == 0 then q else AppliedAll(Applied(q, ops[0]), ops[1..])
  }

  predicate Blocks<V>(q: Content<V>) {
    q.buffer == [] && !q.closed
  }

  /** The content a popper finds when its waiting ends, waits[i] being what happens during
      its i-th wait; or the content after all of them if it still blocks. */
  function Awaited<V>(q: Content<V>, waits: seq<seq<Op<V>>>): Content<V>
    decreases |waits|
  {
    if Blocks(q) && |waits| > 0 then Awaited(AppliedAll(q, waits[0]), waits[1..]) else q
  }

  /** Other goroutines' operations take effect one after the other. */
  lemma {:induction false} OpsInOrder<V>(q: Content<V>, ops: seq<Op<V>>, op: Op<V>)
    ensures AppliedAll(q, ops + [op]) == Applied(AppliedAll(q, ops), op)
    decreases |ops|
  {
    if |ops| == 0 {
      assert ([] + [op])[0] == op && ([] + [op])[1..] == [];
    } else {
      OpsInOrder(Applied(q, ops[0]), ops[1..], op);
      assert (ops + [op])[1..] == ops[1..] + [op];
    }
  }

  ghost predicate WaitedOnce<V>(before: Content<V>, ops: seq<Op<V>>, after: Content<V>) {
    Blocks(before) && after == AppliedAll(before, ops)
  }

  /** A popper waits again and again while it finds the queue empty and open, and no longer. */
  lemma {:induction false} AwaitedExactly<V>(q: Content<V>, waits: seq<seq<Op<V>>>) returns (found: seq<Content<V>>)
    ensures 1 <= |found| <= |waits| + 1 && found[0] == q
    ensures forall i, j :: 0 <= i < j < |found| && j == i + 1 ==>
      WaitedOnce(found[i], waits[i], found[j])
    ensures Awaited(q, waits) == found[|found| - 1]
    ensures !Blocks(Awaited(q, waits)) || |found| == |waits| + 1
    decreases |waits|
  {
    hide AppliedAll;
    if Blocks(q) && |waits| > 0 {
      var rest := AwaitedExactly(AppliedAll(q, waits[0]), waits[1..]);
      found := [q] + rest;
      forall i, j | 0 <= i < j < |found| && j == i + 1
        ensures WaitedOnce(found[i], waits[i], found[j])
      {
        assert found[j] == rest[j - 1];
        if i > 0 {
          assert WaitedOnce(rest[i - 1], waits[1..][i - 1], rest[j - 1]);
        }
      }
    } else {
      found := [q];
    }
  }

  class Queue<V> {
    var buffer: seq<V>
    var closed: bool

    function Q(): Content<V>
      reads this
    {
      Content(buffer, closed)
    }

    constructor ()
      ensures Q() == Content([], false)
    {
      buffer, closed := [], false;
    }

    method Push(v: V)
      modifies this
      ensures Q() == Pushed(old(Q()), v)
    {
      if !closed {
        buffer := buffer + [v];
      }
    }

    method Close()
      modifies this
      ensures Q() == Shut(old(Q()))
    {
      if !closed {
        closed := true;
      }
    }

    /** Never blocks; ok is false exactly for an empty open queue. */
    method TryPop() returns (v: Option<V>, ok: bool)
      modifies this
      ensures v == First(old(Q())) && Q() == Rest(old(Q()))
      ensures ok == !Blocks(old(Q()))
    {
      v, ok := None, false;
      if |buffer| > 0 {
        v := Some(buffer[0]);
        buffer := buffer[1..];
        ok := true;
      } else if closed {
        ok := true;
      }
    }

    method WhileWaiting(ops: seq<Op<V>>)
      modifies this
      ensures Q() == AppliedAll(old(Q()), ops)
    {
      var i := 0;
      while i < |ops|
        invariant 0 <= i <= |ops|
        invariant AppliedAll(Q(), ops[i..]) == AppliedAll(old(Q()), ops)
      {
        match ops[i] {
          case OpPush(v) => Push(v);
          case OpTake => var _, _ := TryPop();
          case OpClose => Close();
        }
        assert ops[i..][1..] == ops[i + 1..];
        i := i + 1;
      }
    }

    /** Pop waits while the queue is empty and open. A closed queue gives nothing, whatever
        its buffer still holds; an open one gives its first item. */
    method Pop(waits: seq<seq<Op<V>>>) returns (v: Option<V>, returned: bool)
      modifies this
      ensures var q := Awaited(old(Q()), waits);
        && returned == !Blocks(q)
        && v == (if q.closed then None else First(q))
        && Q() == (if q.closed then q else Rest(q))
    {
      v := None;
      var i := 0;
      while |buffer| == 0 && !closed && i < |waits|
        invariant 0 <= i <= |waits|
        invariant Awaited(Q(), waits[i..]) == Awaited(old(Q()), waits)
      {
        assert waits[i..][1..] == waits[i + 1..];
        WhileWaiting(waits[i]);
        i := i + 1;
      }
      if |buffer| == 0 && !closed {
        return None, false;
      }
      if closed {
        return None, true;
      }
      if |buffer| > 0 {
        v := Some(buffer[0]);
        buffer := buffer[1..];
      }
      returned := true;
    }
  }

  /** Every step of the protocol changes the protected content as one call of the object does,
      and with the same result, or not at all. */
  lemma StepsActAsCalls<V>(s: State<V>, c: nat, a: Choice<V>)
    requires Inv(s) && Enabled(s, c, a)
    ensures c < |s.pcs| == |Next(s, c, a).pcs|
    ensures var t := Next(s, c, a); var (p, q) := (Content(s.buffer, s.closed), Content(t.buffer, t.closed));
      match s.pcs[c]
      case PushIn(v) => q == Pushed(p, v)
      case PopCheck => q == p && (t.pcs[c].PopWaiting? <==> Blocks(p))
      case PopTake => !Blocks(p) && q == (if p.closed then p else Rest(p)) &&
                      t.pcs[c] == PopLeave(if p.closed then None else First(p))
      case TryIn => q == Rest(p) && t.pcs[c] == TryLeave(First(p), !Blocks(p))
      case CloseIn => q == Shut(p)
      case _ => q == p
  {
    assert PlaceOk(s, s.pcs[c]);
    hide MutexOk, FifoOk, WakeupsOk, ClosedOk, PlacesOk;
  }
}
