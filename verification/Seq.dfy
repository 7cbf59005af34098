/** The hi-lo sequence allocator: numbers are handed out from memory below a high-water mark
    that is written to the database first. */
module SeqAllocator {
  import opened Wrappers

  const STEP := 1000
  const FIRST := 1000000

  /** Seq in memory. */
  datatype Seq = Seq(curSeq: int, maxSeq: int)

  /** `memory` is the map entry of the flag, `stored` the min_seq of its row. */
  datatype Sys = Sys(memory: Option<Seq>, stored: Option<int>)

  /** What can go wrong in a call: the query fails, the write fails, or the write is done but
      the caller panics or crashes before it learns so. */
  datatype Fault = NoFault | QueryFails | WriteFails | WriteUnconfirmed

  datatype Event = Call(fault: Fault) | Restart

  // ----- one call ----------------------------------------------------------

  function Written(s: Sys, minSeq: int, fault: Fault): Sys {
    if fault.WriteFails? then s else s.(stored := Some(minSeq))
  }

  /** The write of a new mark did not report success. */
  predicate WriteErrs(fault: Fault) {
    fault.WriteFails? || fault.WriteUnconfirmed?
  }

  /** The memory entry of the flag, created from the row where it is missing; None is a panic. */
  function Loaded(s: Sys, fault: Fault): (Sys, Option<Seq>) {
    if s.memory.Some? then (s, s.memory)
    else if fault.QueryFails? then (s, None)
    else if s.stored.None? then
      var t := Written(s, FIRST + STEP, fault);
      if WriteErrs(fault) then (t, None)
      else
        var q := Some(Seq(FIRST, FIRST + STEP));
        (t.(memory := q), q)
    else
      var q := Some(Seq(s.stored.value, s.stored.value));
      (s.(memory := q), q)
  }

  /** One GenSeq for the allocated flag: the new state and the number, or None for a panic. */
  function Generated(s: Sys, fault: Fault): (Sys, Option<int>) {
    var (t, q) := Loaded(s, fault);
    if q.None? then (t, None)
    else
      var Seq(cur, max) := q.value;
      if cur >= max then
        var u := Written(t, cur + STEP, fault);
        if WriteErrs(fault) then (u, None)
        else (u.(memory := Some(Seq(cur + 1, max + STEP))), Some(cur + 1))
      else (t.(memory := Some(Seq(cur + 1, max))), Some(cur + 1))
  }

  /** The allocator as it runs, its calls serialised. */
  class Allocator {
    var memory: Option<Seq>
    var stored: Option<int>

    function State(): Sys
      reads this
    {
      Sys(memory, stored)
    }

    constructor (row: Option<int>)
      ensures State() == Sys(None, row)
    {
      memory, stored := None, row;
    }

    /** addOrUpdateSeq on the row of the flag; false is an error return. */
    method AddOrUpdateSeq(minSeq: int, fault: Fault) returns (ok: bool)
      modifies this`stored
      ensures State() == Written(old(State()), minSeq, fault) && ok == !WriteErrs(fault)
    {
      if !fault.WriteFails? {
        stored := Some(minSeq);
      }
      return !WriteErrs(fault);
    }

    method GenSeq(fault: Fault) returns (number: Option<int>)
      modifies this
      ensures (State(), number) == Generated(old(State()), fault)
    {
      if memory.None? {
        if fault.QueryFails? {
          return None;
        }
        var cur, max;
        if stored.None? {
          cur, max := FIRST, FIRST + STEP;
          var ok := AddOrUpdateSeq(max, fault);
          if !ok {
            return None;
          }
        } else {
          cur, max := stored.value, stored.value;
        }
        memory := Some(Seq(cur, max));
      }
      if memory.value.curSeq >= memory.value.maxSeq {
        var ok := AddOrUpdateSeq(memory.value.curSeq + STEP, fault);
        if !ok {
          return None;
        }
        memory := Some(memory.value.(maxSeq := memory.value.maxSeq + STEP));
      }
      memory := Some(memory.value.(curSeq := memory.value.curSeq + 1));
      return Some(memory.value.curSeq);
    }

    /** The process dies; the row survives. */
    method Crash()
      modifies this`memory
      ensures State() == After(old(State()), Restart).0
    {
      memory := None;
    }
  }

  // ----- runs --------------------------------------------------------------

  function After(s: Sys, e: Event): (Sys, Option<int>) {
    match e
    case Call(fault) => Generated(s, fault)
    case Restart => (s.(memory := None), None)
  }

  function Final(s: Sys, events: seq<Event>): Sys
    decreases |events|
  {
    if |events| == 0 then s else Final(After(s, events[0]).0, events[1..])
  }

  /** The numbers a run issues, in order. */
  function Issued(s: Sys, events: seq<Event>): seq<int>
    decreases |events|
  {
    if |events| == 0 then []
    else
      var (t, number) := After(s, events[0]);
      (if number.Some? then [number.value] else []) + Issued(t, events[1..])
  }

  /** Between calls memory never runs ahead of the mark, nor the mark of the row. */
  predicate Inv(s: Sys) {
    s.memory.Some? ==>
      s.stored.Some? && s.memory.value.curSeq <= s.memory.value.maxSeq <= s.stored.value <= s.memory.value.maxSeq + STEP
  }

  /** No number up to here will be issued again. */
  function Floor(s: Sys): int {
    if s.memory.Some? then s.memory.value.curSeq
    else if s.stored.Some? then s.stored.value
    else FIRST
  }

  lemma StepKeepsInv(s: Sys, e: Event)
    requires Inv(s)
    ensures Inv(After(s, e).0)
    ensures Floor(s) <= Floor(After(s, e).0)
    ensures After(s, e).1.Some? ==> Floor(s) < After(s, e).1.value == Floor(After(s, e).0)
    ensures s.stored.Some? ==> After(s, e).0.stored.Some? && s.stored.value <= After(s, e).0.stored.value
  {
  }

  /** The call must move the mark: nothing is in memory, or its numbers are used up. */
  predicate Exhausted(s: Sys) {
    s.memory.None? || s.memory.value.curSeq == s.memory.value.maxSeq
  }

  /** A call issues the number right after the last one, or the first after the stored mark where
      memory is empty. It panics exactly if a query or a write it needs fails, and a mark it needs
      is in the row before, one step above the last number. */
  lemma NextNumber(s: Sys, fault: Fault)
    requires Inv(s)
    ensures var (t, number) := Generated(s, fault);
      && (number.None? <==> (s.memory.None? && fault.QueryFails?) || (Exhausted(s) && WriteErrs(fault)))
      && (number.Some? ==>
            && number.value == Floor(s) + 1 && t.memory.Some? && t.memory.value.curSeq == number.value
            && t.memory.value.maxSeq == (if Exhausted(s) then Floor(s) + STEP else s.memory.value.maxSeq)
            && t.stored == (if Exhausted(s) then Some(Floor(s) + STEP) else s.stored))
      && (number.None? ==>
            && (s.memory.Some? ==> t.memory == s.memory)
            && (t.stored == s.stored || (fault.WriteUnconfirmed? && t.stored == Some(Floor(s) + STEP))))
  {
  }

  lemma {:induction false} RunKeepsInv(s: Sys, events: seq<Event>)
    requires Inv(s)
    ensures Inv(Final(s, events))
    decreases |events|
  {
    if |events| > 0 {
      StepKeepsInv(s, events[0]);
      RunKeepsInv(After(s, events[0]).0, events[1..]);
    }
  }

  lemma {:induction false} IssuedAboveFloor(s: Sys, events: seq<Event>, i: nat)
    requires Inv(s) && i < |Issued(s, events)|
    ensures Issued(s, events)[i] > Floor(s)
    decreases |events|
  {
    var (t, number) := After(s, events[0]);
    StepKeepsInv(s, events[0]);
    var head := if number.Some? then 1 else 0;
    if i >= head {
      IssuedAboveFloor(t, events[1..], i - head);
    }
  }

  /** Over any run of calls, faults and restarts the numbers issued strictly increase. */
  lemma {:induction false} IssuedIncrease(s: Sys, events: seq<Event>, i: nat, j: nat)
    requires Inv(s) && i < j < |Issued(s, events)|
    ensures Issued(s, events)[i] < Issued(s, events)[j]
    decreases |events|
  {
    var (t, number) := After(s, events[0]);
    StepKeepsInv(s, events[0]);
    if number.Some? {
      if i == 0 {
        IssuedAboveFloor(t, events[1..], j - 1);
      } else {
        IssuedIncrease(t, events[1..], i - 1, j - 1);
      }
    } else {
      IssuedIncrease(t, events[1..], i, j);
    }
  }

  /** Every number issued was covered by the row before it was handed out, so a crash right
      after it cannot make a successor reuse it. */
  lemma IssuedIsCovered(s: Sys, fault: Fault)
    requires Inv(s) && Generated(s, fault).1.Some?
    ensures var (t, number) := Generated(s, fault);
      t.stored.Some? && number.value <= t.stored.value
  {
  }

  /** The highest mark a run can reach, so that a run this side of it stays within an int64. */
  lemma {:induction false} MarkGrowsSlowly(s: Sys, events: seq<Event>, base: int)
    requires Inv(s) && base >= FIRST && (s.stored.Some? ==> s.stored.value <= base)
    ensures Final(s, events).stored.Some? ==> Final(s, events).stored.value <= base + STEP * |events|
    ensures forall i :: 0 <= i < |Issued(s, events)| ==> Issued(s, events)[i] <= base + STEP * |events|
    decreases |events|
  {
    if |events| > 0 {
      var (t, number) := After(s, events[0]);
      StepKeepsInv(s, events[0]);
      MarkGrowsSlowly(t, events[1..], base + STEP);
    }
  }
}
