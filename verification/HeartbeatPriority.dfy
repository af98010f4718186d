/** Heartbeats that jump the client's transport queues: a small shared table, in the
    order they came. */
module HeartbeatPriority {
  import opened Words
  import opened Wrappers

  const CAPACITY := 8

  type Descriptor = seq<u32>

  datatype Entry = Entry(queue: u32, descriptor: Descriptor)

  // ----- the table as a list -----

  function Without(s: seq<Entry>, index: nat): seq<Entry>
    requires index < |s|
  {
    s[..index] + s[index + 1..]
  }

  /** The place of the first entry for a queue, or the end. */
  function FirstFor(s: seq<Entry>, queue: u32): (i: nat)
    ensures i <= |s| && (i < |s| ==> s[i].queue == queue)
    ensures forall k :: 0 <= k < i ==> s[k].queue != queue
  {
    if s == [] || s[0].queue == queue then 0 else 1 + FirstFor(s[1..], queue)
  }

  lemma FirstForIs(s: seq<Entry>, queue: u32, i: nat)
    requires i <= |s| && (i < |s| ==> s[i].queue == queue)
    requires forall k :: 0 <= k < i ==> s[k].queue != queue
    ensures FirstFor(s, queue) == i
  {
  }

  function Pushed(s: seq<Entry>, entry: Entry): seq<Entry> {
    if |s| < CAPACITY then s + [entry] else s
  }

  function Popped(s: seq<Entry>, queue: u32): seq<Entry> {
    var i := FirstFor(s, queue);
    if i < |s| then Without(s, i) else s
  }

  function PopResult(s: seq<Entry>, queue: u32): Option<Descriptor> {
    var i := FirstFor(s, queue);
    if i < |s| then Some(s[i].descriptor) else None
  }

  function Values(slots: seq<Option<Entry>>): seq<Entry>
    requires forall i :: 0 <= i < |slots| ==> slots[i].Some?
  {
    seq(|slots|, i requires 0 <= i < |slots| => slots[i].value)
  }

  lemma ShiftedUp(before: seq<Option<Entry>>, after: seq<Option<Entry>>, index: nat)
    requires index < |before| && |after| == |before| - 1
    requires forall i :: 0 <= i < |before| ==> before[i].Some?
    requires forall i :: 0 <= i < |after| ==> after[i].Some?
    requires forall i :: 0 <= i < |after| ==> after[i] == before[if i < index then i else i + 1]
    ensures Values(after) == Without(Values(before), index)
  {
    var left, right := Values(after), Without(Values(before), index);
    assert forall i :: 0 <= i < |after| ==> left[i] == right[i];
  }

  // ----- the table in place -----

  class PriorityQueue {
    const entries: array<Option<Entry>>
    var len: nat

    /** Occupied slots come first. */
    ghost predicate Valid()
      reads this, entries
    {
      && entries.Length == CAPACITY && len <= CAPACITY
      && (forall i :: 0 <= i < len ==> entries[i].Some?)
      && (forall i :: len <= i < CAPACITY ==> entries[i].None?)
    }

    ghost function Contents(): seq<Entry>
      requires Valid()
      reads this, entries
    {
      Values(entries[..len])
    }

    constructor ()
      ensures Valid() && Contents() == [] && fresh(entries)
    {
      entries := new Option<Entry>[CAPACITY](_ => None);
      len := 0;
    }

    method Push(entry: Entry) returns (r: bool)
      requires Valid()
      modifies this`len, entries
      ensures Valid()
      ensures r <==> old(len) < CAPACITY
      ensures Contents() == Pushed(old(Contents()), entry)
      ensures r ==> entries[..] == old(entries[..])[old(len) := Some(entry)] && len == old(len) + 1
      ensures !r ==> entries[..] == old(entries[..]) && len == old(len)
    {
      if len == CAPACITY {
        return false;
      }
      entries[len] := Some(entry);
      len := len + 1;
      return true;
    }

    /** Take an entry out and move the later ones up. */
    method Remove(index: nat) returns (entry: Entry)
      requires Valid() && index < len
      modifies this`len, entries
      ensures Valid() && len == old(len) - 1
      ensures entry == old(Contents())[index]
      ensures Contents() == Without(old(Contents()), index)
      ensures forall i :: 0 <= i < index ==> entries[i] == old(entries[i])
    {
      ghost var before := entries[..];
      entry := entries[index].value;
      entries[index] := None;
      for position := index to len - 1
        invariant len == old(len)
        invariant forall i :: 0 <= i < index || position < i < CAPACITY ==> entries[i] == before[i]
        invariant forall i :: index <= i < position ==> entries[i] == before[i + 1]
        invariant entries[position] == None
      {
        entries[position] := entries[position + 1];
        entries[position + 1] := None;
      }
      len := len - 1;
      ghost var was, now := before[..len + 1], entries[..len];
      assert forall i :: 0 <= i < len ==> now[i] == was[if i < index then i else i + 1];
      ShiftedUp(was, now, index);
    }

    method PopFor(queue: u32) returns (r: Option<Descriptor>)
      requires Valid()
      modifies this`len, entries
      ensures Valid()
      ensures r == PopResult(old(Contents()), queue)
      ensures Contents() == Popped(old(Contents()), queue)
    {
      var index := 0;
      while index < len && entries[index].value.queue != queue
        invariant index <= len
        invariant forall k :: 0 <= k < index ==> Contents()[k].queue != queue
      {
        index := index + 1;
      }
      FirstForIs(Contents(), queue, index);
      if index == len {
        return None;
      }
      var entry := Remove(index);
      return Some(entry.descriptor);
    }

    method HasFor(queue: u32) returns (r: bool)
      requires Valid()
      ensures r <==> PopResult(Contents(), queue).Some?
    {
      var index := 0;
      while index < len && entries[index].value.queue != queue
        invariant index <= len
        invariant forall k :: 0 <= k < index ==> Contents()[k].queue != queue
      {
        index := index + 1;
      }
      FirstForIs(Contents(), queue, index);
      return index < len;
    }

    /** Add an entry and wake its queue; `signalled` is how the waking goes. If it
        fails, every slot is as it was. */
    method PushAndSignal(entry: Entry, signalled: bool) returns (r: bool)
      requires Valid()
      modifies this`len, entries
      ensures Valid()
      ensures r <==> old(len) < CAPACITY && signalled
      ensures r ==> Contents() == old(Contents()) + [entry]
      ensures !r ==> entries[..] == old(entries[..]) && len == old(len)
    {
      var pushed := Push(entry);
      if !pushed {
        return false;
      }
      if signalled {
        return true;
      }
      var last := len - 1;
      var _ := Remove(last);
      assert forall i :: len <= i < CAPACITY ==> old(entries[..])[i] == None;
      assert entries[..] == old(entries[..]);
      return false;
    }
  }

  // ----- runs -----

  datatype Operation = PushAndSignal(entry: Entry, signalled: bool) | PopFor(queue: u32)

  function After(s: seq<Entry>, operation: Operation): seq<Entry> {
    match operation
    case PushAndSignal(entry, signalled) => if signalled then Pushed(s, entry) else s
    case PopFor(queue) => Popped(s, queue)
  }

  function Run(operations: seq<Operation>): seq<Entry> {
    if operations == [] then []
    else After(Run(operations[..|operations| - 1]), operations[|operations| - 1])
  }

  /** The descriptors stored for one queue, in order. */
  function For(s: seq<Entry>, queue: u32): seq<Descriptor> {
    if s == [] then []
    else
      var last := s[|s| - 1];
      For(s[..|s| - 1], queue) + (if last.queue == queue then [last.descriptor] else [])
  }

  /** The descriptors accepted for one queue over a run, in order. */
  function AcceptedFor(operations: seq<Operation>, queue: u32): seq<Descriptor> {
    if operations == [] then []
    else
      var before, last := operations[..|operations| - 1], operations[|operations| - 1];
      AcceptedFor(before, queue) + AcceptedBy(Run(before), last, queue)
  }

  /** The descriptors popped for one queue over a run, in order. */
  function PoppedFor(operations: seq<Operation>, queue: u32): seq<Descriptor> {
    if operations == [] then []
    else
      var before, last := operations[..|operations| - 1], operations[|operations| - 1];
      PoppedFor(before, queue) + PoppedBy(Run(before), last, queue)
  }

  lemma {:induction false} ForSplits(s: seq<Entry>, t: seq<Entry>, queue: u32)
    ensures For(s + t, queue) == For(s, queue) + For(t, queue)
    decreases |t|
  {
    if t == [] {
      assert s + t == s;
    } else {
      assert (s + t)[..|s + t| - 1] == s + t[..|t| - 1];
      ForSplits(s, t[..|t| - 1], queue);
    }
  }

  lemma {:induction false} NoneFor(s: seq<Entry>, queue: u32)
    requires forall k :: 0 <= k < |s| ==> s[k].queue != queue
    ensures For(s, queue) == []
    decreases |s|
  {
    if s != [] {
      NoneFor(s[..|s| - 1], queue);
    }
  }

  lemma ForOne(entry: Entry, queue: u32)
    ensures For([entry], queue) == if entry.queue == queue then [entry.descriptor] else []
  {
    assert [entry][..0] == [];
  }

  lemma HeadIsTaken(before: seq<Entry>, entry: Entry, after: seq<Entry>, queue: u32)
    requires forall k :: 0 <= k < |before| ==> before[k].queue != entry.queue
    ensures For(before + ([entry] + after), queue)
            == (if entry.queue == queue then [entry.descriptor] else []) + For(before + after, queue)
  {
    ForSplits(before, [entry] + after, queue);
    ForSplits([entry], after, queue);
    ForSplits(before, after, queue);
    ForOne(entry, queue);
    if queue == entry.queue {
      NoneFor(before, queue);
    }
  }

  lemma RemovingTheFirst(s: seq<Entry>, i: nat, queue: u32)
    requires i < |s| && forall k :: 0 <= k < i ==> s[k].queue != s[i].queue
    ensures For(s, queue) == (if s[i].queue == queue then [s[i].descriptor] else []) + For(Without(s, i), queue)
  {
    var before, entry, after := s[..i], s[i], s[i + 1..];
    HeadIsTaken(before, entry, after, queue);
    assert s == before + ([entry] + after);
  }

  /** Popping for a queue takes the head of its own list and leaves every other list. */
  lemma PopTakesTheHead(s: seq<Entry>, popped: u32, queue: u32)
    ensures For(s, queue)
            == (if popped == queue && PopResult(s, popped).Some? then [PopResult(s, popped).value] else [])
               + For(Popped(s, popped), queue)
    ensures PopResult(s, popped).None? ==> For(s, popped) == []
  {
    var i := FirstFor(s, popped);
    if i < |s| {
      RemovingTheFirst(s, i, queue);
    } else {
      NoneFor(s, popped);
    }
  }

  lemma PushGoesLast(s: seq<Entry>, entry: Entry, queue: u32)
    ensures For(s + [entry], queue) == For(s, queue) + (if entry.queue == queue then [entry.descriptor] else [])
  {
    assert (s + [entry])[..|s|] == s;
  }

  /** What one operation pops, and what it has accepted, for a queue. */
  function PoppedBy(s: seq<Entry>, operation: Operation, queue: u32): seq<Descriptor> {
    if operation.PopFor? && operation.queue == queue && PopResult(s, queue).Some? then [PopResult(s, queue).value] else []
  }

  function AcceptedBy(s: seq<Entry>, operation: Operation, queue: u32): seq<Descriptor> {
    if operation.PushAndSignal? && operation.signalled && |s| < CAPACITY && operation.entry.queue == queue
    then [operation.entry.descriptor] else []
  }

  /** Popping takes from the front what pushing put at the back. */
  lemma StepKeepsOrder(s: seq<Entry>, operation: Operation, queue: u32)
    ensures For(s, queue) + AcceptedBy(s, operation, queue) == PoppedBy(s, operation, queue) + For(After(s, operation), queue)
  {
    match operation
    case PopFor(popped) =>
      PopTakesTheHead(s, popped, queue);
    case PushAndSignal(entry, _) =>
      PushGoesLast(s, entry, queue);
  }

  lemma AccountCarries(popped: seq<Descriptor>, stored: seq<Descriptor>, accepted: seq<Descriptor>,
                       out: seq<Descriptor>, after: seq<Descriptor>, more: seq<Descriptor>)
    requires popped + stored == accepted && stored + more == out + after
    ensures popped + out + after == accepted + more
  {
    assert popped + out + after == popped + (out + after);
    assert popped + (stored + more) == popped + stored + more;
  }

  lemma NeverOverflows(s: seq<Entry>, operation: Operation)
    requires |s| <= CAPACITY
    ensures |After(s, operation)| <= CAPACITY
  {
  }

  lemma OneMoreOperation(operations: seq<Operation>, queue: u32)
    requires operations != []
    requires var before := operations[..|operations| - 1];
             PoppedFor(before, queue) + For(Run(before), queue) == AcceptedFor(before, queue)
    ensures PoppedFor(operations, queue) + For(Run(operations), queue) == AcceptedFor(operations, queue)
  {
    var before, last := operations[..|operations| - 1], operations[|operations| - 1];
    StepKeepsOrder(Run(before), last, queue);
    AccountCarries(PoppedFor(before, queue), For(Run(before), queue), AcceptedFor(before, queue),
                   PoppedBy(Run(before), last, queue), For(Run(operations), queue), AcceptedBy(Run(before), last, queue));
  }

  /** Each queue is first in, first out: what was popped for it, then what is stored for
      it, is what was accepted for it; and the table never overflows. */
  lemma {:induction false} EachQueueIsFifo(operations: seq<Operation>, queue: u32)
    ensures PoppedFor(operations, queue) + For(Run(operations), queue) == AcceptedFor(operations, queue)
    ensures |Run(operations)| <= CAPACITY
    decreases |operations|
  {
    if operations != [] {
      var before, last := operations[..|operations| - 1], operations[|operations| - 1];
      EachQueueIsFifo(before, queue);
      NeverOverflows(Run(before), last);
      OneMoreOperation(operations, queue);
    }
  }
}
