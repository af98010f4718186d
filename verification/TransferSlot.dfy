/** A one-place hand-off cell between threads, one atomic step at a time. The cell is
    copied word by word, so a value can be seen half-written unless something keeps
    the threads apart. */
module SlotProtocol {
  import opened Wrappers

  type Thread = nat
  type Word = nat
  type Value = seq<Word>

  datatype Phase = EMPTY | WRITING | READY | READING

  /** Where a thread is in its operation, with what it has copied so far. */
  datatype Pc = Idle | Writer(value: Value, copied: nat) | Reader(serial: nat, got: Value)

  /** What happened to accepted values, each known by its serial number. */
  datatype Event = Put(value: Value) | Took(serial: nat) | Returned(serial: nat, got: Value) | Discarded(serial: nat)

  datatype State = State(
    phase: Phase, cell: Value, threads: map<Thread, Pc>,
    // history: the thread inside a section, the accepted values, the events
    owner: Option<Thread>, accepted: seq<Value>, log: seq<Event>)
  {
    function PcOf(t: Thread): Pc {
      if t in threads then threads[t] else Idle
    }

    function Log(e: Event): State {
      this.(log := log + [e])
    }
  }

  function Initial(cell: Value): State {
    State(EMPTY, cell, map[], None, [], [])
  }

  datatype Move =
    | BeginWrite(thread: Thread, value: Value)
    | CopyIn(thread: Thread)
    | Publish(thread: Thread)
    | BeginTake(thread: Thread)
    | CopyOut(thread: Thread)
    | FinishTake(thread: Thread)
    | Discard
    | Reset

  /** Values are as wide as the cell, and an idle thread begins; resetting waits until
      no thread is inside. */
  ghost predicate Enabled(s: State, move: Move) {
    match move
    case BeginWrite(t, value) => s.PcOf(t) == Idle && |value| == |s.cell|
    case CopyIn(t) => s.PcOf(t).Writer? && s.PcOf(t).copied < |s.cell|
    case Publish(t) => s.PcOf(t).Writer? && s.PcOf(t).copied == |s.cell|
    case BeginTake(t) => s.PcOf(t) == Idle
    case CopyOut(t) => s.PcOf(t).Reader? && |s.PcOf(t).got| < |s.cell|
    case FinishTake(t) => s.PcOf(t).Reader? && |s.PcOf(t).got| == |s.cell|
    case Discard => true
    case Reset => forall t: Thread :: s.PcOf(t) == Idle
  }

  /** The value in the slot: the last accepted one. */
  function Serial(s: State): nat {
    if s.accepted == [] then 0 else |s.accepted| - 1
  }

  /** A compare-exchange that finds another phase changes nothing. */
  function Step(s: State, move: Move): State
    requires Enabled(s, move)
  {
    match move
    case BeginWrite(t, value) =>
      if s.phase != EMPTY then s
      else s.(phase := WRITING, threads := s.threads[t := Writer(value, 0)], owner := Some(t))
    case CopyIn(t) =>
      var pc := s.PcOf(t);
      if pc.copied < |pc.value|
      then s.(cell := s.cell[pc.copied := pc.value[pc.copied]], threads := s.threads[t := pc.(copied := pc.copied + 1)])
      else s
    case Publish(t) =>
      s.(phase := READY, threads := s.threads[t := Idle], owner := None,
         accepted := s.accepted + [s.PcOf(t).value]).Log(Put(s.PcOf(t).value))
    case BeginTake(t) =>
      if s.phase != READY then s
      else
        s.(phase := READING, threads := s.threads[t := Reader(Serial(s), [])], owner := Some(t)).Log(Took(Serial(s)))
    case CopyOut(t) =>
      var pc := s.PcOf(t);
      s.(threads := s.threads[t := pc.(got := pc.got + [s.cell[|pc.got|]])])
    case FinishTake(t) =>
      var pc := s.PcOf(t);
      s.(phase := EMPTY, threads := s.threads[t := Idle], owner := None).Log(Returned(pc.serial, pc.got))
    case Discard =>
      if s.phase != READY then s else s.(phase := EMPTY).Log(Discarded(Serial(s)))
    case Reset =>
      if s.phase == READY then s.(phase := EMPTY).Log(Discarded(Serial(s))) else s.(phase := EMPTY)
  }

  ghost predicate Runs(s: State, moves: seq<Move>)
    decreases |moves|
  {
    moves == [] || (Enabled(s, moves[0]) && Runs(Step(s, moves[0]), moves[1..]))
  }

  function Run(s: State, moves: seq<Move>): State
    requires Runs(s, moves)
    decreases |moves|
  {
    if moves == [] then s else Run(Step(s, moves[0]), moves[1..])
  }
}

module SlotTheorems {
  import opened Wrappers
  import opened SlotProtocol

  // ----- the one-place buffer -----

  /** A buffer that holds at most one serial number and has handed out `puts` so far. */
  datatype Buffer = Buffer(held: Option<nat>, puts: nat)

  predicate Allowed(b: Buffer, e: Event) {
    match e
    case Put(_) => b.held.None?
    case Took(serial) => b.held == Some(serial)
    case Discarded(serial) => b.held == Some(serial)
    case Returned(_, _) => true
  }

  function Moved(b: Buffer, e: Event): Buffer {
    match e
    case Put(_) => Buffer(Some(b.puts), b.puts + 1)
    case Took(_) => b.(held := None)
    case Discarded(_) => b.(held := None)
    case Returned(_, _) => b
  }

  function BufferAfter(log: seq<Event>): Buffer {
    if log == [] then Buffer(None, 0) else Moved(BufferAfter(log[..|log| - 1]), log[|log| - 1])
  }

  /** The log is a history of a one-place buffer. */
  ghost predicate Legal(log: seq<Event>) {
    log == [] || (Legal(log[..|log| - 1]) && Allowed(BufferAfter(log[..|log| - 1]), log[|log| - 1]))
  }

  lemma LogGrows(log: seq<Event>, e: Event)
    requires Legal(log) && Allowed(BufferAfter(log), e)
    ensures Legal(log + [e]) && BufferAfter(log + [e]) == Moved(BufferAfter(log), e)
  {
    assert (log + [e])[..|log|] == log;
  }

  // ----- the invariant -----

  /** Only the owner is inside a section, and the phase says which. */
  ghost predicate Exclusive(s: State) {
    && (forall t: Thread :: s.PcOf(t) != Idle ==> s.owner == Some(t))
    && (s.owner.Some? ==> if s.phase == WRITING then s.PcOf(s.owner.value).Writer?
                          else s.phase == READING && s.PcOf(s.owner.value).Reader?)
    && (s.owner.None? ==> s.phase == EMPTY || s.phase == READY)
  }

  /** What has been copied is right, in either direction. */
  ghost predicate Copied(s: State) {
    && (s.phase == WRITING && s.owner.Some? ==>
          var pc := s.PcOf(s.owner.value);
          pc.Writer? ==> |pc.value| == |s.cell| && pc.copied <= |s.cell| && s.cell[..pc.copied] == pc.value[..pc.copied])
    && (s.phase == READY || s.phase == READING ==> s.accepted != [] && s.cell == s.accepted[|s.accepted| - 1])
    && (s.phase == READING && s.owner.Some? ==>
          var pc := s.PcOf(s.owner.value);
          pc.Reader? ==> pc.serial == |s.accepted| - 1 && pc.got <= s.cell)
  }

  /** The log is that of a one-place buffer, full exactly in the READY phase, and every
      returned value is an accepted one, whole. */
  ghost predicate Refines(s: State) {
    && Legal(s.log)
    && BufferAfter(s.log) == Buffer(if s.phase == READY then Some(Serial(s)) else None, |s.accepted|)
    && forall i :: 0 <= i < |s.log| && s.log[i].Returned? ==>
         s.log[i].serial < |s.accepted| && s.log[i].got == s.accepted[s.log[i].serial]
  }

  ghost predicate Inv(s: State) {
    Exclusive(s) && Copied(s) && Refines(s)
  }

  lemma StepKeepsExclusive(s: State, move: Move)
    requires Inv(s) && Enabled(s, move)
    ensures Exclusive(Step(s, move))
  {
  }

  lemma StepKeepsCopied(s: State, move: Move)
    requires Inv(s) && Enabled(s, move)
    ensures Copied(Step(s, move))
  {
    if move.CopyIn? {
      var pc := s.PcOf(move.thread);
      assert s.owner == Some(move.thread);
      var after := Step(s, move);
      assert after.cell[..pc.copied + 1] == s.cell[..pc.copied] + [pc.value[pc.copied]];
    } else if move.Publish? {
      var pc := s.PcOf(move.thread);
      assert s.owner == Some(move.thread);
      assert s.cell[..pc.copied] == s.cell && pc.value[..pc.copied] == pc.value;
    }
  }

  lemma LogStays(s: State, after: State)
    requires Refines(s) && after.log == s.log && after.accepted == s.accepted
    requires after.phase == READY <==> s.phase == READY
    ensures Refines(after)
  {
  }

  lemma StepKeepsRefines(s: State, move: Move)
    requires Inv(s) && Enabled(s, move)
    ensures Refines(Step(s, move))
  {
    var after := Step(s, move);
    if after.log == s.log {
      LogStays(s, after);
    } else {
      if move.FinishTake? {
        assert s.owner == Some(move.thread);
      } else if move.Publish? {
        assert s.owner == Some(move.thread);
      }
      LogGrows(s.log, after.log[|s.log|]);
    }
  }

  lemma {:induction false} RunKeepsInv(s: State, moves: seq<Move>)
    requires Inv(s) && Runs(s, moves)
    ensures Inv(Run(s, moves))
    decreases |moves|
  {
    if moves != [] {
      StepKeepsExclusive(s, moves[0]);
      StepKeepsCopied(s, moves[0]);
      StepKeepsRefines(s, moves[0]);
      RunKeepsInv(Step(s, moves[0]), moves[1..]);
    }
  }

  // ----- what it means -----

  ghost predicate Reachable(cell: Value, moves: seq<Move>, s: State) {
    Runs(Initial(cell), moves) && s == Run(Initial(cell), moves)
  }

  /** Never two threads inside a section at once. */
  lemma OneThreadInside(cell: Value, moves: seq<Move>, s: State, t: Thread, u: Thread)
    requires Reachable(cell, moves, s) && s.PcOf(t) != Idle && s.PcOf(u) != Idle
    ensures t == u
  {
    RunKeepsInv(Initial(cell), moves);
  }

  /** Taking succeeds exactly when the buffer is full; writing, exactly when it is empty
      and no other operation is under way. */
  lemma OperationsSucceedWhenTheyShould(cell: Value, moves: seq<Move>, s: State, t: Thread, value: Value)
    requires Reachable(cell, moves, s) && s.PcOf(t) == Idle && |value| == |s.cell|
    ensures Step(s, BeginTake(t)) != s <==> BufferAfter(s.log).held.Some?
    ensures Step(s, BeginWrite(t, value)) != s <==> BufferAfter(s.log).held.None? && forall u: Thread :: s.PcOf(u) == Idle
  {
    RunKeepsInv(Initial(cell), moves);
    var taken, written := Step(s, BeginTake(t)), Step(s, BeginWrite(t, value));
    if s.phase == READY {
      assert taken.phase != s.phase;
    } else if s.phase == EMPTY {
      assert written.phase != s.phase;
    }
    assert s.owner.Some? ==> s.PcOf(s.owner.value) != Idle;
  }

  /** Every returned value is, word for word, one that was accepted. */
  lemma ReturnedValuesAreWhole(cell: Value, moves: seq<Move>, s: State, i: nat)
    requires Reachable(cell, moves, s) && i < |s.log| && s.log[i].Returned?
    ensures s.log[i].serial < |s.accepted| && s.log[i].got == s.accepted[s.log[i].serial]
  {
    RunKeepsInv(Initial(cell), moves);
  }

  /** Discarding and resetting leave the buffer empty, and change no other thread's
      operation. */
  lemma DiscardingEmpties(cell: Value, moves: seq<Move>, s: State, move: Move)
    requires Reachable(cell, moves, s) && (move.Discard? || move.Reset?) && Enabled(s, move)
    ensures BufferAfter(Step(s, move).log) == Buffer(None, |s.accepted|)
    ensures Step(s, move).accepted == s.accepted && Step(s, move).threads == s.threads
  {
    RunKeepsInv(Initial(cell), moves);
    if s.phase == READY {
      LogGrows(s.log, Discarded(Serial(s)));
    }
  }

  // ----- where accepted values come from -----

  ghost predicate Increasing(at: seq<nat>) {
    forall i, j :: 0 <= i < j < |at| ==> at[i] < at[j]
  }

  predicate Offers(move: Move, value: Value) {
    move.BeginWrite? && move.value == value
  }

  /** The k-th accepted value was offered by move `at[k]` of the past. */
  ghost predicate Offered(past: seq<Move>, at: seq<nat>, accepted: seq<Value>) {
    && |at| == |accepted| && Increasing(at)
    && forall k :: 0 <= k < |at| ==> at[k] < |past| && Offers(past[at[k]], accepted[k])
  }

  /** And move `pending`, later than those, began the write that is under way, if one is. */
  ghost predicate Sourced(s: State, past: seq<Move>, at: seq<nat>, pending: nat) {
    Offered(past, at, s.accepted) && forall t: Thread :: s.PcOf(t).Writer? ==> BegunAt(past, at, pending, t, s.PcOf(t).value)
  }

  ghost predicate BegunAt(past: seq<Move>, at: seq<nat>, pending: nat, t: Thread, value: Value) {
    pending < |past| && past[pending] == BeginWrite(t, value) && forall k :: 0 <= k < |at| ==> at[k] < pending
  }

  lemma PastGrows(past: seq<Move>, move: Move, at: seq<nat>, accepted: seq<Value>, pending: nat)
    requires Offered(past, at, accepted)
    ensures Offered(past + [move], at, accepted)
    ensures forall t: Thread, value: Value :: BegunAt(past, at, pending, t, value) ==> BegunAt(past + [move], at, pending, t, value)
    ensures move.BeginWrite? ==> BegunAt(past + [move], at, |past|, move.thread, move.value)
    ensures forall t: Thread, value: Value :: BegunAt(past, at, pending, t, value) ==>
              Offered(past + [move], at + [pending], accepted + [value])
  {
  }

  /** Who is writing what after a step. */
  lemma WritersAfter(s: State, move: Move, t: Thread)
    requires Inv(s) && Enabled(s, move) && Step(s, move).PcOf(t).Writer?
    ensures !move.Publish?
    ensures move.BeginWrite? && s.phase == EMPTY ==> t == move.thread && Step(s, move).PcOf(t).value == move.value
    ensures !(move.BeginWrite? && s.phase == EMPTY) ==>
              s.PcOf(t).Writer? && Step(s, move).PcOf(t).value == s.PcOf(t).value
  {
    if move.Publish? {
      assert s.owner == Some(move.thread);
      StepKeepsExclusive(s, move);
    } else if move.BeginWrite? && t != move.thread {
      assert s.PcOf(t) != Idle;
    }
  }

  lemma StepKeepsSourced(s: State, move: Move, past: seq<Move>, at: seq<nat>, pending: nat) returns (after: seq<nat>, next: nat)
    requires Inv(s) && Enabled(s, move) && Sourced(s, past, at, pending)
    ensures Sourced(Step(s, move), past + [move], after, next)
  {
    PastGrows(past, move, at, s.accepted, pending);
    next := if move.BeginWrite? && s.phase == EMPTY then |past| else pending;
    after := if move.Publish? then at + [pending] else at;
    assert Step(s, move).accepted == if move.Publish? then s.accepted + [s.PcOf(move.thread).value] else s.accepted;
    forall t: Thread | Step(s, move).PcOf(t).Writer?
      ensures BegunAt(past + [move], after, next, t, Step(s, move).PcOf(t).value)
    {
      WritersAfter(s, move, t);
    }
  }

  lemma {:induction false} RunIsSourced(s: State, moves: seq<Move>, past: seq<Move>, at: seq<nat>, pending: nat)
    returns (after: seq<nat>)
    requires Inv(s) && Runs(s, moves) && Sourced(s, past, at, pending)
    ensures Offered(past + moves, after, Run(s, moves).accepted)
    decreases |moves|
  {
    if moves == [] {
      after := at;
      assert past + moves == past;
    } else {
      var longer, next := StepKeepsSourced(s, moves[0], past, at, pending);
      StepKeepsExclusive(s, moves[0]);
      StepKeepsCopied(s, moves[0]);
      StepKeepsRefines(s, moves[0]);
      after := RunIsSourced(Step(s, moves[0]), moves[1..], past + [moves[0]], longer, next);
      assert past + [moves[0]] + moves[1..] == past + moves;
    }
  }

  /** The accepted values are values some thread began to write, each from a write of
      its own, in the order of those writes. */
  lemma AcceptedWereOffered(cell: Value, moves: seq<Move>, s: State) returns (at: seq<nat>)
    requires Reachable(cell, moves, s)
    ensures Offered(moves, at, s.accepted)
  {
    at := RunIsSourced(Initial(cell), moves, [], [], 0);
    assert [] + moves == moves;
  }

  predicate Removes(e: Event, serial: nat) {
    (e.Took? || e.Discarded?) && e.serial == serial
  }

  lemma {:induction false} LegalPrefix(log: seq<Event>, n: nat)
    requires Legal(log) && n <= |log|
    ensures Legal(log[..n])
    decreases |log|
  {
    if n < |log| {
      LegalPrefix(log[..|log| - 1], n);
      assert log[..|log| - 1][..n] == log[..n];
    } else {
      assert log[..n] == log;
    }
  }

  /** What has been removed is never held again. */
  lemma {:induction false} RemovedStaysRemoved(log: seq<Event>, i: nat, serial: nat)
    requires Legal(log) && i < |log| && Removes(log[i], serial)
    ensures serial < BufferAfter(log).puts && BufferAfter(log).held != Some(serial)
    decreases |log|
  {
    var last := |log| - 1;
    HeldIsLatest(log[..last]);
    if i < last {
      RemovedStaysRemoved(log[..last], i, serial);
    }
  }

  lemma {:induction false} HeldIsLatest(log: seq<Event>)
    requires Legal(log)
    ensures BufferAfter(log).held.Some? ==> BufferAfter(log).held.value + 1 == BufferAfter(log).puts
    decreases |log|
  {
    if log != [] {
      HeldIsLatest(log[..|log| - 1]);
    }
  }

  /** Each accepted value is taken or discarded at most once, never both. */
  lemma RemovedAtMostOnce(cell: Value, moves: seq<Move>, s: State, i: nat, j: nat, serial: nat)
    requires Reachable(cell, moves, s) && i < j < |s.log|
    requires Removes(s.log[i], serial)
    ensures !Removes(s.log[j], serial)
  {
    RunKeepsInv(Initial(cell), moves);
    LegalPrefix(s.log, j + 1);
    var upTo := s.log[..j + 1];
    assert upTo[..|upTo| - 1] == s.log[..j];
    RemovedStaysRemoved(s.log[..j], i, serial);
  }
}

/** The slot as one thread at a time sees it. */
module TransferSlot {
  import opened Wrappers
  import opened SlotProtocol

  class TransferSlot<T> {
    var phase: Phase

    /** Nothing until first written. */
    var value: Option<T>

    ghost predicate Valid()
      reads this
    {
      (phase == EMPTY || phase == READY) && (phase == READY ==> value.Some?)
    }

    ghost function Contents(): Option<T>
      reads this
    {
      if phase == READY then value else None
    }

    constructor ()
      ensures Valid() && Contents() == None
    {
      phase, value := EMPTY, None;
    }

    method TryWrite(v: T) returns (r: bool)
      requires Valid()
      modifies this
      ensures Valid()
      ensures r == old(Contents()).None?
      ensures Contents() == if r then Some(v) else old(Contents())
    {
      if phase != EMPTY {
        return false;
      }
      phase := WRITING;
      value := Some(v);
      phase := READY;
      return true;
    }

    method TryTake() returns (r: Option<T>)
      requires Valid()
      modifies this
      ensures Valid()
      ensures r == old(Contents()) && Contents() == None
    {
      if phase != READY {
        return None;
      }
      phase := READING;
      r := value;
      phase := EMPTY;
    }

    method Discard()
      requires Valid()
      modifies this
      ensures Valid() && Contents() == None
    {
      if phase == READY {
        phase := EMPTY;
      }
    }

    method Reset()
      modifies this
      ensures Valid() && Contents() == None
    {
      phase := EMPTY;
    }
  }
}
