/** Event batches and the chains they must form. */
module EventChain {
  import opened Words
  import opened Wrappers
  import opened Sequence

  /** A position in the client's event stream. */
  datatype Mark = Mark(sequence: u32, revision: u32) {
    function Following(): Mark {
      Mark(Next(sequence), Next(revision))
    }
  }

  datatype Event = Event(mark: Mark, update: nat)

  function MarkBefore(from: Mark, events: seq<Event>, i: nat): Mark
    requires i <= |events|
  {
    if i == 0 then from else events[i - 1].mark
  }

  function Last(from: Mark, events: seq<Event>): Mark {
    MarkBefore(from, events, |events|)
  }

  /** Both numbers of every event follow the ones before. */
  predicate Chain(from: Mark, events: seq<Event>) {
    forall i :: 0 <= i < |events| ==> events[i].mark == MarkBefore(from, events, i).Following()
  }

  /** A batch is accepted exactly when it is a chain, and then its end is the answer. */
  method ValidateEventBatch(afterSequence: u32, afterRevision: u32, events: seq<Event>) returns (r: Option<Mark>)
    ensures r.Some? <==> Chain(Mark(afterSequence, afterRevision), events)
    ensures r.Some? ==> r.value == Last(Mark(afterSequence, afterRevision), events)
  {
    var boundary := Mark(afterSequence, afterRevision);
    for i := 0 to |events|
      invariant boundary == MarkBefore(Mark(afterSequence, afterRevision), events, i)
      invariant forall k :: 0 <= k < i ==>
                  events[k].mark == MarkBefore(Mark(afterSequence, afterRevision), events, k).Following()
    {
      if events[i].mark.sequence != Next(boundary.sequence) || events[i].mark.revision != Next(boundary.revision) {
        assert events[i].mark != MarkBefore(Mark(afterSequence, afterRevision), events, i).Following();
        return None;
      }
      boundary := events[i].mark;
    }
    return Some(boundary);
  }

  /** Validating two batches in turn is validating them as one. */
  lemma ChainsCompose(from: Mark, first: seq<Event>, second: seq<Event>)
    ensures Chain(from, first + second) <==> Chain(from, first) && Chain(Last(from, first), second)
    ensures Last(from, first + second) == Last(Last(from, first), second)
  {
    var both := first + second;
    assert forall i :: 0 <= i < |first| ==> both[i] == first[i] && MarkBefore(from, both, i) == MarkBefore(from, first, i);
    forall i | 0 <= i < |second|
      ensures both[|first| + i] == second[i]
      ensures MarkBefore(from, both, |first| + i) == MarkBefore(Last(from, first), second, i)
    {
    }
  }

  ghost predicate Consecutive(from: Mark, events: seq<Event>) {
    forall i :: 0 <= i < |events| ==>
      events[i].mark == Mark(Successor(from.sequence, i + 1), Successor(from.revision, i + 1))
  }

  lemma MarkOfChain(from: Mark, events: seq<Event>, i: nat)
    requires i < |events| && events[i].mark == MarkBefore(from, events, i).Following()
    requires i > 0 ==> events[i - 1].mark == Mark(Successor(from.sequence, i), Successor(from.revision, i))
    ensures events[i].mark == Mark(Successor(from.sequence, i + 1), Successor(from.revision, i + 1))
  {
    SuccessorOfLast(from.sequence, i);
    SuccessorOfLast(from.revision, i);
  }

  /** In a chain the i-th event carries the i-th successors of both numbers, and that
      is what makes it a chain. */
  lemma {:induction false} ChainIsConsecutive(from: Mark, events: seq<Event>)
    ensures Chain(from, events) <==> Consecutive(from, events)
    decreases |events|
  {
    if events != [] {
      var rest, last := events[..|events| - 1], |events| - 1;
      assert events == rest + [events[last]];
      ChainIsConsecutive(from, rest);
      ChainsCompose(from, rest, [events[last]]);
      assert MarkBefore(from, events, last) == Last(from, rest);
      SuccessorOfLast(from.sequence, last);
      SuccessorOfLast(from.revision, last);
      if Chain(from, events) {
        MarkOfChain(from, events, last);
        assert forall i :: 0 <= i < last ==> events[i] == rest[i];
      }
      if Consecutive(from, events) {
        assert forall i :: 0 <= i < last ==> events[i] == rest[i];
        assert Consecutive(from, rest);
        assert [events[last]][0].mark == Last(from, rest).Following();
      }
    }
  }
}

/** One worker's conversation with one client, as functions of its state. What the
    client, the clock and the daemon's channel do is the input of each turn. */
module MonitorSession {
  import opened Words
  import opened Wrappers
  import opened Sequence
  import opened EventChain

  /** Nanoseconds. */
  const RECENT_SNAPSHOT_MAX_AGE := 250_000_000

  datatype Snapshot = Snapshot(mark: Mark, contents: nat)

  datatype Retained = Retained(snapshot: Snapshot, capturedAt: nat)

  function Age(now: nat, moment: nat): nat {
    if now < moment then 0 else now - moment
  }

  function Resolve(retained: Option<Retained>, exact: bool, now: nat): Option<Snapshot> {
    if exact || retained.None? || Age(now, retained.value.capturedAt) > RECENT_SNAPSHOT_MAX_AGE then None
    else Some(retained.value.snapshot)
  }

  // ----- inputs -----

  /** `delivered` is whether the daemon's channel was still open. */
  datatype SnapshotAnswer =
    | Ready(snapshot: Snapshot, at: nat, delivered: bool)
    | NotReady(delivered: bool, stopped: bool)
    | SnapshotFailed

  /** A command or a diagnostics query has a result, unless the session broke. */
  datatype Operation =
    | Other(result: Option<nat>)
    | ReadSnapshot(exact: bool, now: nat, answer: SnapshotAnswer)

  datatype Call = Call(sameClient: bool, operation: Operation)

  datatype PollAnswer = Events(events: seq<Event>, delivered: bool) | ResyncRequired | PollFailed

  datatype HealthAnswer = NotDue | Due(health: bool, healthTold: bool, diagnostics: bool, diagnosticsTold: bool)

  datatype Input = Input(
    refresh: bool, call: Option<Call>, baseline: SnapshotAnswer, poll: PollAnswer, health: HealthAnswer)

  // ----- state -----

  /** What a caller is told when its answer is not a retained snapshot. */
  datatype Reply = Result(contents: nat) | Fresh(snapshot: Snapshot) | Refused

  /** What can be seen of a session from outside, and where its continuity breaks. */
  datatype Happening =
    | Requested(id: u32, turn: nat)
    | Published(snapshot: Snapshot, at: nat)
    | Streamed(events: seq<Event>)
    | Answered(snapshot: Snapshot, now: nat)
    | Told(reply: Reply)
    | Unavailable
    | Lost

  datatype Session = Session(
    requestId: u32, turns: nat, boundary: Option<Mark>, retained: Option<Retained>, ended: bool, trace: seq<Happening>)
  {
    function Note(h: Happening): Session {
      this.(trace := trace + [h])
    }

    function Request(): Session {
      Note(Requested(requestId, turns))
    }

    function Advance(): Session {
      this.(requestId := Next(requestId), turns := turns + 1)
    }

    function End(): Session {
      this.(ended := true)
    }

    function Lose(): Session {
      this.(boundary := None).Note(Lost)
    }
  }

  function Initial(): Session {
    Session(1, 0, None, None, false, [])
  }

  function Open(s: Session, refresh: bool): Session {
    var open := if refresh then s.Lose() else s;
    if open.boundary.None? then open.(retained := None) else open
  }

  function Publish(s: Session, snapshot: Snapshot, at: nat, delivered: bool): Session {
    var retaining := s.(boundary := Some(snapshot.mark), retained := Some(Retained(snapshot, at)));
    if delivered then retaining.Note(Published(snapshot, at)) else retaining.End()
  }

  function ReadFresh(s: Session, answer: SnapshotAnswer): Session {
    var asked := s.Request();
    match answer
    case Ready(snapshot, at, delivered) =>
      var published := Publish(asked, snapshot, at, delivered);
      if published.ended then published else published.Advance().Note(Told(Fresh(snapshot)))
    case NotReady(_, _) => asked.Advance().Note(Told(Refused))
    case SnapshotFailed => asked.Advance().Note(Told(Refused)).End()
  }

  function Serve(s: Session, call: Option<Call>): Session {
    if call.None? then s
    else if !call.value.sameClient then s.Note(Told(Refused))
    else
      match call.value.operation
      case Other(result) =>
        var served := s.Request().Advance();
        if result.Some? then served.Note(Told(Result(result.value))) else served.Note(Told(Refused)).End()
      case ReadSnapshot(exact, now, answer) =>
        var recent := Resolve(s.retained, exact, now);
        if recent.Some? then s.Note(Answered(recent.value, now)).Advance()
        else ReadFresh(s, answer)
  }

  function Baseline(s: Session, answer: SnapshotAnswer): Session {
    var asked := s.Request();
    match answer
    case Ready(snapshot, at, delivered) =>
      var published := Publish(asked, snapshot, at, delivered);
      if published.ended then published else published.Advance()
    case NotReady(delivered, stopped) =>
      if !delivered then asked.End()
      else if stopped then asked.Note(Unavailable).End()
      else asked.Note(Unavailable).Advance()
    case SnapshotFailed => asked.End()
  }

  function Stream(s: Session, events: seq<Event>, delivered: bool): Session
    requires s.boundary.Some?
  {
    if events == [] then s
    else if !Chain(s.boundary.value, events) then s.Lose()
    else
      var moved := s.(boundary := Some(Last(s.boundary.value, events)));
      if delivered then moved.Note(Streamed(events)) else moved.End()
  }

  function Poll(s: Session, answer: PollAnswer): Session
    requires s.boundary.Some?
  {
    var asked := s.Request();
    match answer
    case Events(events, delivered) =>
      var streamed := Stream(asked, events, delivered);
      if streamed.ended then streamed else streamed.Advance()
    case ResyncRequired => asked.Lose().Advance()
    case PollFailed => asked.End()
  }

  function CheckHealth(s: Session, answer: HealthAnswer): Session {
    match answer
    case NotDue => s
    case Due(health, healthTold, diagnostics, diagnosticsTold) =>
      var asked := s.Request();
      if !health then asked.End()
      else if !healthTold then asked.Advance().End()
      else
        var again := asked.Advance().Request();
        if !diagnostics then again.End()
        else if !diagnosticsTold then again.Advance().End()
        else again.Advance()
  }

  /** One pass of the worker's loop. */
  function Turn(s: Session, input: Input): Session {
    var served := Serve(Open(s, input.refresh), input.call);
    if served.ended then served
    else if served.boundary.None? then Baseline(served, input.baseline)
    else
      var polled := Poll(served, input.poll);
      if polled.ended then polled else CheckHealth(polled, input.health)
  }

  function Run(s: Session, inputs: seq<Input>): Session
    decreases |inputs|
  {
    if inputs == [] || s.ended then s else Run(Turn(s, inputs[0]), inputs[1..])
  }
}

/** What a whole session emits and answers. */
module MonitorTheorems {
  import opened Words
  import opened Wrappers
  import opened Sequence
  import opened EventChain
  import opened MonitorSession

  // ----- continuity -----

  /** Where a reader of the trace stands: nowhere, or on a mark reached from the last
      published snapshot. */
  datatype Cursor = Adrift | On(mark: Mark, snapshot: Snapshot, at: nat)

  /** Events may only continue the chain, and a snapshot given as an answer may only be
      the last one published, unbroken, and recent if it was retained. */
  predicate Follows(c: Cursor, h: Happening) {
    match h
    case Streamed(events) => c.On? && Chain(c.mark, events)
    case Answered(snapshot, now) => c.On? && snapshot == c.snapshot && Age(now, c.at) <= RECENT_SNAPSHOT_MAX_AGE
    case Told(Fresh(snapshot)) => c.On? && snapshot == c.snapshot
    case _ => true
  }

  function Move(c: Cursor, h: Happening): Cursor {
    match h
    case Published(snapshot, at) => On(snapshot.mark, snapshot, at)
    case Lost => Adrift
    case Streamed(events) => if c.On? then c.(mark := Last(c.mark, events)) else c
    case _ => c
  }

  function CursorAfter(c: Cursor, trace: seq<Happening>): Cursor {
    if trace == [] then c else Move(CursorAfter(c, trace[..|trace| - 1]), trace[|trace| - 1])
  }

  /** Every happening follows from where the ones before it lead. */
  ghost predicate Continuous(trace: seq<Happening>) {
    forall i :: 0 <= i < |trace| ==> Follows(CursorAfter(Adrift, trace[..i]), trace[i])
  }

  /** Between turns the boundary and the retained snapshot are what the trace says. */
  ghost predicate InStep(s: Session) {
    && Continuous(s.trace)
    && (!s.ended ==>
          var c := CursorAfter(Adrift, s.trace);
          if s.boundary.None? then c == Adrift
          else s.retained.Some? && c == On(s.boundary.value, s.retained.value.snapshot, s.retained.value.capturedAt))
  }

  lemma NoteMoves(s: Session, h: Happening)
    requires Continuous(s.trace) && Follows(CursorAfter(Adrift, s.trace), h)
    ensures Continuous(s.Note(h).trace)
    ensures CursorAfter(Adrift, s.Note(h).trace) == Move(CursorAfter(Adrift, s.trace), h)
  {
    var trace := s.trace + [h];
    assert trace[..|s.trace|] == s.trace;
    assert forall i :: 0 <= i < |s.trace| ==> trace[..i] == s.trace[..i] && trace[i] == s.trace[i];
  }

  lemma RequestInStep(s: Session)
    requires InStep(s) && !s.ended
    ensures InStep(s.Request()) && InStep(s.Request().Advance()) && InStep(s.Request().End())
  {
    NoteMoves(s, Requested(s.requestId, s.turns));
  }

  lemma OpenInStep(s: Session, refresh: bool)
    requires InStep(s) && !s.ended
    ensures InStep(Open(s, refresh)) && !Open(s, refresh).ended
  {
    NoteMoves(s, Lost);
  }

  lemma PublishInStep(s: Session, snapshot: Snapshot, at: nat, delivered: bool)
    requires InStep(s) && !s.ended
    ensures InStep(Publish(s, snapshot, at, delivered))
  {
    NoteMoves(s, Published(snapshot, at));
  }

  lemma AnswerInStep(s: Session, exact: bool, now: nat)
    requires InStep(s) && !s.ended && Resolve(s.retained, exact, now).Some? && s.boundary.Some?
    ensures InStep(s.Note(Answered(Resolve(s.retained, exact, now).value, now)))
  {
    NoteMoves(s, Answered(Resolve(s.retained, exact, now).value, now));
  }

  lemma ReadFreshInStep(s: Session, answer: SnapshotAnswer)
    requires InStep(s) && !s.ended
    ensures InStep(ReadFresh(s, answer))
  {
    RequestInStep(s);
    var asked := s.Request();
    if answer.Ready? {
      PublishInStep(asked, answer.snapshot, answer.at, answer.delivered);
      var published := Publish(asked, answer.snapshot, answer.at, answer.delivered);
      if !published.ended {
        NoteMoves(published.Advance(), Told(Fresh(answer.snapshot)));
      }
    } else {
      NoteMoves(asked.Advance(), Told(Refused));
    }
  }

  /** A retained snapshot is only at hand while the boundary is. */
  lemma ServeInStep(s: Session, call: Option<Call>)
    requires InStep(s) && !s.ended && (s.boundary.None? ==> s.retained.None?)
    ensures InStep(Serve(s, call))
  {
    if call.Some? && !call.value.sameClient {
      NoteMoves(s, Told(Refused));
    } else if call.Some? {
      RequestInStep(s);
      if call.value.operation.Other? {
        var result := call.value.operation.result;
        NoteMoves(s.Request().Advance(), Told(if result.Some? then Result(result.value) else Refused));
      } else {
        var operation := call.value.operation;
        if Resolve(s.retained, operation.exact, operation.now).Some? {
          AnswerInStep(s, operation.exact, operation.now);
        } else {
          ReadFreshInStep(s, operation.answer);
        }
      }
    }
  }

  lemma BaselineInStep(s: Session, answer: SnapshotAnswer)
    requires InStep(s) && !s.ended
    ensures InStep(Baseline(s, answer))
  {
    RequestInStep(s);
    if answer.Ready? {
      PublishInStep(s.Request(), answer.snapshot, answer.at, answer.delivered);
    } else if answer.NotReady? {
      NoteMoves(s.Request(), Unavailable);
    }
  }

  lemma StreamInStep(s: Session, events: seq<Event>, delivered: bool)
    requires InStep(s) && !s.ended && s.boundary.Some?
    ensures InStep(Stream(s, events, delivered))
  {
    if events == [] {
    } else if Chain(s.boundary.value, events) {
      NoteMoves(s, Streamed(events));
    } else {
      NoteMoves(s, Lost);
    }
  }

  lemma PollInStep(s: Session, answer: PollAnswer)
    requires InStep(s) && !s.ended && s.boundary.Some?
    ensures InStep(Poll(s, answer))
  {
    RequestInStep(s);
    if answer.Events? {
      StreamInStep(s.Request(), answer.events, answer.delivered);
    } else if answer.ResyncRequired? {
      NoteMoves(s.Request(), Lost);
    }
  }

  lemma HealthInStep(s: Session, answer: HealthAnswer)
    requires InStep(s) && !s.ended
    ensures InStep(CheckHealth(s, answer))
  {
    RequestInStep(s);
    RequestInStep(s.Request().Advance());
  }

  lemma TurnInStep(s: Session, input: Input)
    requires InStep(s) && !s.ended
    ensures InStep(Turn(s, input))
  {
    var open := Open(s, input.refresh);
    OpenInStep(s, input.refresh);
    ServeInStep(open, input.call);
    var served := Serve(open, input.call);
    if !served.ended {
      if served.boundary.None? {
        BaselineInStep(served, input.baseline);
      } else {
        PollInStep(served, input.poll);
        var polled := Poll(served, input.poll);
        if !polled.ended {
          HealthInStep(polled, input.health);
        }
      }
    }
  }

  lemma {:induction false} RunInStep(s: Session, inputs: seq<Input>)
    requires InStep(s)
    ensures InStep(Run(s, inputs))
    decreases |inputs|
  {
    if inputs != [] && !s.ended {
      TurnInStep(s, inputs[0]);
      RunInStep(Turn(s, inputs[0]), inputs[1..]);
    }
  }

  /** Whatever the client answers, whatever is asked of the session, whenever the
      channel closes: what the session emits is continuous. */
  lemma SessionsAreContinuous(inputs: seq<Input>)
    ensures Continuous(Run(Initial(), inputs).trace)
  {
    RunInStep(Initial(), inputs);
  }

  // ----- what continuity means -----

  /** The events of a stretch of the trace, in order. */
  function Events(trace: seq<Happening>): seq<Event> {
    if trace == [] then []
    else
      var last := trace[|trace| - 1];
      Events(trace[..|trace| - 1]) + (if last.Streamed? then last.events else [])
  }

  ghost predicate NothingPublished(trace: seq<Happening>) {
    forall i :: 0 <= i < |trace| ==> !trace[i].Published?
  }

  /** The events of `segment` form a chain from the snapshot published before it, and
      the reader is at its end, or adrift if continuity was lost. */
  ghost predicate ChainedTo(start: Happening, segment: seq<Happening>, c: Cursor)
    requires start.Published?
  {
    && Chain(start.snapshot.mark, Events(segment))
    && c == if Lost in segment then Adrift else On(Last(start.snapshot.mark, Events(segment)), start.snapshot, start.at)
  }

  lemma SegmentGrows(start: Happening, rest: seq<Happening>, c: Cursor, last: Happening)
    requires start.Published? && ChainedTo(start, rest, c) && Follows(c, last) && !last.Published?
    ensures ChainedTo(start, rest + [last], Move(c, last))
  {
    assert (rest + [last])[..|rest|] == rest;
    if last.Streamed? {
      ChainsCompose(start.snapshot.mark, Events(rest), last.events);
    }
  }

  /** The place reached after `i` happenings. */
  function Place(trace: seq<Happening>, i: nat): Cursor
    requires i <= |trace|
  {
    CursorAfter(Adrift, trace[..i])
  }

  ghost predicate Advances(place: nat -> Cursor, trace: seq<Happening>, i: nat)
    requires i < |trace|
  {
    Follows(place(i), trace[i]) && place(i + 1) == Move(place(i), trace[i])
  }

  lemma PlacesAdvance(trace: seq<Happening>, place: nat -> Cursor)
    requires Continuous(trace) && forall i: nat :: i <= |trace| ==> place(i) == Place(trace, i)
    ensures forall i: nat :: i < |trace| ==> Advances(place, trace, i)
  {
    forall i: nat | i < |trace|
      ensures Advances(place, trace, i)
    {
      assert trace[..i + 1][..i] == trace[..i];
    }
  }

  lemma SegmentEnds(trace: seq<Happening>, from: nat, to: nat)
    requires from < to <= |trace|
    ensures trace[from..to] == trace[from..to - 1] + [trace[to - 1]]
    ensures NothingPublished(trace[from..to]) ==> NothingPublished(trace[from..to - 1]) && !trace[to - 1].Published?
  {
    var segment, rest := trace[from..to], trace[from..to - 1];
    assert segment == rest + [trace[to - 1]];
    assert forall i :: 0 <= i < |rest| ==> rest[i] == segment[i];
    assert segment[|rest|] == trace[to - 1];
  }

  lemma {:induction false} SegmentIsChained(trace: seq<Happening>, place: nat -> Cursor, k: nat, j: nat)
    requires forall i: nat :: i < |trace| ==> Advances(place, trace, i)
    requires k < j <= |trace| && trace[k].Published? && NothingPublished(trace[k + 1..j])
    ensures ChainedTo(trace[k], trace[k + 1..j], place(j))
    decreases j
  {
    assert Advances(place, trace, j - 1);
    if j == k + 1 {
      assert trace[k + 1..j] == [];
    } else {
      SegmentEnds(trace, k + 1, j);
      SegmentIsChained(trace, place, k, j - 1);
      SegmentGrows(trace[k], trace[k + 1..j - 1], place(j - 1), trace[j - 1]);
    }
  }

  /** From a published snapshot on, up to the next, the events form one chain from the
      snapshot's mark; once continuity is lost there are no more of them. */
  lemma EventsContinueTheSnapshot(trace: seq<Happening>, k: nat, j: nat)
    requires Continuous(trace) && k < j <= |trace| && trace[k].Published?
    requires NothingPublished(trace[k + 1..j])
    ensures ChainedTo(trace[k], trace[k + 1..j], Place(trace, j))
  {
    var place := (i: nat) => if i <= |trace| then Place(trace, i) else Adrift;
    PlacesAdvance(trace, place);
    SegmentIsChained(trace, place, k, j);
  }

  /** No event and no retained snapshot is given out between a loss and the next
      published snapshot. */
  lemma NothingStreamsAdrift(trace: seq<Happening>, k: nat, i: nat, j: nat)
    requires Continuous(trace) && k < i < j < |trace| && trace[k].Published?
    requires NothingPublished(trace[k + 1..j]) && trace[i] == Lost
    ensures !trace[j].Streamed? && !trace[j].Answered?
  {
    EventsContinueTheSnapshot(trace, k, j);
    assert trace[k + 1..j][i - (k + 1)] == Lost;
    assert Place(trace, j) == Adrift;
    assert Follows(CursorAfter(Adrift, trace[..j]), trace[j]);
  }

  /** Where the cursor stands on a snapshot, that snapshot was published, and nothing
      was published or lost since. */
  lemma {:induction false} CursorWasPublished(trace: seq<Happening>) returns (i: nat)
    requires CursorAfter(Adrift, trace).On?
    ensures i < |trace|
    ensures trace[i] == Published(CursorAfter(Adrift, trace).snapshot, CursorAfter(Adrift, trace).at)
    ensures forall j :: i < j < |trace| ==> !trace[j].Published? && trace[j] != Lost
    decreases |trace|
  {
    var last := |trace| - 1;
    if trace[last].Published? {
      i := last;
    } else {
      i := CursorWasPublished(trace[..last]);
    }
  }

  /** A snapshot answered from the cache is the last one published in the present
      stretch of continuity, at most the allowed age before the answer. */
  lemma CachedAnswersAreRecent(trace: seq<Happening>, k: nat) returns (i: nat)
    requires Continuous(trace) && k < |trace| && trace[k].Answered?
    ensures i < k && trace[i].Published? && trace[i].snapshot == trace[k].snapshot
    ensures Age(trace[k].now, trace[i].at) <= RECENT_SNAPSHOT_MAX_AGE
    ensures forall j :: i < j < k ==> !trace[j].Published? && trace[j] != Lost
  {
    assert Follows(CursorAfter(Adrift, trace[..k]), trace[k]);
    i := CursorWasPublished(trace[..k]);
    assert forall j :: 0 <= j < k ==> trace[..k][j] == trace[j];
  }

  // ----- what a turn does about it -----

  /** The session as it stands before polling, when this turn does poll. */
  ghost predicate Polls(s: Session, input: Input, before: Session) {
    before == Serve(Open(s, input.refresh), input.call) && !before.ended && before.boundary.Some?
  }

  /** A batch reaches the daemon exactly when it continues the boundary, which then
      moves to its end; otherwise the boundary is dropped. */
  lemma BatchesAreDeliveredExactly(s: Session, input: Input, before: Session)
    requires Polls(s, input, before) && input.poll.Events? && input.poll.events != [] && input.poll.delivered
    ensures var after, events := Turn(s, input), input.poll.events;
            var place := |before.trace| + 1;
            && place < |after.trace|
            && after.trace[place] == (if Chain(before.boundary.value, events) then Streamed(events) else Lost)
            && (forall i :: place < i < |after.trace| ==> after.trace[i].Requested?)
            && after.boundary == (if Chain(before.boundary.value, events) then Some(Last(before.boundary.value, events)) else None)
  {
  }

  /** The call reads a snapshot from the client, which is ready and reaches the daemon. */
  predicate Restores(call: Option<Call>) {
    && call.Some? && call.value.sameClient && call.value.operation.ReadSnapshot?
    && call.value.operation.answer.Ready? && call.value.operation.answer.delivered
  }

  /** After a gap or a resync reply the next turn has nothing retained to answer from.
      A snapshot call that the client answers restores continuity at that snapshot's
      mark, and the turn polls from there; otherwise the turn asks for a baseline, and
      a ready one restores continuity at its own mark. */
  lemma LossIsRepaired(s: Session, input: Input, before: Session, next: Input)
    requires Polls(s, input, before)
    requires input.poll.ResyncRequired?
             || (input.poll.Events? && input.poll.events != [] && !Chain(before.boundary.value, input.poll.events))
    requires !Turn(s, input).ended
    ensures var lost := Turn(s, input);
            var served, repaired := Serve(Open(lost, next.refresh), next.call), Turn(lost, next);
            && lost.boundary.None?
            && (Restores(next.call) ==>
                  var answer := next.call.value.operation.answer;
                  && Polls(lost, next, served) && served.boundary == Some(answer.snapshot.mark)
                  && served.retained == Some(Retained(answer.snapshot, answer.at))
                  && |served.trace| >= 2
                  && served.trace[|served.trace| - 2..] == [Published(answer.snapshot, answer.at), Told(Fresh(answer.snapshot))])
            && (!Restores(next.call) && !served.ended ==>
                  && repaired == Baseline(served, next.baseline)
                  && (next.baseline.Ready? && next.baseline.delivered ==>
                        && repaired.boundary == Some(next.baseline.snapshot.mark)
                        && repaired.retained == Some(Retained(next.baseline.snapshot, next.baseline.at))
                        && repaired.trace == served.trace + [Requested(served.requestId, served.turns),
                                                             Published(next.baseline.snapshot, next.baseline.at)]))
  {
    assert Turn(s, input).boundary.None?;
  }

  // ----- request numbers -----

  /** The requests of the trace carry the numbers of their places in the sequence,
      each further along than the last, and all before place `bound`. */
  predicate Numbered(trace: seq<Happening>, bound: nat) {
    if trace == [] then true
    else
      var rest, last := trace[..|trace| - 1], trace[|trace| - 1];
      if last.Requested? then last.turn < bound && last.id == Successor(1, last.turn) && Numbered(rest, last.turn)
      else Numbered(rest, bound)
  }

  lemma {:induction false} NumberedFurther(trace: seq<Happening>, bound: nat, further: nat)
    requires Numbered(trace, bound) && bound <= further
    ensures Numbered(trace, further)
    decreases |trace|
  {
    if trace != [] && !trace[|trace| - 1].Requested? {
      NumberedFurther(trace[..|trace| - 1], bound, further);
    }
  }

  lemma NumberedNote(trace: seq<Happening>, h: Happening, bound: nat)
    requires Numbered(trace, bound)
    requires h.Requested? ==> h.turn == bound && h.id == Successor(1, bound)
    ensures Numbered(trace + [h], if h.Requested? then bound + 1 else bound)
  {
    assert (trace + [h])[..|trace|] == trace;
  }

  /** The present number is unused. */
  ghost predicate Free(s: Session) {
    s.requestId == Successor(1, s.turns) && Numbered(s.trace, s.turns)
  }

  /** The present number has just been used. */
  ghost predicate Asked(s: Session) {
    s.requestId == Successor(1, s.turns) && Numbered(s.trace, s.turns + 1)
  }

  ghost predicate Tidy(s: Session) {
    if s.ended then Asked(s) else Free(s)
  }

  lemma Ask(s: Session)
    requires Free(s)
    ensures Asked(s.Request())
  {
    NumberedNote(s.trace, Requested(s.requestId, s.turns), s.turns);
  }

  lemma FreeIsEnough(s: Session)
    requires Free(s)
    ensures Asked(s) && Asked(s.End())
  {
    NumberedFurther(s.trace, s.turns, s.turns + 1);
  }

  lemma AdvanceFrees(s: Session)
    requires Asked(s)
    ensures Free(s.Advance())
  {
    SuccessorOfLast(1, s.turns);
  }

  lemma AskedNote(s: Session, h: Happening)
    requires Asked(s) && !h.Requested?
    ensures Asked(s.Note(h))
  {
    NumberedNote(s.trace, h, s.turns + 1);
  }

  lemma FreeNote(s: Session, h: Happening)
    requires Free(s) && !h.Requested?
    ensures Free(s.Note(h))
  {
    NumberedNote(s.trace, h, s.turns);
  }

  lemma AskedPublish(s: Session, snapshot: Snapshot, at: nat, delivered: bool)
    requires Asked(s)
    ensures Asked(Publish(s, snapshot, at, delivered))
  {
    AskedNote(s.(boundary := Some(snapshot.mark), retained := Some(Retained(snapshot, at))), Published(snapshot, at));
  }

  lemma ReadFreshTidy(s: Session, answer: SnapshotAnswer)
    requires Free(s) && !s.ended
    ensures Tidy(ReadFresh(s, answer)) && ReadFresh(s, answer).turns <= s.turns + 1
  {
    Ask(s);
    var asked := s.Request();
    AdvanceFrees(asked);
    if answer.Ready? {
      AskedPublish(asked, answer.snapshot, answer.at, answer.delivered);
      var published := Publish(asked, answer.snapshot, answer.at, answer.delivered);
      AdvanceFrees(published);
      FreeNote(published.Advance(), Told(Fresh(answer.snapshot)));
    } else {
      FreeNote(asked.Advance(), Told(Refused));
      FreeIsEnough(asked.Advance().Note(Told(Refused)));
    }
  }

  lemma ServeTidy(s: Session, call: Option<Call>)
    requires Free(s) && !s.ended
    ensures Tidy(Serve(s, call)) && Serve(s, call).turns <= s.turns + 1
  {
    if call.Some? && !call.value.sameClient {
      FreeNote(s, Told(Refused));
    } else if call.Some? {
      Ask(s);
      AdvanceFrees(s.Request());
      if call.value.operation.Other? {
        var result, served := call.value.operation.result, s.Request().Advance();
        FreeNote(served, Told(if result.Some? then Result(result.value) else Refused));
        FreeIsEnough(served.Note(Told(Refused)));
      } else {
        var operation := call.value.operation;
        var recent := Resolve(s.retained, operation.exact, operation.now);
        if recent.Some? {
          var answered := s.Note(Answered(recent.value, operation.now));
          FreeNote(s, Answered(recent.value, operation.now));
          FreeIsEnough(answered);
          AdvanceFrees(answered);
        } else {
          ReadFreshTidy(s, operation.answer);
        }
      }
    }
  }

  lemma BaselineTidy(s: Session, answer: SnapshotAnswer)
    requires Free(s) && !s.ended
    ensures Tidy(Baseline(s, answer)) && Baseline(s, answer).turns <= s.turns + 1
  {
    Ask(s);
    var asked := s.Request();
    if answer.Ready? {
      AskedPublish(asked, answer.snapshot, answer.at, answer.delivered);
      AdvanceFrees(Publish(asked, answer.snapshot, answer.at, answer.delivered));
    } else if answer.NotReady? {
      AskedNote(asked, Unavailable);
      AdvanceFrees(asked.Note(Unavailable));
    }
  }

  /** A step that notes at most one thing, no request. */
  lemma AskedStep(s: Session, after: Session, h: Happening)
    requires Asked(s) && after.requestId == s.requestId && after.turns == s.turns && !h.Requested?
    requires after.trace == s.trace || after.trace == s.trace + [h]
    ensures Asked(after)
  {
    if after.trace != s.trace {
      NumberedNote(s.trace, h, s.turns + 1);
    }
  }

  lemma StreamAsked(s: Session, events: seq<Event>, delivered: bool)
    requires Asked(s) && s.boundary.Some?
    ensures Asked(Stream(s, events, delivered))
  {
    AskedStep(s, Stream(s, events, delivered), if Chain(s.boundary.value, events) then Streamed(events) else Lost);
  }

  lemma PollTidy(s: Session, answer: PollAnswer)
    requires Free(s) && !s.ended && s.boundary.Some?
    ensures Tidy(Poll(s, answer)) && Poll(s, answer).turns <= s.turns + 1
  {
    Ask(s);
    var asked := s.Request();
    if answer.Events? {
      StreamAsked(asked, answer.events, answer.delivered);
      AdvanceFrees(Stream(asked, answer.events, answer.delivered));
    } else if answer.ResyncRequired? {
      AskedNote(asked.(boundary := None), Lost);
      AdvanceFrees(asked.Lose());
    }
  }

  lemma HealthTidy(s: Session, answer: HealthAnswer)
    requires Free(s) && !s.ended
    ensures Tidy(CheckHealth(s, answer)) && CheckHealth(s, answer).turns <= s.turns + 2
  {
    Ask(s);
    AdvanceFrees(s.Request());
    var second := s.Request().Advance();
    FreeIsEnough(second);
    Ask(second);
    AdvanceFrees(second.Request());
    FreeIsEnough(second.Request().Advance());
  }

  lemma OpenTidy(s: Session, refresh: bool)
    requires Free(s) && !s.ended
    ensures Free(Open(s, refresh)) && !Open(s, refresh).ended && Open(s, refresh).turns == s.turns
  {
    FreeNote(s.(boundary := None), Lost);
  }

  lemma TurnTidy(s: Session, input: Input)
    requires Free(s) && !s.ended
    ensures Tidy(Turn(s, input)) && Turn(s, input).turns <= s.turns + 4
  {
    var open := Open(s, input.refresh);
    OpenTidy(s, input.refresh);
    ServeTidy(open, input.call);
    var served := Serve(open, input.call);
    if !served.ended {
      if served.boundary.None? {
        BaselineTidy(served, input.baseline);
      } else {
        PollTidy(served, input.poll);
        var polled := Poll(served, input.poll);
        if !polled.ended {
          HealthTidy(polled, input.health);
        }
      }
    }
  }

  lemma {:induction false} RunTidy(s: Session, inputs: seq<Input>)
    requires Tidy(s)
    ensures Tidy(Run(s, inputs)) && Run(s, inputs).turns <= s.turns + 4 * |inputs|
    decreases |inputs|
  {
    if inputs != [] && !s.ended {
      TurnTidy(s, inputs[0]);
      RunTidy(Turn(s, inputs[0]), inputs[1..]);
    }
  }

  lemma {:induction false} NumbersAdvance(trace: seq<Happening>, bound: nat, i: nat, j: nat)
    requires Numbered(trace, bound) && i <= j < |trace| && trace[i].Requested? && trace[j].Requested?
    ensures trace[i].turn <= trace[j].turn < bound && (i < j ==> trace[i].turn < trace[j].turn)
    ensures trace[i].id == Successor(1, trace[i].turn) && trace[j].id == Successor(1, trace[j].turn)
    decreases |trace|
  {
    var last := |trace| - 1;
    var rest := trace[..last];
    if j < last {
      NumbersAdvance(rest, if trace[last].Requested? then trace[last].turn else bound, i, j);
    } else if i < last {
      NumbersAdvance(rest, trace[last].turn, i, i);
    }
  }

  lemma {:induction false} RunNumbers(inputs: seq<Input>)
    ensures Numbered(Run(Initial(), inputs).trace, 4 * |inputs| + 1)
  {
    RunTidy(Initial(), inputs);
    var end := Run(Initial(), inputs);
    if !end.ended {
      FreeIsEnough(end);
    }
    NumberedFurther(end.trace, end.turns + 1, 4 * |inputs| + 1);
  }

  /** No two requests of a session share a number, short of a whole cycle of them:
      four at most are used each turn. */
  lemma {:induction false} RequestNumbersAreDistinct(inputs: seq<Input>, trace: seq<Happening>, i: nat, j: nat)
    requires trace == Run(Initial(), inputs).trace && 4 * |inputs| < CYCLE
    requires i < j < |trace| && trace[i].Requested? && trace[j].Requested?
    ensures trace[i].id != trace[j].id
  {
    RunNumbers(inputs);
    NumbersAdvance(trace, 4 * |inputs| + 1, i, j);
    SuccessorsAreDistinct(1, trace[i].turn, trace[j].turn);
  }
}

/** The loop itself. */
module MonitorLoop {
  import opened Words
  import opened Wrappers
  import opened Sequence
  import opened EventChain
  import opened MonitorSession
  import MonitorTheorems

  class SnapshotCache {
    var retained: Option<Retained>

    constructor ()
      ensures retained == None
    {
      retained := None;
    }

    method Find(exact: bool, now: nat) returns (r: Option<Snapshot>)
      ensures r == Resolve(retained, exact, now)
    {
      if exact {
        return None;
      }
      if retained.Some? && Age(now, retained.value.capturedAt) <= RECENT_SNAPSHOT_MAX_AGE {
        return Some(retained.value.snapshot);
      }
      return None;
    }

    method Retain(snapshot: Snapshot, capturedAt: nat)
      modifies this
      ensures retained == Some(Retained(snapshot, capturedAt))
    {
      retained := Some(Retained(snapshot, capturedAt));
    }

    method Clear()
      modifies this
      ensures retained == None
    {
      retained := None;
    }
  }

  class Monitor {
    var requestId: u32
    var boundary: Option<Mark>
    const snapshots: SnapshotCache
    ghost var turns: nat
    ghost var trace: seq<Happening>

    ghost function State(ended: bool): Session
      reads this, snapshots
    {
      Session(requestId, turns, boundary, snapshots.retained, ended, trace)
    }

    constructor ()
      ensures State(false) == Initial() && fresh(snapshots)
    {
      requestId, boundary := 1, None;
      snapshots := new SnapshotCache();
      turns, trace := 0, [];
    }

    method Advance()
      modifies this`requestId, this`turns
      ensures requestId == Next(old(requestId)) && turns == old(turns) + 1
    {
      requestId, turns := Next(requestId), turns + 1;
    }

    ghost method Note(h: Happening)
      modifies this`trace
      ensures trace == old(trace) + [h]
    {
      trace := trace + [h];
    }

    method PublishSnapshot(snapshot: Snapshot, at: nat, delivered: bool) returns (ok: bool)
      modifies this`boundary, this`trace, snapshots
      ensures State(!ok) == Publish(old(State(false)), snapshot, at, delivered)
    {
      boundary := Some(snapshot.mark);
      snapshots.Retain(snapshot, at);
      if delivered {
        Note(Published(snapshot, at));
      }
      return delivered;
    }

    method ReadSnapshotFor(exact: bool, now: nat, answer: SnapshotAnswer) returns (ok: bool)
      modifies this, snapshots
      ensures State(!ok) == Serve(old(State(false)), Some(Call(true, ReadSnapshot(exact, now, answer))))
    {
      var recent := snapshots.Find(exact, now);
      if recent.Some? {
        Note(Answered(recent.value, now));
        Advance();
        return true;
      }
      Note(Requested(requestId, turns));
      if answer.Ready? {
        var published := PublishSnapshot(answer.snapshot, answer.at, answer.delivered);
        if !published {
          return false;
        }
      }
      Advance();
      Note(Told(if answer.Ready? then Fresh(answer.snapshot) else Refused));
      return !answer.SnapshotFailed?;
    }

    method ServeCall(call: Call) returns (ok: bool)
      modifies this, snapshots
      ensures State(!ok) == Serve(old(State(false)), Some(call))
    {
      if !call.sameClient {
        Note(Told(Refused));
        return true;
      }
      match call.operation {
        case ReadSnapshot(exact, now, answer) =>
          ok := ReadSnapshotFor(exact, now, answer);
        case Other(result) =>
          Note(Requested(requestId, turns));
          Advance();
          Note(Told(if result.Some? then Result(result.value) else Refused));
          ok := result.Some?;
      }
    }

    method ReadBaseline(answer: SnapshotAnswer) returns (ok: bool)
      modifies this, snapshots
      ensures State(!ok) == Baseline(old(State(false)), answer)
    {
      Note(Requested(requestId, turns));
      match answer {
        case SnapshotFailed =>
          return false;
        case Ready(snapshot, at, delivered) =>
          var published := PublishSnapshot(snapshot, at, delivered);
          if !published {
            return false;
          }
        case NotReady(delivered, stopped) =>
          if !delivered {
            return false;
          }
          Note(Unavailable);
          if stopped {
            return false;
          }
      }
      Advance();
      return true;
    }

    method PollEvents(answer: PollAnswer) returns (ok: bool)
      requires boundary.Some?
      modifies this
      ensures snapshots.retained == old(snapshots.retained)
      ensures State(!ok) == Poll(old(State(false)), answer)
    {
      var after := boundary.value;
      Note(Requested(requestId, turns));
      match answer {
        case PollFailed =>
          return false;
        case ResyncRequired =>
          boundary := None;
          Note(Lost);
        case Events(events, delivered) =>
          if events != [] {
            var next := ValidateEventBatch(after.sequence, after.revision, events);
            if next.Some? {
              boundary := next;
              if !delivered {
                return false;
              }
              Note(Streamed(events));
            } else {
              boundary := None;
              Note(Lost);
            }
          }
      }
      Advance();
      return true;
    }

    method CheckOnHealth(answer: HealthAnswer) returns (ok: bool)
      modifies this`requestId, this`turns, this`trace
      ensures State(!ok) == CheckHealth(old(State(false)), answer)
    {
      if answer.NotDue? {
        return true;
      }
      Note(Requested(requestId, turns));
      if !answer.health {
        return false;
      }
      Advance();
      if !answer.healthTold {
        return false;
      }
      Note(Requested(requestId, turns));
      if !answer.diagnostics {
        return false;
      }
      Advance();
      return answer.diagnosticsTold;
    }

    /** One pass of the loop is one turn. */
    method Pass(input: Input) returns (ok: bool)
      modifies this, snapshots
      ensures State(!ok) == Turn(old(State(false)), input)
    {
      if input.refresh {
        boundary := None;
        Note(Lost);
      }
      if boundary.None? {
        snapshots.Clear();
      }
      assert State(false) == Open(old(State(false)), input.refresh);
      if input.call.Some? {
        var served := ServeCall(input.call.value);
        if !served {
          return false;
        }
      }
      if boundary.None? {
        ok := ReadBaseline(input.baseline);
        return;
      }
      ok := PollEvents(input.poll);
      if ok {
        ok := CheckOnHealth(input.health);
      }
    }
  }

  lemma {:induction false} RunsOn(s: Session, inputs: seq<Input>, n: nat)
    requires n < |inputs|
    ensures Run(s, inputs[..n + 1]) == if Run(s, inputs[..n]).ended then Run(s, inputs[..n]) else Turn(Run(s, inputs[..n]), inputs[n])
    decreases n
  {
    if n == 0 {
      assert inputs[..0] == [] && inputs[..1] == [inputs[0]] && inputs[..1][1..] == [];
    } else if !s.ended {
      var rest := inputs[1..];
      assert inputs[..n + 1][1..] == rest[..n] && inputs[..n][1..] == rest[..n - 1];
      RunsOn(Turn(s, inputs[0]), rest, n - 1);
    }
  }

  /** The worker's session: turn after turn until something ends it or it is told to
      stop, and everything it has emitted is continuous. */
  method RunMonitor(inputs: seq<Input>) returns (ok: bool, monitor: Monitor)
    ensures monitor.State(!ok) == Run(Initial(), inputs)
    ensures MonitorTheorems.Continuous(monitor.trace)
  {
    monitor := new Monitor();
    ok := true;
    for i := 0 to |inputs|
      invariant ok && fresh(monitor) && fresh(monitor.snapshots)
      invariant monitor.State(false) == Run(Initial(), inputs[..i])
    {
      RunsOn(Initial(), inputs, i);
      ok := monitor.Pass(inputs[i]);
      if !ok {
        RunEnds(Initial(), inputs, i + 1);
        MonitorTheorems.SessionsAreContinuous(inputs);
        return;
      }
    }
    assert inputs[..|inputs|] == inputs;
    MonitorTheorems.SessionsAreContinuous(inputs);
  }

  lemma {:induction false} RunEnds(s: Session, inputs: seq<Input>, n: nat)
    requires n <= |inputs| && Run(s, inputs[..n]).ended
    ensures Run(s, inputs) == Run(s, inputs[..n])
    decreases |inputs|
  {
    if n > 0 && !s.ended {
      assert inputs[..n][1..] == inputs[1..][..n - 1];
      RunEnds(Turn(s, inputs[0]), inputs[1..], n - 1);
    }
  }
}
