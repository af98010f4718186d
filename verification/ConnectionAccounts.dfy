/** What a session owes its two sides over a whole run: the daemon gets every accepted
    event once and in order, and every caller gets one reply. */
module MonitorAccounts {
  import opened Words
  import opened Wrappers
  import opened Sequence
  import opened EventChain
  import opened MonitorSession
  import opened MonitorTheorems

  predicate IsReply(h: Happening) {
    h.Answered? || h.Told?
  }

  function Replies(trace: seq<Happening>): nat {
    if trace == [] then 0
    else Replies(trace[..|trace| - 1]) + (if IsReply(trace[|trace| - 1]) then 1 else 0)
  }

  /** The later trace has just these further events and replies. */
  ghost predicate Adds(before: seq<Happening>, after: seq<Happening>, events: seq<Event>, replies: nat) {
    MonitorTheorems.Events(after) == MonitorTheorems.Events(before) + events && Replies(after) == Replies(before) + replies
  }

  lemma NoteAdds(s: Session, h: Happening)
    ensures Adds(s.trace, s.Note(h).trace, if h.Streamed? then h.events else [], if IsReply(h) then 1 else 0)
  {
    assert (s.trace + [h])[..|s.trace|] == s.trace;
  }

  lemma AddsCompose(a: seq<Happening>, b: seq<Happening>, c: seq<Happening>, first: seq<Event>, n: nat, second: seq<Event>, m: nat)
    requires Adds(a, b, first, n) && Adds(b, c, second, m)
    ensures Adds(a, c, first + second, n + m)
    ensures first == [] ==> Adds(a, c, second, n + m)
    ensures second == [] ==> Adds(a, c, first, n + m)
  {
  }

  // ----- turn by turn -----

  lemma QuietNote(s: Session, h: Happening)
    requires !h.Streamed? && !IsReply(h)
    ensures Adds(s.trace, s.Note(h).trace, [], 0)
  {
    NoteAdds(s, h);
  }

  lemma OpenAdds(s: Session, refresh: bool)
    ensures Adds(s.trace, Open(s, refresh).trace, [], 0)
  {
    QuietNote(s, Lost);
  }

  lemma PublishAdds(s: Session, snapshot: Snapshot, at: nat, delivered: bool)
    ensures Adds(s.trace, Publish(s, snapshot, at, delivered).trace, [], 0)
  {
    QuietNote(s, Published(snapshot, at));
  }

  lemma BaselineAdds(s: Session, answer: SnapshotAnswer)
    ensures Adds(s.trace, Baseline(s, answer).trace, [], 0)
  {
    var asked := s.Request();
    QuietNote(s, Requested(s.requestId, s.turns));
    if answer.Ready? {
      PublishAdds(asked, answer.snapshot, answer.at, answer.delivered);
    } else {
      QuietNote(asked, Unavailable);
    }
  }

  lemma HealthAdds(s: Session, answer: HealthAnswer)
    ensures Adds(s.trace, CheckHealth(s, answer).trace, [], 0)
  {
    QuietNote(s, Requested(s.requestId, s.turns));
    var next := s.Request().Advance();
    QuietNote(next, Requested(next.requestId, next.turns));
  }

  /** The events a poll passes on: a nonempty continuation of the boundary. */
  function AcceptedIn(boundary: Mark, answer: PollAnswer): seq<Event> {
    if answer.Events? && answer.delivered && Chain(boundary, answer.events) then answer.events else []
  }

  lemma StreamAdds(s: Session, events: seq<Event>, delivered: bool)
    requires s.boundary.Some?
    ensures Adds(s.trace, Stream(s, events, delivered).trace,
                 AcceptedIn(s.boundary.value, PollAnswer.Events(events, delivered)), 0)
  {
    if events != [] && Chain(s.boundary.value, events) {
      NoteAdds(s.(boundary := Some(Last(s.boundary.value, events))), Streamed(events));
    } else if events != [] {
      QuietNote(s, Lost);
    }
  }

  lemma PollAdds(s: Session, answer: PollAnswer)
    requires s.boundary.Some?
    ensures Adds(s.trace, Poll(s, answer).trace, AcceptedIn(s.boundary.value, answer), 0)
  {
    var asked := s.Request();
    QuietNote(s, Requested(s.requestId, s.turns));
    if answer.Events? {
      StreamAdds(asked, answer.events, answer.delivered);
      AddsCompose(s.trace, asked.trace, Stream(asked, answer.events, answer.delivered).trace,
                  [], 0, AcceptedIn(s.boundary.value, answer), 0);
    } else {
      QuietNote(asked, Lost);
    }
  }

  /** A snapshot the client gave for a call could not be passed to the daemon; the
      session ends there and the caller is left without a reply. */
  predicate Abandons(s: Session, call: Option<Call>) {
    && call.Some? && call.value.sameClient && call.value.operation.ReadSnapshot?
    && var operation := call.value.operation;
       && Resolve(s.retained, operation.exact, operation.now).None?
       && operation.answer.Ready? && !operation.answer.delivered
  }

  function RepliesIn(s: Session, call: Option<Call>): nat {
    if call.None? || Abandons(s, call) then 0 else 1
  }

  lemma ReadFreshAdds(s: Session, answer: SnapshotAnswer)
    requires !s.ended
    ensures Adds(s.trace, ReadFresh(s, answer).trace, [], if answer.Ready? && !answer.delivered then 0 else 1)
  {
    var asked := s.Request();
    QuietNote(s, Requested(s.requestId, s.turns));
    if answer.Ready? {
      PublishAdds(asked, answer.snapshot, answer.at, answer.delivered);
      NoteAdds(Publish(asked, answer.snapshot, answer.at, answer.delivered).Advance(), Told(Fresh(answer.snapshot)));
    } else {
      NoteAdds(asked.Advance(), Told(Refused));
    }
  }

  lemma ServeAdds(s: Session, call: Option<Call>)
    requires !s.ended
    ensures Adds(s.trace, Serve(s, call).trace, [], RepliesIn(s, call))
    ensures Abandons(s, call) ==> Serve(s, call).ended
  {
    if call.Some? && !call.value.sameClient {
      NoteAdds(s, Told(Refused));
    } else if call.Some? && call.value.operation.Other? {
      var result := call.value.operation.result;
      QuietNote(s, Requested(s.requestId, s.turns));
      NoteAdds(s.Request().Advance(), Told(if result.Some? then Result(result.value) else Refused));
    } else if call.Some? {
      var operation := call.value.operation;
      var recent := Resolve(s.retained, operation.exact, operation.now);
      if recent.Some? {
        NoteAdds(s, Answered(recent.value, operation.now));
      } else {
        ReadFreshAdds(s, operation.answer);
      }
    }
  }

  // ----- runs -----

  /** The session as the call of this turn leaves it. */
  function Served(s: Session, input: Input): Session {
    Serve(Open(s, input.refresh), input.call)
  }

  function TurnAccepts(s: Session, input: Input): seq<Event> {
    var served := Served(s, input);
    if served.ended || served.boundary.None? then [] else AcceptedIn(served.boundary.value, input.poll)
  }

  lemma TurnPolls(s: Session, input: Input)
    requires !Served(s, input).ended && Served(s, input).boundary.Some?
    ensures Adds(Served(s, input).trace, Turn(s, input).trace, TurnAccepts(s, input), 0)
  {
    var served := Served(s, input);
    var polled := Poll(served, input.poll);
    PollAdds(served, input.poll);
    if !polled.ended {
      HealthAdds(polled, input.health);
      AddsCompose(served.trace, polled.trace, Turn(s, input).trace, TurnAccepts(s, input), 0, [], 0);
    }
  }

  lemma TurnRests(s: Session, input: Input)
    requires Served(s, input).ended || Served(s, input).boundary.None?
    ensures Adds(Served(s, input).trace, Turn(s, input).trace, [], 0)
  {
    BaselineAdds(Served(s, input), input.baseline);
  }

  lemma TurnAdds(s: Session, input: Input)
    requires !s.ended
    ensures Adds(s.trace, Turn(s, input).trace, TurnAccepts(s, input), RepliesIn(Open(s, input.refresh), input.call))
    ensures Abandons(Open(s, input.refresh), input.call) ==> Turn(s, input).ended
  {
    var open, served := Open(s, input.refresh), Served(s, input);
    OpenAdds(s, input.refresh);
    ServeAdds(open, input.call);
    AddsCompose(s.trace, open.trace, served.trace, [], 0, [], RepliesIn(open, input.call));
    if served.ended || served.boundary.None? {
      TurnRests(s, input);
    } else {
      TurnPolls(s, input);
    }
    AddsCompose(s.trace, served.trace, Turn(s, input).trace, [], RepliesIn(open, input.call), TurnAccepts(s, input), 0);
  }

  /** All the batches of a run that continued the boundary they met, in order. */
  function Accepted(s: Session, inputs: seq<Input>): seq<Event>
    decreases |inputs|
  {
    if inputs == [] || s.ended then [] else TurnAccepts(s, inputs[0]) + Accepted(Turn(s, inputs[0]), inputs[1..])
  }

  /** The calls a run takes up. */
  function Calls(s: Session, inputs: seq<Input>): nat
    decreases |inputs|
  {
    if inputs == [] || s.ended then 0
    else (if inputs[0].call.Some? then 1 else 0) + Calls(Turn(s, inputs[0]), inputs[1..])
  }

  /** The run ended at a call that got no reply. */
  predicate EndsAbandoning(s: Session, inputs: seq<Input>)
    decreases |inputs|
  {
    && inputs != [] && !s.ended
    && (Abandons(Open(s, inputs[0].refresh), inputs[0].call) || EndsAbandoning(Turn(s, inputs[0]), inputs[1..]))
  }

  lemma {:induction false} RunStreams(s: Session, inputs: seq<Input>)
    ensures MonitorTheorems.Events(Run(s, inputs).trace) == MonitorTheorems.Events(s.trace) + Accepted(s, inputs)
    decreases |inputs|
  {
    if inputs != [] && !s.ended {
      TurnAdds(s, inputs[0]);
      RunStreams(Turn(s, inputs[0]), inputs[1..]);
    }
  }

  lemma {:induction false} RunReplies(s: Session, inputs: seq<Input>)
    ensures Replies(Run(s, inputs).trace) + (if EndsAbandoning(s, inputs) then 1 else 0) ==
            Replies(s.trace) + Calls(s, inputs)
    decreases |inputs|
  {
    if inputs != [] && !s.ended {
      TurnAdds(s, inputs[0]);
      RunReplies(Turn(s, inputs[0]), inputs[1..]);
    }
  }

  /** The daemon receives exactly the batches that continued the boundary they met, each
      once and in the order of the polls, over a whole session. */
  lemma AcceptedEventsAreStreamed(inputs: seq<Input>)
    ensures MonitorTheorems.Events(Run(Initial(), inputs).trace) == Accepted(Initial(), inputs)
  {
    RunStreams(Initial(), inputs);
  }

  /** Every call a session takes up is replied to exactly once, except the one whose
      snapshot could not be passed on, which ends the session. */
  lemma EveryCallIsAnswered(inputs: seq<Input>)
    ensures Replies(Run(Initial(), inputs).trace) + (if EndsAbandoning(Initial(), inputs) then 1 else 0) ==
            Calls(Initial(), inputs)
    ensures EndsAbandoning(Initial(), inputs) ==> Run(Initial(), inputs).ended
  {
    RunReplies(Initial(), inputs);
    if EndsAbandoning(Initial(), inputs) {
      AbandoningEnds(Initial(), inputs);
    }
  }

  lemma {:induction false} AbandoningEnds(s: Session, inputs: seq<Input>)
    requires EndsAbandoning(s, inputs)
    ensures Run(s, inputs).ended
    decreases |inputs|
  {
    var next := Turn(s, inputs[0]);
    TurnAdds(s, inputs[0]);
    if !Abandons(Open(s, inputs[0].refresh), inputs[0].call) {
      AbandoningEnds(next, inputs[1..]);
    }
  }

  /** A fresh snapshot given to a caller is the one just published to the daemon, and
      nothing was published or lost since. */
  lemma FreshAnswersArePublished(trace: seq<Happening>, k: nat) returns (i: nat)
    requires Continuous(trace) && k < |trace| && trace[k].Told? && trace[k].reply.Fresh?
    ensures i < k && trace[i].Published? && trace[i].snapshot == trace[k].reply.snapshot
    ensures forall j :: i < j < k ==> !trace[j].Published? && trace[j] != Lost
  {
    assert Follows(CursorAfter(Adrift, trace[..k]), trace[k]);
    i := CursorWasPublished(trace[..k]);
    assert forall j :: 0 <= j < k ==> trace[..k][j] == trace[j];
  }
}
