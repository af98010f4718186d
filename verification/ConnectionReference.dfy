/** What an onlooker is to see of a session, written from the inputs and from where the
    onlooker's own reading stands: what each caller is owed, what the daemon is given,
    and when the session ends. The session itself is proved to show just that. */
module MonitorReference {
  import opened Words
  import opened Wrappers
  import opened Sequence
  import opened EventChain
  import opened MonitorSession
  import opened MonitorTheorems
  import opened MonitorAccounts

  // ----- the reference -----

  /** A refresh forgets where the reading stood. */
  function Refreshed(c: Cursor, refresh: bool): Cursor {
    if refresh then Adrift else c
  }

  /** The last snapshot may stand in for a new one, if nothing was missed since. */
  predicate Usable(c: Cursor, exact: bool, now: nat) {
    !exact && c.On? && Age(now, c.at) <= RECENT_SNAPSHOT_MAX_AGE
  }

  /** The client has to be asked for a snapshot to serve the call. */
  predicate Fetches(c: Cursor, call: Option<Call>) {
    && call.Some? && call.value.sameClient && call.value.operation.ReadSnapshot?
    && !Usable(c, call.value.operation.exact, call.value.operation.now)
  }

  /** What the caller is owed: the result of an operation that has one, the snapshot it
      asks for, a refusal otherwise; nothing at all if the session ends because the
      daemon no longer takes the snapshot. */
  function Owed(c: Cursor, call: Option<Call>): seq<Happening> {
    if call.None? then []
    else if !call.value.sameClient then [Told(Refused)]
    else
      match call.value.operation
      case Other(Some(contents)) => [Told(Result(contents))]
      case Other(None) => [Told(Refused)]
      case ReadSnapshot(exact, now, answer) =>
        if Usable(c, exact, now) then [Answered(c.snapshot, now)]
        else if !answer.Ready? then [Told(Refused)]
        else if answer.delivered then [Told(Fresh(answer.snapshot))]
        else []
  }

  function Given(answer: SnapshotAnswer): seq<Happening> {
    if answer.Ready? && answer.delivered then [Published(answer.snapshot, answer.at)] else []
  }

  function CallSeen(c: Cursor, call: Option<Call>): seq<Happening> {
    if Fetches(c, call) then Given(call.value.operation.answer) + Owed(c, call) else Owed(c, call)
  }

  /** A broken operation, a failed snapshot, or one that the daemon does not take. */
  predicate CallEnds(c: Cursor, call: Option<Call>) {
    || (call.Some? && call.value.sameClient && call.value.operation == Other(None))
    || (Fetches(c, call) && AnswerEnds(call.value.operation.answer))
  }

  predicate AnswerEnds(answer: SnapshotAnswer) {
    answer.SnapshotFailed? || (answer.Ready? && !answer.delivered)
  }

  function BaselineSeen(answer: SnapshotAnswer): seq<Happening> {
    if answer.NotReady? && answer.delivered then [Unavailable] else Given(answer)
  }

  predicate BaselineEnds(answer: SnapshotAnswer) {
    AnswerEnds(answer) || (answer.NotReady? && (answer.stopped || !answer.delivered))
  }

  function PollSeen(mark: Mark, answer: PollAnswer): seq<Happening> {
    match answer
    case Events(events, delivered) =>
      if events == [] then [] else if !Chain(mark, events) then [Lost] else if delivered then [Streamed(events)] else []
    case ResyncRequired => [Lost]
    case PollFailed => []
  }

  predicate PollEnds(mark: Mark, answer: PollAnswer) {
    || answer.PollFailed?
    || (answer.Events? && answer.events != [] && Chain(mark, answer.events) && !answer.delivered)
  }

  predicate HealthEnds(answer: HealthAnswer) {
    answer.Due? && !(answer.health && answer.healthTold && answer.diagnostics && answer.diagnosticsTold)
  }

  /** Whatever the call has led to, as seen. */
  function ServedSeen(c: Cursor, input: Input): seq<Happening> {
    (if input.refresh then [Lost] else []) + CallSeen(Refreshed(c, input.refresh), input.call)
  }

  /** Where the reading stands when the call has been served. */
  function ServedAt(c: Cursor, input: Input): Cursor {
    CursorAfter(c, ServedSeen(c, input))
  }

  function TurnSeen(c: Cursor, input: Input): seq<Happening> {
    ServedSeen(c, input) + RestSeen(c, input)
  }

  /** With a call behind it, the session looks for a baseline or for events. */
  function RestSeen(c: Cursor, input: Input): seq<Happening> {
    if CallEnds(Refreshed(c, input.refresh), input.call) then []
    else if ServedAt(c, input).Adrift? then BaselineSeen(input.baseline)
    else PollSeen(ServedAt(c, input).mark, input.poll)
  }

  predicate TurnEnds(c: Cursor, input: Input) {
    || CallEnds(Refreshed(c, input.refresh), input.call)
    || (if ServedAt(c, input).Adrift? then BaselineEnds(input.baseline)
        else PollEnds(ServedAt(c, input).mark, input.poll) || HealthEnds(input.health))
  }

  /** All that is seen of a session whose onlooker stands at `c`. */
  function Seen(c: Cursor, inputs: seq<Input>): seq<Happening>
    decreases |inputs|
  {
    if inputs == [] then []
    else
      var seen := TurnSeen(c, inputs[0]);
      seen + (if TurnEnds(c, inputs[0]) then [] else Seen(CursorAfter(c, seen), inputs[1..]))
  }

  predicate Ends(c: Cursor, inputs: seq<Input>)
    decreases |inputs|
  {
    inputs != [] && (TurnEnds(c, inputs[0]) || Ends(CursorAfter(c, TurnSeen(c, inputs[0])), inputs[1..]))
  }

  /** What the calls of a session are owed, one after the other. */
  function AllOwed(c: Cursor, inputs: seq<Input>): seq<Happening>
    decreases |inputs|
  {
    if inputs == [] then []
    else
      Owed(Refreshed(c, inputs[0].refresh), inputs[0].call)
      + (if TurnEnds(c, inputs[0]) then [] else AllOwed(CursorAfter(c, TurnSeen(c, inputs[0])), inputs[1..]))
  }

  // ----- what can be seen of a trace -----

  /** The trace without the requests that went to the client. */
  function Visible(trace: seq<Happening>): seq<Happening> {
    if trace == [] then []
    else
      var last := trace[|trace| - 1];
      var earlier := Visible(trace[..|trace| - 1]);
      if last.Requested? then earlier else earlier + [last]
  }

  /** The replies of a trace. */
  function ReplyList(trace: seq<Happening>): seq<Happening> {
    if trace == [] then []
    else
      var last := trace[|trace| - 1];
      var earlier := ReplyList(trace[..|trace| - 1]);
      if IsReply(last) then earlier + [last] else earlier
  }

  ghost predicate Shows(before: Session, after: Session, seen: seq<Happening>) {
    Visible(after.trace) == Visible(before.trace) + seen
  }

  lemma NoteShows(s: Session, h: Happening)
    ensures Shows(s, s.Note(h), if h.Requested? then [] else [h])
  {
    assert (s.trace + [h])[..|s.trace|] == s.trace;
  }

  lemma RequestShows(s: Session)
    ensures Shows(s, s.Request(), []) && Shows(s, s.Request().Advance(), [])
  {
    NoteShows(s, Requested(s.requestId, s.turns));
  }

  lemma ShowsOn(a: Session, b: Session, c: Session, first: seq<Happening>, second: seq<Happening>)
    requires Shows(a, b, first) && Shows(b, c, second)
    ensures Shows(a, c, first + second)
  {
    assert Visible(a.trace) + first + second == Visible(a.trace) + (first + second);
  }

  lemma {:induction false} CursorComposes(c: Cursor, first: seq<Happening>, second: seq<Happening>)
    ensures CursorAfter(c, first + second) == CursorAfter(CursorAfter(c, first), second)
    decreases |second|
  {
    if second == [] {
      assert first + second == first;
    } else {
      var rest, last := second[..|second| - 1], second[|second| - 1];
      CursorComposes(c, first, rest);
      assert first + second == (first + rest) + [last];
      MovesLast(c, first + rest, last);
    }
  }

  lemma MovesLast(c: Cursor, trace: seq<Happening>, last: Happening)
    ensures CursorAfter(c, trace + [last]) == Move(CursorAfter(c, trace), last)
  {
    assert (trace + [last])[..|trace|] == trace;
  }

  lemma {:induction false} CursorSeesTheVisible(c: Cursor, trace: seq<Happening>)
    ensures CursorAfter(c, Visible(trace)) == CursorAfter(c, trace)
    decreases |trace|
  {
    if trace != [] {
      var last := |trace| - 1;
      CursorSeesTheVisible(c, trace[..last]);
      MovesLast(c, Visible(trace[..last]), trace[last]);
    }
  }

  /** Where what was seen leads. */
  lemma ShownCursor(before: Session, after: Session, seen: seq<Happening>)
    requires Shows(before, after, seen)
    ensures CursorAfter(Adrift, after.trace) == CursorAfter(CursorAfter(Adrift, before.trace), seen)
  {
    CursorSeesTheVisible(Adrift, before.trace);
    CursorSeesTheVisible(Adrift, after.trace);
    CursorComposes(Adrift, Visible(before.trace), seen);
  }

  lemma {:induction false} RepliesCompose(first: seq<Happening>, second: seq<Happening>)
    ensures ReplyList(first + second) == ReplyList(first) + ReplyList(second)
    decreases |second|
  {
    if second == [] {
      assert first + second == first;
    } else {
      var last := |second| - 1;
      RepliesCompose(first, second[..last]);
      assert (first + second)[..|first| + last] == first + second[..last];
    }
  }

  lemma {:induction false} RepliesAreVisible(trace: seq<Happening>)
    ensures ReplyList(Visible(trace)) == ReplyList(trace)
    decreases |trace|
  {
    if trace != [] {
      var last := |trace| - 1;
      RepliesAreVisible(trace[..last]);
      if !trace[last].Requested? {
        assert Visible(trace)[..|Visible(trace)| - 1] == Visible(trace[..last]);
      }
    }
  }

  // ----- turn by turn -----

  function At(s: Session): Cursor {
    CursorAfter(Adrift, s.trace)
  }

  lemma OpenShows(s: Session, refresh: bool)
    requires InStep(s) && !s.ended
    ensures Shows(s, Open(s, refresh), if refresh then [Lost] else [])
    ensures At(Open(s, refresh)) == Refreshed(At(s), refresh)
    ensures Open(s, refresh).boundary.None? ==> Open(s, refresh).retained.None?
  {
    NoteShows(s, Lost);
    ShownCursor(s, Open(s, refresh), if refresh then [Lost] else []);
  }

  lemma PublishShows(s: Session, answer: SnapshotAnswer)
    requires answer.Ready? && !s.ended
    ensures var after := Publish(s, answer.snapshot, answer.at, answer.delivered);
            Shows(s, after, Given(answer)) && (after.ended <==> AnswerEnds(answer))
  {
    NoteShows(s.(boundary := Some(answer.snapshot.mark), retained := Some(Retained(answer.snapshot, answer.at))),
              Published(answer.snapshot, answer.at));
  }

  lemma FreshShows(s: Session, answer: SnapshotAnswer)
    requires !s.ended
    ensures Shows(s, ReadFresh(s, answer),
                  Given(answer) + (if !answer.Ready? then [Told(Refused)]
                                   else if answer.delivered then [Told(Fresh(answer.snapshot))] else []))
    ensures ReadFresh(s, answer).ended <==> AnswerEnds(answer)
  {
    var asked := s.Request();
    RequestShows(s);
    if answer.Ready? {
      PublishShows(asked, answer);
      var published := Publish(asked, answer.snapshot, answer.at, answer.delivered);
      if answer.delivered {
        NoteShows(published.Advance(), Told(Fresh(answer.snapshot)));
      }
    } else {
      NoteShows(asked.Advance(), Told(Refused));
    }
  }

  /** Serving a call shows the caller what it is owed. */
  lemma ServeShows(s: Session, call: Option<Call>)
    requires InStep(s) && !s.ended && (s.boundary.None? ==> s.retained.None?)
    ensures Shows(s, Serve(s, call), CallSeen(At(s), call))
    ensures Serve(s, call).ended <==> CallEnds(At(s), call)
  {
    if call.Some? && !call.value.sameClient {
      NoteShows(s, Told(Refused));
    } else if call.Some? && call.value.operation.Other? {
      OtherShows(s, call.value.operation.result);
    } else if call.Some? {
      ReadShows(s, call.value.operation.exact, call.value.operation.now, call.value.operation.answer);
    }
  }

  lemma OtherShows(s: Session, result: Option<nat>)
    requires !s.ended
    ensures var call := Some(Call(true, Other(result)));
            Shows(s, Serve(s, call), CallSeen(At(s), call)) && (Serve(s, call).ended <==> CallEnds(At(s), call))
  {
    RequestShows(s);
    NoteShows(s.Request().Advance(), Told(if result.Some? then Result(result.value) else Refused));
  }

  lemma ReadShows(s: Session, exact: bool, now: nat, answer: SnapshotAnswer)
    requires InStep(s) && !s.ended && (s.boundary.None? ==> s.retained.None?)
    ensures var call := Some(Call(true, ReadSnapshot(exact, now, answer)));
            Shows(s, Serve(s, call), CallSeen(At(s), call)) && (Serve(s, call).ended <==> CallEnds(At(s), call))
  {
    if Usable(At(s), exact, now) {
      NoteShows(s, Answered(At(s).snapshot, now));
    } else {
      FreshShows(s, answer);
    }
  }

  lemma BaselineShows(s: Session, answer: SnapshotAnswer)
    requires !s.ended
    ensures Shows(s, Baseline(s, answer), BaselineSeen(answer))
    ensures Baseline(s, answer).ended <==> BaselineEnds(answer)
  {
    var asked := s.Request();
    RequestShows(s);
    if answer.Ready? {
      PublishShows(asked, answer);
    } else if answer.NotReady? {
      NoteShows(asked, Unavailable);
    }
  }

  lemma PollShows(s: Session, answer: PollAnswer)
    requires !s.ended && s.boundary.Some?
    ensures Shows(s, Poll(s, answer), PollSeen(s.boundary.value, answer))
    ensures Poll(s, answer).ended <==> PollEnds(s.boundary.value, answer)
  {
    var asked := s.Request();
    RequestShows(s);
    NoteShows(asked.(boundary := None), Lost);
    if answer.Events? && answer.events != [] && Chain(s.boundary.value, answer.events) {
      NoteShows(asked.(boundary := Some(Last(s.boundary.value, answer.events))), Streamed(answer.events));
    }
  }

  lemma HealthShows(s: Session, answer: HealthAnswer)
    requires !s.ended
    ensures Shows(s, CheckHealth(s, answer), [])
    ensures CheckHealth(s, answer).ended <==> HealthEnds(answer)
  {
    RequestShows(s);
    RequestShows(s.Request().Advance());
  }

  lemma ServedShows(s: Session, input: Input)
    requires InStep(s) && !s.ended
    ensures InStep(Served(s, input)) && Shows(s, Served(s, input), ServedSeen(At(s), input))
    ensures At(Served(s, input)) == ServedAt(At(s), input)
    ensures Served(s, input).ended <==> CallEnds(Refreshed(At(s), input.refresh), input.call)
  {
    var open := Open(s, input.refresh);
    OpenInStep(s, input.refresh);
    OpenShows(s, input.refresh);
    ServeInStep(open, input.call);
    ServeShows(open, input.call);
    ShowsOn(s, open, Served(s, input), if input.refresh then [Lost] else [], CallSeen(At(open), input.call));
    ShownCursor(s, Served(s, input), ServedSeen(At(s), input));
  }

  /** One pass of the loop shows what it should from where the onlooker stands. */
  lemma TurnShows(s: Session, input: Input)
    requires InStep(s) && !s.ended
    ensures InStep(Turn(s, input)) && Shows(s, Turn(s, input), TurnSeen(At(s), input))
    ensures At(Turn(s, input)) == CursorAfter(At(s), TurnSeen(At(s), input))
    ensures Turn(s, input).ended <==> TurnEnds(At(s), input)
  {
    TurnInStep(s, input);
    ServedShows(s, input);
    var served := Served(s, input);
    if served.ended {
      assert TurnSeen(At(s), input) == ServedSeen(At(s), input);
    } else if served.boundary.None? {
      BaselineShows(served, input.baseline);
      ShowsOn(s, served, Turn(s, input), ServedSeen(At(s), input), BaselineSeen(input.baseline));
    } else {
      var mark := served.boundary.value;
      var polled := Poll(served, input.poll);
      PollShows(served, input.poll);
      ShowsOn(s, served, polled, ServedSeen(At(s), input), PollSeen(mark, input.poll));
      if !polled.ended {
        HealthShows(polled, input.health);
        ShowsOn(s, polled, Turn(s, input), TurnSeen(At(s), input), []);
      }
    }
    ShownCursor(s, Turn(s, input), TurnSeen(At(s), input));
  }

  // ----- runs -----

  lemma {:induction false} RunShows(s: Session, inputs: seq<Input>)
    requires InStep(s) && !s.ended
    ensures Shows(s, Run(s, inputs), Seen(At(s), inputs))
    ensures Run(s, inputs).ended <==> Ends(At(s), inputs)
    decreases |inputs|
  {
    if inputs != [] {
      var next := Turn(s, inputs[0]);
      TurnShows(s, inputs[0]);
      if next.ended {
        assert Seen(At(s), inputs) == TurnSeen(At(s), inputs[0]);
      } else {
        RunShows(next, inputs[1..]);
        ShowsOn(s, next, Run(next, inputs[1..]), TurnSeen(At(s), inputs[0]), Seen(At(next), inputs[1..]));
      }
    }
  }

  /** Over a whole session the daemon and the callers together see what the inputs call
      for, in that order, and the session ends exactly when they call for its end. */
  lemma SessionsShowWhatTheyShould(inputs: seq<Input>)
    ensures Visible(Run(Initial(), inputs).trace) == Seen(Adrift, inputs)
    ensures Run(Initial(), inputs).ended <==> Ends(Adrift, inputs)
  {
    RunShows(Initial(), inputs);
  }

  lemma OwedAreReplies(c: Cursor, call: Option<Call>)
    ensures ReplyList(Owed(c, call)) == Owed(c, call)
    ensures ReplyList(CallSeen(c, call)) == Owed(c, call)
  {
    var owed := Owed(c, call);
    if owed != [] {
      assert owed[..0] == [];
    }
    if Fetches(c, call) {
      NoReplies(Given(call.value.operation.answer));
      RepliesCompose(Given(call.value.operation.answer), owed);
    }
  }

  lemma NoReplies(seen: seq<Happening>)
    requires |seen| <= 1 && (seen != [] ==> !IsReply(seen[0]))
    ensures ReplyList(seen) == []
  {
    assert seen != [] ==> seen[..0] == [];
  }

  lemma RestHasNoReplies(c: Cursor, input: Input)
    ensures ReplyList(RestSeen(c, input)) == []
  {
    NoReplies(RestSeen(c, input));
  }

  lemma ServedReplies(c: Cursor, input: Input)
    ensures ReplyList(ServedSeen(c, input)) == Owed(Refreshed(c, input.refresh), input.call)
  {
    var lost: seq<Happening> := if input.refresh then [Lost] else [];
    OwedAreReplies(Refreshed(c, input.refresh), input.call);
    NoReplies(lost);
    RepliesCompose(lost, CallSeen(Refreshed(c, input.refresh), input.call));
  }

  /** The replies of a turn are what its call is owed. */
  lemma TurnReplies(c: Cursor, input: Input)
    ensures ReplyList(TurnSeen(c, input)) == Owed(Refreshed(c, input.refresh), input.call)
  {
    ServedReplies(c, input);
    RestHasNoReplies(c, input);
    RepliesCompose(ServedSeen(c, input), RestSeen(c, input));
  }

  lemma {:induction false} SeenReplies(c: Cursor, inputs: seq<Input>)
    ensures ReplyList(Seen(c, inputs)) == AllOwed(c, inputs)
    decreases |inputs|
  {
    if inputs != [] {
      var seen := TurnSeen(c, inputs[0]);
      TurnReplies(c, inputs[0]);
      if TurnEnds(c, inputs[0]) {
        assert Seen(c, inputs) == seen;
      } else {
        SeenReplies(CursorAfter(c, seen), inputs[1..]);
        RepliesCompose(seen, Seen(CursorAfter(c, seen), inputs[1..]));
      }
    }
  }

  /** Over a whole session the replies are, in order, exactly those the calls are owed. */
  lemma CallersAreToldWhatTheyAreOwed(inputs: seq<Input>)
    ensures ReplyList(Run(Initial(), inputs).trace) == AllOwed(Adrift, inputs)
  {
    SessionsShowWhatTheyShould(inputs);
    RepliesAreVisible(Run(Initial(), inputs).trace);
    SeenReplies(Adrift, inputs);
  }

  /** The next turn of any session that goes on adds to the replies what its call is
      owed where the trace so far leaves the onlooker. */
  lemma NextCallIsToldWhatItIsOwed(inputs: seq<Input>, input: Input)
    requires !Run(Initial(), inputs).ended
    ensures ReplyList(Turn(Run(Initial(), inputs), input).trace) ==
            ReplyList(Run(Initial(), inputs).trace)
            + Owed(Refreshed(At(Run(Initial(), inputs)), input.refresh), input.call)
  {
    var s := Run(Initial(), inputs);
    RunInStep(Initial(), inputs);
    TurnShows(s, input);
    RepliesAreVisible(s.trace);
    RepliesAreVisible(Turn(s, input).trace);
    RepliesCompose(Visible(s.trace), TurnSeen(At(s), input));
    TurnReplies(At(s), input);
  }
}
