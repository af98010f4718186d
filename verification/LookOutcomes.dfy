/** What a look command's caller is told, and what each operation on the lane comes to. */
module LookOutcomes {
  import opened Words
  import opened Wrappers
  import opened LookProtocol
  import opened LookInvariant
  import opened LookTheorems

  // ----- success and failure -----

  ghost predicate PublishedIn(ps: seq<Publication>, token: int) {
    exists i :: 0 <= i < |ps| && ps[i].token == token
  }

  lemma PublishedInGrows(ps: seq<Publication>, p: Publication, token: int)
    ensures PublishedIn(ps + [p], token) <==> PublishedIn(ps, token) || p.token == token
  {
    if p.token == token {
      assert (ps + [p])[|ps|].token == token;
    }
    if i :| 0 <= i < |ps| && ps[i].token == token {
      assert (ps + [p])[i].token == token;
    }
  }

  ghost predicate AllReported(cs: seq<Completion>, ps: seq<Publication>) {
    forall i :: 0 <= i < |cs| ==> (cs[i].ok <==> PublishedIn(ps, cs[i].token))
  }

  /** What the main thread is about to report is so; whoever took a request off the lane
      for quarantine owes it a failure, and nothing of it was published. */
  ghost predicate MainReport(main: MainPc, ps: seq<Publication>, last: int) {
    && (main.Resolve? && main.resolve.Conclude? ==> (main.resolve.published <==> PublishedIn(ps, last)))
    && (MainOwes(main) ==> !PublishedIn(ps, main.quarantine.token))
  }

  ghost predicate OtherReports(others: map<nat, OtherPc>, ps: seq<Publication>) {
    forall u :: u in others && others[u].SwapComplete? ==> !PublishedIn(ps, others[u].token)
  }

  ghost predicate Reported(s: State) {
    && AllReported(s.log.completions, s.log.publications)
    && MainReport(s.main, s.log.publications, Last(s))
    && OtherReports(s.others, s.log.publications)
  }

  /** A step that neither publishes nor completes. */
  lemma QuietReports(s: State, t: State)
    requires Reported(s) && t.log.completions == s.log.completions && t.log.publications == s.log.publications
    requires MainReport(t.main, s.log.publications, Last(t)) && OtherReports(t.others, s.log.publications)
    ensures Reported(t)
  {
  }

  lemma NewestIsUnpublished(s: State)
    requires PublicationInv(s) && Unpublished(s)
    ensures !PublishedIn(s.log.publications, Last(s))
  {
  }

  lemma PublishReports(s: State, stored: bool)
    requires Inv(s) && Reported(s) && s.main.Resolve? && s.main.resolve.Publish?
    ensures Reported(MainStep(s, stored))
  {
    NewestIsUnpublished(s);
    var t := MainStep(s, stored);
    if stored {
      var p := t.log.publications[|s.log.publications|];
      forall token: int
        ensures PublishedIn(t.log.publications, token) <==> PublishedIn(s.log.publications, token) || token == Last(s)
      {
        PublishedInGrows(s.log.publications, p, token);
      }
      assert forall i :: 0 <= i < |s.log.completions| ==> s.log.completions[i].token < Last(s);
    }
  }

  /** A completion that says what it should. */
  lemma CompletingReports(s: State, t: State, token: int, owner: u32, ok: bool)
    requires Reported(s) && t.log == Completing(s.log, token, owner, ok)
    requires ok <==> PublishedIn(s.log.publications, token)
    requires MainReport(t.main, s.log.publications, Last(t)) && OtherReports(t.others, s.log.publications)
    ensures Reported(t)
  {
  }

  lemma ResolveReports(s: State, stored: bool)
    requires Inv(s) && Reported(s) && s.main.Resolve?
    ensures Reported(MainStep(s, stored))
  {
    var t := MainStep(s, stored);
    match s.main.resolve
    case Publish(_, _, _) => PublishReports(s, stored);
    case Conclude(published) => CompletingReports(s, t, Last(s), s.main.owner, published);
    case _ => QuietReports(s, t);
  }

  lemma QuarantineReports(s: State, stored: bool)
    requires Inv(s) && Reported(s) && s.main.Quarantine?
    ensures Reported(MainStep(s, stored))
  {
    var t := MainStep(s, stored);
    if s.main.quarantine.Complete? {
      CompletingReports(s, t, s.main.quarantine.token, s.main.quarantine.owner, false);
    } else {
      if Completes(s.channel) {
        NewestIsUnpublished(s);
      }
      QuietReports(s, t);
    }
  }

  lemma MainIsElsewhere(s: State, stored: bool)
    requires !s.main.Resolve? && !s.main.Quarantine?
    ensures var t := MainStep(s, stored);
            && t.log.completions == s.log.completions && t.log.publications == s.log.publications && t.others == s.others
            && !MainOwes(t.main) && (t.main.Resolve? ==> !t.main.resolve.Conclude?)
  {
    match s.main
    case Begin(_) => BeginningIsElsewhere(s, stored);
    case Observe(_) => ObservingIsElsewhere(s, stored);
    case _ =>
  }

  lemma BeginningIsElsewhere(s: State, stored: bool)
    requires s.main.Begin?
    ensures var t := MainStep(s, stored);
            && t.log.completions == s.log.completions && t.log.publications == s.log.publications && t.others == s.others
            && !MainOwes(t.main) && !t.main.Resolve?
  {
  }

  lemma ObservingIsElsewhere(s: State, stored: bool)
    requires s.main.Observe?
    ensures var t := MainStep(s, stored);
            && t.log.completions == s.log.completions && t.log.publications == s.log.publications && t.others == s.others
            && !MainOwes(t.main) && !t.main.Resolve?
  {
  }

  lemma MainReports(s: State, stored: bool)
    requires Inv(s) && Reported(s)
    ensures Reported(MainStep(s, stored))
  {
    match s.main
    case Resolve(_, _) => ResolveReports(s, stored);
    case Quarantine(_) => QuarantineReports(s, stored);
    case _ =>
      MainIsElsewhere(s, stored);
      QuietReports(s, MainStep(s, stored));
  }

  lemma SwapReports(s: State, thread: nat)
    requires Inv(s) && Reported(s) && thread in s.others && s.others[thread].Swap?
    ensures Reported(OtherStep(s, thread))
  {
    if Completes(s.channel) {
      NewestIsUnpublished(s);
    }
    QuietReports(s, OtherStep(s, thread));
  }

  lemma OtherIsElsewhere(s: State, thread: nat)
    requires Reported(s) && thread in s.others && !s.others[thread].Swap? && !s.others[thread].SwapComplete?
    ensures Reported(OtherStep(s, thread))
  {
    var t := OtherStep(s, thread);
    assert t.log.completions == s.log.completions && t.log.publications == s.log.publications && t.main == s.main;
    QuietReports(s, t);
  }

  lemma OtherThreadsReport(s: State, thread: nat)
    requires Inv(s) && Reported(s)
    ensures Reported(OtherStep(s, thread))
  {
    if thread in s.others {
      match s.others[thread]
      case SwapComplete(token, owner) => CompletingReports(s, OtherStep(s, thread), token, owner, false);
      case Swap(_) => SwapReports(s, thread);
      case _ => OtherIsElsewhere(s, thread);
    }
  }

  lemma StepReports(s: State, move: Move)
    requires Inv(s) && Reported(s)
    ensures Reported(Step(s, move))
  {
    match move
    case Call(_) => QuietReports(s, Step(s, move));
    case Main(stored) => MainReports(s, stored);
    case Spawn(_, _) => QuietReports(s, Step(s, move));
    case Other(thread) => OtherThreadsReport(s, thread);
  }

  lemma {:induction false} RunReports(s: State, moves: seq<Move>)
    requires Inv(s) && Reported(s)
    ensures Reported(Run(s, moves))
    decreases |moves|
  {
    if moves != [] {
      StepKeepsInv(s, moves[0]);
      StepReports(s, moves[0]);
      RunReports(Step(s, moves[0]), moves[1..]);
    }
  }

  /** In every run, a completed command is told of success if and only if its look was
      published. */
  lemma SuccessMeansPublished(moves: seq<Move>)
    ensures var log := Run(INITIAL, moves).log;
            forall i :: 0 <= i < |log.completions| ==>
              (log.completions[i].ok <==>
                 exists j :: 0 <= j < |log.publications| && log.publications[j].token == log.completions[i].token)
  {
    InitialInv();
    RunReports(INITIAL, moves);
  }

  // ----- what is published -----

  /** The popup with this text: opcode, one of three kinds, length, text. */
  function Popup(kind: byte, text: seq<byte>): seq<byte>
    requires |text| <= MAX_LOOK_RESULT_TEXT_LEN
  {
    [0x0A, kind, |text| / 0x100, |text| % 0x100] + text
  }

  predicate Carries(body: seq<byte>, text: seq<byte>) {
    |text| <= 4096 && |body| >= 2 && 8 <= body[1] <= 10 && body == Popup(body[1], text)
  }

  lemma TextIsCarried(body: seq<byte>, text: seq<byte>)
    requires PopupText(body) == Some(text)
    ensures Carries(body, text)
  {
    assert BigEndian16(body[2], body[3]) == |text|;
    assert |text| / 0x100 == body[2] && |text| % 0x100 == body[3];
    assert body == body[..4] + text;
    assert body[..4] == [0x0A, body[1], |text| / 0x100, |text| % 0x100];
  }

  lemma CarriedIsText(body: seq<byte>, text: seq<byte>)
    requires Carries(body, text)
    ensures PopupText(body) == Some(text)
  {
    assert body[2] == |text| / 0x100 && body[3] == |text| % 0x100;
    assert body[4..] == text;
  }

  /** A reply has a text exactly when it is a popup made of it. */
  lemma PopupTextIsExact(body: seq<byte>, text: seq<byte>)
    ensures PopupText(body) == Some(text) <==> Carries(body, text)
  {
    if PopupText(body) == Some(text) {
      TextIsCarried(body, text);
    } else if Carries(body, text) {
      CarriedIsText(body, text);
    }
  }

  /** The replies the client has handed over. */
  function Replies(moves: seq<Move>): set<seq<byte>> {
    set i | 0 <= i < |moves| && moves[i].Call? && moves[i].call.CallIntercept? :: moves[i].call.body
  }

  ghost predicate Carried(bodies: set<seq<byte>>, text: seq<byte>) {
    exists body :: body in bodies && Carries(body, text)
  }

  /** The text the main thread is working on came in a reply. */
  ghost predicate MainCarries(main: MainPc, bodies: set<seq<byte>>) {
    match main
    case Intercept(LoadReply(body)) => body in bodies
    case Intercept(ClaimReply(_, text)) => Carried(bodies, text)
    case Resolve(_, RecallCoordinates(text, _)) => Carried(bodies, text)
    case Resolve(_, RecallKind(text, _, _)) => Carried(bodies, text)
    case Resolve(_, Publish(_, text, _)) => Carried(bodies, text)
    case _ => true
  }

  ghost predicate AllCarried(ps: seq<Publication>, bodies: set<seq<byte>>) {
    forall i :: 0 <= i < |ps| ==> Carried(bodies, ps[i].text)
  }

  lemma RouteCarries(body: seq<byte>, current: Channel, bodies: set<seq<byte>>)
    requires body in bodies
    ensures MainCarries(Route(body, current), bodies)
  {
    if PopupText(body).Some? {
      TextIsCarried(body, PopupText(body).value);
    }
  }

  lemma MainStepCarries(s: State, stored: bool, bodies: set<seq<byte>>)
    requires MainCarries(s.main, bodies) && AllCarried(s.log.publications, bodies)
    ensures MainCarries(MainStep(s, stored).main, bodies) && AllCarried(MainStep(s, stored).log.publications, bodies)
  {
    if s.main.Intercept? && s.main.intercept.LoadReply? {
      RouteCarries(s.main.intercept.body, s.channel, bodies);
    } else if s.main.Resolve? {
    } else if s.main.Intercept? {
    } else {
      NoTextElsewhere(s, stored, bodies);
    }
  }

  lemma NoTextElsewhere(s: State, stored: bool, bodies: set<seq<byte>>)
    requires !s.main.Resolve? && !s.main.Intercept?
    ensures MainCarries(MainStep(s, stored).main, bodies)
    ensures MainStep(s, stored).log.publications == s.log.publications
  {
  }

  lemma OthersPublishNothing(s: State, thread: nat)
    ensures OtherStep(s, thread).log.publications == s.log.publications && OtherStep(s, thread).main == s.main
  {
  }

  lemma CarriedFurther(bodies: set<seq<byte>>, further: set<seq<byte>>, main: MainPc, ps: seq<Publication>)
    requires bodies <= further && MainCarries(main, bodies) && AllCarried(ps, bodies)
    ensures MainCarries(main, further) && AllCarried(ps, further)
  {
    forall text | Carried(bodies, text)
      ensures Carried(further, text)
    {
      var body :| body in bodies && Carries(body, text);
      assert body in further;
    }
  }

  lemma {:induction false} RunCarries(s: State, moves: seq<Move>, bodies: set<seq<byte>>)
    requires MainCarries(s.main, bodies) && AllCarried(s.log.publications, bodies)
    ensures AllCarried(Run(s, moves).log.publications, bodies + Replies(moves))
    decreases |moves|
  {
    if moves == [] {
      assert bodies + Replies(moves) == bodies;
    } else {
      var t, rest := Step(s, moves[0]), moves[1..];
      var further := bodies + Replies([moves[0]]);
      CarriedFurther(bodies, further, s.main, s.log.publications);
      StepCarries(s, moves[0], further);
      RunCarries(t, rest, further);
      assert moves == [moves[0]] + rest;
      RepliesJoin(moves[0], rest);
    }
  }

  lemma RepliesJoin(move: Move, rest: seq<Move>)
    ensures Replies([move] + rest) == Replies([move]) + Replies(rest)
  {
    var moves := [move] + rest;
    forall body | body in Replies(rest)
      ensures body in Replies(moves)
    {
      var i :| 0 <= i < |rest| && rest[i].Call? && rest[i].call.CallIntercept? && rest[i].call.body == body;
      assert moves[i + 1] == rest[i];
    }
    forall body | body in Replies([move])
      ensures body in Replies(moves)
    {
      assert moves[0] == move;
    }
    forall body | body in Replies(moves)
      ensures body in Replies([move]) + Replies(rest)
    {
      var i :| 0 <= i < |moves| && moves[i].Call? && moves[i].call.CallIntercept? && moves[i].call.body == body;
      if i == 0 {
        assert [move][0] == move;
      } else {
        assert rest[i - 1] == moves[i];
      }
    }
  }

  lemma StepCarries(s: State, move: Move, bodies: set<seq<byte>>)
    requires MainCarries(s.main, bodies) && AllCarried(s.log.publications, bodies)
    requires Replies([move]) <= bodies
    ensures MainCarries(Step(s, move).main, bodies) && AllCarried(Step(s, move).log.publications, bodies)
  {
    match move
    case Call(call) =>
      if call.CallIntercept? {
        assert [move][0] == move;
        assert call.body in Replies([move]);
      }
    case Main(stored) => MainStepCarries(s, stored, bodies);
    case Spawn(_, _) =>
    case Other(thread) => OthersPublishNothing(s, thread);
  }

  /** In every run, the text of a published look is, byte for byte, the one carried by a
      popup the client handed over. */
  lemma PublishedTextsAreReplies(moves: seq<Move>, i: nat)
    requires i < |Run(INITIAL, moves).log.publications|
    ensures exists k :: 0 <= k < |moves| && moves[k].Call? && moves[k].call.CallIntercept?
                        && Carries(moves[k].call.body, Run(INITIAL, moves).log.publications[i].text)
  {
    RunCarries(INITIAL, moves, {});
    assert {} + Replies(moves) == Replies(moves);
    var body :| body in Replies(moves) && Carries(body, Run(INITIAL, moves).log.publications[i].text);
    var k :| 0 <= k < |moves| && moves[k].Call? && moves[k].call.CallIntercept? && moves[k].call.body == body;
  }
}
