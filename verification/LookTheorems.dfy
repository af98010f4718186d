/** What the look lane guarantees over whole runs. */
module LookTheorems {
  import opened Words
  import opened Wrappers
  import opened LookProtocol
  import opened LookInvariant

  // ----- safety of every run -----

  lemma InitialInv()
    ensures Inv(INITIAL)
  {
    assert DecodeTarget(false, 0) == Ahead(0, 0);
  }

  /** Every published look comes from the begin that held the lane: its id and its
      target are that begin's, the only look packet seen since the lane left IDLE
      was that begin's own request, the begin was never cancelled, released or
      lost, and no begin is published twice. */
  lemma PublishedLooksAreSourced(moves: seq<Move>)
    ensures var log := Run(INITIAL, moves).log;
            && (forall i :: 0 <= i < |log.publications| ==>
                  var p := log.publications[i];
                  && 0 <= p.token < |log.begun|
                  && log.begun[p.token] == Begun(p.id, p.target)
                  && p.packets == [Packet(EncodeRequest(p.target), Command(p.id))]
                  && p.token !in log.ended)
            && (forall i, j :: 0 <= i < j < |log.publications| ==>
                  log.publications[i].token != log.publications[j].token)
  {
    InitialInv();
    RunKeepsInv(INITIAL, moves);
  }

  /** Every begun command is completed at most once, under its own id, and never
      after it was cancelled, released or lost. */
  lemma CompletedAtMostOnce(moves: seq<Move>)
    ensures var log := Run(INITIAL, moves).log;
            && (forall i :: 0 <= i < |log.completions| ==>
                  var c := log.completions[i];
                  0 <= c.token < |log.begun| && log.begun[c.token].id == c.id && c.token !in log.ended)
            && (forall i, j :: 0 <= i < j < |log.completions| ==>
                  log.completions[i].token != log.completions[j].token)
  {
    InitialInv();
    RunKeepsInv(INITIAL, moves);
  }

  // ----- every request is accounted for -----

  ghost predicate CompletedIn(cs: seq<Completion>, token: int) {
    exists i :: 0 <= i < |cs| && cs[i].token == token
  }

  ghost predicate OtherOwes(others: map<nat, OtherPc>) {
    exists u :: u in others && others[u].SwapComplete?
  }

  /** The newest request still has its outcome ahead of it. */
  ghost predicate Live(s: State) {
    Completes(s.channel) || BeforeConclude(s.main) || MainOwes(s.main) || OtherOwes(s.others)
  }

  ghost predicate Accounted(s: State) {
    forall token :: 0 <= token < |s.log.begun| ==>
      token in s.log.ended || CompletedIn(s.log.completions, token) || (token == Last(s) && Live(s))
  }

  lemma CompletedInGrows(cs: seq<Completion>, c: Completion, token: int)
    ensures CompletedIn(cs + [c], token) <==> CompletedIn(cs, token) || c.token == token
  {
    if c.token == token {
      assert (cs + [c])[|cs|].token == token;
    }
    if CompletedIn(cs, token) {
      var i :| 0 <= i < |cs| && cs[i].token == token;
      assert (cs + [c])[i].token == token;
    }
  }

  /** A step that neither begins nor ends nor completes anything. */
  lemma QuietAccounts(s: State, t: State)
    requires Accounted(s)
    requires t.log.begun == s.log.begun && t.log.ended == s.log.ended && t.log.completions == s.log.completions
    requires Live(s) ==> Live(t)
    ensures Accounted(t)
  {
  }

  lemma CompletingAccounts(s: State, t: State, token: int, owner: u32, ok: bool)
    requires Accounted(s) && token == Last(s)
    requires t.log == Completing(s.log, token, owner, ok)
    ensures Accounted(t)
  {
    forall k | 0 <= k < |t.log.begun|
      ensures k in t.log.ended || CompletedIn(t.log.completions, k)
    {
      CompletedInGrows(s.log.completions, Completion(token, owner, ok), k);
    }
  }

  lemma EndingAccounts(s: State, t: State, ending: Ending)
    requires Accounted(s) && t.log == EndIf(true, s.log, ending)
    ensures Accounted(t)
  {
  }

  lemma ObserveKeepsAccounts(s: State, stored: bool)
    requires Inv(s) && Accounted(s) && s.main.Observe?
    ensures Accounted(MainStep(s, stored))
  {
    ObserveIsQuiet(s, stored);
    QuietAccounts(s, MainStep(s, stored));
  }

  lemma InterceptKeepsAccounts(s: State, stored: bool)
    requires Inv(s) && Accounted(s) && s.main.Intercept?
    ensures Accounted(MainStep(s, stored))
  {
    InterceptIsQuiet(s, stored);
    QuietAccounts(s, MainStep(s, stored));
  }

  lemma ResolvingIsQuiet(s: State, stored: bool)
    requires OwnerInv(s) && s.main.Resolve? && !s.main.resolve.Conclude?
    ensures var t := MainStep(s, stored);
            && t.log.begun == s.log.begun && t.log.ended == s.log.ended && t.log.completions == s.log.completions
            && (Live(s) ==> Live(t))
  {
  }

  lemma ResolveKeepsAccounts(s: State, stored: bool)
    requires Inv(s) && Accounted(s) && s.main.Resolve?
    ensures Accounted(MainStep(s, stored))
  {
    if s.main.resolve.Conclude? {
      CompletingAccounts(s, MainStep(s, stored), Last(s), s.main.owner, s.main.resolve.published);
    } else {
      ResolvingIsQuiet(s, stored);
      QuietAccounts(s, MainStep(s, stored));
    }
  }

  lemma QuarantineKeepsAccounts(s: State, stored: bool)
    requires Inv(s) && Accounted(s) && s.main.Quarantine?
    ensures Accounted(MainStep(s, stored))
  {
    if s.main.quarantine.Complete? {
      CompletingAccounts(s, MainStep(s, stored), s.main.quarantine.token, s.main.quarantine.owner, false);
    } else {
      QuietAccounts(s, MainStep(s, stored));
    }
  }

  lemma BeginKeepsAccounts(s: State, stored: bool)
    requires Inv(s) && Accounted(s) && s.main.Begin?
    ensures Accounted(MainStep(s, stored))
  {
    var t := MainStep(s, stored);
    if s.main.begin.ClaimLane? && s.channel == IDLE {
      assert !Live(s);
      assert Completes(t.channel);
    } else {
      QuietAccounts(s, t);
    }
  }

  lemma ReleaseKeepsAccounts(s: State, stored: bool)
    requires Inv(s) && Accounted(s) && s.main.Release?
    ensures Accounted(MainStep(s, stored))
  {
    if s.main.release.ReleaseArmed? && s.channel == Channel(Armed, s.main.id) {
      EndingAccounts(s, MainStep(s, stored), NeverSent);
    } else {
      QuietAccounts(s, MainStep(s, stored));
    }
  }

  lemma MainKeepsAccounts(s: State, stored: bool)
    requires Inv(s) && Accounted(s)
    ensures Accounted(MainStep(s, stored))
  {
    match s.main
    case Free =>
    case Begin(_) => BeginKeepsAccounts(s, stored);
    case Observe(_) => ObserveKeepsAccounts(s, stored);
    case Quarantine(_) => QuarantineKeepsAccounts(s, stored);
    case Intercept(_) => InterceptKeepsAccounts(s, stored);
    case Resolve(_, _) => ResolveKeepsAccounts(s, stored);
    case Release(_, _) => ReleaseKeepsAccounts(s, stored);
  }

  lemma CancelKeepsAccounts(s: State, thread: nat)
    requires Inv(s) && Accounted(s) && thread in s.others
    requires !s.others[thread].Swap? && !s.others[thread].SwapComplete?
    ensures Accounted(OtherStep(s, thread))
  {
    var t := OtherStep(s, thread);
    var pc := s.others[thread];
    if pc.ResetStore? && Completes(s.channel) {
      EndingAccounts(s, t, LostToReset);
    } else if (pc.CancelFirst? && s.channel == Channel(Armed, pc.id))
           || (pc.CancelSecond? && s.channel == Channel(Pending, pc.id)) {
      EndingAccounts(s, t, Cancelled);
    } else {
      assert forall u :: u in s.others && u != thread ==> u in t.others && t.others[u] == s.others[u];
      QuietAccounts(s, t);
    }
  }

  lemma SwapKeepsAccounts(s: State, thread: nat)
    requires Inv(s) && Accounted(s) && thread in s.others
    requires s.others[thread].Swap? || s.others[thread].SwapComplete?
    ensures Accounted(OtherStep(s, thread))
  {
    var t := OtherStep(s, thread);
    if s.others[thread].SwapComplete? {
      CompletingAccounts(s, t, s.others[thread].token, s.others[thread].owner, false);
    } else {
      assert forall u :: u in s.others && u != thread ==> u in t.others && t.others[u] == s.others[u];
      if Completes(s.channel) {
        assert t.others[thread].SwapComplete?;
      }
      QuietAccounts(s, t);
    }
  }

  lemma OtherKeepsAccounts(s: State, thread: nat)
    requires Inv(s) && Accounted(s)
    ensures Accounted(OtherStep(s, thread))
  {
    if thread in s.others {
      if s.others[thread].Swap? || s.others[thread].SwapComplete? {
        SwapKeepsAccounts(s, thread);
      } else {
        CancelKeepsAccounts(s, thread);
      }
    }
  }

  lemma StepKeepsAccounts(s: State, move: Move)
    requires Inv(s) && Accounted(s)
    ensures Accounted(Step(s, move))
  {
    match move
    case Call(_) => QuietAccounts(s, Step(s, move));
    case Main(stored) => MainKeepsAccounts(s, stored);
    case Spawn(thread, job) =>
      assert forall u :: u in s.others ==> u in Step(s, move).others && Step(s, move).others[u] == s.others[u];
      QuietAccounts(s, Step(s, move));
    case Other(thread) => OtherKeepsAccounts(s, thread);
  }

  lemma {:induction false} RunKeepsAccounts(s: State, moves: seq<Move>)
    requires Inv(s) && Accounted(s)
    ensures Accounted(Run(s, moves))
    decreases |moves|
  {
    if moves != [] {
      StepKeepsInv(s, moves[0]);
      StepKeepsAccounts(s, moves[0]);
      RunKeepsAccounts(Step(s, moves[0]), moves[1..]);
    }
  }

  /** No request is dropped in silence: every begun request but the newest has
      been completed, cancelled, released unsent, or lost to a reset's blind
      store, and so has the newest unless some thread still has its outcome to
      settle. */
  lemma EveryRequestIsSettled(moves: seq<Move>)
    ensures var s := Run(INITIAL, moves);
            forall token :: 0 <= token < |s.log.begun| ==>
              || token in s.log.ended
              || CompletedIn(s.log.completions, token)
              || (token == |s.log.begun| - 1 && Live(s))
  {
    InitialInv();
    RunKeepsAccounts(INITIAL, moves);
  }

  // ----- the phase graph -----

  /** The moves a lane can make; the owner is kept until IDLE or QUARANTINED. */
  predicate Edge(before: Channel, after: Channel) {
    || after == before
    || after == QUARANTINED
    || match before.phase {
         case Idle => before == IDLE && (after.phase.Armed? || after == MANUAL)
         case Armed => after == IDLE || after == Channel(CancelledArmed, before.owner) || after == Channel(Pending, before.owner)
         case CancelledArmed => after == IDLE || after == Channel(Draining, before.owner)
         case Pending => after == Channel(Draining, before.owner) || after == Channel(Resolving, before.owner)
         case Draining => after == IDLE
         case Resolving => after == IDLE
         case Manual => after == IDLE
         case Quarantined => false
       }
  }

  lemma InterceptFollowsPhaseGraph(s: State, stored: bool)
    requires OwnerInv(s) && s.main.Intercept?
    ensures Edge(s.channel, MainStep(s, stored).channel)
  {
  }

  lemma MainFollowsPhaseGraph(s: State, stored: bool)
    requires LaneInv(s)
    ensures Edge(s.channel, MainStep(s, stored).channel)
  {
    if s.main.Intercept? {
      InterceptFollowsPhaseGraph(s, stored);
    } else if s.main.Observe? {
      ObserveFollowsPhaseGraph(s, stored);
    } else if s.main.Resolve? {
      ResolveFollowsPhaseGraph(s, stored);
    }
  }

  lemma ObserveFollowsPhaseGraph(s: State, stored: bool)
    requires LaneInv(s) && s.main.Observe?
    ensures Edge(s.channel, MainStep(s, stored).channel)
  {
  }

  lemma ResolveFollowsPhaseGraph(s: State, stored: bool)
    requires LaneInv(s) && s.main.Resolve?
    ensures Edge(s.channel, MainStep(s, stored).channel)
  {
  }

  lemma StepFollowsPhaseGraph(s: State, move: Move)
    requires LaneInv(s)
    ensures Edge(s.channel, Step(s, move).channel)
  {
    match move
    case Call(_) =>
    case Main(stored) => MainFollowsPhaseGraph(s, stored);
    case Spawn(_, _) =>
    case Other(_) =>
  }

  /** In every reachable state, whatever moves next, the lane follows the graph. */
  lemma LaneFollowsPhaseGraph(moves: seq<Move>, move: Move)
    ensures Edge(Run(INITIAL, moves).channel, Step(Run(INITIAL, moves), move).channel)
  {
    InitialInv();
    RunKeepsInv(INITIAL, moves);
    StepFollowsPhaseGraph(Run(INITIAL, moves), move);
  }

  /** Once quarantined in a reachable state, a lane stays quarantined for good. */
  lemma {:induction false} QuarantineIsForever(s: State, moves: seq<Move>)
    requires Inv(s) && s.channel == QUARANTINED
    ensures Run(s, moves).channel == QUARANTINED
    decreases |moves|
  {
    if moves != [] {
      StepKeepsInv(s, moves[0]);
      StepFollowsPhaseGraph(s, moves[0]);
      QuarantineIsForever(Step(s, moves[0]), moves[1..]);
    }
  }
}
