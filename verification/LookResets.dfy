/** Resets are the one way the look lane loses a live request: exactly when, and how a
    caller avoids it. */
module LookResets {
  import opened Words
  import opened Wrappers
  import opened LookProtocol
  import opened LookInvariant
  import opened LookTheorems

  // ----- exactly when -----

  ghost predicate Lost(s: State, token: int) {
    token in s.log.ended && s.log.ended[token].LostToReset?
  }

  /** The move is a reset's store, and it finds a request on the lane that is still owed
      its completion. */
  predicate StoresOverRequest(s: State, move: Move) {
    move.Other? && move.thread in s.others && s.others[move.thread].ResetStore? && Completes(s.channel)
  }

  lemma MainLosesNothing(s: State, stored: bool, token: int)
    requires EndInv(s)
    ensures Lost(MainStep(s, stored), token) <==> Lost(s, token)
  {
  }

  lemma OtherLosesExactly(s: State, thread: nat, token: int)
    requires EndInv(s)
    ensures Lost(OtherStep(s, thread), token) <==>
              Lost(s, token) || (StoresOverRequest(s, Other(thread)) && token == Last(s))
  {
  }

  lemma StepLosesExactly(s: State, move: Move, token: int)
    requires EndInv(s)
    ensures Lost(Step(s, move), token) <==> Lost(s, token) || (StoresOverRequest(s, move) && token == Last(s))
  {
    match move
    case Call(_) =>
    case Main(stored) => MainLosesNothing(s, stored, token);
    case Spawn(_, _) =>
    case Other(thread) => OtherLosesExactly(s, thread, token);
  }

  /** The k-th move of the run is such a store, over this request. */
  ghost predicate LosesAt(s: State, moves: seq<Move>, k: nat, token: int)
    requires k < |moves|
  {
    StoresOverRequest(Run(s, moves[..k]), moves[k]) && token == Last(Run(s, moves[..k]))
  }

  lemma LosesLater(s: State, moves: seq<Move>, k: nat, token: int)
    requires k + 1 < |moves|
    ensures LosesAt(s, moves, k + 1, token) <==> LosesAt(Step(s, moves[0]), moves[1..], k, token)
  {
    assert moves[..k + 1][1..] == moves[1..][..k];
  }

  lemma {:induction false} RunLosesExactly(s: State, moves: seq<Move>, token: int)
    requires Inv(s)
    ensures Lost(Run(s, moves), token) <==>
              Lost(s, token) || exists k :: 0 <= k < |moves| && LosesAt(s, moves, k, token)
    decreases |moves|
  {
    if moves != [] {
      var t, rest := Step(s, moves[0]), moves[1..];
      StepKeepsInv(s, moves[0]);
      StepLosesExactly(s, moves[0], token);
      RunLosesExactly(t, rest, token);
      assert moves[..0] == [];
      assert LosesAt(s, moves, 0, token) <==> StoresOverRequest(s, moves[0]) && token == Last(s);
      if k :| 0 <= k < |rest| && LosesAt(t, rest, k, token) {
        LosesLater(s, moves, k, token);
      }
      if k :| 0 < k < |moves| && LosesAt(s, moves, k, token) {
        LosesLater(s, moves, k - 1, token);
      }
    }
  }

  /** In every run, a begun request is lost exactly when some reset's store ran while
      that request was on the lane and still owed its completion. */
  lemma LostExactlyToAResetsStore(moves: seq<Move>, token: int)
    ensures Lost(Run(INITIAL, moves), token) <==> exists k :: 0 <= k < |moves| && LosesAt(INITIAL, moves, k, token)
  {
    InitialInv();
    RunLosesExactly(INITIAL, moves, token);
  }

  // ----- what a caller can see to -----

  ghost predicate StorePending(others: map<nat, OtherPc>) {
    exists u :: u in others && others[u].ResetStore?
  }

  /** The move starts a request. */
  predicate Claims(s: State, move: Move) {
    move.Main? && s.main.Begin? && s.main.begin.ClaimLane? && s.channel == IDLE
  }

  /** A reset looks at the lane only while no request is owed its completion, and no
      request starts between a reset's load and its store. */
  ghost predicate Careful(s: State, move: Move) {
    && (move.Other? && move.thread in s.others && s.others[move.thread].ResetLoad? ==> !Completes(s.channel))
    && (StorePending(s.others) ==> !Claims(s, move))
  }

  ghost predicate CarefulRun(s: State, moves: seq<Move>)
    decreases |moves|
  {
    moves == [] || (Careful(s, moves[0]) && CarefulRun(Step(s, moves[0]), moves[1..]))
  }

  /** No reset in progress has a request under it. */
  ghost predicate Clear(s: State) {
    StorePending(s.others) ==> !Completes(s.channel)
  }

  /** A lane comes to owe a completion only when a request starts. */
  lemma OnlyClaimsOwe(s: State, move: Move)
    requires LaneInv(s) && !Completes(s.channel) && !Claims(s, move)
    ensures !Completes(Step(s, move).channel)
  {
    StepFollowsPhaseGraph(s, move);
    if Completes(Step(s, move).channel) {
      assert s.channel == IDLE && Step(s, move).channel.phase.Armed?;
      OnlyClaimsArm(s, move);
    }
  }

  lemma OnlyClaimsArm(s: State, move: Move)
    requires s.channel == IDLE && !Claims(s, move)
    ensures !Step(s, move).channel.phase.Armed?
  {
    if move.Main? {
      MainArmsByClaiming(s, move.stored);
    } else if move.Other? {
      OthersDoNotArm(s, move.thread);
    }
  }

  lemma MainArmsByClaiming(s: State, stored: bool)
    requires s.channel == IDLE && !(s.main.Begin? && s.main.begin.ClaimLane?)
    ensures !MainStep(s, stored).channel.phase.Armed?
  {
    if s.main.Observe? {
      ObservingDoesNotArm(s);
    }
  }

  lemma ObservingDoesNotArm(s: State)
    requires s.channel == IDLE && s.main.Observe?
    ensures !ObserveStep(s, s.main.observe).channel.phase.Armed?
  {
  }

  lemma OthersDoNotArm(s: State, thread: nat)
    requires s.channel == IDLE
    ensures !OtherStep(s, thread).channel.phase.Armed?
  {
  }

  /** A store is only pending after a load. */
  lemma StoresFollowLoads(s: State, move: Move)
    requires StorePending(Step(s, move).others)
    ensures StorePending(s.others) || (move.Other? && move.thread in s.others && s.others[move.thread].ResetLoad?)
  {
    var t := Step(s, move);
    var u :| u in t.others && t.others[u].ResetStore?;
    if u in s.others && s.others[u].ResetStore? {
    } else if move.Other? {
      assert u == move.thread;
    }
  }

  lemma CarefulKeepsClear(s: State, move: Move)
    requires LaneInv(s) && Clear(s) && Careful(s, move)
    ensures Clear(Step(s, move))
  {
    if StorePending(Step(s, move).others) {
      StoresFollowLoads(s, move);
      if StorePending(s.others) {
        OnlyClaimsOwe(s, move);
      }
    }
  }

  lemma {:induction false} CarefulRunsKeep(s: State, moves: seq<Move>, token: int)
    requires Inv(s) && Clear(s) && CarefulRun(s, moves)
    ensures Lost(Run(s, moves), token) <==> Lost(s, token)
    decreases |moves|
  {
    if moves != [] {
      StepKeepsInv(s, moves[0]);
      StepLosesExactly(s, moves[0], token);
      CarefulKeepsClear(s, moves[0]);
      CarefulRunsKeep(Step(s, moves[0]), moves[1..], token);
    }
  }

  /** Then nothing is lost: every begun request is completed, cancelled or released, or
      is the newest and still has its outcome ahead of it. */
  lemma CarefulResetsLoseNothing(moves: seq<Move>)
    requires CarefulRun(INITIAL, moves)
    ensures var s := Run(INITIAL, moves);
            forall token :: 0 <= token < |s.log.begun| ==>
              || (token in s.log.ended && !s.log.ended[token].LostToReset?)
              || CompletedIn(s.log.completions, token)
              || (token == |s.log.begun| - 1 && Live(s))
  {
    InitialInv();
    EveryRequestIsSettled(moves);
    var s := Run(INITIAL, moves);
    forall token | token in s.log.ended
      ensures !s.log.ended[token].LostToReset?
    {
      CarefulRunsKeep(INITIAL, moves, token);
    }
  }

  ghost predicate NobodyResets(others: map<nat, OtherPc>) {
    forall u :: u in others ==> !others[u].ResetLoad? && !others[u].ResetStore?
  }

  lemma {:induction false} WithoutResetsCareful(s: State, moves: seq<Move>)
    requires NobodyResets(s.others) && forall k :: 0 <= k < |moves| ==> !(moves[k].Spawn? && moves[k].job.ResetJob?)
    ensures CarefulRun(s, moves)
    decreases |moves|
  {
    if moves != [] {
      assert NobodyResets(Step(s, moves[0]).others);
      WithoutResetsCareful(Step(s, moves[0]), moves[1..]);
    }
  }

  /** In particular where no reset runs at all. */
  lemma NothingIsLostWithoutResets(moves: seq<Move>, token: int)
    requires forall k :: 0 <= k < |moves| ==> !(moves[k].Spawn? && moves[k].job.ResetJob?)
    ensures !Lost(Run(INITIAL, moves), token)
  {
    WithoutResetsCareful(INITIAL, moves);
    InitialInv();
    CarefulRunsKeep(INITIAL, moves, token);
  }

  // ----- the two ways to lose one -----

  lemma RunConcat(s: State, first: seq<Move>, second: seq<Move>)
    ensures Run(s, first + second) == Run(Run(s, first), second)
    decreases |first|
  {
    if first == [] {
      assert first + second == second;
    } else {
      assert (first + second)[1..] == first[1..] + second;
      RunConcat(Step(s, first[0]), first[1..], second);
    }
  }

  /** Two moves, and then the rest. */
  lemma RunTwo(s: State, first: Move, second: Move)
    ensures Run(s, [first, second]) == Step(Step(s, first), second)
  {
    assert [first, second][1..] == [second];
    assert Run(s, [first, second]) == Run(Step(s, first), [second]);
    assert Run(Step(s, first), [second]) == Run(Step(Step(s, first), second), []);
  }

  function BeginMoves(id: u32, target: Target): seq<Move> {
    [Call(CallBegin(id, target)), Main(false)] + [Main(false), Main(false)]
  }

  lemma BeginAlone(s: State, id: u32, target: Target)
    requires s.main.Free? && s.channel == IDLE && id != 0
    ensures Run(s, BeginMoves(id, target)) ==
            s.(channel := Channel(Armed, id), coordinates := PackCoordinates(target), isTile := target.Tile?,
               answer := true, sent := [], log := s.log.(begun := s.log.begun + [Begun(id, target)]))
  {
    RunConcat(s, [Call(CallBegin(id, target)), Main(false)], [Main(false), Main(false)]);
    RunTwo(s, Call(CallBegin(id, target)), Main(false));
    RunTwo(Run(s, [Call(CallBegin(id, target)), Main(false)]), Main(false), Main(false));
  }

  /** No begin in between, but a lane that was live at the load. */
  lemma ResetLosesALiveRequest()
    ensures var s := Run(INITIAL, BeginMoves(7, Tile(40, 19)) + ([Spawn(0, ResetJob), Other(0)] + [Other(0)]));
            s.log == Log([Begun(7, Tile(40, 19))], map[0 := LostToReset], [], []) && s.channel == QUARANTINED
  {
    RunConcat(INITIAL, BeginMoves(7, Tile(40, 19)), [Spawn(0, ResetJob), Other(0)] + [Other(0)]);
    BeginAlone(INITIAL, 7, Tile(40, 19));
    var s1 := Run(INITIAL, BeginMoves(7, Tile(40, 19)));
    RunConcat(s1, [Spawn(0, ResetJob), Other(0)], [Other(0)]);
    RunTwo(s1, Spawn(0, ResetJob), Other(0));
    var s2 := Run(s1, [Spawn(0, ResetJob), Other(0)]);
    assert s2.others[0] == ResetStore;
    assert Run(s2, [Other(0)]) == Run(Step(s2, Other(0)), []);
  }

  const CANCELLED_FIRST: seq<Move> := BeginMoves(7, Tile(40, 19)) + [Spawn(1, CancelJob(7)), Other(1)]

  /** A reset loads the lane, and the cancelled request is released. */
  const LOADED_AND_RELEASED: seq<Move> :=
    [Spawn(0, ResetJob), Other(0)] + ([Call(CallRelease(7)), Main(false)] + [Main(false), Other(1)])

  /** A cancelled request still waits for its packet. */
  lemma CancelledAlone()
    ensures var s := Run(INITIAL, CANCELLED_FIRST);
            && s.main.Free? && s.others == map[1 := CancelSecond(7)]
            && s.channel == Channel(CancelledArmed, 7)
            && s.log == Log([Begun(7, Tile(40, 19))], map[0 := Cancelled], [], [])
  {
    RunConcat(INITIAL, BeginMoves(7, Tile(40, 19)), [Spawn(1, CancelJob(7)), Other(1)]);
    BeginAlone(INITIAL, 7, Tile(40, 19));
    RunTwo(Run(INITIAL, BeginMoves(7, Tile(40, 19))), Spawn(1, CancelJob(7)), Other(1));
  }

  lemma ReleasedBehindReset(s: State)
    requires s.main.Free? && s.others == map[1 := CancelSecond(7)] && s.channel == Channel(CancelledArmed, 7)
    ensures var t := Run(s, LOADED_AND_RELEASED);
            && t.main.Free? && t.channel == IDLE && t.log == s.log
            && t.others == map[1 := Finished(CancelJob(7)), 0 := ResetStore]
  {
    RunConcat(s, [Spawn(0, ResetJob), Other(0)], [Call(CallRelease(7)), Main(false)] + [Main(false), Other(1)]);
    RunTwo(s, Spawn(0, ResetJob), Other(0));
    var s1 := Run(s, [Spawn(0, ResetJob), Other(0)]);
    RunConcat(s1, [Call(CallRelease(7)), Main(false)], [Main(false), Other(1)]);
    RunTwo(s1, Call(CallRelease(7)), Main(false));
    RunTwo(Run(s1, [Call(CallRelease(7)), Main(false)]), Main(false), Other(1));
  }

  lemma BegunUnderReset(s: State)
    requires s.main.Free? && s.channel == IDLE && 0 in s.others && s.others[0] == ResetStore
    ensures var t := Run(s, BeginMoves(8, Tile(41, 19)) + [Other(0), Other(0)]);
            && t.main.Free? && t.channel == QUARANTINED
            && t.log == EndIf(true, s.log.(begun := s.log.begun + [Begun(8, Tile(41, 19))]), LostToReset)
  {
    RunConcat(s, BeginMoves(8, Tile(41, 19)), [Other(0), Other(0)]);
    BeginAlone(s, 8, Tile(41, 19));
    RunTwo(Run(s, BeginMoves(8, Tile(41, 19))), Other(0), Other(0));
  }

  const STALE_RESET: seq<Move> := LOADED_AND_RELEASED + (BeginMoves(8, Tile(41, 19)) + [Other(0), Other(0)])

  /** A load of a lane that owes nothing, but a begin before the store: the reset that
      read the lane while the cancelled request 7 held it stores QUARANTINED over
      request 8, which then has neither a completion nor a cancellation. */
  lemma StaleResetLosesALaterRequest()
    ensures !Completes(Run(INITIAL, CANCELLED_FIRST).channel)
    ensures var s := Run(INITIAL, CANCELLED_FIRST + STALE_RESET);
            && s.log == Log([Begun(7, Tile(40, 19)), Begun(8, Tile(41, 19))], map[0 := Cancelled, 1 := LostToReset], [], [])
            && s.channel == QUARANTINED && s.main.Free?
  {
    CancelledAlone();
    RunConcat(INITIAL, CANCELLED_FIRST, STALE_RESET);
    var s1 := Run(INITIAL, CANCELLED_FIRST);
    RunConcat(s1, LOADED_AND_RELEASED, BeginMoves(8, Tile(41, 19)) + [Other(0), Other(0)]);
    ReleasedBehindReset(s1);
    BegunUnderReset(Run(s1, LOADED_AND_RELEASED));
  }
}
