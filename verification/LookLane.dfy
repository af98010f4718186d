/** The main thread's operations run to their end. */
module LookSolo {
  import opened Words
  import opened Wrappers
  import opened LookProtocol

  /** How many of its own steps the main thread is from being free. */
  function Rank(main: MainPc): nat {
    match main
    case Free => 0
    case Quarantine(SwapIn) => 2
    case Quarantine(Complete(_, _)) => 1
    case Begin(ClaimLane(_, _)) => 3
    case Begin(StoreCoordinates(_)) => 2
    case Begin(StoreKind(_)) => 1
    case Observe(LoadLane(_)) => 6
    case Observe(ReadCoordinates(_, _)) => 5
    case Observe(ReadKind(_, _, _)) => 4
    case Observe(Advance(_)) => 2
    case Observe(AdvanceCancelled(_)) => 1
    case Observe(TakeManual(_)) => 3
    case Intercept(LoadReply(_)) => 7
    case Intercept(DropManual) => 1
    case Intercept(DropDraining(_)) => 1
    case Intercept(ClaimReply(_, _)) => 6
    case Intercept(Recover(_)) => 1
    case Resolve(_, RecallCoordinates(_, _)) => 5
    case Resolve(_, RecallKind(_, _, _)) => 4
    case Resolve(_, Publish(_, _, _)) => 3
    case Resolve(_, Conclude(_)) => 2
    case Resolve(_, Unlock(_)) => 1
    case Release(_, ReleaseArmed) => 2
    case Release(_, ReleaseCancelled) => 1
  }

  /** Every operation is wait-free: it ends after a bounded number of its own
      steps, whatever the other threads do. */
  lemma MainStepRanksDown(s: State, stored: bool)
    ensures !s.main.Free? ==> Rank(MainStep(s, stored).main) < Rank(s.main) <= 7
    ensures s.main.Free? ==> MainStep(s, stored) == s
  {
  }

  /** The main thread runs its operation to the end with nobody in between. */
  function Finish(s: State, stored: bool): State
    decreases Rank(s.main)
  {
    if s.main.Free? then s
    else
      MainStepRanksDown(s, stored);
      Finish(MainStep(s, stored), stored)
  }
}

/** The look lane as the client DLL keeps it: three atomics, written in place. Each
    operation here runs alone and is proved to be the protocol's own run of that
    operation from call to return; what other threads may do between its steps is
    the protocol's business. */
module LookLane {
  import opened Words
  import opened Wrappers
  import opened LookProtocol
  import opened LookSolo

  class Lane {
    var channel: Channel
    var coordinates: u32
    var isTile: bool
    ghost var sent: seq<Packet>
    ghost var log: Log

    constructor ()
      ensures Machine(Free, false) == INITIAL
    {
      channel, coordinates, isTile := IDLE, 0, false;
      sent, log := [], INITIAL.log;
    }

    /** The protocol state this lane stands for, with no other thread about. */
    ghost function Machine(main: MainPc, answer: bool): State
      reads this
    {
      State(channel, coordinates, isTile, main, map[], answer, sent, log)
    }

    /** The state right after the call, before its first access. */
    ghost function Called(call: MainCall): State
      reads this
    {
      Step(Machine(Free, false), Call(call))
    }

    method Exchange(expected: Channel, desired: Channel) returns (actual: Channel)
      modifies this`channel
      ensures actual == old(channel)
      ensures channel == CompareExchange(old(channel), expected, desired)
    {
      actual := channel;
      if actual == expected {
        channel := desired;
      }
    }

    method LoadTarget() returns (target: Target)
      ensures target == DecodeTarget(isTile, coordinates)
    {
      var packed := coordinates;
      target := if isTile then Tile(packed % 0x1_0000, packed / 0x1_0000)
                else Ahead(packed % 0x1_0000, packed / 0x1_0000);
    }

    method BeginRequest(id: u32, target: Target) returns (accepted: bool)
      modifies this
      ensures Machine(Free, accepted) == Finish(old(Called(CallBegin(id, target))), false)
    {
      if id == 0 {
        return false;
      }
      ghost var g0 := Called(CallBegin(id, target));
      ghost var g1 := MainStep(g0, false);
      assert Finish(g0, false) == Finish(g1, false);
      var actual := Exchange(IDLE, Channel(Armed, id));
      if actual != IDLE {
        return false;
      }
      sent, log := [], log.(begun := log.begun + [Begun(id, target)]);
      ghost var g2 := MainStep(g1, false);
      assert Finish(g1, false) == Finish(g2, false);
      coordinates := PackCoordinates(target);
      ghost var g3 := MainStep(g2, false);
      assert Finish(g2, false) == Finish(g3, false);
      isTile := target.Tile?;
      return true;
    }

    method QuarantineLane()
      modifies this
      ensures Machine(Free, false) == Finish(old(Machine(Quarantine(SwapIn), false)), false)
      ensures isTile == old(isTile) && coordinates == old(coordinates)
    {
      ghost var g0 := Machine(Quarantine(SwapIn), false);
      ghost var g1 := MainStep(g0, false);
      assert Finish(g0, false) == Finish(g1, false);
      var previous := channel;
      channel := QUARANTINED;
      if previous.phase.Armed? || previous.phase.Pending? {
        ghost var g2 := MainStep(g1, false);
        assert Finish(g1, false) == Finish(g2, false);
        log := Completing(log, |log.begun| - 1, previous.owner, false);
      }
    }

    method ObserveOutgoing(packet: Packet)
      modifies this
      ensures Machine(Free, false) == Finish(old(Called(CallObserve(packet))), false)
    {
      if !IsLookPacket(packet.body) {
        return;
      }
      ghost var g0 := Called(CallObserve(packet));
      var current := channel;
      sent := sent + [packet];
      ghost var g1 := MainStep(g0, false);
      assert Finish(g0, false) == Finish(g1, false);
      var target := LoadTarget();
      ghost var g2 := MainStep(g1, false);
      assert Finish(g1, false) == Finish(g2, false);
      ghost var g3 := MainStep(g2, false);
      assert Finish(g2, false) == Finish(g3, false);
      assert g3 == Machine(Classify(packet, current, target), false);
      if (current.phase.Armed? || current.phase.CancelledArmed?) && current.owner != 0
         && packet.source == Command(current.owner) && packet.body == EncodeRequest(target) {
        var next := if current.phase.CancelledArmed? then Draining else Pending;
        var _ := Exchange(current, Channel(next, current.owner));
        ghost var g4 := MainStep(g3, false);
        assert Finish(g3, false) == Finish(g4, false);
        var _ := Exchange(Channel(CancelledArmed, current.owner), Channel(Draining, current.owner));
        ghost var g5 := MainStep(g4, false);
        assert Finish(g4, false) == Finish(g5, false);
        return;
      }
      if current == IDLE && IsWellFormedLook(packet.body) {
        ghost var g4 := MainStep(g3, false);
        assert Finish(g3, false) == Finish(g4, false);
        var actual := Exchange(IDLE, MANUAL);
        if actual == IDLE {
          sent := [packet];
          return;
        }
      }
      QuarantineLane();
    }

    /** With `racing`, another thread runs that cancellation from its start to its end
        right after the lane was loaded, so that the exchanges below can be lost. */
    method InterceptResponse(body: seq<byte>, stored: bool, racing: Option<u32>) returns (suppressed: bool)
      modifies this
      ensures !IsPopup(body) ==> !suppressed && Machine(Free, false) == old(Machine(Free, false))
      ensures IsPopup(body) ==>
                Machine(Free, suppressed) == Finish(Raced(MainStep(old(Called(CallIntercept(body))), stored), racing), stored)
    {
      if !IsPopup(body) {
        return false;
      }
      ghost var g1 := MainStep(Called(CallIntercept(body)), stored);
      var current := channel;
      if racing.Some? {
        CancelIgnoresMain(Machine(Free, false), g1.main, racing.value);
        Cancel(racing.value);
      }
      ghost var r1 := Raced(g1, racing);
      assert Machine(g1.main, false) == r1;
      if current == IDLE || current == QUARANTINED {
        return false;
      }
      var text := PopupText(body);
      if text.None? {
        QuarantineIgnoresStorage(r1, stored);
        QuarantineLane();
        return false;
      }
      ghost var r2 := MainStep(r1, stored);
      assert Finish(r1, stored) == Finish(r2, stored);
      if current == MANUAL {
        var _ := Exchange(MANUAL, IDLE);
        return false;
      }
      if current.phase.Draining? {
        var actual := Exchange(current, IDLE);
        return actual == current;
      }
      if !current.phase.Pending? {
        QuarantineIgnoresStorage(r1, stored);
        QuarantineLane();
        return false;
      }
      suppressed := ClaimReply(current, text.value, stored);
    }

    /** The part of intercept_response that claims the reply, or drains it for an owner
        that was cancelled in the meantime. */
    method ClaimReply(current: Channel, text: seq<byte>, stored: bool) returns (suppressed: bool)
      requires current.phase.Pending?
      modifies this
      ensures Machine(Free, suppressed) == Finish(old(Machine(Intercept(LookProtocol.ClaimReply(current.owner, text)), false)), stored)
    {
      ghost var g0 := Machine(Intercept(LookProtocol.ClaimReply(current.owner, text)), false);
      ghost var g1 := MainStep(g0, stored);
      assert Finish(g0, stored) == Finish(g1, stored);
      var actual := Exchange(current, Channel(Resolving, current.owner));
      if actual != current {
        if actual != Channel(Draining, current.owner) {
          return false;
        }
        ghost var g2 := MainStep(g1, stored);
        assert Finish(g1, stored) == Finish(g2, stored);
        var second := Exchange(actual, IDLE);
        return second == actual;
      }
      suppressed := ResolveReply(current.owner, text, stored);
    }

    /** The part of intercept_response after the reply is claimed. */
    method ResolveReply(owner: u32, text: seq<byte>, stored: bool) returns (published: bool)
      modifies this
      ensures Machine(Free, published) ==
              Finish(old(Machine(Resolve(owner, RecallCoordinates(text, sent)), false)), stored)
    {
      ghost var g0 := Machine(Resolve(owner, RecallCoordinates(text, sent)), false);
      var target := LoadTarget();
      ghost var g1 := MainStep(g0, stored);
      assert Finish(g0, stored) == Finish(g1, stored);
      ghost var g2 := MainStep(g1, stored);
      assert Finish(g1, stored) == Finish(g2, stored);
      published := stored;
      if published {
        log := log.(publications := log.publications + [Publication(|log.begun| - 1, owner, target, text, sent)]);
      }
      ghost var g3 := MainStep(g2, stored);
      assert Finish(g2, stored) == Finish(g3, stored);
      log := Completing(log, |log.begun| - 1, owner, published);
      ghost var g4 := MainStep(g3, stored);
      assert Finish(g3, stored) == Finish(g4, stored);
      var _ := Exchange(Channel(Resolving, owner), IDLE);
      ghost var g5 := MainStep(g4, stored);
      assert Finish(g4, stored) == Finish(g5, stored);
    }

    /** A cancellation by another thread, run alone. */
    method Cancel(id: u32)
      modifies this
      ensures Machine(Free, false) ==
              Run(old(Machine(Free, false)), CancelMoves(id)).(others := map[])
    {
      ghost var start := Machine(Free, false);
      ghost var s1 := Step(start, Spawn(0, CancelJob(id)));
      ghost var s2 := Step(s1, Other(0));
      ghost var s3 := Step(s2, Other(0));
      RunThree(start, Spawn(0, CancelJob(id)), Other(0), Other(0));
      if id == 0 {
        return;
      }
      for index := 0 to 2
        invariant Machine(Free, false) == (if index == 0 then s1 else if index == 1 then s2 else s3).(others := map[])
      {
        var phase, next := if index == 0 then Armed else Pending, if index == 0 then CancelledArmed else Draining;
        var actual := Exchange(Channel(phase, id), Channel(next, id));
        log := EndIf(actual == Channel(phase, id), log, Cancelled);
      }
    }

    method ReleaseUnsent(id: u32)
      modifies this
      ensures Machine(Free, false) == Finish(old(Called(CallRelease(id))), false)
    {
      ghost var g0 := Called(CallRelease(id));
      ghost var g1 := MainStep(g0, false);
      ghost var g2 := MainStep(g1, false);
      assert Finish(g0, false) == Finish(g1, false) == Finish(g2, false) == g2;
      for index := 0 to 2
        invariant Machine(Free, false) == (if index == 0 then g0 else if index == 1 then g1 else g2).(main := Free)
      {
        var phase := if index == 0 then Armed else CancelledArmed;
        var actual := Exchange(Channel(phase, id), IDLE);
        log := EndIf(index == 0 && actual == Channel(phase, id), log, NeverSent);
      }
    }

    method Reset()
      modifies this
      ensures Machine(Free, false) ==
              Run(old(Machine(Free, false)), [Spawn(0, ResetJob), Other(0), Other(0)]).(others := map[])
    {
      RunThree(Machine(Free, false), Spawn(0, ResetJob), Other(0), Other(0));
      var current := channel;
      if current != IDLE {
        log := EndIf(Completes(channel), log, LostToReset);
        channel := QUARANTINED;
      }
    }
  }

  function CancelMoves(id: u32): seq<Move> {
    [Spawn(0, CancelJob(id)), Other(0), Other(0)]
  }

  /** The state after another thread's cancellation, if one runs. */
  function Raced(s: State, racing: Option<u32>): State {
    if racing.None? then s else Run(s, CancelMoves(racing.value)).(others := map[])
  }

  /** A cancellation neither sees nor moves the main thread. */
  lemma CancelIgnoresMain(s: State, main: MainPc, id: u32)
    requires s.others == map[]
    ensures Run(s.(main := main), CancelMoves(id)) == Run(s, CancelMoves(id)).(main := main)
  {
    RunThree(s, Spawn(0, CancelJob(id)), Other(0), Other(0));
    RunThree(s.(main := main), Spawn(0, CancelJob(id)), Other(0), Other(0));
  }

  lemma QuarantineIgnoresStorage(s: State, stored: bool)
    requires s.main == Quarantine(SwapIn)
    ensures Finish(s, stored) == Finish(s, false)
  {
    var t := MainStep(s, stored);
    assert Finish(s, stored) == Finish(t, stored);
    assert Finish(s, false) == Finish(t, false);
    if !t.main.Free? {
      var u := MainStep(t, stored);
      assert Finish(t, stored) == Finish(u, stored) == u;
      assert Finish(t, false) == Finish(u, false) == u;
    }
  }

  lemma RunThree(s: State, first: Move, second: Move, third: Move)
    ensures Run(s, [first, second, third]) == Step(Step(Step(s, first), second), third)
  {
    assert [first, second, third][1..] == [second, third];
    assert [second, third][1..] == [third];
    var t := Step(s, first);
    var u := Step(t, second);
    assert Run(s, [first, second, third]) == Run(t, [second, third]);
    assert Run(t, [second, third]) == Run(u, [third]);
    assert Run(u, [third]) == Run(Step(u, third), []);
  }
}
