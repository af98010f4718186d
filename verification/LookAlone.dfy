/** What each operation on the look lane comes to when it runs alone, and what becomes of
    a look the player asks for. */
module LookAlone {
  import opened Words
  import opened Wrappers
  import opened LookProtocol
  import opened LookSolo
  import opened LookRaces

  // ----- operations of the main thread -----

  lemma FinishStep(s: State, stored: bool)
    requires !s.main.Free?
    ensures Finish(s, stored) == Finish(MainStep(s, stored), stored)
  {
    MainStepRanksDown(s, stored);
  }

  lemma FinishTwo(s: State, stored: bool)
    requires !s.main.Free? && !MainStep(s, stored).main.Free?
    ensures Finish(s, stored) == Finish(MainStep(MainStep(s, stored), stored), stored)
  {
    FinishStep(s, stored);
    FinishStep(MainStep(s, stored), stored);
  }

  /** A begin succeeds exactly on an idle lane, for a command with a number; then the lane
      is armed for it and decodes to its target. */
  lemma BeginComesTo(s: State, id: u32, target: Target)
    requires s.main.Free?
    ensures var t := Finish(Step(s, Call(CallBegin(id, target))), false);
            && (t.answer <==> id != 0 && s.channel == IDLE)
            && t.channel == (if t.answer then Channel(Armed, id) else s.channel)
            && (t.answer ==> DecodeTarget(t.isTile, t.coordinates) == target)
            && t.log.begun == s.log.begun + (if t.answer then [Begun(id, target)] else [])
  {
    var called := Step(s, Call(CallBegin(id, target)));
    if id != 0 {
      FinishStep(called, false);
      var claimed := MainStep(called, false);
      if s.channel == IDLE {
        FinishTwo(claimed, false);
        TargetRoundTrip(target);
      }
    }
  }

  /** The bytes of a look: ahead, or at a tile. */
  predicate LooksLike(body: seq<byte>) {
    body == [0x09] || (|body| == 5 && body[0] == 0x0A)
  }

  /** The packet is the request the lane is armed with. */
  predicate IsOwnRequest(s: State, packet: Packet) {
    && s.channel.owner != 0
    && packet == Packet(EncodeRequest(DecodeTarget(s.isTile, s.coordinates)), Command(s.channel.owner))
  }

  /** The lane after an outgoing packet. */
  function AfterPacket(s: State, packet: Packet): Channel {
    if packet.body == [] || (packet.body[0] != 0x09 && packet.body[0] != 0x0A) then s.channel
    else if IsOwnRequest(s, packet) && s.channel.phase.Armed? then Channel(Pending, s.channel.owner)
    else if IsOwnRequest(s, packet) && s.channel.phase.CancelledArmed? then Channel(Draining, s.channel.owner)
    else if s.channel == Channel(Idle, 0) && LooksLike(packet.body) then Channel(Manual, 0)
    else Channel(Quarantined, 0)
  }

  lemma QuarantineComesTo(s: State, stored: bool)
    requires s.main == Quarantine(SwapIn)
    ensures var t := Finish(s, stored);
            && t.channel == Channel(Quarantined, 0) && t.main.Free? && t.answer == s.answer
            && t.log.publications == s.log.publications
            && t.log.completions == s.log.completions +
                 (if s.channel.phase.Armed? || s.channel.phase.Pending?
                  then [Completion(|s.log.begun| - 1, s.channel.owner, false)] else [])
  {
    FinishStep(s, stored);
    var t := MainStep(s, stored);
    if !t.main.Free? {
      FinishStep(t, stored);
    }
  }

  lemma LoadingComesTo(s: State, packet: Packet)
    requires s.main == Observe(LoadLane(packet))
    ensures Finish(s, false) ==
            Finish(s.(sent := s.sent + [packet], main := Classify(packet, s.channel, DecodeTarget(s.isTile, s.coordinates))), false)
  {
    FinishStep(s, false);
    FinishTwo(MainStep(s, false), false);
  }

  /** An outgoing packet moves the lane as its phase and owner say; it is quarantined
      exactly by a look that is neither its own request nor the player's on an idle
      lane, and a live request is then told of failure. */
  lemma PacketComesTo(s: State, packet: Packet)
    requires s.main.Free?
    ensures var t := Finish(Step(s, Call(CallObserve(packet))), false);
            && t.channel == AfterPacket(s, packet) && t.log.publications == s.log.publications
            && t.log.completions == s.log.completions +
                 (if AfterPacket(s, packet) == QUARANTINED && IsLookPacket(packet.body)
                     && (s.channel.phase.Armed? || s.channel.phase.Pending?)
                  then [Completion(|s.log.begun| - 1, s.channel.owner, false)] else [])
  {
    var called := Step(s, Call(CallObserve(packet)));
    if IsLookPacket(packet.body) {
      LoadingComesTo(called, packet);
      var classified := called.(sent := s.sent + [packet],
                                main := Classify(packet, s.channel, DecodeTarget(s.isTile, s.coordinates)));
      ClassifiedComesTo(s, classified, packet);
    }
  }

  lemma ClassifiedComesTo(s: State, c: State, packet: Packet)
    requires IsLookPacket(packet.body)
    requires c == s.(answer := false, sent := s.sent + [packet],
                     main := Classify(packet, s.channel, DecodeTarget(s.isTile, s.coordinates)))
    ensures var t := Finish(c, false);
            && t.channel == AfterPacket(s, packet) && t.log.publications == s.log.publications
            && t.log.completions == s.log.completions +
                 (if AfterPacket(s, packet) == QUARANTINED && (s.channel.phase.Armed? || s.channel.phase.Pending?)
                  then [Completion(|s.log.begun| - 1, s.channel.owner, false)] else [])
  {
    match c.main
    case Quarantine(SwapIn) => QuarantineComesTo(c, false);
    case Observe(TakeManual(_)) => FinishStep(c, false);
    case Observe(Advance(_)) => FinishTwo(c, false);
  }

  // ----- replies -----

  predicate PopupLike(body: seq<byte>) {
    |body| >= 2 && body[0] == 0x0A && 8 <= body[1] <= 10
  }

  /** The length field fits the body. */
  predicate Framed(body: seq<byte>) {
    |body| >= 4 && |body| - 4 <= 4096 && |body| - 4 == (body[2] as int) * 0x100 + body[3]
  }

  /** The lane after a reply. */
  function AfterReply(s: State, body: seq<byte>): Channel {
    if !PopupLike(body) || s.channel == Channel(Idle, 0) || s.channel == Channel(Quarantined, 0) then s.channel
    else if !Framed(body) then Channel(Quarantined, 0)
    else if s.channel == Channel(Manual, 0) || s.channel.phase.Draining? || s.channel.phase.Pending? then Channel(Idle, 0)
    else Channel(Quarantined, 0)
  }

  lemma ClaimComesTo(s: State, owner: u32, text: seq<byte>, stored: bool)
    requires s.main == Intercept(ClaimReply(owner, text)) && s.channel == Channel(Pending, owner)
    ensures var t := Finish(s, stored);
            && t.channel == Channel(Idle, 0) && t.answer == stored
            && t.log.publications == s.log.publications +
                 (if stored then [Publication(|s.log.begun| - 1, owner, DecodeTarget(s.isTile, s.coordinates), text, s.sent)]
                  else [])
            && t.log.completions == s.log.completions + [Completion(|s.log.begun| - 1, owner, stored)]
  {
    var s1 := MainStep(s, stored);
    var s2 := MainStep(s1, stored);
    var s3 := MainStep(s2, stored);
    var s4 := MainStep(s3, stored);
    var s5 := MainStep(s4, stored);
    FinishTwo(s, stored);
    FinishTwo(s2, stored);
    FinishTwo(s4, stored);
  }

  /** A reply moves the lane as its phase says. It is kept from the player exactly when it
      answers a cancelled request, or a live one whose look is published; a live
      request is told whether it was, and of failure if the reply quarantines it. */
  lemma ReplyComesTo(s: State, body: seq<byte>, stored: bool)
    requires s.main.Free?
    ensures var t := Finish(Step(s, Call(CallIntercept(body))), stored);
            && t.channel == AfterReply(s, body)
            && (t.answer <==> PopupLike(body) && Framed(body)
                              && (s.channel.phase.Draining? || (s.channel.phase.Pending? && stored)))
            && t.log.publications == s.log.publications +
                 (if PopupLike(body) && Framed(body) && s.channel.phase.Pending? && stored
                  then [Publication(|s.log.begun| - 1, s.channel.owner, DecodeTarget(s.isTile, s.coordinates), body[4..], s.sent)]
                  else [])
            && t.log.completions == s.log.completions +
                 (if PopupLike(body) && (s.channel.phase.Pending? || (s.channel.phase.Armed? && AfterReply(s, body) == QUARANTINED))
                  then [Completion(|s.log.begun| - 1, s.channel.owner, Framed(body) && s.channel.phase.Pending? && stored)]
                  else [])
  {
    var called := Step(s, Call(CallIntercept(body)));
    if IsPopup(body) {
      FinishStep(called, stored);
      var routed := MainStep(called, stored);
      match routed.main
      case Free =>
      case Quarantine(SwapIn) => QuarantineComesTo(routed, stored);
      case Intercept(ClaimReply(owner, text)) => ClaimComesTo(routed, owner, text, stored);
      case _ => FinishStep(routed, stored);
    }
  }

  /** Releasing frees a lane that is still armed for that command, cancelled or not. */
  lemma ReleaseComesTo(s: State, id: u32)
    requires s.main.Free?
    ensures Finish(Step(s, Call(CallRelease(id))), false).channel ==
            if s.channel == Channel(Armed, id) || s.channel == Channel(CancelledArmed, id) then Channel(Idle, 0) else s.channel
  {
    FinishTwo(Step(s, Call(CallRelease(id))), false);
  }

  // ----- operations of other threads -----

  lemma RunJob(s: State, thread: nat, job: Job)
    ensures Run(s, [Spawn(thread, job), Other(thread), Other(thread)]) ==
            OtherStep(OtherStep(Step(s, Spawn(thread, job)), thread), thread)
  {
    var moves := [Spawn(thread, job), Other(thread), Other(thread)];
    assert moves[1..] == [Other(thread), Other(thread)] && moves[1..][1..] == [Other(thread)];
    var t := Step(s, moves[0]);
    assert Run(t, moves[1..]) == Run(OtherStep(t, thread), [Other(thread)]);
    assert Run(OtherStep(t, thread), [Other(thread)]) == Run(OtherStep(OtherStep(t, thread), thread), []);
  }

  /** Cancelling takes its own request out of the way of its packet or its reply. */
  lemma CancelComesTo(s: State, thread: nat, id: u32)
    requires thread !in s.others
    ensures var t := Run(s, [Spawn(thread, CancelJob(id)), Other(thread), Other(thread)]);
            && t.channel == (if id != 0 && s.channel == Channel(Armed, id) then Channel(CancelledArmed, id)
                             else if id != 0 && s.channel == Channel(Pending, id) then Channel(Draining, id)
                             else s.channel)
            && t.log.completions == s.log.completions && t.log.publications == s.log.publications
  {
    RunJob(s, thread, CancelJob(id));
  }

  /** Resetting gives up any lane that is not idle, and tells nobody. */
  lemma ResetComesTo(s: State, thread: nat)
    requires thread !in s.others
    ensures var t := Run(s, [Spawn(thread, ResetJob), Other(thread), Other(thread)]);
            && t.channel == (if s.channel == Channel(Idle, 0) then s.channel else Channel(Quarantined, 0))
            && t.log.completions == s.log.completions && t.log.publications == s.log.publications
  {
    RunJob(s, thread, ResetJob);
  }

  // ----- the player's own looks -----

  /** While the player's look goes out and cancellations run. */
  predicate ManualSend(s: State, packet: Packet) {
    match s.main
    case Observe(LoadLane(p)) => s.channel == IDLE && p == packet
    case Observe(ReadCoordinates(p, current)) => s.channel == IDLE && p == packet && current == IDLE
    case Observe(ReadKind(p, current, _)) => s.channel == IDLE && p == packet && current == IDLE
    case Observe(TakeManual(p)) => s.channel == IDLE && p == packet
    case Free => s.channel == MANUAL
    case _ => false
  }

  /** While the reply to it comes back. */
  predicate ManualReply(s: State, body: seq<byte>) {
    match s.main
    case Intercept(LoadReply(b)) => s.channel == MANUAL && b == body
    case Intercept(DropManual) => s.channel == MANUAL
    case Free => s.channel == IDLE && !s.answer
    case _ => false
  }

  ghost predicate ManualInv(s: State, packet: Packet, body: seq<byte>) {
    && OnlyCancels(s.others) && !s.answer
    && (ManualSend(s, packet) || ManualReply(s, body))
  }

  lemma ManualSendStep(s: State, stored: bool, packet: Packet)
    requires ManualSend(s, packet) && !s.answer && LooksLike(packet.body)
    ensures ManualSend(MainStep(s, stored), packet) && !MainStep(s, stored).answer
    ensures MainStep(s, stored).others == s.others
  {
  }

  lemma ManualReplyStep(s: State, stored: bool, body: seq<byte>)
    requires ManualReply(s, body) && !s.answer && PopupLike(body) && Framed(body)
    ensures ManualReply(MainStep(s, stored), body) && !MainStep(s, stored).answer
    ensures MainStep(s, stored).others == s.others
  {
  }

  /** No cancellation has anything to cancel on an idle lane or the player's. */
  lemma CancelsMissManual(s: State, thread: nat)
    requires OnlyCancels(s.others) && (s.channel == IDLE || s.channel == MANUAL)
    ensures var t := OtherStep(s, thread);
            OnlyCancels(t.others) && t.channel == s.channel && t.main == s.main && t.answer == s.answer
  {
    if thread in s.others {
      CancelStepIs(s, thread);
    }
  }

  lemma ManualStep(s: State, move: Move, packet: Packet, body: seq<byte>)
    requires ManualInv(s, packet, body) && RaceMove(move, false)
    requires LooksLike(packet.body) && PopupLike(body) && Framed(body)
    ensures ManualInv(Step(s, move), packet, body)
    ensures ManualSend(s, packet) ==> ManualSend(Step(s, move), packet)
    ensures ManualReply(s, body) ==> ManualReply(Step(s, move), body)
  {
    match move
    case Main(stored) =>
      if ManualSend(s, packet) {
        ManualSendStep(s, stored, packet);
      }
      if ManualReply(s, body) {
        ManualReplyStep(s, stored, body);
      }
    case Spawn(_, _) =>
    case Other(thread) => CancelsMissManual(s, thread);
  }

  lemma {:induction false} ManualRun(s: State, moves: seq<Move>, packet: Packet, body: seq<byte>)
    requires ManualInv(s, packet, body) && Race(moves, false)
    requires LooksLike(packet.body) && PopupLike(body) && Framed(body)
    ensures ManualInv(Run(s, moves), packet, body)
    ensures ManualSend(s, packet) ==> ManualSend(Run(s, moves), packet)
    ensures ManualReply(s, body) ==> ManualReply(Run(s, moves), body)
    decreases |moves|
  {
    if moves != [] {
      ManualStep(s, moves[0], packet, body);
      assert forall i :: 0 <= i < |moves[1..]| ==> moves[1..][i] == moves[i + 1];
      ManualRun(Step(s, moves[0]), moves[1..], packet, body);
    }
  }

  /** The player's own look on an idle lane takes it without quarantine, whatever
      cancellations run meanwhile. */
  lemma PlayersLookTakesTheLane(s: State, moves: seq<Move>, packet: Packet)
    requires s.channel == IDLE && s.main == Observe(LoadLane(packet)) && LooksLike(packet.body) && !s.answer
    requires OnlyCancels(s.others) && Race(moves, false) && Run(s, moves).main.Free?
    ensures Run(s, moves).channel == MANUAL
  {
    ManualRun(s, moves, packet, [0x0A, 8, 0, 0]);
  }

  /** And its reply reaches the player and gives the lane back. */
  lemma PlayersReplyFreesTheLane(s: State, moves: seq<Move>, body: seq<byte>)
    requires s.channel == MANUAL && s.main == Intercept(LoadReply(body)) && PopupLike(body) && Framed(body) && !s.answer
    requires OnlyCancels(s.others) && Race(moves, false) && Run(s, moves).main.Free?
    ensures Run(s, moves).channel == IDLE && !Run(s, moves).answer
  {
    ManualRun(s, moves, Packet([0x09], Client), body);
  }
}
