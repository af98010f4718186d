/** Cancellation races on the look lane end the same way in every interleaving. */
module LookRaces {
  import opened Words
  import opened Wrappers
  import opened LookProtocol
  import opened LookInvariant
  import opened LookSolo

  // ----- races -----

  /** The moves of a race: the main thread finishes the operation it is in while
      other threads start and run cancellations. With `storing`, the event queue
      takes what the main thread publishes. */
  predicate RaceMove(move: Move, storing: bool) {
    match move
    case Call(_) => false
    case Main(stored) => storing ==> stored
    case Spawn(_, job) => job.CancelJob?
    case Other(_) => true
  }

  ghost predicate Race(moves: seq<Move>, storing: bool) {
    forall i :: 0 <= i < |moves| ==> RaceMove(moves[i], storing)
  }

  function MainMoves(moves: seq<Move>): nat {
    if moves == [] then 0 else (if moves[0].Main? then 1 else 0) + MainMoves(moves[1..])
  }

  predicate Cancelling(pc: OtherPc) {
    pc.CancelFirst? || pc.CancelSecond? || (pc.Finished? && pc.job.CancelJob?)
  }

  ghost predicate OnlyCancels(others: map<nat, OtherPc>) {
    forall u :: u in others ==> Cancelling(others[u])
  }

  /** A cancellation of `id` has made its first exchange. */
  predicate Tried(pc: OtherPc, id: u32) {
    pc == CancelSecond(id) || pc == Finished(CancelJob(id))
  }

  ghost predicate SomeTried(others: map<nat, OtherPc>, id: u32) {
    exists u :: u in others && Tried(others[u], id)
  }

  // ----- from ARMED -----

  ghost predicate SendRaceMain(s: State, id: u32) {
    match s.main
    case Free => s.channel.phase.Pending? || s.channel.phase.Draining?
    case Observe(LoadLane(packet)) =>
      Unsent(s.channel.phase) && packet == Packet(EncodeRequest(DecodeTarget(s.isTile, s.coordinates)), Command(id))
    case Observe(ReadCoordinates(packet, current)) =>
      && SendRaceLoaded(s, current, id)
      && packet == Packet(EncodeRequest(DecodeTarget(s.isTile, s.coordinates)), Command(id))
    case Observe(ReadKind(packet, current, coordinates)) =>
      && SendRaceLoaded(s, current, id)
      && coordinates == s.coordinates
      && packet == Packet(EncodeRequest(DecodeTarget(s.isTile, s.coordinates)), Command(id))
    case Observe(Advance(current)) => SendRaceLoaded(s, current, id)
    case Observe(AdvanceCancelled(owner)) => owner == id && !s.channel.phase.Armed?
    case _ => false
  }

  predicate SendRaceLoaded(s: State, current: Channel, id: u32) {
    && Unsent(s.channel.phase)
    && Unsent(current.phase)
    && current.owner == id
    && (current.phase.CancelledArmed? ==> s.channel.phase.CancelledArmed?)
  }

  /** From ARMED, while the matching packet goes out and cancellations run. */
  ghost predicate SendRaceInv(s: State, id: u32) {
    && id != 0
    && s.channel.owner == id
    && (Unsent(s.channel.phase) || s.channel.phase.Pending? || s.channel.phase.Draining?)
    && OnlyCancels(s.others)
    && SendRaceMain(s, id)
    && (forall u :: u in s.others && s.others[u] == CancelSecond(id) ==> !s.channel.phase.Armed?)
    && (forall u :: u in s.others && s.others[u] == Finished(CancelJob(id)) ==>
          s.channel.phase.CancelledArmed? || s.channel.phase.Draining?)
    && (s.channel.phase.CancelledArmed? || s.channel.phase.Draining? ==> SomeTried(s.others, id))
  }

  lemma SendRaceMainStep(s: State, stored: bool, id: u32)
    requires SendRaceInv(s, id)
    ensures SendRaceInv(MainStep(s, stored), id)
  {
    if s.main.Observe? {
      if s.main.observe.Advance? || s.main.observe.AdvanceCancelled? {
        SendRaceAdvances(s, stored, id);
      } else {
        SendRaceLoads(s, stored, id);
      }
    }
  }

  /** Loading the lane and the target changes neither. */
  lemma SendRaceLoads(s: State, stored: bool, id: u32)
    requires SendRaceInv(s, id) && s.main.Observe?
    requires !s.main.observe.Advance? && !s.main.observe.AdvanceCancelled?
    ensures SendRaceInv(MainStep(s, stored), id)
  {
    var t := MainStep(s, stored);
    assert t.channel == s.channel && t.others == s.others && t.coordinates == s.coordinates && t.isTile == s.isTile;
  }

  lemma SendRaceAdvances(s: State, stored: bool, id: u32)
    requires SendRaceInv(s, id) && s.main.Observe?
    requires s.main.observe.Advance? || s.main.observe.AdvanceCancelled?
    ensures SendRaceInv(MainStep(s, stored), id)
  {
    assert MainStep(s, stored).others == s.others;
  }

  /** What a cancellation does to the lane and to itself. */
  lemma CancelStepIs(s: State, thread: nat)
    requires thread in s.others && Cancelling(s.others[thread])
    ensures var t := OtherStep(s, thread);
            && t.main == s.main && t.coordinates == s.coordinates && t.isTile == s.isTile
            && t.others == s.others[thread := Advanced(s.others[thread])]
            && t.channel == CancelOn(s.channel, s.others[thread])
  {
    assert s.others[thread].Finished? ==> s.others[thread := s.others[thread]] == s.others;
  }

  function Advanced(pc: OtherPc): OtherPc {
    match pc
    case CancelFirst(id) => CancelSecond(id)
    case CancelSecond(id) => Finished(CancelJob(id))
    case _ => pc
  }

  function CancelOn(channel: Channel, pc: OtherPc): Channel {
    match pc
    case CancelFirst(id) => CompareExchange(channel, Channel(Armed, id), Channel(CancelledArmed, id))
    case CancelSecond(id) => CompareExchange(channel, Channel(Pending, id), Channel(Draining, id))
    case _ => channel
  }

  /** Once a cancellation of `id` was tried it stays tried. */
  lemma StaysTried(others: map<nat, OtherPc>, thread: nat, id: u32)
    requires thread in others && Cancelling(others[thread])
    ensures SomeTried(others, id) ==> SomeTried(others[thread := Advanced(others[thread])], id)
    ensures others[thread] == CancelFirst(id) || others[thread] == CancelSecond(id) ==>
              SomeTried(others[thread := Advanced(others[thread])], id)
  {
    var after := others[thread := Advanced(others[thread])];
    if SomeTried(others, id) {
      var u :| u in others && Tried(others[u], id);
      assert u in after && Tried(after[u], id);
    }
    assert Tried(Advanced(others[thread]), id) ==> thread in after && Tried(after[thread], id);
  }

  lemma CancelKeepsSendRaceMain(s: State, t: State, pc: OtherPc, id: u32)
    requires id != 0 && s.channel.owner == id && SendRaceMain(s, id)
    requires Unsent(s.channel.phase) || s.channel.phase.Pending? || s.channel.phase.Draining?
    requires t.main == s.main && t.coordinates == s.coordinates && t.isTile == s.isTile && t.channel == CancelOn(s.channel, pc)
    ensures SendRaceMain(t, id)
  {
  }

  lemma SendRaceOtherStep(s: State, thread: nat, id: u32)
    requires SendRaceInv(s, id)
    ensures SendRaceInv(OtherStep(s, thread), id)
  {
    if thread in s.others {
      CancelStepIs(s, thread);
      StaysTried(s.others, thread, id);
      CancelKeepsSendRaceMain(s, OtherStep(s, thread), s.others[thread], id);
    }
  }

  lemma SendRaceStep(s: State, move: Move, storing: bool, id: u32)
    requires SendRaceInv(s, id) && RaceMove(move, storing)
    ensures SendRaceInv(Step(s, move), id)
  {
    match move
    case Main(stored) => SendRaceMainStep(s, stored, id);
    case Spawn(thread, job) =>
      var t := Step(s, move);
      if SomeTried(s.others, id) {
        var u :| u in s.others && Tried(s.others[u], id);
        assert u in t.others && Tried(t.others[u], id);
      }
    case Other(thread) => SendRaceOtherStep(s, thread, id);
  }

  lemma {:induction false} SendRaceRun(s: State, moves: seq<Move>, id: u32)
    requires SendRaceInv(s, id) && Race(moves, false)
    ensures SendRaceInv(Run(s, moves), id)
    ensures MainMoves(moves) >= Rank(s.main) ==> Run(s, moves).main.Free?
    decreases |moves|
  {
    if moves != [] {
      SendRaceStep(s, moves[0], false, id);
      if moves[0].Main? {
        MainStepRanksDown(s, moves[0].stored);
      }
      SendRaceRun(Step(s, moves[0]), moves[1..], id);
    }
  }

  /** From ARMED, in every interleaving of cancellations with the observation of
      the matching packet, the main thread finishes within six of its own steps
      with the request PENDING or DRAINING under its id; and once every
      cancellation has finished it is DRAINING exactly when one of them named id. */
  lemma CancelRacingSendConverges(s: State, moves: seq<Move>, id: u32)
    requires id != 0 && s.channel == Channel(Armed, id)
    requires s.main == Observe(LoadLane(Packet(EncodeRequest(DecodeTarget(s.isTile, s.coordinates)), Command(id))))
    requires forall u :: u in s.others ==> s.others[u].CancelFirst?
    requires Race(moves, false) && MainMoves(moves) >= 6
    ensures var t := Run(s, moves);
            && t.main.Free?
            && t.channel.owner == id && (t.channel.phase.Pending? || t.channel.phase.Draining?)
            && ((forall u :: u in t.others ==> t.others[u].Finished?) ==>
                (t.channel.phase.Draining? <==> exists u :: u in t.others && t.others[u] == Finished(CancelJob(id))))
  {
    SendRaceRun(s, moves, id);
    var t := Run(s, moves);
    if (forall u :: u in t.others ==> t.others[u].Finished?) && t.channel.phase.Draining? {
      var u :| u in t.others && Tried(t.others[u], id);
      assert t.others[u] == Finished(CancelJob(id));
    }
  }

  // ----- from PENDING -----

  ghost predicate ReplyRaceMain(s: State, id: u32, storing: bool) {
    match s.main
    case Free => s.channel == IDLE && (storing ==> s.answer)
    case Intercept(LoadReply(body)) =>
      PopupText(body).Some? && (s.channel == Channel(Pending, id) || s.channel == Channel(Draining, id))
    case Intercept(DropDraining(owner)) => owner == id && s.channel == Channel(Draining, id)
    case Intercept(ClaimReply(owner, _)) =>
      owner == id && (s.channel == Channel(Pending, id) || s.channel == Channel(Draining, id))
    case Intercept(Recover(owner)) => owner == id && s.channel == Channel(Draining, id)
    case Resolve(owner, pc) =>
      owner == id && s.channel == Channel(Resolving, id)
      && (storing && pc.Conclude? ==> pc.published) && (storing && pc.Unlock? ==> pc.published)
    case _ => false
  }

  /** From PENDING, while one well-formed popup is taken and cancellations run. */
  ghost predicate ReplyRaceInv(s: State, id: u32, storing: bool) {
    id != 0 && OnlyCancels(s.others) && ReplyRaceMain(s, id, storing)
  }

  lemma ReplyRaceResolveStep(s: State, stored: bool, id: u32, storing: bool)
    requires ReplyRaceMain(s, id, storing) && s.main.Resolve? && (storing ==> stored)
    ensures ReplyRaceMain(MainStep(s, stored), id, storing)
  {
  }

  lemma ReplyRaceInterceptStep(s: State, stored: bool, id: u32, storing: bool)
    requires id != 0 && ReplyRaceMain(s, id, storing) && s.main.Intercept?
    ensures ReplyRaceMain(MainStep(s, stored), id, storing)
  {
  }

  lemma ReplyRaceMainStep(s: State, stored: bool, id: u32, storing: bool)
    requires ReplyRaceInv(s, id, storing) && (storing ==> stored)
    ensures ReplyRaceInv(MainStep(s, stored), id, storing)
  {
    if s.main.Resolve? {
      ReplyRaceResolveStep(s, stored, id, storing);
    } else if s.main.Intercept? {
      ReplyRaceInterceptStep(s, stored, id, storing);
    }
  }

  lemma ReplyRaceStep(s: State, move: Move, id: u32, storing: bool)
    requires ReplyRaceInv(s, id, storing) && RaceMove(move, storing)
    ensures ReplyRaceInv(Step(s, move), id, storing)
  {
    if move.Main? {
      ReplyRaceMainStep(s, move.stored, id, storing);
    }
  }

  lemma {:induction false} ReplyRaceRun(s: State, moves: seq<Move>, id: u32, storing: bool)
    requires ReplyRaceInv(s, id, storing) && Race(moves, storing)
    ensures ReplyRaceInv(Run(s, moves), id, storing)
    ensures MainMoves(moves) >= Rank(s.main) ==> Run(s, moves).main.Free?
    decreases |moves|
  {
    if moves != [] {
      ReplyRaceStep(s, moves[0], id, storing);
      if moves[0].Main? {
        MainStepRanksDown(s, moves[0].stored);
      }
      ReplyRaceRun(Step(s, moves[0]), moves[1..], id, storing);
    }
  }

  /** From PENDING, in every interleaving of cancellations with one well-formed
      popup, the main thread finishes within seven of its own steps and the lane
      is IDLE again; unless a publication was refused, the popup is suppressed. */
  lemma CancelRacingReplyConverges(s: State, moves: seq<Move>, id: u32, body: seq<byte>, storing: bool)
    requires id != 0 && s.channel == Channel(Pending, id)
    requires s.main == Intercept(LoadReply(body)) && PopupText(body).Some?
    requires forall u :: u in s.others ==> s.others[u].CancelFirst?
    requires Race(moves, storing) && MainMoves(moves) >= 7
    ensures var t := Run(s, moves);
            t.main.Free? && t.channel == IDLE && (storing ==> t.answer)
  {
    ReplyRaceRun(s, moves, id, storing);
  }
}
