/** The look lane of the client DLL: a lock-free ownership protocol on one packed
    atomic. Every load, compare-exchange, swap and store is one step; the client
    main thread runs one operation at a time, and any number of other threads may
    cancel, reset or quarantine between any two of its steps. */
module LookProtocol {
  import opened Words
  import opened Wrappers

  // ----- the packed atomic -----

  datatype Phase = Idle | Armed | Pending | Manual | Quarantined | Resolving | Draining | CancelledArmed

  datatype Channel = Channel(phase: Phase, owner: u32)

  const IDLE := Channel(Idle, 0)
  const MANUAL := Channel(Manual, 0)
  const QUARANTINED := Channel(Quarantined, 0)

  function PhaseCode(phase: Phase): nat {
    match phase
    case Idle => 0
    case Armed => 1
    case Pending => 2
    case Manual => 3
    case Quarantined => 4
    case Resolving => 5
    case Draining => 6
    case CancelledArmed => 7
  }

  /** The 64-bit word the code stores: phase in the high half, owner in the low half. */
  function Packed(channel: Channel): u64 {
    PhaseCode(channel.phase) * 0x1_0000_0000 + channel.owner
  }

  /** Comparing packed words is comparing phase and owner, and both halves can be
      read back, so the machine below may work on pairs. */
  lemma PackingIsFaithful(a: Channel, b: Channel)
    ensures Packed(a) == Packed(b) <==> a == b
    ensures Packed(a) % 0x1_0000_0000 == a.owner
    ensures Packed(a) / 0x1_0000_0000 == PhaseCode(a.phase)
  {
    assert forall c: Channel {:trigger Packed(c)} :: Packed(c) % 0x1_0000_0000 == c.owner;
    assert PhaseCode(a.phase) == PhaseCode(b.phase) ==> a.phase == b.phase;
  }

  function CompareExchange(current: Channel, expected: Channel, desired: Channel): Channel {
    if current == expected then desired else current
  }

  // ----- targets and packets -----

  datatype Target = Ahead(x: u16, y: u16) | Tile(x: u16, y: u16)

  function PackCoordinates(target: Target): u32 {
    target.x + target.y * 0x1_0000
  }

  function DecodeTarget(isTile: bool, coordinates: u32): Target {
    if isTile
    then Tile(coordinates % 0x1_0000, coordinates / 0x1_0000)
    else Ahead(coordinates % 0x1_0000, coordinates / 0x1_0000)
  }

  lemma TargetRoundTrip(target: Target)
    ensures DecodeTarget(target.Tile?, PackCoordinates(target)) == target
  {
    assert PackCoordinates(target) % 0x1_0000 == target.x;
    assert PackCoordinates(target) / 0x1_0000 == target.y;
  }

  datatype Source = Client | Command(id: u32)

  datatype Packet = Packet(body: seq<byte>, source: Source)

  const AHEAD_OPCODE: byte := 0x09
  const TILE_OPCODE: byte := 0x0a
  const MESSAGE_OPCODE: byte := 0x0a
  const MAX_LOOK_RESULT_TEXT_LEN: nat := 4096

  /** The bytes a typed look request puts on the wire. */
  function EncodeRequest(target: Target): seq<byte> {
    match target
    case Ahead(_, _) => [AHEAD_OPCODE]
    case Tile(x, y) => [TILE_OPCODE, x / 0x100, x % 0x100, y / 0x100, y % 0x100]
  }

  /** Two requests look alike on the wire exactly when both look ahead or both
      name the same tile. */
  lemma RequestsAreDistinguishable(a: Target, b: Target)
    ensures EncodeRequest(a) == EncodeRequest(b) <==> (a.Ahead? && b.Ahead?) || (a.Tile? && a == b)
  {
    if a.Tile? && b.Tile? && EncodeRequest(a) == EncodeRequest(b) {
      assert EncodeRequest(a)[1..] == [a.x / 0x100, a.x % 0x100, a.y / 0x100, a.y % 0x100];
      assert EncodeRequest(b)[1..] == [b.x / 0x100, b.x % 0x100, b.y / 0x100, b.y % 0x100];
      assert forall k :: 0 <= k < 5 ==> EncodeRequest(a)[k] == EncodeRequest(b)[k];
      assert EncodeRequest(a)[1] == a.x / 0x100 && EncodeRequest(a)[2] == a.x % 0x100;
      assert EncodeRequest(b)[1] == b.x / 0x100 && EncodeRequest(b)[2] == b.x % 0x100;
      assert EncodeRequest(a)[3] == a.y / 0x100 && EncodeRequest(a)[4] == a.y % 0x100;
      assert EncodeRequest(b)[3] == b.y / 0x100 && EncodeRequest(b)[4] == b.y % 0x100;
    } else if a.Ahead? != b.Ahead? {
      assert |EncodeRequest(a)| != |EncodeRequest(b)|;
    }
  }

  predicate IsLookPacket(body: seq<byte>) {
    |body| > 0 && (body[0] == AHEAD_OPCODE || body[0] == TILE_OPCODE)
  }

  predicate IsWellFormedLook(body: seq<byte>) {
    IsLookPacket(body) && |body| == (if body[0] == AHEAD_OPCODE then 1 else 5)
  }

  predicate IsPopup(body: seq<byte>) {
    |body| >= 2 && body[0] == MESSAGE_OPCODE && 8 <= body[1] <= 10
  }

  /** The popup's text, if its framing is exact. */
  function PopupText(body: seq<byte>): Option<seq<byte>> {
    if |body| < 4 || !IsPopup(body) then None
    else
      var length := BigEndian16(body[2], body[3]);
      if length > MAX_LOOK_RESULT_TEXT_LEN || |body| != 4 + length then None else Some(body[4..])
  }

  // ----- threads -----

  datatype MainCall =
    | CallBegin(id: u32, target: Target)
    | CallObserve(packet: Packet)
    | CallIntercept(body: seq<byte>)
    | CallRelease(id: u32)
    | CallQuarantine

  // Where the main thread stands inside each of its operations.
  datatype BeginPc =
    | ClaimLane(id: u32, target: Target)
    | StoreCoordinates(target: Target)
    | StoreKind(target: Target)

  datatype ObservePc =
    | LoadLane(packet: Packet)
    | ReadCoordinates(packet: Packet, current: Channel)
    | ReadKind(packet: Packet, current: Channel, coordinates: u32)
    | Advance(current: Channel)
    | AdvanceCancelled(owner: u32)
    | TakeManual(packet: Packet)

  datatype QuarantinePc =
    | SwapIn
    | Complete(token: int, owner: u32)

  datatype InterceptPc =
    | LoadReply(body: seq<byte>)
    | DropManual
    | DropDraining(owner: u32)
    | ClaimReply(owner: u32, text: seq<byte>)
    | Recover(owner: u32)

  /** After the reply is claimed. `claimed` is history: the look packets seen
      since the lane left IDLE, at the moment of the claim. */
  datatype ResolvePc =
    | RecallCoordinates(text: seq<byte>, claimed: seq<Packet>)
    | RecallKind(text: seq<byte>, coordinates: u32, claimed: seq<Packet>)
    | Publish(target: Target, text: seq<byte>, claimed: seq<Packet>)
    | Conclude(published: bool)
    | Unlock(published: bool)

  datatype ReleasePc = ReleaseArmed | ReleaseCancelled

  datatype MainPc =
    | Free
    | Begin(begin: BeginPc)
    | Observe(observe: ObservePc)
    | Quarantine(quarantine: QuarantinePc)
    | Intercept(intercept: InterceptPc)
    | Resolve(owner: u32, resolve: ResolvePc)
    | Release(id: u32, release: ReleasePc)

  /** What a thread other than the main one may run. A quarantine off the main
      thread carries the look packet that caused it, if one did. */
  datatype Job =
    | CancelJob(id: u32)
    | ResetJob
    | QuarantineJob(packet: Option<Packet>)

  datatype OtherPc =
    | CancelFirst(id: u32)
    | CancelSecond(id: u32)
    | ResetLoad
    | ResetStore
    | Swap(packet: Option<Packet>)
    | SwapComplete(token: int, owner: u32)
    | Finished(job: Job)

  // ----- the machine -----

  datatype Begun = Begun(id: u32, target: Target)
  datatype Publication = Publication(token: int, id: u32, target: Target, text: seq<byte>, packets: seq<Packet>)
  datatype Completion = Completion(token: int, id: u32, ok: bool)

  /** How a begun request can end without being completed. */
  datatype Ending = Cancelled | NeverSent | LostToReset

  /** The history. Each successful begin is named by its index in `begun`. */
  datatype Log = Log(
    begun: seq<Begun>,
    ended: map<int, Ending>,
    publications: seq<Publication>,
    completions: seq<Completion>)

  /** The shared words, the threads, the main thread's last answer, the look
      packets seen since the lane last left IDLE, and the history. */
  datatype State = State(
    channel: Channel,
    coordinates: u32,
    isTile: bool,
    main: MainPc,
    others: map<nat, OtherPc>,
    answer: bool,
    sent: seq<Packet>,
    log: Log)

  const INITIAL := State(IDLE, 0, false, Free, map[], false, [], Log([], map[], [], []))

  datatype Move =
    | Call(call: MainCall)
    | Main(stored: bool)
    | Spawn(thread: nat, job: Job)
    | Other(thread: nat)

  /** What each call does before its first access to the shared words. */
  function Enter(call: MainCall): MainPc {
    match call
    case CallBegin(id, target) => if id == 0 then Free else Begin(ClaimLane(id, target))
    case CallObserve(packet) => if IsLookPacket(packet.body) then Observe(LoadLane(packet)) else Free
    case CallIntercept(body) => if IsPopup(body) then Intercept(LoadReply(body)) else Free
    case CallRelease(id) => Release(id, ReleaseArmed)
    case CallQuarantine => Quarantine(SwapIn)
  }

  function Launch(job: Job): OtherPc {
    match job
    case CancelJob(id) => if id == 0 then Finished(job) else CancelFirst(id)
    case ResetJob => ResetLoad
    case QuarantineJob(packet) => Swap(packet)
  }

  predicate Completes(channel: Channel) {
    channel.phase.Armed? || channel.phase.Pending?
  }

  /** What observe_outgoing does with the word and the target it loaded. */
  function Classify(packet: Packet, current: Channel, target: Target): MainPc {
    if (current.phase.Armed? || current.phase.CancelledArmed?)
       && current.owner != 0
       && packet == Packet(EncodeRequest(target), Command(current.owner))
    then Observe(Advance(current))
    else if current == IDLE && IsWellFormedLook(packet.body) then Observe(TakeManual(packet))
    else Quarantine(SwapIn)
  }

  /** What intercept_response does with the word it loaded. */
  function Route(body: seq<byte>, current: Channel): MainPc {
    if current == IDLE || current == QUARANTINED then Free
    else match PopupText(body)
      case None => Quarantine(SwapIn)
      case Some(text) =>
        if current == MANUAL then Intercept(DropManual)
        else if current.phase.Draining? then Intercept(DropDraining(current.owner))
        else if !current.phase.Pending? then Quarantine(SwapIn)
        else Intercept(ClaimReply(current.owner, text))
  }

  function BeginStep(s: State, pc: BeginPc): State {
    match pc
    case ClaimLane(id, target) =>
      if s.channel == IDLE
      then s.(channel := Channel(Armed, id), main := Begin(StoreCoordinates(target)),
              sent := [], log := s.log.(begun := s.log.begun + [Begun(id, target)]))
      else s.(main := Free)
    case StoreCoordinates(target) => s.(coordinates := PackCoordinates(target), main := Begin(StoreKind(target)))
    case StoreKind(target) => s.(isTile := target.Tile?, main := Free, answer := true)
  }

  function ObserveStep(s: State, pc: ObservePc): State {
    match pc
    case LoadLane(packet) => s.(main := Observe(ReadCoordinates(packet, s.channel)), sent := s.sent + [packet])
    case ReadCoordinates(packet, current) => s.(main := Observe(ReadKind(packet, current, s.coordinates)))
    case ReadKind(packet, current, coordinates) =>
      s.(main := Classify(packet, current, DecodeTarget(s.isTile, coordinates)))
    case Advance(current) =>
      var next := if current.phase.CancelledArmed? then Draining else Pending;
      s.(channel := CompareExchange(s.channel, current, Channel(next, current.owner)),
         main := Observe(AdvanceCancelled(current.owner)))
    case AdvanceCancelled(owner) =>
      s.(channel := CompareExchange(s.channel, Channel(CancelledArmed, owner), Channel(Draining, owner)),
         main := Free)
    case TakeManual(packet) =>
      if s.channel == IDLE
      then s.(channel := MANUAL, main := Free, sent := [packet])
      else s.(main := Quarantine(SwapIn))
  }

  function Completing(log: Log, token: int, owner: u32, ok: bool): Log {
    log.(completions := log.completions + [Completion(token, owner, ok)])
  }

  function QuarantineStep(s: State, pc: QuarantinePc): State {
    match pc
    case SwapIn =>
      s.(channel := QUARANTINED,
         main := if Completes(s.channel) then Quarantine(Complete(|s.log.begun| - 1, s.channel.owner)) else Free)
    case Complete(token, owner) =>
      s.(log := Completing(s.log, token, owner, false), main := Free)
  }

  function InterceptStep(s: State, pc: InterceptPc): State {
    match pc
    case LoadReply(body) => s.(main := Route(body, s.channel))
    case DropManual => s.(channel := CompareExchange(s.channel, MANUAL, IDLE), main := Free)
    case DropDraining(owner) =>
      s.(channel := CompareExchange(s.channel, Channel(Draining, owner), IDLE), main := Free,
         answer := s.channel == Channel(Draining, owner))
    case ClaimReply(owner, text) =>
      if s.channel == Channel(Pending, owner)
      then s.(channel := Channel(Resolving, owner), main := Resolve(owner, RecallCoordinates(text, s.sent)))
      else s.(main := if s.channel == Channel(Draining, owner) then Intercept(Recover(owner)) else Free)
    case Recover(owner) =>
      s.(channel := CompareExchange(s.channel, Channel(Draining, owner), IDLE), main := Free,
         answer := s.channel == Channel(Draining, owner))
  }

  /** `stored` is whether the event queue takes the publication. */
  function ResolveStep(s: State, owner: u32, pc: ResolvePc, stored: bool): State {
    match pc
    case RecallCoordinates(text, claimed) => s.(main := Resolve(owner, RecallKind(text, s.coordinates, claimed)))
    case RecallKind(text, coordinates, claimed) =>
      s.(main := Resolve(owner, Publish(DecodeTarget(s.isTile, coordinates), text, claimed)))
    case Publish(target, text, claimed) =>
      var publication := Publication(|s.log.begun| - 1, owner, target, text, claimed);
      s.(log := if stored then s.log.(publications := s.log.publications + [publication]) else s.log,
         main := Resolve(owner, Conclude(stored)))
    case Conclude(published) =>
      s.(log := Completing(s.log, |s.log.begun| - 1, owner, published),
         main := Resolve(owner, Unlock(published)))
    case Unlock(published) =>
      s.(channel := CompareExchange(s.channel, Channel(Resolving, owner), IDLE), main := Free, answer := published)
  }

  /** The history of a write that takes a live request off the lane uncompleted. */
  function EndIf(taken: bool, log: Log, ending: Ending): Log {
    if taken then log.(ended := log.ended[|log.begun| - 1 := ending]) else log
  }

  function ReleaseStep(s: State, id: u32, pc: ReleasePc): State {
    match pc
    case ReleaseArmed =>
      s.(channel := CompareExchange(s.channel, Channel(Armed, id), IDLE), main := Release(id, ReleaseCancelled),
         log := EndIf(s.channel == Channel(Armed, id), s.log, NeverSent))
    case ReleaseCancelled =>
      s.(channel := CompareExchange(s.channel, Channel(CancelledArmed, id), IDLE), main := Free)
  }

  /** One atomic access by the main thread. */
  function MainStep(s: State, stored: bool): State {
    match s.main
    case Free => s
    case Begin(pc) => BeginStep(s, pc)
    case Observe(pc) => ObserveStep(s, pc)
    case Quarantine(pc) => QuarantineStep(s, pc)
    case Intercept(pc) => InterceptStep(s, pc)
    case Resolve(owner, pc) => ResolveStep(s, owner, pc, stored)
    case Release(id, pc) => ReleaseStep(s, id, pc)
  }

  /** One atomic access by another thread. */
  function OtherStep(s: State, thread: nat): State {
    if thread !in s.others then s
    else match s.others[thread]
      case CancelFirst(id) =>
        s.(channel := CompareExchange(s.channel, Channel(Armed, id), Channel(CancelledArmed, id)),
           log := EndIf(s.channel == Channel(Armed, id), s.log, Cancelled),
           others := s.others[thread := CancelSecond(id)])
      case CancelSecond(id) =>
        s.(channel := CompareExchange(s.channel, Channel(Pending, id), Channel(Draining, id)),
           log := EndIf(s.channel == Channel(Pending, id), s.log, Cancelled),
           others := s.others[thread := Finished(CancelJob(id))])
      case ResetLoad =>
        s.(others := s.others[thread := if s.channel == IDLE then Finished(ResetJob) else ResetStore])
      case ResetStore =>
        s.(channel := QUARANTINED, log := EndIf(Completes(s.channel), s.log, LostToReset),
           others := s.others[thread := Finished(ResetJob)])
      case Swap(packet) =>
        s.(channel := QUARANTINED,
           sent := if packet.Some? then s.sent + [packet.value] else s.sent,
           others := s.others[thread :=
             if Completes(s.channel)
             then SwapComplete(|s.log.begun| - 1, s.channel.owner) else Finished(QuarantineJob(packet))])
      case SwapComplete(token, owner) =>
        s.(log := Completing(s.log, token, owner, false),
           others := s.others[thread := Finished(QuarantineJob(None))])
      case Finished(_) => s
  }

  /** A move that is not enabled leaves the state as it is. */
  function Step(s: State, move: Move): State {
    match move
    case Call(call) =>
      if s.main.Free? then s.(main := Enter(call), answer := false) else s
    case Main(stored) => MainStep(s, stored)
    case Spawn(thread, job) =>
      if thread in s.others then s else s.(others := s.others[thread := Launch(job)])
    case Other(thread) => OtherStep(s, thread)
  }

  function Run(s: State, moves: seq<Move>): State
    decreases |moves|
  {
    if moves == [] then s else Run(Step(s, moves[0]), moves[1..])
  }
}
