/** What every step of the look lane keeps, for every interleaving. */
module LookInvariant {
  import opened Words
  import opened Wrappers
  import opened LookProtocol

  function Last(s: State): int {
    |s.log.begun| - 1
  }

  /** The phases that hold the lane for a typed request. */
  predicate Owned(phase: Phase) {
    phase.Armed? || phase.CancelledArmed? || phase.Pending? || phase.Draining? || phase.Resolving?
  }

  predicate Unsent(phase: Phase) {
    phase.Armed? || phase.CancelledArmed?
  }

  predicate Sent(phase: Phase) {
    phase.Pending? || phase.Draining? || phase.Resolving?
  }

  /** The one packet a begun request puts on the wire. */
  function RequestOf(begun: Begun): Packet {
    Packet(EncodeRequest(begun.target), Command(begun.id))
  }

  predicate BeforePublish(main: MainPc) {
    main.Resolve? && !main.resolve.Conclude? && !main.resolve.Unlock?
  }

  predicate BeforeConclude(main: MainPc) {
    main.Resolve? && !main.resolve.Unlock?
  }

  // ----- ownership -----

  ghost predicate OwnerInv(s: State) {
    && (forall i :: 0 <= i < |s.log.begun| ==> s.log.begun[i].id != 0)
    && (if Owned(s.channel.phase)
        then |s.log.begun| > 0 && s.channel.owner == s.log.begun[Last(s)].id
        else s.channel.owner == 0)
    && (s.main.Begin? && s.main.begin.ClaimLane? ==> s.main.begin.id != 0)
    && (s.channel.phase.Resolving? ==> s.main.Resolve?)
    && (s.main.Resolve? ==>
        && |s.log.begun| > 0
        && s.main.owner == s.log.begun[Last(s)].id
        && (s.channel.phase.Resolving? || s.channel.phase.Quarantined?))
  }

  // ----- the stored target -----

  ghost predicate TargetInv(s: State) {
    if s.main.Begin? && !s.main.begin.ClaimLane? then
      && |s.log.begun| > 0
      && s.main.begin.target == s.log.begun[Last(s)].target
      && (s.main.begin.StoreKind? ==> s.coordinates == PackCoordinates(s.main.begin.target))
    else
      && (|s.log.begun| > 0 ==> DecodeTarget(s.isTile, s.coordinates) == s.log.begun[Last(s)].target)
      && (s.main.Observe? && s.main.observe.ReadKind? ==> s.main.observe.coordinates == s.coordinates)
      && (s.main.Resolve? && s.main.resolve.RecallKind? ==> s.main.resolve.coordinates == s.coordinates)
      && (s.main.Resolve? && s.main.resolve.Publish? && |s.log.begun| > 0 ==>
          s.main.resolve.target == s.log.begun[Last(s)].target)
  }

  // ----- the packets since the lane left IDLE -----

  /** Between recording a packet and acting on it, an unsent request still has
      only that packet behind it. */
  ghost predicate ObservedInv(s: State, current: Channel, packet: Packet) {
    && (Unsent(current.phase) ==>
        && |s.log.begun| > 0
        && current.owner == s.log.begun[Last(s)].id
        && (s.channel.phase.Quarantined? || (Unsent(s.channel.phase) && s.sent == [packet]))
        && (current.phase.CancelledArmed? ==> !s.channel.phase.Armed?))
    && (current == IDLE ==> s.channel.phase.Idle? || s.channel.phase.Quarantined?)
  }

  /** Nothing else is in flight: the packets behind the lane fit its phase. */
  ghost predicate SettledInv(s: State) {
    && (Unsent(s.channel.phase) ==> s.sent == [])
    && (Sent(s.channel.phase) ==> |s.log.begun| > 0 && s.sent == [RequestOf(s.log.begun[Last(s)])])
  }

  ghost predicate ObservingInv(s: State, pc: ObservePc) {
    match pc
    case LoadLane(_) => SettledInv(s)
    case ReadCoordinates(packet, current) => ObservedInv(s, current, packet)
    case ReadKind(packet, current, _) => ObservedInv(s, current, packet)
    case Advance(current) =>
      Unsent(current.phase) && |s.log.begun| > 0 && ObservedInv(s, current, RequestOf(s.log.begun[Last(s)]))
    case AdvanceCancelled(owner) =>
      && |s.log.begun| > 0
      && owner == s.log.begun[Last(s)].id
      && (s.channel.phase.Quarantined? ||
          ((s.channel.phase.Pending? || s.channel.phase.Draining? || s.channel.phase.CancelledArmed?)
           && s.sent == [RequestOf(s.log.begun[Last(s)])]))
    case TakeManual(_) => s.channel.phase.Idle? || s.channel.phase.Quarantined?
  }

  ghost predicate PacketInv(s: State) {
    if s.main.Observe? then ObservingInv(s, s.main.observe)
    else if s.main == Quarantine(SwapIn) then true
    else
      && SettledInv(s)
      && (BeforePublish(s.main) ==> |s.log.begun| > 0 && s.main.resolve.claimed == [RequestOf(s.log.begun[Last(s)])])
  }

  // ----- the history -----
  // These predicates take only the history they speak about, so that a step
  // which leaves it alone keeps them at no cost.

  ghost predicate WellSourced(begun: seq<Begun>, ended: map<int, Ending>, p: Publication) {
    && 0 <= p.token < |begun|
    && begun[p.token] == Begun(p.id, p.target)
    && p.packets == [RequestOf(begun[p.token])]
    && p.token !in ended
  }

  ghost predicate AllSourced(begun: seq<Begun>, ended: map<int, Ending>, ps: seq<Publication>) {
    forall i :: 0 <= i < |ps| ==> WellSourced(begun, ended, ps[i])
  }

  ghost predicate PublishedOnce(ps: seq<Publication>) {
    forall i, j :: 0 <= i < j < |ps| ==> ps[i].token < ps[j].token
  }

  ghost predicate PublishedBefore(ps: seq<Publication>, token: int) {
    forall i :: 0 <= i < |ps| ==> ps[i].token < token
  }

  /** The lane is held, and its holder's reply has not been published. */
  predicate Unpublished(s: State) {
    Unsent(s.channel.phase) || s.channel.phase.Pending? || s.channel.phase.Draining? || BeforePublish(s.main)
  }

  ghost predicate PublicationInv(s: State) {
    && AllSourced(s.log.begun, s.log.ended, s.log.publications)
    && PublishedOnce(s.log.publications)
    && (Unpublished(s) ==> PublishedBefore(s.log.publications, Last(s)))
  }

  ghost predicate EndInv(s: State) {
    && (forall t :: t in s.log.ended ==> 0 <= t < |s.log.begun|)
    && (Last(s) in s.log.ended ==>
        !Completes(s.channel) && !s.channel.phase.Resolving? && !s.main.Resolve?)
  }

  ghost predicate Credited(begun: seq<Begun>, ended: map<int, Ending>, c: Completion) {
    0 <= c.token < |begun| && begun[c.token].id == c.id && c.token !in ended
  }

  ghost predicate AllCredited(begun: seq<Begun>, ended: map<int, Ending>, cs: seq<Completion>) {
    forall i :: 0 <= i < |cs| ==> Credited(begun, ended, cs[i])
  }

  ghost predicate CompletedOnce(cs: seq<Completion>) {
    forall i, j :: 0 <= i < j < |cs| ==> cs[i].token < cs[j].token
  }

  ghost predicate CompletedBefore(cs: seq<Completion>, token: int) {
    forall i :: 0 <= i < |cs| ==> cs[i].token < token
  }

  predicate Uncompleted(s: State) {
    Unsent(s.channel.phase) || s.channel.phase.Pending? || s.channel.phase.Draining? || BeforeConclude(s.main)
  }

  /** A thread that swapped QUARANTINED in over a live request still owes that
      request its completion; nobody else does. */
  ghost predicate Owes(s: State, token: int, owner: u32) {
    && s.channel.phase.Quarantined?
    && token == Last(s) >= 0
    && owner == s.log.begun[token].id
    && token !in s.log.ended
    && CompletedBefore(s.log.completions, token)
  }

  predicate MainOwes(main: MainPc) {
    main.Quarantine? && main.quarantine.Complete?
  }

  ghost predicate CompletionInv(s: State) {
    && AllCredited(s.log.begun, s.log.ended, s.log.completions)
    && CompletedOnce(s.log.completions)
    && (Uncompleted(s) ==> CompletedBefore(s.log.completions, Last(s)))
    && (MainOwes(s.main) ==> Owes(s, s.main.quarantine.token, s.main.quarantine.owner))
  }

  ghost predicate DebtInv(s: State) {
    && (forall t :: t in s.others && s.others[t].SwapComplete? ==>
        Owes(s, s.others[t].token, s.others[t].owner) && !MainOwes(s.main) && !BeforeConclude(s.main))
    && (forall t, u :: t in s.others && u in s.others && s.others[t].SwapComplete? && s.others[u].SwapComplete? ==>
        t == u)
  }

  ghost predicate LaneInv(s: State) {
    OwnerInv(s) && TargetInv(s) && PacketInv(s) && EndInv(s)
  }

  ghost predicate HistoryInv(s: State) {
    PublicationInv(s) && CompletionInv(s) && DebtInv(s)
  }

  ghost predicate Inv(s: State) {
    LaneInv(s) && HistoryInv(s)
  }

  // ----- steps that leave the history alone -----

  lemma QuietPublications(s: State, t: State)
    requires PublicationInv(s)
    requires t.log.begun == s.log.begun && t.log.ended == s.log.ended && t.log.publications == s.log.publications
    requires Unpublished(t) ==> Unpublished(s)
    ensures PublicationInv(t)
  {
  }

  lemma QuietCompletions(s: State, t: State)
    requires CompletionInv(s) && DebtInv(s)
    requires t.log.begun == s.log.begun && t.log.ended == s.log.ended && t.log.completions == s.log.completions
    requires t.others == s.others
    requires Uncompleted(t) ==> Uncompleted(s)
    requires !MainOwes(t.main)
    requires s.channel.phase.Quarantined? ==> t.channel.phase.Quarantined?
    requires BeforeConclude(t.main) ==> BeforeConclude(s.main) || s.channel.phase.Pending?
    ensures CompletionInv(t) && DebtInv(t)
  {
  }

  /** Taking a live, unpublished request off the lane uncompleted. */
  lemma EndingKeepsHistory(s: State, t: State, ending: Ending)
    requires OwnerInv(s) && HistoryInv(s) && Completes(s.channel)
    requires t.log == EndIf(true, s.log, ending)
    requires !t.main.Resolve? && !MainOwes(t.main)
    requires forall u :: u in t.others && t.others[u].SwapComplete? ==> u in s.others && s.others[u] == t.others[u]
    ensures HistoryInv(t)
  {
  }

  // ----- the main thread -----

  lemma BeginKeepsLane(s: State, stored: bool)
    requires LaneInv(s) && s.main.Begin?
    ensures LaneInv(MainStep(s, stored))
  {
    if s.main.begin.ClaimLane? {
      ClaimKeepsLane(s);
    } else {
      StoringKeepsLane(s);
    }
  }

  lemma ClaimKeepsLane(s: State)
    requires LaneInv(s) && s.main.Begin? && s.main.begin.ClaimLane?
    ensures LaneInv(BeginStep(s, s.main.begin))
  {
  }

  lemma StoringKeepsLane(s: State)
    requires LaneInv(s) && s.main.Begin? && !s.main.begin.ClaimLane?
    ensures LaneInv(BeginStep(s, s.main.begin))
  {
    if s.main.begin.StoreKind? {
      TargetRoundTrip(s.main.begin.target);
    }
  }

  lemma BeginKeepsPublications(s: State, stored: bool)
    requires PublicationInv(s) && s.main.Begin?
    ensures PublicationInv(MainStep(s, stored))
  {
    if !s.main.begin.ClaimLane? || s.channel != IDLE {
      QuietPublications(s, MainStep(s, stored));
    }
  }

  lemma BeginKeepsCompletions(s: State, stored: bool)
    requires CompletionInv(s) && DebtInv(s) && s.main.Begin?
    ensures CompletionInv(MainStep(s, stored)) && DebtInv(MainStep(s, stored))
  {
    if !s.main.begin.ClaimLane? || s.channel != IDLE {
      QuietCompletions(s, MainStep(s, stored));
    }
  }

  lemma ObserveKeepsOwner(s: State, stored: bool)
    requires s.main.Observe? && OwnerInv(s) && PacketInv(s)
    ensures OwnerInv(MainStep(s, stored))
  {
    match s.main.observe
    case Advance(current) => AdvanceKeepsOwner(s, current);
    case AdvanceCancelled(owner) => AdvanceCancelledKeepsOwner(s, owner);
    case TakeManual(packet) =>
    case _ => LookingKeepsOwner(s, MainStep(s, stored));
  }

  /** A step that only looks at the lane keeps ownership. */
  lemma LookingKeepsOwner(s: State, t: State)
    requires s.main.Observe? && OwnerInv(s)
    requires t.channel == s.channel && t.log == s.log && !t.main.Begin? && !t.main.Resolve?
    ensures OwnerInv(t)
  {
  }

  lemma AdvanceKeepsOwner(s: State, current: Channel)
    requires s.main.Observe? && s.main.observe == Advance(current) && OwnerInv(s) && PacketInv(s)
    ensures OwnerInv(ObserveStep(s, s.main.observe))
  {
  }

  lemma AdvanceCancelledKeepsOwner(s: State, owner: u32)
    requires s.main.Observe? && s.main.observe == AdvanceCancelled(owner) && OwnerInv(s) && PacketInv(s)
    ensures OwnerInv(ObserveStep(s, s.main.observe))
  {
  }

  lemma ObserveKeepsEndings(s: State, stored: bool)
    requires s.main.Observe? && PacketInv(s) && EndInv(s)
    ensures EndInv(MainStep(s, stored))
  {
  }

  lemma ObserveKeepsTarget(s: State, stored: bool)
    requires s.main.Observe? && TargetInv(s)
    ensures TargetInv(MainStep(s, stored))
  {
  }

  lemma ClassifyKeepsPackets(s: State, stored: bool)
    requires s.main.Observe? && s.main.observe.ReadKind? && OwnerInv(s) && TargetInv(s) && PacketInv(s)
    ensures PacketInv(MainStep(s, stored))
  {
  }

  lemma ObserveKeepsPackets(s: State, stored: bool)
    requires s.main.Observe? && OwnerInv(s) && TargetInv(s) && PacketInv(s)
    ensures PacketInv(MainStep(s, stored))
  {
    if s.main.observe.ReadKind? {
      ClassifyKeepsPackets(s, stored);
    }
  }

  /** Observing a packet adds nothing to the history and takes no request up. */
  lemma ObserveIsQuiet(s: State, stored: bool)
    requires s.main.Observe? && PacketInv(s)
    ensures var t := MainStep(s, stored);
            && t.log == s.log && t.others == s.others
            && !MainOwes(t.main) && !t.main.Resolve?
            && (Unsent(t.channel.phase) || t.channel.phase.Pending? || t.channel.phase.Draining? ==>
                  Unsent(s.channel.phase) || s.channel.phase.Pending? || s.channel.phase.Draining?)
            && (s.channel.phase.Quarantined? ==> t.channel.phase.Quarantined?)
  {
  }

  lemma ObserveKeepsHistory(s: State, stored: bool)
    requires s.main.Observe? && PacketInv(s) && HistoryInv(s)
    ensures HistoryInv(MainStep(s, stored))
  {
    ObserveIsQuiet(s, stored);
    QuietPublications(s, MainStep(s, stored));
    QuietCompletions(s, MainStep(s, stored));
  }

  lemma QuarantineKeepsLane(s: State, stored: bool)
    requires LaneInv(s) && s.main.Quarantine?
    ensures LaneInv(MainStep(s, stored))
  {
  }

  lemma QuarantineKeepsDebt(s: State, stored: bool)
    requires OwnerInv(s) && EndInv(s) && DebtInv(s) && s.main.Quarantine?
    ensures DebtInv(MainStep(s, stored))
  {
  }

  /** One more completion, of the latest request. */
  lemma AddCompletion(begun: seq<Begun>, ended: map<int, Ending>, cs: seq<Completion>, c: Completion)
    requires AllCredited(begun, ended, cs) && CompletedOnce(cs) && CompletedBefore(cs, c.token) && Credited(begun, ended, c)
    ensures AllCredited(begun, ended, cs + [c]) && CompletedOnce(cs + [c])
  {
  }

  lemma QuarantineKeepsCompleted(s: State, stored: bool)
    requires OwnerInv(s) && EndInv(s) && CompletionInv(s) && DebtInv(s) && s.main.Quarantine?
    ensures CompletionInv(MainStep(s, stored))
  {
    if s.main.quarantine.Complete? {
      var t := MainStep(s, stored);
      AddCompletion(s.log.begun, s.log.ended, s.log.completions, t.log.completions[|s.log.completions|]);
    }
  }

  lemma QuarantineKeepsCompletions(s: State, stored: bool)
    requires OwnerInv(s) && EndInv(s) && CompletionInv(s) && DebtInv(s) && s.main.Quarantine?
    ensures CompletionInv(MainStep(s, stored)) && DebtInv(MainStep(s, stored))
  {
    QuarantineKeepsDebt(s, stored);
    QuarantineKeepsCompleted(s, stored);
  }

  lemma QuarantineKeepsHistory(s: State, stored: bool)
    requires OwnerInv(s) && EndInv(s) && HistoryInv(s) && s.main.Quarantine?
    ensures HistoryInv(MainStep(s, stored))
  {
    QuietPublications(s, MainStep(s, stored));
    QuarantineKeepsCompletions(s, stored);
  }

  lemma InterceptKeepsOwner(s: State, stored: bool)
    requires s.main.Intercept? && OwnerInv(s)
    ensures OwnerInv(MainStep(s, stored))
  {
  }

  lemma InterceptKeepsEndings(s: State, stored: bool)
    requires s.main.Intercept? && OwnerInv(s) && EndInv(s)
    ensures EndInv(MainStep(s, stored))
  {
  }

  lemma InterceptKeepsTarget(s: State, stored: bool)
    requires s.main.Intercept? && TargetInv(s)
    ensures TargetInv(MainStep(s, stored))
  {
  }

  /** Releasing the lane, or leaving it, with the same packets behind it. */
  lemma QuietSettled(s: State, t: State)
    requires SettledInv(s) && t.sent == s.sent && t.log.begun == s.log.begun
    requires t.channel == s.channel || t.channel == IDLE
    ensures SettledInv(t)
  {
  }

  lemma ClaimKeepsPackets(s: State, stored: bool)
    requires s.main.Intercept? && s.main.intercept.ClaimReply? && PacketInv(s)
    ensures PacketInv(MainStep(s, stored))
  {
  }

  lemma InterceptKeepsPackets(s: State, stored: bool)
    requires s.main.Intercept? && PacketInv(s)
    ensures PacketInv(MainStep(s, stored))
  {
    if s.main.intercept.ClaimReply? {
      ClaimKeepsPackets(s, stored);
    } else {
      QuietSettled(s, MainStep(s, stored));
    }
  }

  /** Routing a reply adds nothing to the history; a reply is only taken up from PENDING. */
  lemma InterceptIsQuiet(s: State, stored: bool)
    requires s.main.Intercept?
    ensures var t := MainStep(s, stored);
            && t.log == s.log && t.others == s.others && !MainOwes(t.main)
            && (Unsent(t.channel.phase) || t.channel.phase.Pending? || t.channel.phase.Draining? ==> t.channel == s.channel)
            && (t.main.Resolve? ==> s.channel.phase.Pending?)
            && (s.channel.phase.Quarantined? ==> t.channel.phase.Quarantined?)
  {
  }

  lemma InterceptKeepsHistory(s: State, stored: bool)
    requires s.main.Intercept? && HistoryInv(s)
    ensures HistoryInv(MainStep(s, stored))
  {
    InterceptIsQuiet(s, stored);
    QuietPublications(s, MainStep(s, stored));
    QuietCompletions(s, MainStep(s, stored));
  }

  lemma UnlockKeepsOwner(s: State, published: bool)
    requires s.main.Resolve? && s.main.resolve == Unlock(published) && OwnerInv(s)
    ensures OwnerInv(ResolveStep(s, s.main.owner, s.main.resolve, published))
  {
  }

  /** A step that leaves lane and owner to the reply keeps ownership. */
  lemma ResolvingKeepsOwner(s: State, t: State)
    requires s.main.Resolve? && OwnerInv(s)
    requires t.main.Resolve? && t.main.owner == s.main.owner && t.channel == s.channel && t.log.begun == s.log.begun
    ensures OwnerInv(t)
  {
  }

  lemma ResolveKeepsOwner(s: State, stored: bool)
    requires s.main.Resolve? && OwnerInv(s)
    ensures OwnerInv(MainStep(s, stored))
  {
    if s.main.resolve.Unlock? {
      UnlockKeepsOwner(s, s.main.resolve.published);
    } else {
      ResolvingKeepsOwner(s, MainStep(s, stored));
    }
  }

  lemma ResolveKeepsEndings(s: State, stored: bool)
    requires s.main.Resolve? && EndInv(s)
    ensures EndInv(MainStep(s, stored))
  {
  }

  lemma ResolveKeepsTarget(s: State, stored: bool)
    requires s.main.Resolve? && TargetInv(s)
    ensures TargetInv(MainStep(s, stored))
  {
  }

  lemma ResolveKeepsSettled(s: State, stored: bool)
    requires s.main.Resolve? && SettledInv(s)
    ensures SettledInv(MainStep(s, stored))
  {
    QuietSettled(s, MainStep(s, stored));
  }

  lemma ResolveKeepsPackets(s: State, stored: bool)
    requires s.main.Resolve? && PacketInv(s)
    ensures PacketInv(MainStep(s, stored))
  {
    ResolveKeepsSettled(s, stored);
  }

  /** One more publication, of the latest request. */
  lemma AddPublication(begun: seq<Begun>, ended: map<int, Ending>, ps: seq<Publication>, p: Publication)
    requires AllSourced(begun, ended, ps) && PublishedOnce(ps) && PublishedBefore(ps, p.token) && WellSourced(begun, ended, p)
    ensures AllSourced(begun, ended, ps + [p]) && PublishedOnce(ps + [p])
  {
  }

  lemma PublishKeepsPublications(s: State, stored: bool)
    requires LaneInv(s) && PublicationInv(s) && s.main.Resolve? && s.main.resolve.Publish?
    ensures PublicationInv(MainStep(s, stored))
  {
    var t := MainStep(s, stored);
    if |t.log.publications| > |s.log.publications| {
      AddPublication(s.log.begun, s.log.ended, s.log.publications, t.log.publications[|s.log.publications|]);
    }
  }

  lemma ResolveKeepsPublications(s: State, stored: bool)
    requires LaneInv(s) && PublicationInv(s) && s.main.Resolve?
    ensures PublicationInv(MainStep(s, stored))
  {
    if s.main.resolve.Publish? {
      PublishKeepsPublications(s, stored);
    } else {
      QuietPublications(s, MainStep(s, stored));
    }
  }

  lemma ConcludeKeepsDebt(s: State, stored: bool)
    requires OwnerInv(s) && EndInv(s) && DebtInv(s) && s.main.Resolve? && s.main.resolve.Conclude?
    ensures DebtInv(MainStep(s, stored))
  {
  }

  lemma ConcludeKeepsCompleted(s: State, stored: bool)
    requires OwnerInv(s) && EndInv(s) && CompletionInv(s) && DebtInv(s) && s.main.Resolve? && s.main.resolve.Conclude?
    ensures CompletionInv(MainStep(s, stored))
  {
    var t := MainStep(s, stored);
    AddCompletion(s.log.begun, s.log.ended, s.log.completions, t.log.completions[|s.log.completions|]);
  }

  lemma ConcludeKeepsCompletions(s: State, stored: bool)
    requires OwnerInv(s) && EndInv(s) && CompletionInv(s) && DebtInv(s) && s.main.Resolve? && s.main.resolve.Conclude?
    ensures CompletionInv(MainStep(s, stored)) && DebtInv(MainStep(s, stored))
  {
    ConcludeKeepsDebt(s, stored);
    ConcludeKeepsCompleted(s, stored);
  }

  lemma ResolveKeepsCompletions(s: State, stored: bool)
    requires OwnerInv(s) && EndInv(s) && CompletionInv(s) && DebtInv(s) && s.main.Resolve?
    ensures CompletionInv(MainStep(s, stored)) && DebtInv(MainStep(s, stored))
  {
    if s.main.resolve.Conclude? {
      ConcludeKeepsCompletions(s, stored);
    } else {
      QuietCompletions(s, MainStep(s, stored));
    }
  }

  lemma ReleaseKeepsOwner(s: State, stored: bool)
    requires OwnerInv(s) && EndInv(s) && s.main.Release?
    ensures OwnerInv(MainStep(s, stored)) && EndInv(MainStep(s, stored))
  {
  }

  lemma ReleaseKeepsPackets(s: State, stored: bool)
    requires TargetInv(s) && PacketInv(s) && s.main.Release?
    ensures TargetInv(MainStep(s, stored)) && PacketInv(MainStep(s, stored))
  {
  }

  lemma ReleaseKeepsLane(s: State, stored: bool)
    requires LaneInv(s) && s.main.Release?
    ensures LaneInv(MainStep(s, stored))
  {
    ReleaseKeepsOwner(s, stored);
    ReleaseKeepsPackets(s, stored);
  }

  lemma ReleaseKeepsHistory(s: State, stored: bool)
    requires OwnerInv(s) && HistoryInv(s) && s.main.Release?
    ensures HistoryInv(MainStep(s, stored))
  {
    if s.main.release.ReleaseArmed? && s.channel == Channel(Armed, s.main.id) {
      EndingKeepsHistory(s, MainStep(s, stored), NeverSent);
    } else {
      QuietPublications(s, MainStep(s, stored));
      QuietCompletions(s, MainStep(s, stored));
    }
  }

  lemma MainKeepsInv(s: State, stored: bool)
    requires Inv(s)
    ensures Inv(MainStep(s, stored))
  {
    match s.main
    case Free =>
    case Begin(_) =>
      BeginKeepsLane(s, stored); BeginKeepsPublications(s, stored); BeginKeepsCompletions(s, stored);
    case Observe(_) =>
      ObserveKeepsOwner(s, stored); ObserveKeepsEndings(s, stored);
      ObserveKeepsTarget(s, stored); ObserveKeepsPackets(s, stored);
      ObserveKeepsHistory(s, stored);
    case Quarantine(_) => QuarantineKeepsLane(s, stored); QuarantineKeepsHistory(s, stored);
    case Intercept(_) =>
      InterceptKeepsOwner(s, stored); InterceptKeepsEndings(s, stored); InterceptKeepsTarget(s, stored);
      InterceptKeepsPackets(s, stored); InterceptKeepsHistory(s, stored);
    case Resolve(_, _) =>
      ResolveKeepsOwner(s, stored); ResolveKeepsEndings(s, stored); ResolveKeepsTarget(s, stored);
      ResolveKeepsPackets(s, stored);
      ResolveKeepsPublications(s, stored); ResolveKeepsCompletions(s, stored);
    case Release(_, _) => ReleaseKeepsLane(s, stored); ReleaseKeepsHistory(s, stored);
  }

  // ----- the other threads -----

  lemma CancelKeepsLane(s: State, thread: nat)
    requires LaneInv(s) && thread in s.others && (s.others[thread].CancelFirst? || s.others[thread].CancelSecond?)
    ensures LaneInv(OtherStep(s, thread))
  {
  }

  lemma CancelKeepsHistory(s: State, thread: nat)
    requires Inv(s) && thread in s.others && (s.others[thread].CancelFirst? || s.others[thread].CancelSecond?)
    ensures HistoryInv(OtherStep(s, thread))
  {
    var t := OtherStep(s, thread);
    if t.log != s.log {
      EndingKeepsHistory(s, t, Cancelled);
    }
  }

  lemma ResetLoadKeepsInv(s: State, thread: nat)
    requires Inv(s) && thread in s.others && s.others[thread].ResetLoad?
    ensures Inv(OtherStep(s, thread))
  {
  }

  lemma ResetStoreKeepsLane(s: State, thread: nat)
    requires LaneInv(s) && thread in s.others && s.others[thread].ResetStore?
    ensures LaneInv(OtherStep(s, thread))
  {
  }

  lemma ResetStoreKeepsHistory(s: State, thread: nat)
    requires Inv(s) && thread in s.others && s.others[thread].ResetStore?
    ensures HistoryInv(OtherStep(s, thread))
  {
    var t := OtherStep(s, thread);
    if t.log != s.log {
      EndingKeepsHistory(s, t, LostToReset);
    }
  }

  lemma SwapKeepsLane(s: State, thread: nat)
    requires LaneInv(s) && thread in s.others && s.others[thread].Swap?
    ensures LaneInv(OtherStep(s, thread))
  {
  }

  lemma SwapKeepsHistory(s: State, thread: nat)
    requires Inv(s) && thread in s.others && s.others[thread].Swap?
    ensures HistoryInv(OtherStep(s, thread))
  {
    QuietPublications(s, OtherStep(s, thread));
    if Completes(s.channel) {
      SwapOverRequest(s, thread);
    } else {
      SwapOverNothing(s, thread);
    }
  }

  /** The thread that takes a live request off the lane comes to owe its completion. */
  lemma SwapOverRequest(s: State, thread: nat)
    requires OwnerInv(s) && EndInv(s) && CompletionInv(s) && DebtInv(s) && Completes(s.channel)
    requires thread in s.others && s.others[thread].Swap?
    ensures CompletionInv(OtherStep(s, thread)) && DebtInv(OtherStep(s, thread))
  {
  }

  lemma SwapOverNothing(s: State, thread: nat)
    requires OwnerInv(s) && CompletionInv(s) && DebtInv(s) && !Completes(s.channel)
    requires thread in s.others && s.others[thread].Swap?
    ensures CompletionInv(OtherStep(s, thread)) && DebtInv(OtherStep(s, thread))
  {
  }

  lemma SwapCompleteKeepsInv(s: State, thread: nat)
    requires Inv(s) && thread in s.others && s.others[thread].SwapComplete?
    ensures Inv(OtherStep(s, thread))
  {
  }

  lemma OtherKeepsInv(s: State, thread: nat)
    requires Inv(s)
    ensures Inv(OtherStep(s, thread))
  {
    if thread in s.others {
      match s.others[thread]
      case CancelFirst(_) => CancelKeepsLane(s, thread); CancelKeepsHistory(s, thread);
      case CancelSecond(_) => CancelKeepsLane(s, thread); CancelKeepsHistory(s, thread);
      case ResetLoad => ResetLoadKeepsInv(s, thread);
      case ResetStore => ResetStoreKeepsLane(s, thread); ResetStoreKeepsHistory(s, thread);
      case Swap(_) => SwapKeepsLane(s, thread); SwapKeepsHistory(s, thread);
      case SwapComplete(_, _) => SwapCompleteKeepsInv(s, thread);
      case Finished(_) =>
    }
  }

  lemma CallKeepsLane(s: State, call: MainCall)
    requires LaneInv(s)
    ensures LaneInv(Step(s, Call(call)))
  {
  }

  lemma CallKeepsHistory(s: State, call: MainCall)
    requires HistoryInv(s)
    ensures HistoryInv(Step(s, Call(call)))
  {
    if s.main.Free? {
      QuietPublications(s, Step(s, Call(call)));
      QuietCompletions(s, Step(s, Call(call)));
    }
  }

  lemma CallKeepsInv(s: State, call: MainCall)
    requires Inv(s)
    ensures Inv(Step(s, Call(call)))
  {
    CallKeepsLane(s, call);
    CallKeepsHistory(s, call);
  }

  /** A new thread changes nothing on the lane. */
  lemma SpawnKeepsLane(s: State, others: map<nat, OtherPc>)
    requires LaneInv(s)
    ensures LaneInv(s.(others := others))
  {
  }

  lemma SpawnKeepsHistory(s: State, thread: nat, job: Job)
    requires HistoryInv(s) && thread !in s.others
    ensures HistoryInv(s.(others := s.others[thread := Launch(job)]))
  {
  }

  lemma SpawnKeepsInv(s: State, thread: nat, job: Job)
    requires Inv(s)
    ensures Inv(Step(s, Spawn(thread, job)))
  {
    if thread !in s.others {
      SpawnKeepsLane(s, s.others[thread := Launch(job)]);
      SpawnKeepsHistory(s, thread, job);
    }
  }

  /** Every move of every thread keeps the invariant. */
  lemma StepKeepsInv(s: State, move: Move)
    requires Inv(s)
    ensures Inv(Step(s, move))
  {
    match move
    case Call(call) => CallKeepsInv(s, call);
    case Main(stored) => MainKeepsInv(s, stored);
    case Spawn(thread, job) => SpawnKeepsInv(s, thread, job);
    case Other(thread) => OtherKeepsInv(s, thread);
  }

  lemma {:induction false} RunKeepsInv(s: State, moves: seq<Move>)
    requires Inv(s)
    ensures Inv(Run(s, moves))
    decreases |moves|
  {
    if moves != [] {
      StepKeepsInv(s, moves[0]);
      RunKeepsInv(Step(s, moves[0]), moves[1..]);
    }
  }
}
