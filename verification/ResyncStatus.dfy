/** What the daemon knows of each client's resync request. */
module ResyncStatus {
  import opened Words
  import opened Wrappers

  const TERMINAL_RESYNC_RETENTION := 64

  datatype Phase = Idle | WaitingToSend | AwaitingResponse

  datatype Active = Active(id: u32, phase: Phase)

  datatype Status = Status(phase: Phase, activeId: Option<u32>, pendingCount: u32)

  /** The active request, and the ids completed lately, oldest first. */
  datatype Tracking = Tracking(active: Option<Active>, terminal: seq<u32>) {
    predicate IsActive(id: u32) {
      active.Some? && active.value.id == id
    }

    function Report(): Status {
      Status(if active.Some? then active.value.phase else Idle,
             if active.Some? then Some(active.value.id) else None, 0)
    }
  }

  datatype Notice = Accepted(id: u32) | Outgoing(id: u32) | Completed(id: u32)

  const NOTHING := Tracking(None, [])

  function Remember(terminal: seq<u32>, id: u32): seq<u32> {
    if id in terminal then terminal
    else if |terminal| == TERMINAL_RESYNC_RETENTION then terminal[1..] + [id]
    else terminal + [id]
  }

  function After(t: Tracking, notice: Notice): Tracking {
    match notice
    case Accepted(id) =>
      if id in t.terminal || t.active.Some? then t else t.(active := Some(Active(id, WaitingToSend)))
    case Outgoing(id) => t.(active := Some(Active(id, AwaitingResponse)))
    case Completed(id) =>
      Tracking(if t.IsActive(id) then None else t.active, Remember(t.terminal, id))
  }

  function Run(notices: seq<Notice>): Tracking {
    if notices == [] then NOTHING else After(Run(notices[..|notices| - 1]), notices[|notices| - 1])
  }

  class ResyncTracker {
    var active: Option<Active>
    var terminal: seq<u32>

    ghost function State(): Tracking
      reads this
    {
      Tracking(active, terminal)
    }

    constructor ()
      ensures State() == NOTHING
    {
      active, terminal := None, [];
    }

    method Accept(id: u32)
      modifies this
      ensures State() == After(old(State()), Accepted(id))
    {
      if id in terminal || (active.Some? && active.value.id == id) {
        return;
      }
      if active.None? {
        active := Some(Active(id, WaitingToSend));
      }
    }

    method Send(id: u32)
      modifies this
      ensures State() == After(old(State()), Outgoing(id))
    {
      active := Some(Active(id, AwaitingResponse));
    }

    method Finish(id: u32)
      modifies this
      ensures State() == After(old(State()), Completed(id))
    {
      if id !in terminal {
        if |terminal| == TERMINAL_RESYNC_RETENTION {
          terminal := terminal[1..];
        }
        terminal := terminal + [id];
      }
      if active.Some? && active.value.id == id {
        active := None;
      }
    }

    method GetStatus() returns (r: Status)
      ensures r == State().Report()
    {
      return Status(if active.Some? then active.value.phase else Idle,
                    if active.Some? then Some(active.value.id) else None, 0);
    }
  }

  // ----- the bounded memory -----

  /** The completed ids, in order. */
  function Completions(notices: seq<Notice>): seq<u32> {
    if notices == [] then []
    else
      var last := notices[|notices| - 1];
      Completions(notices[..|notices| - 1]) + (if last.Completed? then [last.id] else [])
  }

  ghost predicate Distinct(ids: seq<u32>) {
    forall i, j :: 0 <= i < j < |ids| ==> ids[i] != ids[j]
  }

  function Latest(ids: seq<u32>): seq<u32> {
    if |ids| <= TERMINAL_RESYNC_RETENTION then ids else ids[|ids| - TERMINAL_RESYNC_RETENTION..]
  }

  lemma RememberIsLatest(ids: seq<u32>, id: u32)
    requires id !in ids
    ensures Remember(Latest(ids), id) == Latest(ids + [id])
  {
  }

  /** While no id completes twice, the memory is the latest completions. */
  lemma {:induction false} TerminalIsLatest(notices: seq<Notice>)
    requires Distinct(Completions(notices))
    ensures Run(notices).terminal == Latest(Completions(notices))
    decreases |notices|
  {
    if notices != [] {
      var before, last := notices[..|notices| - 1], notices[|notices| - 1];
      var ids := Completions(before);
      assert forall i :: 0 <= i < |ids| ==> Completions(notices)[i] == ids[i];
      TerminalIsLatest(before);
      if last.Completed? {
        assert Completions(notices)[|ids|] == last.id;
        RememberIsLatest(ids, last.id);
      }
    }
  }

  /** It never holds more than its bound, nor any id twice, whatever is noticed. */
  lemma {:induction false} TerminalIsBounded(notices: seq<Notice>)
    ensures |Run(notices).terminal| <= TERMINAL_RESYNC_RETENTION && Distinct(Run(notices).terminal)
    decreases |notices|
  {
    if notices != [] {
      TerminalIsBounded(notices[..|notices| - 1]);
    }
  }

  // ----- orderly runs -----

  ghost predicate HasCompleted(notices: seq<Notice>, id: u32) {
    id in Completions(notices)
  }

  /** How many ids have completed after `id`. */
  function CompletionsSince(ids: seq<u32>, id: u32): nat {
    if ids == [] || ids[|ids| - 1] == id then 0 else 1 + CompletionsSince(ids[..|ids| - 1], id)
  }

  /** What may come after `before`: no request is sent or completed after it has
      completed, and news of its acceptance is not too late to be recognized. */
  ghost predicate InOrder(before: seq<Notice>, notice: Notice) {
    HasCompleted(before, notice.id) ==>
      notice.Accepted? && CompletionsSince(Completions(before), notice.id) < TERMINAL_RESYNC_RETENTION
  }

  ghost predicate Orderly(notices: seq<Notice>) {
    forall i :: 0 <= i < |notices| ==> InOrder(notices[..i], notices[i])
  }

  lemma OrderlyBefore(notices: seq<Notice>)
    requires Orderly(notices) && notices != []
    ensures Orderly(notices[..|notices| - 1])
    ensures InOrder(notices[..|notices| - 1], notices[|notices| - 1])
  {
    var before := notices[..|notices| - 1];
    assert forall i :: 0 <= i < |before| ==> before[..i] == notices[..i] && before[i] == notices[i];
  }

  lemma {:induction false} OrderlyCompletions(notices: seq<Notice>)
    requires Orderly(notices)
    ensures Distinct(Completions(notices))
    decreases |notices|
  {
    if notices != [] {
      OrderlyBefore(notices);
      OrderlyCompletions(notices[..|notices| - 1]);
    }
  }

  /** A completed id is remembered exactly while fewer than the retained number have
      completed since. */
  lemma {:induction false} RememberedWhileRecent(ids: seq<u32>, id: u32)
    requires Distinct(ids)
    ensures id in Latest(ids) <==> id in ids && CompletionsSince(ids, id) < TERMINAL_RESYNC_RETENTION
    decreases |ids|
  {
    SinceIsDistance(ids, id);
    if id in ids {
      var k :| 0 <= k < |ids| && ids[k] == id;
      if |ids| > TERMINAL_RESYNC_RETENTION && id in Latest(ids) {
        var m :| 0 <= m < |Latest(ids)| && Latest(ids)[m] == id;
        assert ids[|ids| - TERMINAL_RESYNC_RETENTION + m] == id;
      }
      if |ids| > TERMINAL_RESYNC_RETENTION && k >= |ids| - TERMINAL_RESYNC_RETENTION {
        assert Latest(ids)[k - (|ids| - TERMINAL_RESYNC_RETENTION)] == id;
      }
    }
  }

  lemma {:induction false} SinceIsDistance(ids: seq<u32>, id: u32)
    ensures CompletionsSince(ids, id) <= |ids|
    ensures CompletionsSince(ids, id) < |ids| ==> ids[|ids| - 1 - CompletionsSince(ids, id)] == id
    ensures forall k :: |ids| - CompletionsSince(ids, id) <= k < |ids| ==> ids[k] != id
    decreases |ids|
  {
    if ids != [] && ids[|ids| - 1] != id {
      SinceIsDistance(ids[..|ids| - 1], id);
    }
  }

  /** In an orderly run the active request has not completed. */
  lemma {:induction false} ActiveHasNotCompleted(notices: seq<Notice>)
    requires Orderly(notices)
    ensures Run(notices).active.Some? ==> !HasCompleted(notices, Run(notices).active.value.id)
    decreases |notices|
  {
    if notices != [] {
      var before, last := notices[..|notices| - 1], notices[|notices| - 1];
      OrderlyBefore(notices);
      ActiveHasNotCompleted(before);
      OrderlyCompletions(before);
      TerminalIsLatest(before);
      RememberedWhileRecent(Completions(before), last.id);
    }
  }

  // ----- what is reported, exactly -----

  /** Since notice `i` no request was sent and `id` has not completed. */
  ghost predicate QuietSince(notices: seq<Notice>, i: nat, id: u32) {
    forall j :: i < j < |notices| ==> !notices[j].Outgoing? && notices[j] != Completed(id)
  }

  ghost predicate SentLastAt(notices: seq<Notice>, i: nat, id: u32) {
    i < |notices| && notices[i] == Outgoing(id) && QuietSince(notices, i, id)
  }

  /** The acceptance became known when no request was known of, nor `id`'s completion. */
  ghost predicate AcceptedLastAt(notices: seq<Notice>, i: nat, id: u32) {
    && i < |notices| && notices[i] == Accepted(id) && QuietSince(notices, i, id)
    && Run(notices[..i]).active.None? && id !in Run(notices[..i]).terminal
  }

  lemma QuietBefore(notices: seq<Notice>, i: nat, id: u32)
    requires notices != [] && i < |notices| - 1
    ensures var before, last := notices[..|notices| - 1], notices[|notices| - 1];
            && before[i] == notices[i] && before[..i] == notices[..i]
            && (QuietSince(notices, i, id) <==> QuietSince(before, i, id) && !last.Outgoing? && last != Completed(id))
  {
    var before := notices[..|notices| - 1];
    assert forall j :: 0 <= j < |before| ==> before[j] == notices[j];
  }

  /** A request is reported as awaiting its response exactly when it was sent, none was
      sent since, and it has not completed since. */
  lemma {:induction false} AwaitingExactly(notices: seq<Notice>, id: u32)
    ensures Run(notices).Report() == Status(AwaitingResponse, Some(id), 0) <==> exists i :: SentLastAt(notices, i, id)
    decreases |notices|
  {
    if notices != [] {
      var before, last := notices[..|notices| - 1], |notices| - 1;
      AwaitingExactly(before, id);
      forall i | 0 <= i < last
        ensures SentLastAt(notices, i, id) <==>
                SentLastAt(before, i, id) && !notices[last].Outgoing? && notices[last] != Completed(id)
      {
        QuietBefore(notices, i, id);
      }
      assert SentLastAt(notices, last, id) <==> notices[last] == Outgoing(id);
    }
  }

  /** And as waiting to be sent exactly when its acceptance became known with nothing
      else known of, and it has neither been sent nor completed since. */
  lemma {:induction false} WaitingExactly(notices: seq<Notice>, id: u32)
    ensures Run(notices).Report() == Status(WaitingToSend, Some(id), 0) <==> exists i :: AcceptedLastAt(notices, i, id)
    decreases |notices|
  {
    if notices != [] {
      var before, last := notices[..|notices| - 1], |notices| - 1;
      WaitingExactly(before, id);
      forall i | 0 <= i < last
        ensures AcceptedLastAt(notices, i, id) <==>
                AcceptedLastAt(before, i, id) && !notices[last].Outgoing? && notices[last] != Completed(id)
      {
        QuietBefore(notices, i, id);
      }
      assert AcceptedLastAt(notices, last, id) <==>
             notices[last] == Accepted(id) && Run(before).active.None? && id !in Run(before).terminal;
    }
  }

  /** A request said to await its response has been sent. */
  lemma {:induction false} AwaitingWasSent(notices: seq<Notice>)
    ensures Run(notices).active.Some? && Run(notices).active.value.phase.AwaitingResponse? ==>
              Outgoing(Run(notices).active.value.id) in notices
    decreases |notices|
  {
    if notices != [] {
      AwaitingWasSent(notices[..|notices| - 1]);
    }
  }

  ghost predicate Mentions(notices: seq<Notice>, id: u32) {
    exists i :: 0 <= i < |notices| && notices[i].id == id
  }

  lemma {:induction false} ActiveIsMentioned(notices: seq<Notice>)
    ensures Run(notices).active.Some? ==> Mentions(notices, Run(notices).active.value.id)
    decreases |notices|
  {
    if notices != [] {
      var before, last := notices[..|notices| - 1], |notices| - 1;
      ActiveIsMentioned(before);
      if Run(before).active.Some? {
        var i :| 0 <= i < |before| && before[i].id == Run(before).active.value.id;
        assert notices[i] == before[i];
      }
      assert notices[last].id == notices[last].id;
    }
  }

  /** An orderly run in which every request completes ends idle. */
  lemma OrderlyRunsEndIdle(notices: seq<Notice>)
    requires Orderly(notices) && forall id :: Mentions(notices, id) ==> HasCompleted(notices, id)
    ensures Run(notices).Report() == Status(Idle, None, 0)
  {
    ActiveHasNotCompleted(notices);
    ActiveIsMentioned(notices);
  }

  /** News of an acceptance revives a completed request exactly when nothing is active
      and it comes after as many further completions as are remembered. */
  lemma LateNewsRevives(notices: seq<Notice>, id: u32)
    requires Orderly(notices) && HasCompleted(notices, id)
    ensures Run(notices + [Accepted(id)]).IsActive(id)
            <==> Run(notices).active.None? && CompletionsSince(Completions(notices), id) >= TERMINAL_RESYNC_RETENTION
  {
    assert (notices + [Accepted(id)])[..|notices|] == notices;
    ActiveHasNotCompleted(notices);
    OrderlyCompletions(notices);
    TerminalIsLatest(notices);
    RememberedWhileRecent(Completions(notices), id);
  }

  /** The requests 1 to n, each sent and completed before the next: the client numbers
      its commands from 1. */
  function RequestsUpTo(n: nat): seq<Notice>
    requires n <= U32_MAX
  {
    if n == 0 then [] else RequestsUpTo(n - 1) + [Outgoing(n)] + [Completed(n)]
  }

  lemma OneMoreNotice(before: seq<Notice>, notice: Notice)
    ensures Completions(before + [notice]) == Completions(before) + (if notice.Completed? then [notice.id] else [])
    ensures Run(before + [notice]) == After(Run(before), notice)
  {
    assert (before + [notice])[..|before|] == before;
  }

  /** One more request, sent and completed. */
  lemma RequestCompletes(before: seq<Notice>, id: u32)
    requires Run(before).active.None?
    ensures var notices := before + [Outgoing(id)] + [Completed(id)];
            Completions(notices) == Completions(before) + [id] && Run(notices).active.None?
  {
    OneMoreNotice(before, Outgoing(id));
    OneMoreNotice(before + [Outgoing(id)], Completed(id));
  }

  lemma RequestIsOrderly(before: seq<Notice>, id: u32)
    requires Orderly(before) && !HasCompleted(before, id)
    ensures Orderly(before + [Outgoing(id)] + [Completed(id)])
  {
    OneMoreNotice(before, Outgoing(id));
    OrderlyFurther(before, Outgoing(id));
    OrderlyFurther(before + [Outgoing(id)], Completed(id));
  }

  ghost predicate CountsUp(ids: seq<u32>, n: nat) {
    && |ids| == n
    && (forall i :: 0 <= i < n ==> ids[i] == i + 1)
    && (n > 0 ==> CompletionsSince(ids, 1) == n - 1)
  }

  lemma OneFurther(ids: seq<u32>, n: nat)
    requires n < U32_MAX && CountsUp(ids, n)
    ensures n + 1 !in ids && CountsUp(ids + [n + 1], n + 1)
  {
    assert (ids + [n + 1])[..n] == ids;
  }

  lemma {:induction false} RequestsCountUp(n: nat)
    requires n <= U32_MAX
    ensures CountsUp(Completions(RequestsUpTo(n)), n) && Run(RequestsUpTo(n)).active.None?
  {
    if n > 0 {
      RequestsCountUp(n - 1);
      OneFurther(Completions(RequestsUpTo(n - 1)), n - 1);
      RequestCompletes(RequestsUpTo(n - 1), n);
    }
  }

  lemma {:induction false} RequestsAreOrderly(n: nat)
    requires n <= U32_MAX
    ensures Orderly(RequestsUpTo(n))
  {
    if n > 0 {
      RequestsAreOrderly(n - 1);
      RequestsCountUp(n - 1);
      OneFurther(Completions(RequestsUpTo(n - 1)), n - 1);
      RequestIsOrderly(RequestsUpTo(n - 1), n);
    }
  }

  lemma OrderlyFurther(before: seq<Notice>, notice: Notice)
    requires Orderly(before) && InOrder(before, notice)
    ensures Orderly(before + [notice])
  {
    var notices := before + [notice];
    forall i | 0 <= i < |notices|
      ensures InOrder(notices[..i], notices[i])
    {
      assert notices[..i] == before[..i];
      if i < |before| {
        assert InOrder(before[..i], before[i]);
      } else {
        assert before[..i] == before;
      }
    }
  }

  /** It does happen: after 65 or more requests have been sent and completed in turn, late
      news of the first one's acceptance makes it the active request again. */
  lemma FirstOfManyIsRevived(n: nat)
    requires TERMINAL_RESYNC_RETENTION < n <= U32_MAX
    ensures Orderly(RequestsUpTo(n)) && HasCompleted(RequestsUpTo(n), 1)
    ensures Run(RequestsUpTo(n) + [Accepted(1)]).Report() == Status(WaitingToSend, Some(1), 0)
  {
    RequestsCountUp(n);
    RequestsAreOrderly(n);
    assert Completions(RequestsUpTo(n))[0] == 1;
    LateNewsRevives(RequestsUpTo(n), 1);
    OneMoreNotice(RequestsUpTo(n), Accepted(1));
  }

  // ----- every client's tracker -----

  type Identity = nat

  datatype Change = Note(identity: Identity, notice: Notice) | Forget(identity: Identity)

  function TrackingOf(clients: map<Identity, Tracking>, identity: Identity): Tracking {
    if identity in clients then clients[identity] else NOTHING
  }

  class ResyncTrackers {
    var clients: map<Identity, Tracking>

    constructor ()
      ensures clients == map[]
    {
      clients := map[];
    }

    method Apply(identity: Identity, notice: Notice) returns (r: Status)
      modifies this
      ensures clients == old(clients)[identity := After(TrackingOf(old(clients), identity), notice)]
      ensures r == TrackingOf(clients, identity).Report()
    {
      clients := clients[identity := After(TrackingOf(clients, identity), notice)];
      return clients[identity].Report();
    }

    method GetStatus(identity: Identity) returns (r: Status)
      ensures r == TrackingOf(clients, identity).Report()
    {
      return TrackingOf(clients, identity).Report();
    }

    method Remove(identity: Identity)
      modifies this
      ensures clients == old(clients) - {identity}
    {
      clients := clients - {identity};
    }
  }

  function Clients(changes: seq<Change>): map<Identity, Tracking> {
    if changes == [] then map[]
    else
      var before := Clients(changes[..|changes| - 1]);
      match changes[|changes| - 1]
      case Note(identity, notice) => before[identity := After(TrackingOf(before, identity), notice)]
      case Forget(identity) => before - {identity}
  }

  /** One client's notices since it was last forgotten. */
  function NoticesOf(changes: seq<Change>, identity: Identity): seq<Notice> {
    if changes == [] then []
    else
      var before := NoticesOf(changes[..|changes| - 1], identity);
      match changes[|changes| - 1]
      case Note(other, notice) => if other == identity then before + [notice] else before
      case Forget(other) => if other == identity then [] else before
  }

  /** Clients do not disturb each other: each is tracked by its own notices alone. */
  lemma {:induction false} ClientsAreIndependent(changes: seq<Change>, identity: Identity)
    ensures TrackingOf(Clients(changes), identity) == Run(NoticesOf(changes, identity))
    decreases |changes|
  {
    if changes != [] {
      ClientsAreIndependent(changes[..|changes| - 1], identity);
      var before := NoticesOf(changes[..|changes| - 1], identity);
      var last := changes[|changes| - 1];
      if last.Note? && last.identity == identity {
        assert (before + [last.notice])[..|before|] == before;
      }
    }
  }
}
