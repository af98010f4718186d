/** Which client processes the daemon loads its library into by itself. */
module AutoLoad {
  import opened Words

  const ATTEMPTS := 0x1_0000_0000_0000_0000

  /** A connection event, as far as it matters: not loaded, one of the four that settle
      the matter, or any other. */
  datatype EventKind = NotLoaded | Settled | Unrelated

  datatype Verdict = Publish | SuppressEvent | Start(attempt: u64)

  datatype LoadState = Loading(attempt: u64) | Handled

  datatype PolicyState = PolicyState(enabled: bool, processes: map<u32, LoadState>, nextAttempt: u64)

  datatype Action =
    | Observe(pid: u32, kind: EventKind)
    | Suppress(pid: u32)
    | Finish(pid: u32, attempt: u64)
    | Forget(pid: u32)

  function Initial(enabled: bool): PolicyState {
    PolicyState(enabled, map[], 1)
  }

  predicate Starts(p: PolicyState, action: Action) {
    p.enabled && action.Observe? && action.kind.NotLoaded? && action.pid !in p.processes
  }

  predicate Accepts(p: PolicyState, action: Action) {
    action.Finish? && action.pid in p.processes && p.processes[action.pid] == Loading(action.attempt)
  }

  function VerdictOn(p: PolicyState, pid: u32, kind: EventKind): Verdict {
    if Starts(p, Observe(pid, kind)) then Start(p.nextAttempt)
    else if p.enabled && kind.NotLoaded? && pid in p.processes && p.processes[pid].Loading? then SuppressEvent
    else Publish
  }

  function After(p: PolicyState, action: Action): PolicyState {
    if Starts(p, action) then
      p.(processes := p.processes[action.pid := Loading(p.nextAttempt)], nextAttempt := (p.nextAttempt + 1) % ATTEMPTS)
    else
      match action
      case Observe(pid, kind) => if p.enabled && kind.Settled? then p.(processes := p.processes[pid := Handled]) else p
      case Suppress(pid) => if p.enabled then p.(processes := p.processes[pid := Handled]) else p
      case Finish(pid, _) => if Accepts(p, action) then p.(processes := p.processes[pid := Handled]) else p
      case Forget(pid) => p.(processes := p.processes - {pid})
  }

  class Policy {
    const enabled: bool
    var processes: map<u32, LoadState>
    var nextAttempt: u64

    ghost function State(): PolicyState
      reads this
    {
      PolicyState(enabled, processes, nextAttempt)
    }

    constructor (enable: bool)
      ensures State() == Initial(enable)
    {
      enabled, processes, nextAttempt := enable, map[], 1;
    }

    method ObserveEvent(pid: u32, kind: EventKind) returns (r: Verdict)
      modifies this
      ensures r == VerdictOn(old(State()), pid, kind)
      ensures State() == After(old(State()), Observe(pid, kind))
    {
      if !enabled {
        return Publish;
      }
      match kind {
        case NotLoaded =>
          if pid in processes {
            return if processes[pid].Loading? then SuppressEvent else Publish;
          }
          var attempt := nextAttempt;
          nextAttempt := (nextAttempt + 1) % ATTEMPTS;
          processes := processes[pid := Loading(attempt)];
          return Start(attempt);
        case Settled =>
          processes := processes[pid := Handled];
          return Publish;
        case Unrelated =>
          return Publish;
      }
    }

    method SuppressLoad(pid: u32)
      modifies this
      ensures State() == After(old(State()), Suppress(pid))
    {
      if enabled {
        processes := processes[pid := Handled];
      }
    }

    method FinishLoad(pid: u32, attempt: u64) returns (r: bool)
      modifies this
      ensures r == Accepts(old(State()), Finish(pid, attempt))
      ensures State() == After(old(State()), Finish(pid, attempt))
    {
      if pid !in processes || processes[pid] != Loading(attempt) {
        return false;
      }
      processes := processes[pid := Handled];
      return true;
    }

    method ForgetProcess(pid: u32)
      modifies this
      ensures State() == After(old(State()), Forget(pid))
    {
      processes := processes - {pid};
    }
  }

  // ----- runs -----

  function Run(enabled: bool, actions: seq<Action>): PolicyState {
    if actions == [] then Initial(enabled)
    else After(Run(enabled, actions[..|actions| - 1]), actions[|actions| - 1])
  }

  /** The policy as the `i`-th action finds it. */
  function At(enabled: bool, actions: seq<Action>, i: nat): PolicyState
    requires i <= |actions|
  {
    Run(enabled, actions[..i])
  }

  /** What the daemon is told to do about the event at `i`. */
  function VerdictAt(enabled: bool, actions: seq<Action>, i: nat): Verdict
    requires i < |actions| && actions[i].Observe?
  {
    VerdictOn(At(enabled, actions, i), actions[i].pid, actions[i].kind)
  }

  predicate StartsAt(enabled: bool, actions: seq<Action>, i: nat)
    requires i < |actions|
  {
    actions[i].Observe? && VerdictAt(enabled, actions, i).Start?
  }

  predicate AcceptsAt(enabled: bool, actions: seq<Action>, i: nat)
    requires i < |actions|
  {
    Accepts(At(enabled, actions, i), actions[i])
  }

  function AttemptAt(enabled: bool, actions: seq<Action>, i: nat): u64
    requires i < |actions| && StartsAt(enabled, actions, i)
  {
    VerdictAt(enabled, actions, i).attempt
  }

  lemma AtNext(enabled: bool, actions: seq<Action>, i: nat)
    requires i < |actions|
    ensures At(enabled, actions, i + 1) == After(At(enabled, actions, i), actions[i])
  {
    assert actions[..i + 1][..i] == actions[..i];
  }

  lemma {:induction false} StaysEnabled(enabled: bool, actions: seq<Action>, i: nat)
    requires i <= |actions|
    ensures At(enabled, actions, i).enabled == enabled
    decreases i
  {
    if i > 0 {
      AtNext(enabled, actions, i - 1);
      StaysEnabled(enabled, actions, i - 1);
    }
  }

  /** A policy that is switched off starts nothing and accepts nothing. */
  lemma {:induction false} DisabledDoesNothing(actions: seq<Action>, i: nat)
    requires i < |actions|
    ensures !StartsAt(false, actions, i) && !AcceptsAt(false, actions, i)
    decreases i
  {
    StaysEnabled(false, actions, i);
    DisabledStaysEmpty(actions, i);
  }

  lemma {:induction false} DisabledStaysEmpty(actions: seq<Action>, i: nat)
    requires i <= |actions|
    ensures At(false, actions, i).processes == map[]
    decreases i
  {
    if i > 0 {
      AtNext(false, actions, i - 1);
      StaysEnabled(false, actions, i - 1);
      DisabledStaysEmpty(actions, i - 1);
    }
  }

  lemma {:induction false} KnownUntilForgotten(enabled: bool, actions: seq<Action>, i: nat, j: nat, pid: u32)
    requires i <= j <= |actions| && pid in At(enabled, actions, i).processes
    requires forall k :: i <= k < j ==> actions[k] != Forget(pid)
    ensures pid in At(enabled, actions, j).processes
    decreases j
  {
    if i < j {
      AtNext(enabled, actions, j - 1);
      KnownUntilForgotten(enabled, actions, i, j - 1, pid);
    }
  }

  /** A process is started at most once between two times it is forgotten. */
  lemma StartsOncePerLife(enabled: bool, actions: seq<Action>, i: nat, j: nat)
    requires i < j < |actions| && StartsAt(enabled, actions, i) && StartsAt(enabled, actions, j)
    requires actions[i].pid == actions[j].pid
    ensures exists k :: i < k < j && actions[k] == Forget(actions[i].pid)
  {
    if forall k :: i < k < j ==> actions[k] != Forget(actions[i].pid) {
      AtNext(enabled, actions, i);
      KnownUntilForgotten(enabled, actions, i + 1, j, actions[i].pid);
    }
  }

  /** Ends the attempt: the process settles, is suppressed or forgotten, or the attempt
      is finished. */
  predicate Supersedes(action: Action, pid: u32, attempt: u64) {
    action.pid == pid && (action.Observe? ==> action.kind.Settled?) && (action.Finish? ==> action.attempt == attempt)
  }

  lemma KnownMeansEnabled(enabled: bool, actions: seq<Action>, j: nat, pid: u32)
    requires j <= |actions| && pid in At(enabled, actions, j).processes
    ensures enabled
  {
    if !enabled {
      DisabledStaysEmpty(actions, j);
    }
  }

  /** Whatever is loading was started, and nothing has superseded it since. */
  lemma {:induction false} LoadingWasStarted(enabled: bool, actions: seq<Action>, j: nat, pid: u32) returns (i: nat)
    requires j <= |actions| && pid in At(enabled, actions, j).processes && At(enabled, actions, j).processes[pid].Loading?
    ensures i < j && StartsAt(enabled, actions, i) && actions[i].pid == pid
    ensures AttemptAt(enabled, actions, i) == At(enabled, actions, j).processes[pid].attempt
    ensures forall k :: i < k < j ==> !Supersedes(actions[k], pid, AttemptAt(enabled, actions, i))
    decreases j
  {
    KnownMeansEnabled(enabled, actions, j, pid);
    if j > 0 {
      AtNext(enabled, actions, j - 1);
      StaysEnabled(enabled, actions, j - 1);
      if StartsAt(enabled, actions, j - 1) && actions[j - 1].pid == pid {
        i := j - 1;
      } else {
        i := LoadingWasStarted(enabled, actions, j - 1, pid);
      }
    }
  }

  /** A finished attempt was started for that process, with nothing superseding it in
      between: no settling event, no suppression, no forgetting, no earlier finish. */
  lemma FinishedWasStarted(enabled: bool, actions: seq<Action>, j: nat) returns (i: nat)
    requires j < |actions| && AcceptsAt(enabled, actions, j)
    ensures i < j && StartsAt(enabled, actions, i) && actions[i].pid == actions[j].pid
    ensures AttemptAt(enabled, actions, i) == actions[j].attempt
    ensures forall k :: i < k < j ==> !Supersedes(actions[k], actions[j].pid, actions[j].attempt)
  {
    i := LoadingWasStarted(enabled, actions, j, actions[j].pid);
  }

  /** And it is finished by its report if nothing superseded it. */
  lemma {:induction false} UnsupersededIsLoading(enabled: bool, actions: seq<Action>, i: nat, j: nat)
    requires i < j <= |actions| && StartsAt(enabled, actions, i)
    requires forall k :: i < k < j ==> !Supersedes(actions[k], actions[i].pid, AttemptAt(enabled, actions, i))
    ensures actions[i].pid in At(enabled, actions, j).processes
    ensures At(enabled, actions, j).processes[actions[i].pid] == Loading(AttemptAt(enabled, actions, i))
    decreases j
  {
    AtNext(enabled, actions, j - 1);
    if i < j - 1 {
      UnsupersededIsLoading(enabled, actions, i, j - 1);
    }
  }

  /** A report is accepted exactly when its attempt was started for that process and
      nothing has superseded it since. */
  lemma AcceptedExactlyWhenCurrent(enabled: bool, actions: seq<Action>, j: nat)
    requires j < |actions| && actions[j].Finish?
    ensures AcceptsAt(enabled, actions, j)
            <==> exists i :: 0 <= i < j && StartsAt(enabled, actions, i) && actions[i].pid == actions[j].pid
                   && AttemptAt(enabled, actions, i) == actions[j].attempt
                   && forall k :: i < k < j ==> !Supersedes(actions[k], actions[j].pid, actions[j].attempt)
  {
    if AcceptsAt(enabled, actions, j) {
      var i := FinishedWasStarted(enabled, actions, j);
    }
    if i :| 0 <= i < j && StartsAt(enabled, actions, i) && actions[i].pid == actions[j].pid
            && AttemptAt(enabled, actions, i) == actions[j].attempt
            && forall k :: i < k < j ==> !Supersedes(actions[k], actions[j].pid, actions[j].attempt) {
      UnsupersededIsLoading(enabled, actions, i, j);
    }
  }

  /** Makes a process known to an enabled policy. */
  predicate Touches(action: Action, pid: u32) {
    action.pid == pid && (action.Suppress? || (action.Observe? && !action.kind.Unrelated?))
  }

  lemma {:induction false} UntouchedIsUnknown(enabled: bool, actions: seq<Action>, j: nat, pid: u32)
    requires j <= |actions|
    requires forall i :: 0 <= i < j && Touches(actions[i], pid) ==> exists k :: i < k < j && actions[k] == Forget(pid)
    ensures pid !in At(enabled, actions, j).processes
    decreases j
  {
    if j > 0 {
      AtNext(enabled, actions, j - 1);
      if actions[j - 1] != Forget(pid) {
        assert !Touches(actions[j - 1], pid);
        forall i | 0 <= i < j - 1 && Touches(actions[i], pid)
          ensures exists k :: i < k < j - 1 && actions[k] == Forget(pid)
        {
          var k :| i < k < j && actions[k] == Forget(pid);
        }
        UntouchedIsUnknown(enabled, actions, j - 1, pid);
      }
    }
  }

  /** Nothing has touched the process since it was last forgotten. */
  ghost predicate Untouched(actions: seq<Action>, j: nat, pid: u32)
    requires j <= |actions|
  {
    forall i :: 0 <= i < j && Touches(actions[i], pid) ==> exists k :: i < k < j && actions[k] == Forget(pid)
  }

  lemma KnownExactly(actions: seq<Action>, j: nat, pid: u32)
    requires j <= |actions|
    ensures pid in At(true, actions, j).processes <==> !Untouched(actions, j, pid)
  {
    if Untouched(actions, j, pid) {
      UntouchedIsUnknown(true, actions, j, pid);
    } else {
      var i :| 0 <= i < j && Touches(actions[i], pid) && !exists k :: i < k < j && actions[k] == Forget(pid);
      AtNext(true, actions, i);
      StaysEnabled(true, actions, i);
      forall k | i + 1 <= k < j
        ensures actions[k] != Forget(pid)
      {
      }
      KnownUntilForgotten(true, actions, i + 1, j, pid);
    }
  }

  /** A start of the process has not been superseded. */
  ghost predicate Outstanding(enabled: bool, actions: seq<Action>, j: nat, pid: u32)
    requires j <= |actions|
  {
    exists i :: 0 <= i < j && StartsAt(enabled, actions, i) && actions[i].pid == pid
                && forall k :: i < k < j ==> !Supersedes(actions[k], pid, AttemptAt(enabled, actions, i))
  }

  lemma LoadingExactly(enabled: bool, actions: seq<Action>, j: nat, pid: u32)
    requires j <= |actions|
    ensures pid in At(enabled, actions, j).processes && At(enabled, actions, j).processes[pid].Loading?
            <==> Outstanding(enabled, actions, j, pid)
  {
    if pid in At(enabled, actions, j).processes && At(enabled, actions, j).processes[pid].Loading? {
      var i := LoadingWasStarted(enabled, actions, j, pid);
    }
    if i :| 0 <= i < j && StartsAt(enabled, actions, i) && actions[i].pid == pid
            && forall k :: i < k < j ==> !Supersedes(actions[k], pid, AttemptAt(enabled, actions, i)) {
      UnsupersededIsLoading(enabled, actions, i, j);
    }
  }

  /** What an enabled policy answers to an event, over every run: it starts a process that
      is not loaded and that nothing has touched since it was last forgotten, as the
      next attempt; it keeps the event back while a start is outstanding; and it
      publishes everything else. */
  lemma VerdictsAreExact(actions: seq<Action>, j: nat)
    requires j < |actions| && actions[j].Observe?
    ensures var v, pid := VerdictAt(true, actions, j), actions[j].pid;
            && (v.Start? <==> actions[j].kind.NotLoaded? && Untouched(actions, j, pid))
            && (v.Start? ==> v.attempt == (StartCount(true, actions, j) + 1) % ATTEMPTS)
            && (v.SuppressEvent? <==> actions[j].kind.NotLoaded? && Outstanding(true, actions, j, pid))
  {
    StaysEnabled(true, actions, j);
    KnownExactly(actions, j, actions[j].pid);
    LoadingExactly(true, actions, j, actions[j].pid);
    AttemptsCount(true, actions, j);
  }

  /** A policy that is switched off publishes everything. */
  lemma DisabledPublishes(actions: seq<Action>, j: nat)
    requires j < |actions| && actions[j].Observe?
    ensures VerdictAt(false, actions, j) == Publish
  {
    StaysEnabled(false, actions, j);
  }

  /** An enabled policy does start a process reported as not loaded, if nothing has
      settled, suppressed or reported it since it was last forgotten. */
  lemma FreshProcessesAreStarted(actions: seq<Action>, j: nat)
    requires j < |actions| && actions[j].Observe? && actions[j].kind.NotLoaded?
    requires forall i :: 0 <= i < j && Touches(actions[i], actions[j].pid) ==>
               exists k :: i < k < j && actions[k] == Forget(actions[j].pid)
    ensures StartsAt(true, actions, j)
  {
    StaysEnabled(true, actions, j);
    UntouchedIsUnknown(true, actions, j, actions[j].pid);
  }

  // ----- attempts -----

  function StartCount(enabled: bool, actions: seq<Action>, i: nat): nat
    requires i <= |actions|
  {
    if i == 0 then 0 else StartCount(enabled, actions, i - 1) + (if StartsAt(enabled, actions, i - 1) then 1 else 0)
  }

  lemma {:induction false} AttemptsCount(enabled: bool, actions: seq<Action>, i: nat)
    requires i <= |actions|
    ensures At(enabled, actions, i).nextAttempt == (1 + StartCount(enabled, actions, i)) % ATTEMPTS
    decreases i
  {
    if i > 0 {
      AtNext(enabled, actions, i - 1);
      AttemptsCount(enabled, actions, i - 1);
      Wraps(1 + StartCount(enabled, actions, i - 1));
    }
  }

  lemma Wraps(n: nat)
    ensures (n % ATTEMPTS + 1) % ATTEMPTS == (n + 1) % ATTEMPTS
  {
    var quotient := n / ATTEMPTS;
    assert n == quotient * ATTEMPTS + n % ATTEMPTS;
    assert n + 1 == quotient * ATTEMPTS + (n % ATTEMPTS + 1);
  }

  lemma {:induction false} StartCountGrows(enabled: bool, actions: seq<Action>, i: nat, j: nat)
    requires i <= j <= |actions|
    ensures StartCount(enabled, actions, i) <= StartCount(enabled, actions, j)
    ensures i < j && StartsAt(enabled, actions, i) ==> StartCount(enabled, actions, i) < StartCount(enabled, actions, j)
    decreases j
  {
    if i < j {
      StartCountGrows(enabled, actions, i, j - 1);
    }
  }

  lemma SmallResidues(a: nat, b: nat)
    requires a < b < a + ATTEMPTS
    ensures a % ATTEMPTS != b % ATTEMPTS
  {
    assert b - a == (b / ATTEMPTS - a / ATTEMPTS) * ATTEMPTS + (b % ATTEMPTS - a % ATTEMPTS);
  }

  /** Attempts repeat only after a whole round of them. */
  lemma AttemptsAreDistinct(enabled: bool, actions: seq<Action>, i: nat, j: nat)
    requires i < j < |actions| && StartsAt(enabled, actions, i) && StartsAt(enabled, actions, j)
    requires StartCount(enabled, actions, j) < ATTEMPTS
    ensures AttemptAt(enabled, actions, i) != AttemptAt(enabled, actions, j)
  {
    AttemptsCount(enabled, actions, i);
    AttemptsCount(enabled, actions, j);
    StartCountGrows(enabled, actions, i, j);
    SmallResidues(1 + StartCount(enabled, actions, i), 1 + StartCount(enabled, actions, j));
  }

  /** An attempt is finished at most once. */
  lemma FinishesOnce(enabled: bool, actions: seq<Action>, j: nat, k: nat)
    requires j < k < |actions| && AcceptsAt(enabled, actions, j)
    requires actions[k] == actions[j] && StartCount(enabled, actions, k) < ATTEMPTS
    ensures !AcceptsAt(enabled, actions, k)
  {
    if AcceptsAt(enabled, actions, k) {
      var first := FinishedWasStarted(enabled, actions, j);
      var second := FinishedWasStarted(enabled, actions, k);
      assert Supersedes(actions[j], actions[k].pid, actions[k].attempt);
      StartCountGrows(enabled, actions, second, k);
      AttemptsAreDistinct(enabled, actions, first, second);
    }
  }

  /** What an attempt reports after its process settled, was suppressed or forgotten is
      turned away, even if the process has been started again since. */
  lemma StaleAttemptsAreRejected(enabled: bool, actions: seq<Action>, i: nat, m: nat, j: nat)
    requires i < m < j < |actions| && StartsAt(enabled, actions, i)
    requires Supersedes(actions[m], actions[i].pid, AttemptAt(enabled, actions, i))
    requires actions[j] == Finish(actions[i].pid, AttemptAt(enabled, actions, i))
    requires StartCount(enabled, actions, j) < ATTEMPTS
    ensures !AcceptsAt(enabled, actions, j)
  {
    if AcceptsAt(enabled, actions, j) {
      var started := FinishedWasStarted(enabled, actions, j);
      assert Supersedes(actions[m], actions[j].pid, actions[j].attempt);
      StartCountGrows(enabled, actions, started, j);
      AttemptsAreDistinct(enabled, actions, i, started);
    }
  }
}
