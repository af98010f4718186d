/** The daemon's client roster as functions of its state: which processes it tracks,
    and the workers it has for them. */
module RosterSpec {
  import opened Words

  /** Nanoseconds. */
  const LAUNCH_DISCOVERY_GRACE := 5_000_000_000

  /** A worker is named by its process and how many that process had before. `spawns`
      and `stops` record every worker ever started and every stop ever asked for. */
  datatype Roster = Roster(
    explicitPids: set<u32>, launchGrace: map<u32, nat>, tracked: set<u32>, workers: map<u32, nat>,
    spawns: multiset<u32>, stops: multiset<(u32, nat)>)

  function Initial(explicitPids: set<u32>): Roster {
    Roster(explicitPids, map[], {}, map[], multiset{}, multiset{})
  }

  /** Track processes, and give those without a worker one, as far as threads start. */
  function Ensured(r: Roster, pids: set<u32>, starts: set<u32>): Roster {
    r.(tracked := r.tracked + pids,
       workers := r.workers + Recruits(r, pids * starts),
       spawns := r.spawns + multiset(Recruits(r, pids * starts).Keys))
  }

  /** The new workers of those processes that have none. */
  function Recruits(r: Roster, pids: set<u32>): map<u32, nat> {
    map pid | pid in pids && pid !in r.workers :: r.spawns[pid]
  }

  function StopsOf(workers: map<u32, nat>, pids: set<u32>): multiset<(u32, nat)> {
    multiset(set pid | pid in pids && pid in workers :: (pid, workers[pid]))
  }

  /** Stop tracking processes and stop their workers. */
  function Dropped(r: Roster, pids: set<u32>): Roster {
    r.(tracked := r.tracked - pids, workers := r.workers - pids, stops := r.stops + StopsOf(r.workers, pids))
  }

  function Unexpired(grace: map<u32, nat>, discovered: set<u32>, now: nat): map<u32, nat> {
    map pid | pid in grace && pid !in discovered && grace[pid] > now :: grace[pid]
  }

  function Desired(r: Roster, discovered: set<u32>, now: nat): set<u32> {
    r.explicitPids + discovered + Unexpired(r.launchGrace, discovered, now).Keys
  }

  function Launched(r: Roster, pid: u32, now: nat, starts: bool): Roster {
    Ensured(r.(launchGrace := r.launchGrace[pid := now + LAUNCH_DISCOVERY_GRACE]), {pid}, if starts then {pid} else {})
  }

  function Reconciled(r: Roster, discovered: set<u32>, now: nat, starts: set<u32>): Roster {
    var desired := Desired(r, discovered, now);
    var graced := r.(launchGrace := Unexpired(r.launchGrace, discovered, now));
    Dropped(Ensured(graced, desired, starts), r.tracked - desired)
  }

  /** Dropping the roster stops whatever is left. */
  function Closed(r: Roster): Roster {
    r.(stops := r.stops + StopsOf(r.workers, r.workers.Keys), workers := map[])
  }

  /** What is done to a roster; `starts` says which threads can be created. */
  datatype Action =
    | TrackLaunched(pid: u32, now: nat, starts: bool)
    | Reconcile(discovered: set<u32>, now: nat, starting: set<u32>)

  function Step(r: Roster, action: Action): Roster {
    match action
    case TrackLaunched(pid, now, starts) => Launched(r, pid, now, starts)
    case Reconcile(discovered, now, starting) => Reconciled(r, discovered, now, starting)
  }

  function Run(r: Roster, actions: seq<Action>): Roster {
    if actions == [] then r else Step(Run(r, actions[..|actions| - 1]), actions[|actions| - 1])
  }
}

/** What every run of the roster keeps. */
module RosterTheorems {
  import opened Words
  import opened RosterSpec

  /** Workers belong to tracked processes, and every worker ever started is either the
      one its process has now or has been stopped exactly once. */
  ghost predicate Accounted(r: Roster) {
    && r.workers.Keys <= r.tracked
    && (forall pid :: pid in r.workers ==> r.workers[pid] + 1 == r.spawns[pid])
    && (forall pid: u32, n: nat {:trigger r.stops[(pid, n)]} ::
          r.stops[(pid, n)] == if n < r.spawns[pid] && !(pid in r.workers && r.workers[pid] == n) then 1 else 0)
  }

  lemma EnsuredAccounted(r: Roster, pids: set<u32>, starts: set<u32>)
    requires Accounted(r)
    ensures Accounted(Ensured(r, pids, starts))
  {
    var after := Ensured(r, pids, starts);
    forall pid: u32, n: nat {:trigger after.stops[(pid, n)]}
      ensures after.stops[(pid, n)] == if n < after.spawns[pid] && !(pid in after.workers && after.workers[pid] == n) then 1 else 0
    {
      assert after.stops[(pid, n)] == r.stops[(pid, n)];
    }
  }

  lemma StopsAt(workers: map<u32, nat>, pids: set<u32>, pid: u32, n: nat)
    ensures StopsOf(workers, pids)[(pid, n)] == if pid in pids && pid in workers && workers[pid] == n then 1 else 0
  {
    var stopped := set p | p in pids && p in workers :: (p, workers[p]);
    assert (pid, n) in stopped <==> pid in pids && pid in workers && workers[pid] == n;
  }

  lemma DroppedAccounted(r: Roster, pids: set<u32>)
    requires Accounted(r)
    ensures Accounted(Dropped(r, pids))
  {
    var after := Dropped(r, pids);
    forall pid: u32, n: nat {:trigger after.stops[(pid, n)]}
      ensures after.stops[(pid, n)] == if n < after.spawns[pid] && !(pid in after.workers && after.workers[pid] == n) then 1 else 0
    {
      StopsAt(r.workers, pids, pid, n);
      assert after.stops[(pid, n)] == r.stops[(pid, n)] + StopsOf(r.workers, pids)[(pid, n)];
    }
  }

  lemma StepAccounted(r: Roster, action: Action)
    requires Accounted(r)
    ensures Accounted(Step(r, action))
  {
    match action
    case TrackLaunched(pid, now, starts) =>
      var graced := r.(launchGrace := r.launchGrace[pid := now + LAUNCH_DISCOVERY_GRACE]);
      assert Accounted(graced);
      EnsuredAccounted(graced, {pid}, if starts then {pid} else {});
    case Reconcile(discovered, now, starting) =>
      var desired := Desired(r, discovered, now);
      var graced := r.(launchGrace := Unexpired(r.launchGrace, discovered, now));
      assert Accounted(graced);
      EnsuredAccounted(graced, desired, starting);
      DroppedAccounted(Ensured(graced, desired, starting), r.tracked - desired);
  }

  /** In every run, whichever threads fail to start. */
  lemma {:induction false} RunAccounted(explicitPids: set<u32>, actions: seq<Action>)
    ensures Accounted(Run(Initial(explicitPids), actions))
    ensures Run(Initial(explicitPids), actions).explicitPids == explicitPids
    decreases |actions|
  {
    if actions != [] {
      RunAccounted(explicitPids, actions[..|actions| - 1]);
      StepAccounted(Run(Initial(explicitPids), actions[..|actions| - 1]), actions[|actions| - 1]);
    }
  }

  /** Once the roster is gone, every worker it ever started has been stopped once. */
  lemma EveryWorkerIsStoppedOnce(explicitPids: set<u32>, actions: seq<Action>, pid: u32, n: nat)
    ensures var closed := Closed(Run(Initial(explicitPids), actions));
            closed.stops[(pid, n)] == if n < closed.spawns[pid] then 1 else 0
  {
    var r := Run(Initial(explicitPids), actions);
    RunAccounted(explicitPids, actions);
    StopsAt(r.workers, r.workers.Keys, pid, n);
    assert r.stops[(pid, n)] == if n < r.spawns[pid] && !(pid in r.workers && r.workers[pid] == n) then 1 else 0;
  }

  /** A reconciliation keeps the workers of the processes it keeps, gives every other
      one a worker if its thread starts, and leaves no other workers. */
  lemma WorkersAfterReconcile(explicitPids: set<u32>, actions: seq<Action>, pid: u32)
    requires actions != [] && actions[|actions| - 1].Reconcile?
    ensures var before, after := Run(Initial(explicitPids), actions[..|actions| - 1]), Run(Initial(explicitPids), actions);
            && (pid in after.workers <==>
                  pid in after.tracked && (pid in before.workers || pid in actions[|actions| - 1].starting))
            && (pid in after.workers && pid in before.workers ==> after.workers[pid] == before.workers[pid])
  {
    RunAccounted(explicitPids, actions[..|actions| - 1]);
  }

  /** A launch adds the process to the tracked ones and gives it a worker if it has
      none and its thread starts; no other process is touched. */
  lemma WorkersAfterLaunch(explicitPids: set<u32>, actions: seq<Action>, pid: u32)
    requires actions != [] && actions[|actions| - 1].TrackLaunched?
    ensures var before, after := Run(Initial(explicitPids), actions[..|actions| - 1]), Run(Initial(explicitPids), actions);
            var launch := actions[|actions| - 1];
            && after.tracked == before.tracked + {launch.pid}
            && (pid in after.workers <==> pid in before.workers || (pid == launch.pid && launch.starts))
            && (pid in before.workers ==> after.workers[pid] == before.workers[pid])
            && after.stops == before.stops
  {
    RunAccounted(explicitPids, actions[..|actions| - 1]);
  }

  // ----- who is tracked -----

  /** The launch at `i` of `pid` still counts after all `actions`: it is the last one,
      and no reconciliation since has discovered the process or come at its deadline
      or later. */
  ghost predicate StillGraced(actions: seq<Action>, i: nat, pid: u32)
    requires i < |actions|
  {
    && actions[i].TrackLaunched? && actions[i].pid == pid
    && forall j :: i < j < |actions| ==>
         match actions[j]
         case TrackLaunched(other, _, _) => other != pid
         case Reconcile(discovered, now, _) => pid !in discovered && now < actions[i].now + LAUNCH_DISCOVERY_GRACE
  }

  /** A launch with this deadline outlives the action. */
  predicate Outlives(action: Action, pid: u32, deadline: nat) {
    match action
    case TrackLaunched(other, _, _) => other != pid
    case Reconcile(discovered, now, _) => pid !in discovered && now < deadline
  }

  lemma GraceStep(r: Roster, action: Action, pid: u32)
    ensures var after := Step(r, action).launchGrace;
            && (pid in after <==>
                  || (action.TrackLaunched? && action.pid == pid)
                  || (pid in r.launchGrace && Outlives(action, pid, r.launchGrace[pid])))
            && (pid in after ==>
                  after[pid] == if action.TrackLaunched? && action.pid == pid then action.now + LAUNCH_DISCOVERY_GRACE
                                else r.launchGrace[pid])
  {
  }

  lemma StillGracedStep(actions: seq<Action>, i: nat, pid: u32)
    requires i < |actions|
    ensures var last := |actions| - 1;
            StillGraced(actions, i, pid) <==>
              if i == last then actions[i].TrackLaunched? && actions[i].pid == pid
              else
                && StillGraced(actions[..last], i, pid)
                && Outlives(actions[last], pid, actions[i].now + LAUNCH_DISCOVERY_GRACE)
  {
    var before := actions[..|actions| - 1];
    assert forall j :: 0 <= j < |before| ==> before[j] == actions[j];
    if i < |before| && StillGraced(before, i, pid) && Outlives(actions[|before|], pid, actions[i].now + LAUNCH_DISCOVERY_GRACE) {
      assert forall j :: i < j < |before| ==> before[j] == actions[j];
    }
  }

  ghost predicate GracedAt(actions: seq<Action>, i: nat, pid: u32) {
    i < |actions| && StillGraced(actions, i, pid)
  }

  /** Of the launches of `pid`, only the given one can still count, if any does. */
  ghost predicate OnlyGracedAt(actions: seq<Action>, i: nat, pid: u32) {
    forall k: nat :: GracedAt(actions, k, pid) ==> k == i
  }

  lemma GracedAfter(actions: seq<Action>, before: nat, after: nat, pid: u32)
    requires actions != [] && OnlyGracedAt(actions[..|actions| - 1], before, pid)
    requires var action := actions[|actions| - 1];
             after == if action.TrackLaunched? && action.pid == pid then |actions| - 1 else before
    ensures OnlyGracedAt(actions, after, pid)
  {
    forall k: nat | GracedAt(actions, k, pid)
      ensures k == after
    {
      StillGracedStep(actions, k, pid);
      if k < |actions| - 1 {
        assert GracedAt(actions[..|actions| - 1], k, pid);
      }
    }
  }

  /** A process is on the grace list exactly if one of its launches still counts, with
      that launch's deadline, and no other launch of it does. */
  lemma {:induction false} GraceIsHistory(explicitPids: set<u32>, actions: seq<Action>, pid: u32) returns (i: nat)
    ensures pid in Run(Initial(explicitPids), actions).launchGrace <==> GracedAt(actions, i, pid)
    ensures GracedAt(actions, i, pid) ==>
              Run(Initial(explicitPids), actions).launchGrace[pid] == actions[i].now + LAUNCH_DISCOVERY_GRACE
    ensures OnlyGracedAt(actions, i, pid)
    decreases |actions|
  {
    if actions == [] {
      i := 0;
    } else {
      var last := |actions| - 1;
      var before := GraceIsHistory(explicitPids, actions[..last], pid);
      GraceStep(Run(Initial(explicitPids), actions[..last]), actions[last], pid);
      i := if actions[last].TrackLaunched? && actions[last].pid == pid then last else before;
      GracedAfter(actions, before, i, pid);
      if i <= last {
        StillGracedStep(actions, i, pid);
      }
    }
  }

  /** So a launch that still counts keeps its process on the list. */
  lemma GracedExactly(explicitPids: set<u32>, actions: seq<Action>, i: nat, pid: u32)
    requires GracedAt(actions, i, pid)
    ensures pid in Run(Initial(explicitPids), actions).launchGrace
    ensures Run(Initial(explicitPids), actions).launchGrace[pid] == actions[i].now + LAUNCH_DISCOVERY_GRACE
  {
    var j := GraceIsHistory(explicitPids, actions, pid);
    assert i == j;
  }

  /** Right after a reconciliation the tracked processes are exactly the explicit ones,
      the discovered ones, and the launches that still count. */
  lemma TrackedAfterReconcile(explicitPids: set<u32>, actions: seq<Action>, pid: u32)
    requires actions != [] && actions[|actions| - 1].Reconcile?
    ensures pid in Run(Initial(explicitPids), actions).tracked
            <==> || pid in explicitPids || pid in actions[|actions| - 1].discovered
                 || exists i :: 0 <= i < |actions| && StillGraced(actions, i, pid)
  {
    RunAccounted(explicitPids, actions[..|actions| - 1]);
    var i := GraceIsHistory(explicitPids, actions, pid);
    if j :| 0 <= j < |actions| && StillGraced(actions, j, pid) {
      GracedExactly(explicitPids, actions, j, pid);
    }
  }

  /** A process that was launched and is then dropped had reached its deadline or had
      been discovered at some reconciliation since its last launch. */
  lemma DroppedOnlyAfterGrace(explicitPids: set<u32>, actions: seq<Action>, i: nat, pid: u32) returns (j: nat)
    requires i < |actions| && actions[i].TrackLaunched? && actions[i].pid == pid
    requires forall k :: i < k < |actions| && actions[k].TrackLaunched? ==> actions[k].pid != pid
    requires pid !in Run(Initial(explicitPids), actions).tracked
    ensures i < j < |actions| && actions[j].Reconcile?
    ensures pid in actions[j].discovered || actions[j].now >= actions[i].now + LAUNCH_DISCOVERY_GRACE
  {
    if j' :| i < j' < |actions| && actions[j'].Reconcile?
             && (pid in actions[j'].discovered || actions[j'].now >= actions[i].now + LAUNCH_DISCOVERY_GRACE) {
      j := j';
    } else {
      assert StillGraced(actions, i, pid);
      GracedIsTracked(explicitPids, actions, i, pid);
    }
  }

  lemma {:induction false} GracedIsTracked(explicitPids: set<u32>, actions: seq<Action>, i: nat, pid: u32)
    requires i < |actions| && StillGraced(actions, i, pid)
    ensures pid in Run(Initial(explicitPids), actions).tracked
    decreases |actions|
  {
    if i < |actions| - 1 {
      StillGracedStep(actions, i, pid);
      GracedIsTracked(explicitPids, actions[..|actions| - 1], i, pid);
      GracedExactly(explicitPids, actions, i, pid);
    }
  }
}

/** The roster itself. */
module ClientRoster {
  import opened Words
  import opened Wrappers
  import opened RosterSpec

  /** What the registry makes of an event. */
  datatype CommitOutcome = Ignored | Applied | ObservationRejected

  /** What the registry says, for each process asked about: whether it takes note that a
      connection is being made, that the worker did not start, and whether removing the
      process removes anything. */
  datatype Answers = Answers(connecting: set<u32>, disconnected: set<u32>, removed: set<u32>)

  /** Giving this process a worker changes what the daemon shows. */
  predicate Shows(workers: map<u32, nat>, pid: u32, starts: set<u32>, answers: Answers) {
    pid !in workers && (pid in answers.connecting || (pid !in starts && pid in answers.disconnected))
  }

  ghost predicate SomeShows(workers: map<u32, nat>, pids: set<u32>, starts: set<u32>, answers: Answers) {
    exists pid :: pid in pids && Shows(workers, pid, starts, answers)
  }

  lemma OneMoreShows(workers: map<u32, nat>, done: set<u32>, pid: u32, starts: set<u32>, answers: Answers)
    ensures SomeShows(workers, done + {pid}, starts, answers) <==>
              SomeShows(workers, done, starts, answers) || Shows(workers, pid, starts, answers)
  {
    if SomeShows(workers, done, starts, answers) {
      var other :| other in done && Shows(workers, other, starts, answers);
      assert other in done + {pid};
    }
    if Shows(workers, pid, starts, answers) {
      assert pid in done + {pid};
    }
  }

  lemma EnsuredOne(r: Roster, pid: u32, starts: bool)
    ensures var after := Ensured(r, {pid}, if starts then {pid} else {});
            && after.tracked == r.tracked + {pid}
            && after.workers == (if starts && pid !in r.workers then r.workers[pid := r.spawns[pid]] else r.workers)
            && after.spawns == (if starts && pid !in r.workers then r.spawns + multiset{pid} else r.spawns)
  {
    RecruitsOne(r, pid, starts);
    if starts && pid !in r.workers {
      AddOne(r.workers, r.spawns, pid, r.spawns[pid]);
    } else {
      AddNone(r.workers, r.spawns, map[]);
    }
  }

  lemma AddOne(workers: map<u32, nat>, spawns: multiset<u32>, pid: u32, worker: nat)
    ensures workers + map[pid := worker] == workers[pid := worker]
    ensures spawns + multiset(map[pid := worker].Keys) == spawns + multiset{pid}
  {
    assert map[pid := worker].Keys == {pid};
  }

  lemma AddNone(workers: map<u32, nat>, spawns: multiset<u32>, none: map<u32, nat>)
    requires none == map[]
    ensures workers + none == workers && spawns + multiset(none.Keys) == spawns
  {
    assert none.Keys == {};
  }

  lemma RecruitsOne(r: Roster, pid: u32, starts: bool)
    ensures Recruits(r, {pid} * if starts then {pid} else {}) ==
            if starts && pid !in r.workers then map[pid := r.spawns[pid]] else map[]
  {
  }

  lemma DroppedOne(r: Roster, pid: u32)
    ensures StopsOf(r.workers, {pid}) == if pid in r.workers then multiset{(pid, r.workers[pid])} else multiset{}
  {
    var stopped := set p | p in {pid} && p in r.workers :: (p, r.workers[p]);
    assert stopped == if pid in r.workers then {(pid, r.workers[pid])} else {};
  }

  lemma RecruitsMore(r: Roster, done: set<u32>, pid: u32, starts: set<u32>)
    requires pid !in done
    ensures pid !in Recruits(r, done * starts)
    ensures Recruits(r, (done + {pid}) * starts)
            == if pid in starts && pid !in r.workers then Recruits(r, done * starts)[pid := r.spawns[pid]]
               else Recruits(r, done * starts)
  {
    assert (done + {pid}) * starts == if pid in starts then done * starts + {pid} else done * starts;
  }

  lemma JoinsOne(workers: map<u32, nat>, some: map<u32, nat>, pid: u32, n: nat, spawns: multiset<u32>)
    requires pid !in some
    ensures workers + some[pid := n] == (workers + some)[pid := n]
    ensures spawns + multiset(some[pid := n].Keys) == spawns + multiset(some.Keys) + multiset{pid}
    ensures (spawns + multiset(some.Keys))[pid] == spawns[pid]
  {
    assert some[pid := n].Keys == some.Keys + {pid};
  }

  /** Ensuring one more process after others. */
  lemma EnsuredMore(r: Roster, done: set<u32>, pid: u32, starts: set<u32>)
    requires pid !in done
    ensures Ensured(Ensured(r, done, starts), {pid}, if pid in starts then {pid} else {}) == Ensured(r, done + {pid}, starts)
  {
    EnsuredOne(Ensured(r, done, starts), pid, pid in starts);
    RecruitsMore(r, done, pid, starts);
    if pid in starts && pid !in r.workers {
      JoinsOne(r.workers, Recruits(r, done * starts), pid, r.spawns[pid], r.spawns);
    }
    assert r.tracked + (done + {pid}) == r.tracked + done + {pid};
  }

  lemma StopsMore(workers: map<u32, nat>, done: set<u32>, pid: u32)
    requires pid !in done
    ensures StopsOf(workers, done + {pid}) == StopsOf(workers, done) + StopsOf(workers - done, {pid})
  {
    var rest := workers - done;
    var some := set p | p in done && p in workers :: (p, workers[p]);
    var one := set p | p in {pid} && p in rest :: (p, rest[p]);
    var all := set p | p in done + {pid} && p in workers :: (p, workers[p]);
    assert all == some + one && some !! one;
  }

  lemma DroppedMore(r: Roster, done: set<u32>, pid: u32)
    requires pid !in done
    ensures Dropped(Dropped(r, done), {pid}) == Dropped(r, done + {pid})
  {
    StopsMore(r.workers, done, pid);
    assert r.workers - (done + {pid}) == r.workers - done - {pid};
    assert r.tracked - (done + {pid}) == r.tracked - done - {pid};
  }

  lemma NothingDone(r: Roster, starts: set<u32>)
    ensures Ensured(r, {}, starts) == r && Dropped(r, {}) == r
  {
    assert r.workers - {} == r.workers;
    assert StopsOf(r.workers, {}) == multiset{};
    NobodyEnsured(r, starts);
  }

  lemma NobodyEnsured(r: Roster, starts: set<u32>)
    ensures Ensured(r, {}, starts) == r
  {
    assert {} * starts == {};
    assert Recruits(r, {}) == map[];
    AddNone(r.workers, r.spawns, map[]);
  }

  function EnsuringSteps(r: Roster, starts: set<u32>): set<u32> -> Roster {
    (done: set<u32>) => Ensured(r, done, starts)
  }

  function DroppingSteps(r: Roster): set<u32> -> Roster {
    (done: set<u32>) => Dropped(r, done)
  }

  /** Every further process is ensured from where the ones before it left off. */
  ghost predicate EnsuresEach(steps: set<u32> -> Roster, starts: set<u32>) {
    forall done: set<u32>, pid: u32 {:trigger steps(done + {pid})} ::
      pid !in done ==> steps(done + {pid}) == Ensured(steps(done), {pid}, if pid in starts then {pid} else {})
  }

  ghost predicate DropsEach(steps: set<u32> -> Roster) {
    forall done: set<u32>, pid: u32 {:trigger steps(done + {pid})} ::
      pid !in done ==> steps(done + {pid}) == Dropped(steps(done), {pid})
  }

  lemma EnsuringEach(r: Roster, starts: set<u32>)
    ensures EnsuresEach(EnsuringSteps(r, starts), starts) && EnsuringSteps(r, starts)({}) == r
  {
    NothingDone(r, starts);
    forall done: set<u32>, pid: u32 {:trigger EnsuringSteps(r, starts)(done + {pid})} | pid !in done
      ensures EnsuringSteps(r, starts)(done + {pid})
              == Ensured(EnsuringSteps(r, starts)(done), {pid}, if pid in starts then {pid} else {})
    {
      EnsuredMore(r, done, pid, starts);
    }
  }

  lemma DroppingEach(r: Roster)
    ensures DropsEach(DroppingSteps(r)) && DroppingSteps(r)({}) == r
  {
    NothingDone(r, {});
    forall done: set<u32>, pid: u32 {:trigger DroppingSteps(r)(done + {pid})} | pid !in done
      ensures DroppingSteps(r)(done + {pid}) == Dropped(DroppingSteps(r)(done), {pid})
    {
      DroppedMore(r, done, pid);
    }
  }

  class ClientRoster {
    const explicitPids: set<u32>
    var launchGrace: map<u32, nat>
    var trackedPids: set<u32>
    var workers: map<u32, nat>

    /** Every worker started, by process; the next one is named after the count. */
    var spawns: multiset<u32>
    ghost var stops: multiset<(u32, nat)>

    ghost function State(): Roster
      reads this
    {
      Roster(explicitPids, launchGrace, trackedPids, workers, spawns, stops)
    }

    constructor (explicit: set<u32>)
      ensures State() == Initial(explicit)
    {
      explicitPids, launchGrace, trackedPids, workers := explicit, map[], {}, map[];
      spawns, stops := multiset{}, multiset{};
    }

    /** The process is in `starts` if the worker's thread can be created. */
    method EnsureWorker(pid: u32, starts: set<u32>, answers: Answers) returns (changed: bool)
      modifies this`trackedPids, this`workers, this`spawns
      ensures State() == Ensured(old(State()), {pid}, if pid in starts then {pid} else {})
      ensures forall other :: other != pid ==> (other in workers <==> other in old(workers))
      ensures changed <==> Shows(old(workers), pid, starts, answers)
    {
      EnsuredOne(State(), pid, pid in starts);
      trackedPids := trackedPids + {pid};
      if pid in workers {
        return false;
      }
      changed := pid in answers.connecting;
      if pid in starts {
        workers, spawns := workers[pid := spawns[pid]], spawns + multiset{pid};
      } else {
        changed := changed || pid in answers.disconnected;
      }
    }

    /** Only this ever stops a worker of a live roster, and it forgets it at once. */
    method Remove(pid: u32)
      modifies this`trackedPids, this`workers, this`stops
      ensures State() == Dropped(old(State()), {pid})
    {
      DroppedOne(State(), pid);
      trackedPids := trackedPids - {pid};
      if pid in workers {
        stops := stops + multiset{(pid, workers[pid])};
        workers := workers - {pid};
      }
    }

    method TrackLaunched(pid: u32, now: nat, starts: set<u32>, answers: Answers) returns (changed: bool)
      modifies this
      ensures State() == Launched(old(State()), pid, now, pid in starts)
      ensures changed <==> Shows(old(workers), pid, starts, answers)
    {
      launchGrace := launchGrace[pid := now + LAUNCH_DISCOVERY_GRACE];
      changed := EnsureWorker(pid, starts, answers);
    }

    /** `steps` is the roster after each part of `pids`. */
    method EnsureEach(pids: set<u32>, starts: set<u32>, answers: Answers, ghost steps: set<u32> -> Roster)
      returns (changed: bool)
      requires EnsuresEach(steps, starts) && State() == steps({})
      modifies this`trackedPids, this`workers, this`spawns
      ensures State() == steps(pids)
      ensures changed <==> SomeShows(old(workers), pids, starts, answers)
    {
      changed := false;
      var rest := pids;
      assert pids - rest == {};
      while rest != {}
        invariant rest <= pids && State() == steps(pids - rest)
        invariant forall pid :: pid in rest ==> (pid in workers <==> pid in old(workers))
        invariant changed <==> SomeShows(old(workers), pids - rest, starts, answers)
        decreases rest
      {
        var pid :| pid in rest;
        assert pids - (rest - {pid}) == (pids - rest) + {pid};
        OneMoreShows(old(workers), pids - rest, pid, starts, answers);
        var ensured := EnsureWorker(pid, starts, answers);
        changed := changed || ensured;
        rest := rest - {pid};
      }
      assert pids - rest == pids;
    }

    method EnsureAll(pids: set<u32>, starts: set<u32>, answers: Answers) returns (changed: bool)
      modifies this`trackedPids, this`workers, this`spawns
      ensures State() == Ensured(old(State()), pids, starts)
      ensures changed <==> SomeShows(old(workers), pids, starts, answers)
    {
      ghost var steps := EnsuringSteps(State(), starts);
      EnsuringEach(State(), starts);
      changed := EnsureEach(pids, starts, answers, steps);
    }

    method RemoveEach(pids: set<u32>, answers: Answers, ghost steps: set<u32> -> Roster) returns (changed: bool)
      requires DropsEach(steps) && State() == steps({})
      modifies this`trackedPids, this`workers, this`stops
      ensures State() == steps(pids)
      ensures changed <==> pids * answers.removed != {}
    {
      changed := false;
      var rest := pids;
      assert pids - rest == {};
      while rest != {}
        invariant rest <= pids && State() == steps(pids - rest)
        invariant changed <==> (pids - rest) * answers.removed != {}
        decreases rest
      {
        var pid :| pid in rest;
        assert pids - (rest - {pid}) == (pids - rest) + {pid};
        assert ((pids - rest) + {pid}) * answers.removed ==
               (pids - rest) * answers.removed + (if pid in answers.removed then {pid} else {});
        Remove(pid);
        changed := changed || pid in answers.removed;
        rest := rest - {pid};
      }
      assert pids - rest == pids;
    }

    method RemoveAll(pids: set<u32>, answers: Answers) returns (changed: bool)
      modifies this`trackedPids, this`workers, this`stops
      ensures State() == Dropped(old(State()), pids)
      ensures changed <==> pids * answers.removed != {}
    {
      ghost var steps := DroppingSteps(State());
      DroppingEach(State());
      changed := RemoveEach(pids, answers, steps);
    }

    method Reconcile(discovered: set<u32>, now: nat, starts: set<u32>, answers: Answers)
      returns (changed: bool, removed: set<u32>)
      modifies this
      ensures State() == Reconciled(old(State()), discovered, now, starts)
      ensures removed == old(trackedPids) - trackedPids
      ensures changed <==> SomeShows(old(workers), trackedPids, starts, answers) || removed * answers.removed != {}
    {
      launchGrace := Unexpired(launchGrace, discovered, now);
      var desired := explicitPids + discovered + launchGrace.Keys;
      assert desired == Desired(old(State()), discovered, now);
      var ensured := EnsureAll(desired, starts, answers);
      removed := trackedPids - desired;
      assert removed == old(trackedPids) - desired;
      var dropped := RemoveAll(removed, answers);
      assert trackedPids == desired;
      changed := ensured || dropped;
    }

    /** An event counts only for a tracked process, and a rejected observation asks
        that process's worker, if it has one, for a fresh snapshot. */
    method Commit(pid: u32, verdict: CommitOutcome) returns (outcome: CommitOutcome, refresh: Option<nat>)
      ensures outcome == if pid in State().tracked then verdict else Ignored
      ensures refresh == if outcome.ObservationRejected? && pid in State().workers then Some(State().workers[pid]) else None
    {
      if pid !in trackedPids {
        return Ignored, None;
      }
      refresh := if verdict.ObservationRejected? && pid in workers then Some(workers[pid]) else None;
      return verdict, refresh;
    }

    method Close()
      modifies this`stops, this`workers
      ensures State() == Closed(old(State()))
    {
      stops := stops + StopsOf(workers, workers.Keys);
      workers := map[];
    }
  }
}
