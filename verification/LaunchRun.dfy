/** Launching a patched client: it starts suspended and runs only once patched and
    attached. */
module LaunchRun {
  import opened Wrappers
  import opened Words
  import opened CodeEmission
  import opened LaunchTarget
  import GroundItems
  import LaunchPatch

  /** The child process. It may end by itself at any time; the thread of a responsive
      one can be resumed. */
  class SuspendedChild {
    var running: bool
    var suspendCount: nat
    var resumeCalls: nat
    var terminationRequested: bool
    var terminateOnDrop: bool
    const responsive: bool

    constructor (resumes: bool)
      ensures running && suspendCount == 1 && resumeCalls == 0 && !terminationRequested && terminateOnDrop
      ensures responsive == resumes
    {
      running, suspendCount, resumeCalls, terminationRequested, terminateOnDrop := true, 1, 0, false, true;
      responsive := resumes;
    }

    method Resume() returns (r: Outcome)
      modifies this`resumeCalls, this`suspendCount
      ensures resumeCalls == old(resumeCalls) + 1
      ensures r.Ok? <==> suspendCount < old(suspendCount) && old(suspendCount) == 1
      ensures suspendCount == old(suspendCount) || suspendCount == old(suspendCount) - 1
      ensures r.Err? ==> r.error == LaunchFailed
      ensures responsive && old(suspendCount) == 1 ==> r.Ok?
    {
      resumeCalls := resumeCalls + 1;
      var failed: bool := *;
      if failed && !responsive {
        return Err(LaunchFailed);
      }
      var previous := suspendCount;
      suspendCount := if previous > 0 then previous - 1 else 0;
      if previous != 1 {
        return Err(LaunchFailed);
      }
      return Ok(());
    }

    method FinishStartup()
      modifies this`terminateOnDrop
      ensures !terminateOnDrop
    {
      terminateOnDrop := false;
    }

    method IsRunning() returns (r: Result<bool, ErrorKind>)
      modifies this`running
      ensures running ==> old(running)
      ensures r.Ok? ==> r.value == running
    {
      var ended: bool := *;
      running := running && !ended;
      var fails: bool := *;
      return if fails then Err(LaunchFailed) else Ok(running);
    }

    /** Wait a bounded time for the child to end. */
    method Wait() returns (r: Result<bool, ErrorKind>)
      modifies this`running
      ensures running ==> old(running)
      ensures r == Ok(true) ==> !running
    {
      var running := IsRunning();
      return if running.Ok? then Ok(!running.value) else Err(LaunchFailed);
    }

    /** Success means the child has ended, or was already let go. */
    method Terminate() returns (r: Outcome)
      modifies this`running, this`terminationRequested, this`terminateOnDrop
      ensures !old(terminateOnDrop) ==> r.Ok? && unchanged(this)
      ensures old(terminateOnDrop) ==> (r.Ok? <==> !terminateOnDrop) && (r.Ok? ==> !running)
      ensures old(terminationRequested) ==> terminationRequested
    {
      if !terminateOnDrop {
        return Ok(());
      }
      var alive :- IsRunning();
      if alive {
        terminationRequested := true;
        var succeeded: bool := *;
        if !succeeded {
          var still :- IsRunning();
          if still {
            return Err(LaunchFailed);
          }
        }
      }
      var ended :- Wait();
      if !ended {
        return Err(LaunchFailed);
      }
      terminateOnDrop := false;
      return Ok(());
    }

    method Drop()
      modifies this`running, this`terminationRequested
      ensures terminationRequested == (old(terminationRequested) || terminateOnDrop)
      ensures running ==> old(running)
    {
      if terminateOnDrop {
        terminationRequested := true;
        var _ := Wait();
      }
    }
  }

  /** After a failed launch the child is dead, or its termination has been asked for;
      the first error is the one reported. */
  method CleanUp(child: SuspendedChild, error: ErrorKind) returns (r: Outcome)
    requires child.terminateOnDrop
    modifies child`running, child`terminationRequested, child`terminateOnDrop
    ensures r == Err(error)
    ensures !child.running || child.terminationRequested
  {
    var _ := child.Terminate();
    child.Drop();
    return Err(error);
  }

  /** Nothing is asked of the client, or the target works and all that is asked can be
      done to it. */
  ghost predicate Patchable(target: Target, located: Result<Address, ErrorKind>, catalog: LaunchPatch.Catalog,
                            selection: LaunchPatch.Selection, defaults: bool, m: Memory, committed: set<int>)
    reads target
  {
    LaunchPatch.Selects(selection, defaults) ==>
      && target.reliable && !target.refused && located.Ok?
      && LaunchPatch.WellSeparated(catalog, selection, defaults, located.value)
      && LaunchPatch.Emittable(catalog, selection, defaults, located.value, target.ceiling)
      && LaunchPatch.Acceptable(catalog, selection, defaults, located.value, m, committed)
  }

  /** The launch once the child exists; `attach` is how attaching the library went, and
      `resumes` whether the child's thread can be resumed.
      The child's thread is only ever resumed with everything the plan asks for in
      place and the library attached; otherwise the child is put down, so a
      half-patched client never runs. */
  method Run(target: Target, located: Result<Address, ErrorKind>, catalog: LaunchPatch.Catalog,
             selection: LaunchPatch.Selection, defaults: bool, attach: Outcome, resumes: bool)
    returns (r: Outcome, child: SuspendedChild, ghost installed: GroundItems.Installation, ghost stub: Address)
    modifies target
    ensures fresh(child)
    ensures child.resumeCalls <= 1 && (child.suspendCount < 1 ==> child.resumeCalls == 1)
    ensures r.Ok? ==> child.resumeCalls == 1 && child.suspendCount == 0 && !child.terminateOnDrop && !child.terminationRequested
    ensures r.Err? ==> !child.running || child.terminationRequested
    ensures attach.Err? ==> r.Err? && child.resumeCalls == 0
    ensures LaunchPatch.Selects(selection, defaults)
            && (located.Err?
                || !LaunchPatch.Acceptable(catalog, selection, defaults, located.value, old(target.memory), old(target.committed))) ==>
              r.Err? && child.resumeCalls == 0 && unchanged(target)
    ensures child.resumeCalls == 1 && LaunchPatch.Selects(selection, defaults)
            && LaunchPatch.WellSeparated(catalog, selection, defaults, located.value) ==>
              LaunchPatch.Applied(catalog, selection, defaults, located.value, installed, stub, target.memory, target.committed)
    ensures located.Ok? && selection.showItemsWithAlt
            && LaunchPatch.WellSeparated(catalog, selection, defaults, located.value) ==>
              LaunchPatch.NoDanglingHook(catalog, located.value, installed, old(target.memory), target.memory, target.committed)
    ensures !LaunchPatch.Selects(selection, defaults) ==> unchanged(target) && (attach.Err? ==> r == attach)
    ensures attach.Ok? && resumes && Patchable(target, located, catalog, selection, defaults, old(target.memory), old(target.committed)) ==>
              r.Ok?
  {
    child := new SuspendedChild(resumes);
    var applied: Outcome;
    applied, installed, stub := LaunchPatch.Apply(target, located, catalog, selection, defaults);
    if applied.Err? {
      r := CleanUp(child, applied.error);
      return;
    }
    if attach.Err? {
      r := CleanUp(child, attach.error);
      return;
    }
    var resumed := child.Resume();
    if resumed.Err? {
      r := CleanUp(child, resumed.error);
      return;
    }
    child.FinishStartup();
    child.Drop();
    return Ok(()), child, installed, stub;
  }
}
