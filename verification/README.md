# Verified model of the client toolkit

This project models the parts of the toolkit whose correctness depends on more than one
function at a time, and proves what they promise: the lock-free look lane and the one-place
hand-off slot inside the client library, the two PE export parsers whose answers `detach`
compares, the Windows command line the loader prints for a child, the launch patch transaction
and the machine code it writes, and the daemon's state machines for one client session, the
roster, automatic loading and resync status.

Each component is written in the form of its source. What the source updates in place is a class
whose methods are proved against a specification function; a protocol run by several threads is a
state machine with one step for each atomic access; what the source computes is a function. The
laws are lemmas about the specification functions, for every input, every interleaving or every
run.

| file | what it models |
|---|---|
| `LookProtocol`, `LookInvariant`, `LookTheorems`, `LookOutcomes`, `LookRaces`, `LookResets`, `LookAlone`, `LookLane` | the look lane: the machine, its invariant, what every run keeps, what callers are told, cancellation races, what resets lose, what each operation comes to, and the operations in place |
| `PeFormat`, `PeDisk`, `PeMapped`, `PeCompleteness`, `PeAgreement`, `PeExample` | the two readers of the library's PE image, exactly what each accepts, when they agree, also on a library that has been running, and a file on which they do not |
| `CommandLine` | the command-line printer, the standard argument parser, and the round trip |
| `CodeEmission` | relative branches, hooks and the bootstrap stub, under a small processor model |
| `LaunchTarget`, `GroundItems`, `BootstrapPatch`, `LaunchPatch`, `ClientDefinitions`, `LaunchRun` | the patch transaction on the suspended client, the supported client's patches, and the child's life cycle |
| `Sequence`, `Connection`, `ConnectionAccounts`, `ConnectionReference`, `HealthMonitors` | wrapping sequence numbers, the worker's loop, what it owes daemon and callers, what an onlooker is to see of it, its monitors |
| `Roster`, `ResyncStatus`, `AutoLoad` | the daemon's records of clients |
| `TransferSlot`, `MessageDialog`, `HeartbeatPriority` | the hand-off structures inside the client library |
| `Words`, `Wrappers` | fixed-width integers, option and result types |

Where the code and a plausible reading of its promises part, the model follows the code:

- The file parser lets the last of two exports with one name win, the mapped parser stops when both
  lifecycle names have been seen. `PeAgreement.ParsersAgreeUnlessRebound` gives the exact condition
  under which the identities are equal, for an image that may have been rewritten wherever the file
  parser's answer does not come from; `PeExample.RepeatedNamesDiffer` gives a whole file, a loading of
  it whose image base and data have been written to, and a reader of that memory, on which both
  parsers succeed, with a parameter for each of the two initialize entries: the identities are equal
  when the parameters are, and differ otherwise.
- The program name is parsed by rules of its own, without escapes, so a path with a quote in it, or a
  quoted path that ends in a backslash, does not come back. `CommandLine.CommandLineRoundTrip` is an
  equivalence with that condition. Such paths do not reach it in a launch: the loader prints only the
  canonical path of an existing file (`components/loader/src/launch/platform.rs:252-279`), and a
  Windows file name has no quote in it and does not end in a backslash. The function takes any path.
- Normalizing a launch path twice can differ from normalizing it once, for a share path that hides a
  second verbatim prefix; `CommandLine.NormalizationIsIdempotentUnlessHidden` says exactly when, and
  `CommandLine.HiddenPathTakesTwoRounds` names such a path.
- A look reset is a load and then a blind store, so it can quarantine a request that still awaits its
  completion. `LookResets.LostExactlyToAResetsStore` says exactly which requests are lost, for every
  run. A caller loses none if it resets only while the lane is not ARMED or PENDING and starts no
  request between the reset's load and its store (`LookResets.CarefulResetsLoseNothing`); neither half
  is enough alone (`LookResets.ResetLosesALiveRequest`, `LookResets.StaleResetLosesALaterRequest`).
  The one caller outside tests is `commands::reset`, while the tick hook is being installed
  (`components/rpc-dll/src/hooks/tick/mod.rs:96`), before the detour exists through which every
  request starts: the stale run cannot occur there. In a fresh library the lane is then IDLE and the
  reset stores nothing; after an earlier shutdown the other run would take a request that outlived
  `commands::cancel_pending` (`components/rpc-dll/src/lifecycle/mod.rs:474`).
- News of an accepted resync that arrives after 64 further completions revives a finished request:
  `ResyncStatus.LateNewsRevives` gives the exact condition, and `ResyncStatus.FirstOfManyIsRevived` a
  run in which it happens.
- A worker that has fetched a snapshot for a caller but finds the daemon's channel closed ends its
  session without replying to that caller: `MonitorAccounts.EveryCallIsAnswered` shows that this is
  the only call left without a reply.
- The bootstrap patch has no rollback. `BootstrapPatch.Install` promises nothing about the call sites
  after a failure; `LaunchRun.Run` shows that such a child is never resumed.

## Model

| member | source | states |
|---|---|---|
| LookProtocol.PackingIsFaithful | components/rpc-dll/src/look.rs:184-186 | comparing the packed 64-bit words is comparing phase and owner, and both halves read back |
| LookProtocol.TargetRoundTrip | components/rpc-dll/src/look.rs:250-259 | the two target words decode to the target that was stored |
| LookProtocol.RequestsAreDistinguishable | components/rpc-dll/src/look.rs:79-93 | two targets encode to the same packet only if the game sees the same request |
| LookInvariant.StepKeepsInv | components/rpc-dll/src/look.rs:95-282 | every atomic step of any thread keeps ownership, target, packets, publications, completions and debts consistent |
| LookInvariant.RunKeepsInv | components/rpc-dll/src/look.rs:95-282 | so does every interleaving |
| LookTheorems.PublishedLooksAreSourced | components/rpc-dll/src/look.rs:95-237 | a published look carries the id and target of the one begin that held the lane, whose own request is the only look packet since the lane left IDLE, and which was never cancelled, released or lost; no begin is published twice |
| LookTheorems.CompletedAtMostOnce | components/rpc-dll/src/look.rs:168-236 | a begun command is completed at most once, under its id, and never after it was cancelled, released or lost |
| LookTheorems.EveryRequestIsSettled | components/rpc-dll/src/look.rs:41-50 | no request disappears: it is completed, cancelled, released, lost to a reset's store, or is the newest and some thread still owes its outcome |
| LookTheorems.LaneFollowsPhaseGraph | components/rpc-dll/src/look.rs:41-282 | in every reachable state the next step follows the phase graph and keeps the owner until IDLE or QUARANTINED |
| LookTheorems.QuarantineIsForever | components/rpc-dll/src/look.rs:275-282 | no step of any run leaves QUARANTINED |
| LookOutcomes.SuccessMeansPublished | components/rpc-dll/src/look.rs:168-237 | in every run, a completion reports success if and only if a look was published for that very begin; so what quarantine completes has failed |
| LookOutcomes.PopupTextIsExact | components/rpc-dll/src/look.rs:239-248 | a reply has a text exactly when it is opcode, kind 8 to 10, two-byte length and that text, at most the limit long |
| LookOutcomes.PublishedTextsAreReplies | components/rpc-dll/src/look.rs:189-237 | in every run, a published text is, byte for byte, the one carried by a reply the client handed over |
| LookAlone.BeginComesTo | components/rpc-dll/src/look.rs:95-114 | alone, a begin succeeds exactly for a nonzero command on an idle lane, which is then armed for it with its target |
| LookAlone.PacketComesTo | components/rpc-dll/src/look.rs:118-165 | alone, an outgoing packet leaves the lane PENDING, DRAINING, MANUAL or as it was exactly when phase, owner and bytes match, and quarantined with its owed completion failed otherwise |
| LookAlone.ReplyComesTo | components/rpc-dll/src/look.rs:189-237 | alone, a reply is published, dropped, let through or quarantines the lane as phase and framing say, with its completion and answer |
| LookAlone.ReleaseComesTo | components/rpc-dll/src/look.rs:41-50 | alone, a release frees exactly a lane still armed, cancelled or not, for that command |
| LookAlone.CancelComesTo | components/rpc-dll/src/look.rs:261-273 | alone, a cancellation turns ARMED into CANCELLED_ARMED and PENDING into DRAINING for its own command, changes no other lane and completes nothing |
| LookAlone.ResetComesTo | components/rpc-dll/src/look.rs:277-282 | alone, a reset quarantines every lane that is not IDLE, and completes nothing |
| LookAlone.PlayersLookTakesTheLane | components/rpc-dll/src/look.rs:155-163 | a player's own well-formed look on an idle lane takes it as MANUAL, whatever cancellations run meanwhile |
| LookAlone.PlayersReplyFreesTheLane | components/rpc-dll/src/look.rs:201-204 | and its reply goes to the player and leaves the lane IDLE, whatever cancellations run meanwhile |
| LookSolo.MainStepRanksDown | components/rpc-dll/src/look.rs:95-237 | every main-thread operation ends within seven of its own steps, whatever other threads do |
| LookRaces.CancelRacingSendConverges | components/rpc-dll/src/look.rs:129-153 | from ARMED, every interleaving of cancellations with the matching packet leaves the id PENDING or DRAINING, and DRAINING exactly if one of them named the id |
| LookRaces.CancelRacingReplyConverges | components/rpc-dll/src/look.rs:205-236 | from PENDING, every interleaving of cancellations with one well-formed popup ends in IDLE, and suppresses the popup unless publishing was refused |
| LookResets.LostExactlyToAResetsStore | components/rpc-dll/src/look.rs:277-282 | in every run, a begun request is lost if and only if some reset's store ran while that request was on the lane and still owed its completion |
| LookResets.CarefulResetsLoseNothing | components/rpc-dll/src/look.rs:277-282 | if resets load only a lane that is not ARMED or PENDING, and no request starts between a reset's load and its store, every begun request is completed, cancelled or released, or is the newest and has its outcome ahead |
| LookResets.NothingIsLostWithoutResets | components/rpc-dll/src/look.rs:277-282 | a run without resets loses no request |
| LookResets.ResetLosesALiveRequest | components/rpc-dll/src/look.rs:277-282 | a run with no begin between load and store that still loses the request the reset found |
| LookResets.StaleResetLosesALaterRequest | components/rpc-dll/src/look.rs:277-282 | a run in which a reset that loaded a lane owing no completion loses a request begun between its load and its store |
| LookLane.Lane.BeginRequest | components/rpc-dll/src/look.rs:95-114 | run alone, it is the protocol's own run of begin, answer included |
| LookLane.Lane.QuarantineLane | components/rpc-dll/src/look.rs:168-173 | run alone, the protocol's quarantine |
| LookLane.Lane.ObserveOutgoing | components/rpc-dll/src/look.rs:118-165 | run alone, the protocol's observation of an outgoing packet |
| LookLane.Lane.InterceptResponse | components/rpc-dll/src/look.rs:189-237 | the protocol's handling of a reply, alone or with one cancellation right after the lane was loaded |
| LookLane.Lane.ClaimReply | components/rpc-dll/src/look.rs:216-236 | the exchange out of PENDING, and the recovery when a cancellation has won it, as the protocol runs them |
| LookLane.Lane.Cancel | components/rpc-dll/src/look.rs:261-273 | run alone, the protocol's cancellation |
| LookLane.Lane.ReleaseUnsent | components/rpc-dll/src/look.rs:41-50 | run alone, the protocol's release |
| LookLane.Lane.Reset | components/rpc-dll/src/look.rs:277-282 | run alone, the protocol's reset |
| PeDisk.TranslationIsBacked | components/loader/src/pe/disk.rs:26-80 | a successful RVA translation names raw bytes of one section, inside the file |
| PeDisk.RvaRangeToFileOffset | components/loader/src/pe/disk.rs:26-80 | the section loop computes the specified translation |
| PeCompleteness.FirstSectionDecides | components/loader/src/pe/disk.rs:36-74 | a range is answered by the first section that overflows or covers it, however many sections pass it by before |
| PeCompleteness.TranslationIsExact | components/loader/src/pe/disk.rs:26-80 | translation gives an offset if and only if some section backs the range there and every earlier one passes it by without overflow |
| PeCompleteness.TranslationOfApartSections | components/loader/src/pe/disk.rs:26-80 | with sections that do not overflow or overlap, translation gives an offset if and only if some section backs the range there |
| PeCompleteness.UnmappedWhenAllPass | components/loader/src/pe/disk.rs:77-79 | and the range is unmapped when every section passes it by |
| PeCompleteness.NameIsExact | components/loader/src/pe/disk.rs:82-105 | either parser reads this name at an address if and only if it is stored there, at most 256 bytes long with its NUL |
| PeCompleteness.EntryIsExact | components/loader/src/pe/disk.rs:365-408 | exactly when an entry of the export tables binds a lifecycle name to a function RVA |
| PeCompleteness.HeadersAcceptedExactly | components/loader/src/pe/disk.rs:122-258 | the file parser accepts the headers of exactly the i386 DLL files with an export directory, and reads exactly their fields |
| PeCompleteness.MappedHeadersAcceptedExactly | components/loader/src/pe/mapped.rs:54-141 | the mapped parser accepts exactly the images that show such headers, and reads exactly their fields |
| PeCompleteness.FileAcceptedExactly | components/loader/src/pe/disk.rs:260-418 | the file parser succeeds if and only if the tables are readable, every entry is, and both lifecycle names are bound |
| PeCompleteness.ImageAcceptedExactly | components/loader/src/pe/mapped.rs:142-265 | the mapped parser succeeds if and only if its tables are readable and every entry is up to the one by which both names are bound |
| PeDisk.ExportNameAtRva | components/loader/src/pe/disk.rs:82-105 | the name loop computes the specified NUL-terminated name, or its error |
| PeDisk.FindLifecycleExports | components/loader/src/pe/disk.rs:260-418 | the export loop computes the specified identity, or its error |
| PeMapped.MappedExportName | components/loader/src/pe/mapped.rs:35-52 | the mapped name loop computes the same kind of name under the image's bounds |
| PeMapped.LifecycleIdentityFromMappedImage | components/loader/src/pe/mapped.rs:54-265 | the mapped parser computes the specified identity, stopping once both names are bound |
| PeAgreement.HeadersAgree | components/loader/src/pe/mapped.rs:54-141 | on a loaded image, rewritten anywhere but in the fields the identity comes from, the mapped header fields are the file's |
| PeAgreement.RangesAgree | components/loader/src/pe/disk.rs:26-80 | a range both parsers can read has the same bytes in file and image, but for those rewritten since |
| PeAgreement.FullScanBindsAll | components/loader/src/pe/disk.rs:365-408 | the file parser's result is every binding of the table, the last winning |
| PeAgreement.EarlyScanBindsToStop | components/loader/src/pe/mapped.rs:222-255 | the mapped parser's result is the bindings up to the entry by which both names are seen |
| PeAgreement.ParsersAgreeUnlessRebound | components/loader/src/pe/mapped.rs:54-265 | for any file, any loading of it, rewritten anywhere but where the file parser's answer comes from (six header fields, the export directory's fields, the three tables, the names), and any reader: when both succeed, the identities are equal if and only if no lifecycle name is bound to another RVA after both were seen |
| PeAgreement.FreshImagesAgreeUnlessRebound | components/loader/src/pe/mapped.rs:54-265 | the same equivalence for an image nothing has been written to, with no further condition |
| PeAgreement.UniqueNamesGiveOneIdentity | components/loader/src/pe/disk.rs:260-418 | with unique lifecycle names the four-field identities of file and running image are equal |
| PeAgreement.IdentityIsFromTheTables | components/loader/src/pe/disk.rs:368-418 | each reported RVA is the function table's entry at the ordinal of an entry with that name, nonzero and no forwarder |
| PeExample.RepeatedNamesDiffer | components/loader/src/pe/mapped.rs:222-255 | for any two function RVAs of one family and whatever is written to image base and data, there is a file with two initialize entries, and a loading and reader of it, on which the file parser reports the last entry's RVA and the mapped parser the first's |
| PeCompleteness.StoredNameIsRead | components/loader/src/pe/disk.rs:82-105 | a NUL-terminated name of at most 256 bytes stored in the image is read back as it is |
| CommandLine.Line.AppendArgument | components/loader/src/launch/mod.rs:48-93 | refuses exactly the arguments with a NUL and otherwise appends the specified printing |
| CommandLine.BuildCommandLine | components/loader/src/launch/platform.rs:295-312 | refuses exactly when some argument has a NUL, and otherwise yields the whole NUL-terminated line |
| CommandLine.PrintedIsReadBack | components/loader/src/launch/mod.rs:48-93 | one printed argument, with anything that ends an argument behind it, parses to exactly itself |
| CommandLine.QuotedOnlyWhenRequired | components/loader/src/launch/mod.rs:61-69 | an argument is printed as it is if and only if the standard parser reads it back from that, in every dialect |
| CommandLine.TailRoundTrip | components/loader/src/launch/platform.rs:301-308 | the line after the program name parses to exactly the argument list, in every dialect of the standard parser |
| CommandLine.ProgramNameRoundTrip | components/loader/src/launch/platform.rs:295-300 | the program name comes back if and only if the path has no quote in it and no backslash against a closing quote |
| CommandLine.CommandLineRoundTrip | components/loader/src/launch/platform.rs:295-312 | for every executable and argument list without NULs, the child's arguments are the given ones if and only if the path is plain in that sense |
| CommandLine.NormalizationDropsTheMarker | components/loader/src/launch/mod.rs:20-46 | the verbatim marker is dropped before a drive path, replaced before a share, and every other path comes back unchanged |
| CommandLine.NormalizationIsIdempotentUnlessHidden | components/loader/src/launch/mod.rs:20-46 | normalizing a launch path twice is normalizing it once, except exactly for hidden verbatim paths |
| CommandLine.HiddenPathTakesTwoRounds | components/loader/src/launch/mod.rs:20-46 | a path whose second normalization differs from its first |
| CodeEmission.Rel32Lands | components/loader/src/patch/mod.rs:788-811 | a displacement is emitted exactly when the target is in signed 32-bit reach, and then the processor lands on the target |
| CodeEmission.JumpHookExactly | components/loader/src/patch/mod.rs:696-707 | a hook is emitted if and only if it has five bytes or more to fill and its stub is in reach behind it |
| CodeEmission.NearCallExactly | components/loader/src/patch/mod.rs:397-408 | a redirected call is emitted if and only if its stub is in reach behind it |
| CodeEmission.BootstrapStubExactly | components/loader/src/patch/mod.rs:771-786 | the bootstrap stub is emitted if and only if the reset and the encryption are in reach of its two branches |
| CodeEmission.JumpHookLands | components/loader/src/patch/mod.rs:696-707 | a written hook has the length it replaces, jumps to its stub with nothing else changed, and is filled with no-operations |
| CodeEmission.NearCallLands | components/loader/src/patch/mod.rs:397-408 | a redirected call enters the stub with the return address pushed |
| CodeEmission.StubReachesEncryption | components/loader/src/patch/mod.rs:771-786 | the bootstrap stub always reaches the encryption with the object register and the stack intact, entering the reset routine once exactly for a packet starting with 0x62 |
| CodeEmission.RedirectedCallIsTransparent | components/loader/src/patch/mod.rs:771-786 | through a redirected call the encryption sees what it would have seen from the call before the patch |
| LaunchTarget.Target.WriteCode | components/loader/src/patch/mod.rs:835-869 | success means the bytes were read back; in any case only that range changed; on a reliable target committed bytes are always written |
| LaunchTarget.Target.ValidateBytes | components/loader/src/patch/mod.rs:366-382 | success means the committed range holds the expected, nonempty bytes, and on a reliable target it is what that takes |
| LaunchTarget.Target.Allocate | components/loader/src/remote/mod.rs:134-167 | fresh memory apart from everything committed, or nothing |
| LaunchTarget.Target.WriteAll | components/loader/src/patch/mod.rs:130-136 | only the patches' ranges change, success with disjoint ranges puts every replacement in place, and on a reliable target committed patches succeed |
| GroundItems.RollBack | components/loader/src/patch/mod.rs:514-519 | if every restoring write succeeds, each hook written so far has its original bytes again |
| GroundItems.InstallHooks | components/loader/src/patch/mod.rs:510-535 | all hooks are written, or their bytes are restored, or the stubs must be kept |
| GroundItems.Install | components/loader/src/patch/mod.rs:421-542 | for every pattern of failures: all hooks in place, or the client's bytes unchanged, or hooks possibly left; in the first and last case the state block and the four stub blocks stay committed in full, each stub holding the code built for that state block. On a reliable target that grants the allocations, it succeeds if and only if every stub can be built, fits its block, and is in reach of its hook, and so always for a definition below two gibibytes |
| GroundItems.InstalledHookRuns | components/loader/src/patch/mod.rs:482-508 | a processor reaching an installed hook finds, at its target, the code built for the image, that stub and the live state block |
| GroundItems.Resolve | components/loader/src/patch/mod.rs:300-358 | success means a valid definition whose hook sites and selector hold the expected bytes, committed and at representable addresses, and on a reliable target it is what that takes |
| GroundItems.ComputeJumps | components/loader/src/patch/mod.rs:482-508 | the four jumps come out if and only if every hook has five bytes or more and its stub is in reach, and each then leads to the stub built for it |
| BootstrapPatch.Resolve | components/loader/src/patch/mod.rs:264-298 | success means the three call sites hold the expected bytes and every address is representable, and on a reliable target it is what that takes |
| BootstrapPatch.Install | components/loader/src/patch/mod.rs:384-419 | success redirects both calls to a loaded, live stub and removes the late reset; a failure keeps to the three sites; on a reliable target that grants the allocation, it succeeds if and only if the four branches are in reach |
| BootstrapPatch.InstalledCallIsTransparent | components/loader/src/patch/mod.rs:384-419 | after success, packets through either call reach the encryption as before, after one reset exactly for bootstrap packets |
| LaunchPatch.ResolveAll | components/loader/src/patch/mod.rs:231-262 | success means every definition is valid and its bytes are as expected and committed, and on a reliable target it is what that takes |
| LaunchPatch.Apply | components/loader/src/patch/mod.rs:113-150 | any mismatch anywhere leaves the target untouched; only the plan's ranges ever change; no hook is left without its live stubs and state block; success puts everything in place; a reliable target that grants the allocations, with all branches in reach, is patched if and only if everything expected of it is there |
| ClientDefinitions.ClientIsWellSeparated | crates/game-client/src/lib.rs:87-180 | for every selection of the supported client's patches and every image base, no two ranges overlap and the bootstrap checks cover the calls |
| ClientDefinitions.ClientCallsDecode | crates/game-client/src/lib.rs:87-96 | the bytes expected at the three sites are the calls to the encryption, twice, and to the reset |
| ClientDefinitions.PatchClient | components/loader/src/patch/mod.rs:113-150 | the transaction's promises for the supported client, with no condition on the definitions left; below two gibibytes, with builders that fill in their templates, a reliable client is patched if and only if it holds the expected bytes |
| ClientDefinitions.PatchedClientIsTransparent | components/loader/src/patch/mod.rs:384-419 | after a successful patch with the defaults, packets through either call reach the encryption as in the client before, after one reset exactly for bootstrap packets |
| LaunchRun.SuspendedChild.Terminate | components/loader/src/launch/platform.rs:150-188 | success means the child has ended or had been let go; failure keeps the duty to end it |
| LaunchRun.SuspendedChild.Drop | components/loader/src/launch/platform.rs:191-208 | a child still owed termination has it requested |
| LaunchRun.CleanUp | components/loader/src/launch/platform.rs:348-359 | the first error is reported and the child is dead or its termination requested |
| LaunchRun.Run | components/loader/src/launch/platform.rs:314-346 | the child is resumed only if patching and attaching both succeeded, with the plan in place; otherwise it is put down; and if the target can be patched, the library attaches and the thread can be resumed, the launch succeeds |
| Sequence.SuccessorIsCyclic | crates/model/src/sequence.rs:17-20 | n successors of a value in use are 1 + (value - 1 + n) mod (2^32 - 1) |
| Sequence.SuccessorIsAfter | crates/model/src/sequence.rs:22-25 | within one round, exactly which successors compare as after their origin |
| Sequence.ReachableIsAfter | crates/model/src/sequence.rs:22-25 | each of the next 2^31 - 2 successors is after its origin, across wraparound |
| Sequence.OrderIsAntisymmetric | crates/model/src/sequence.rs:22-25 | never both after each other, and exactly when neither is |
| Sequence.SuccessorsAreDistinct | crates/model/src/sequence.rs:17-20 | a number comes round again only after a whole cycle |
| EventChain.ValidateEventBatch | components/rpc-daemon/src/connection/mod.rs:712-727 | accepts exactly the batches whose sequence and revision follow on, answering the last mark |
| EventChain.ChainsCompose | components/rpc-daemon/src/connection/mod.rs:712-727 | validating two batches in turn is validating them as one |
| EventChain.ChainIsConsecutive | components/rpc-daemon/src/connection/mod.rs:712-727 | a batch is a chain exactly if its i-th event carries the i-th successors of both numbers |
| MonitorLoop.SnapshotCache.Find | components/rpc-daemon/src/connection/mod.rs:149-163 | answers the retained snapshot only to a request that allows it, at most 250 ms later |
| MonitorLoop.Monitor.PublishSnapshot | components/rpc-daemon/src/connection/mod.rs:525-543 | boundary and cache move to the snapshot, which is then sent |
| MonitorLoop.Monitor.ServeCall | components/rpc-daemon/src/connection/mod.rs:378-429 | one command, for this client or another, from the cache or by a request, with its reply |
| MonitorLoop.Monitor.ReadBaseline | components/rpc-daemon/src/connection/mod.rs:432-462 | the baseline request and each of its outcomes |
| MonitorLoop.Monitor.PollEvents | components/rpc-daemon/src/connection/mod.rs:464-502 | a valid batch is passed on whole and moves the boundary; a gap or resync passes on nothing and drops it |
| MonitorLoop.Monitor.Pass | components/rpc-daemon/src/connection/mod.rs:367-523 | one pass of the loop is one turn of the specification |
| MonitorLoop.RunMonitor | components/rpc-daemon/src/connection/mod.rs:352-523 | a whole session is the specification's run, and what it emits is continuous |
| MonitorTheorems.SessionsAreContinuous | components/rpc-daemon/src/connection/mod.rs:352-523 | whatever is answered, asked or closed, every emission follows from those before it |
| MonitorTheorems.EventsContinueTheSnapshot | components/rpc-daemon/src/connection/mod.rs:464-502 | after a snapshot, up to the next, the events passed on form one chain from its mark |
| MonitorTheorems.NothingStreamsAdrift | components/rpc-daemon/src/connection/mod.rs:367-376 | between a loss of continuity and the next snapshot no event and no cached snapshot is given out |
| MonitorTheorems.CachedAnswersAreRecent | components/rpc-daemon/src/connection/mod.rs:148-175 | a cached answer is the last snapshot of the present stretch of continuity, at most 250 ms old |
| MonitorTheorems.BatchesAreDeliveredExactly | components/rpc-daemon/src/connection/mod.rs:464-490 | a nonempty batch reaches the daemon exactly when it continues the boundary, which moves to its end, and otherwise drops the boundary |
| MonitorTheorems.LossIsRepaired | components/rpc-daemon/src/connection/mod.rs:432-502 | after a gap or resync reply nothing is retained; in the next turn a snapshot call the client answers restores the boundary at its mark and the turn polls from there, and otherwise a ready baseline does |
| MonitorAccounts.AcceptedEventsAreStreamed | components/rpc-daemon/src/connection/mod.rs:464-490 | over a whole session the daemon receives exactly the batches that continued the boundary they met, each once and in order |
| MonitorAccounts.EveryCallIsAnswered | components/rpc-daemon/src/connection/mod.rs:375-430 | over a whole session every call taken up is replied to exactly once, except one whose snapshot could not be passed to the daemon, which ends the session |
| MonitorReference.CallersAreToldWhatTheyAreOwed | components/rpc-daemon/src/connection/mod.rs:375-430 | over a whole session the replies are, in order, exactly those owed: the result of an operation that has one, the recent snapshot or the fetched one, a refusal for another client, a broken operation or an unavailable snapshot |
| MonitorReference.NextCallIsToldWhatItIsOwed | components/rpc-daemon/src/connection/mod.rs:375-430 | at any point of any session, the next turn adds to the replies exactly what its call is owed where the trace so far leaves its reader |
| MonitorReference.SessionsShowWhatTheyShould | components/rpc-daemon/src/connection/mod.rs:352-523 | over a whole session all that daemon and callers see is, in order, what the inputs call for, and the session ends exactly when they do |
| MonitorAccounts.FreshAnswersArePublished | components/rpc-daemon/src/connection/mod.rs:391-412 | a snapshot fetched for a caller is the one just published, with nothing published or lost since |
| MonitorTheorems.RequestNumbersAreDistinct | components/rpc-daemon/src/connection/mod.rs:360-523 | no two requests of a session share a number, short of a whole cycle of them |
| HealthMonitors.SlowMeansTooFewTicks | components/rpc-daemon/src/connection/mod.rs:102-107 | the integer rate is slow exactly when fewer than 60 ticks fall in a second |
| HealthMonitors.TickDeltaCounts | components/rpc-daemon/src/connection/mod.rs:102-107 | across a wrap of the counter the difference is the number of ticks, short of a whole round |
| HealthMonitors.RateIsWhole | components/rpc-daemon/src/connection/mod.rs:102-107 | the rate is the whole number of ticks a second, unless 32 bits cannot hold it |
| HealthMonitors.TickRateMonitor.Observe | components/rpc-daemon/src/connection/mod.rs:102-131 | degradation is reported at the third slow sample in a row, recovery at the sample that ends such a streak, nothing else |
| HealthMonitors.ReportsAlternate | components/rpc-daemon/src/connection/mod.rs:102-131 | over a run degradations and recoveries alternate, and the last tells the state |
| HealthMonitors.HookTimingMonitor.Observe | components/rpc-daemon/src/connection/mod.rs:54-84 | every stage's growth is reported once, with its whole timing record, in order, as far as the channel takes it |
| HealthMonitors.ReportsAddUp | components/rpc-daemon/src/connection/mod.rs:65-72 | over a run the reports add up to the counter plus what it had reached at each restart |
| RosterTheorems.RunAccounted | components/rpc-daemon/src/roster.rs:102-193 | in every run each tracked process has at most one worker, and every worker ever started is the present one or was stopped exactly once |
| RosterTheorems.EveryWorkerIsStoppedOnce | components/rpc-daemon/src/roster.rs:195-201 | once the roster is dropped every worker it started has been stopped exactly once |
| RosterTheorems.WorkersAfterReconcile | components/rpc-daemon/src/roster.rs:108-193 | a reconciliation keeps the workers of processes it keeps, adds those whose thread starts, and leaves no others |
| RosterTheorems.WorkersAfterLaunch | components/rpc-daemon/src/roster.rs:102-105 | a launch adds that process to the tracked ones, gives it a worker if it has none and the thread starts, and touches no other |
| RosterTheorems.GraceIsHistory | components/rpc-daemon/src/roster.rs:102-115 | the grace list is the launches not since discovered or expired at a reconciliation |
| RosterTheorems.TrackedAfterReconcile | components/rpc-daemon/src/roster.rs:108-140 | after a reconciliation exactly the explicit, the discovered and the still-graced launches are tracked |
| RosterTheorems.DroppedOnlyAfterGrace | components/rpc-daemon/src/roster.rs:108-140 | a launched process is dropped only after being discovered or reaching its deadline |
| ClientRoster.ClientRoster.EnsureWorker | components/rpc-daemon/src/roster.rs:167-193 | tracks the process and gives it a worker if it has none and the thread starts; reports a change exactly when it had none and the registry took note |
| ClientRoster.ClientRoster.TrackLaunched | components/rpc-daemon/src/roster.rs:102-105 | grants the grace period, ensures a worker, and reports a change exactly when that does |
| ClientRoster.ClientRoster.Reconcile | components/rpc-daemon/src/roster.rs:108-140 | the two loops compute the specified roster, whatever threads fail to start, and report a change if and only if the registry took note of a process without a worker or lost a dropped one |
| ClientRoster.ClientRoster.Commit | components/rpc-daemon/src/roster.rs:146-157 | only tracked processes' events count, and a rejected observation asks its worker for a fresh snapshot |
| ClientRoster.ClientRoster.Close | components/rpc-daemon/src/roster.rs:195-201 | stops every remaining worker |
| ResyncStatus.ResyncTracker.Accept | components/rpc-daemon/src/resync_status.rs:43-55 | becomes active only if nothing is and it is not remembered as completed |
| ResyncStatus.ResyncTracker.Send | components/rpc-daemon/src/resync_status.rs:57-70 | the observed request replaces whatever was active |
| ResyncStatus.ResyncTracker.Finish | components/rpc-daemon/src/resync_status.rs:76-87 | remembers the id once, within the bound, and ends it if active |
| ResyncStatus.TerminalIsBounded | components/rpc-daemon/src/resync_status.rs:76-82 | whatever is noticed, at most 64 ids are remembered, none twice |
| ResyncStatus.TerminalIsLatest | components/rpc-daemon/src/resync_status.rs:76-82 | the memory is exactly the latest completions |
| ResyncStatus.ActiveHasNotCompleted | components/rpc-daemon/src/resync_status.rs:43-87 | in every orderly run the active request has not completed |
| ResyncStatus.AwaitingWasSent | components/rpc-daemon/src/resync_status.rs:57-70 | a request said to await its response has been observed on its way out |
| ResyncStatus.AwaitingExactly | components/rpc-daemon/src/resync_status.rs:57-95 | a request is reported as awaiting its response if and only if it was sent, none was sent since, and it has not completed since |
| ResyncStatus.WaitingExactly | components/rpc-daemon/src/resync_status.rs:43-95 | and as waiting to be sent if and only if its acceptance became known with nothing active and its completion not remembered, and it was neither overtaken nor completed since |
| ResyncStatus.OrderlyRunsEndIdle | components/rpc-daemon/src/resync_status.rs:43-95 | an orderly run in which every request completes ends idle |
| ResyncStatus.LateNewsRevives | components/rpc-daemon/src/resync_status.rs:43-55 | news of acceptance revives a completed request exactly when nothing is active and 64 or more have completed since |
| ResyncStatus.FirstOfManyIsRevived | components/rpc-daemon/src/resync_status.rs:43-55 | after 65 or more requests, numbered from 1, were sent and completed in turn, late news of the first one's acceptance makes it active again |
| ResyncStatus.ClientsAreIndependent | components/rpc-daemon/src/resync_status.rs:99-137 | each client is tracked by its own notices since it was last removed |
| AutoLoad.Policy.ObserveEvent | components/rpc-daemon/src/auto_load/mod.rs:32-59 | the match computes the specified verdict and new state for each kind of event |
| AutoLoad.Policy.FinishLoad | components/rpc-daemon/src/auto_load/mod.rs:67-73 | accepts exactly the attempt that is loading, once |
| AutoLoad.VerdictsAreExact | components/rpc-daemon/src/auto_load/mod.rs:32-59 | in every run of an enabled policy the verdict is a start, numbered by the starts before it modulo 2^64, exactly for a not-loaded process that nothing has touched since it was last forgotten; the event is suppressed exactly for one whose load is outstanding; and otherwise published |
| AutoLoad.LoadingExactly | components/rpc-daemon/src/auto_load/mod.rs:32-77 | a process counts as loading exactly while a start of it is not superseded |
| AutoLoad.DisabledPublishes | components/rpc-daemon/src/auto_load/mod.rs:32-35 | switched off, every event is published |
| AutoLoad.StartsOncePerLife | components/rpc-daemon/src/auto_load/mod.rs:32-50 | between two starts of a process it was forgotten |
| AutoLoad.FinishedWasStarted | components/rpc-daemon/src/auto_load/mod.rs:67-73 | an accepted finish belongs to a start that nothing has superseded since |
| AutoLoad.AcceptedExactlyWhenCurrent | components/rpc-daemon/src/auto_load/mod.rs:32-77 | a report is accepted if and only if its attempt was started for that process and nothing has superseded it since |
| AutoLoad.FreshProcessesAreStarted | components/rpc-daemon/src/auto_load/mod.rs:38-50 | a process reported as not loaded is started if nothing has touched it since it was last forgotten |
| AutoLoad.FinishesOnce | components/rpc-daemon/src/auto_load/mod.rs:67-73 | an attempt is finished at most once |
| AutoLoad.StaleAttemptsAreRejected | components/rpc-daemon/src/auto_load/mod.rs:61-77 | a superseded attempt is turned away even after a restart, for fewer than 2^64 attempts |
| AutoLoad.DisabledDoesNothing | components/rpc-daemon/src/auto_load/mod.rs:32-35 | switched off, nothing is started or accepted |
| SlotTheorems.RunKeepsInv | components/rpc-dll/src/transfer_slot.rs:29-62 | every interleaving of producers, consumers and discarders keeps exclusion, the copied words and the buffer history |
| SlotTheorems.OneThreadInside | components/rpc-dll/src/transfer_slot.rs:29-52 | never two threads in the WRITING or READING section |
| SlotTheorems.OperationsSucceedWhenTheyShould | components/rpc-dll/src/transfer_slot.rs:29-52 | taking succeeds exactly on a full buffer, writing exactly on an empty one with nothing under way |
| SlotTheorems.ReturnedValuesAreWhole | components/rpc-dll/src/transfer_slot.rs:43-52 | a taken value is word for word an accepted one |
| SlotTheorems.AcceptedWereOffered | components/rpc-dll/src/transfer_slot.rs:29-41 | the accepted values are values that threads set out to write, each from a write of its own, in the order of those writes |
| SlotTheorems.DiscardingEmpties | components/rpc-dll/src/transfer_slot.rs:54-62 | discarding, or resetting with no thread inside, leaves the buffer empty |
| SlotTheorems.RemovedAtMostOnce | components/rpc-dll/src/transfer_slot.rs:43-58 | an accepted value is taken or discarded at most once, never both |
| TransferSlot.TransferSlot.TryWrite | components/rpc-dll/src/transfer_slot.rs:29-41 | for one thread: succeeds exactly on an empty slot, which then holds the value |
| TransferSlot.TransferSlot.TryTake | components/rpc-dll/src/transfer_slot.rs:43-52 | for one thread: yields the contents and empties the slot |
| DialogTheorems.RunIsSound | components/rpc-dll/src/message_dialog.rs:252-279 | after any run the stored panes are the last scan's, changed or not, and names are traced to their place |
| DialogTheorems.IdsStayDistinct | components/rpc-dll/src/message_dialog.rs:252-279 | the names in use are distinct |
| DialogTheorems.SurvivorsKeepTheirNames | components/rpc-dll/src/message_dialog.rs:258-270 | a pane seen twice running keeps its name and shows its latest text |
| DialogTheorems.RevisionMarksChange | components/rpc-dll/src/message_dialog.rs:271-278 | in every run: a new revision exactly when the visible list differs, exactly when the scan sees other panes or texts than the one before; the revision counts those differences |
| DialogTheorems.DismissalActsOnTheNamedPane | components/rpc-dll/src/message_dialog.rs:173-183 | dismissing acts on exactly the pane of the last scan that shows the named dialog of the current revision, and on no pane outside that scan |
| MessageDialogs.Events.Push | components/rpc-dll/src/message_dialog.rs:117-124 | the first free slot takes the observation; none is disturbed if all are full |
| MessageDialogs.Events.Take | components/rpc-dll/src/message_dialog.rs:206-208 | yields and empties that slot only |
| MessageDialogs.Events.Release | components/rpc-dll/src/message_dialog.rs:210-214 | empties that slot only |
| MessageDialogs.Observer.Refresh | components/rpc-dll/src/message_dialog.rs:252-279 | the array-filling loop stores the specified next state and offers it in the first free slot, or changes nothing visible |
| MessageDialogs.Observer.Dismiss | components/rpc-dll/src/message_dialog.rs:173-204 | closes the named pane if it is still shown, stores and offers what the scan shows then and answers with its slot; each refusal has its own failure and changes nothing |
| HeartbeatPriority.PriorityQueue.Push | components/rpc-dll/src/heartbeat_priority.rs:29-36 | appends unless the table is full |
| HeartbeatPriority.PriorityQueue.Remove | components/rpc-dll/src/heartbeat_priority.rs:38-45 | the in-place shift removes exactly that entry and keeps the rest in order and together |
| HeartbeatPriority.PriorityQueue.PopFor | components/rpc-dll/src/heartbeat_priority.rs:47-52 | takes the first entry for the queue, if any |
| HeartbeatPriority.PriorityQueue.HasFor | components/rpc-dll/src/heartbeat_priority.rs:54-58 | says whether popping would find one |
| HeartbeatPriority.PriorityQueue.PushAndSignal | components/rpc-dll/src/heartbeat_priority.rs:73-89 | a failed signal restores every slot as it was |
| HeartbeatPriority.PopTakesTheHead | components/rpc-dll/src/heartbeat_priority.rs:47-52 | a pop takes the head of its own queue's list and leaves every other list |
| HeartbeatPriority.EachQueueIsFifo | components/rpc-dll/src/heartbeat_priority.rs:29-92 | in every run, what was popped for a queue and then what is stored for it is what was accepted for it, in order, and at most eight are stored |

## Left out

- Weak memory effects: every atomic access is one sequentially consistent step.
- Win32 calls, pipes, threads, HTTP, tracing and process creation: only their success or failure and the data they return appear, as parameters or as arbitrary choices.
- The addresses of the 32-bit client and loader are 32-bit words; sizes on a 64-bit loader are not considered.
- Error messages: errors keep their kind, not their text.
- In the look lane, resolving a requested target to a tile and submitting the packet: one-branch facts around the modelled protocol.
- LookTheorems.EveryRequestIsSettled: allows a request to be lost to a reset, because the code does; `LookResets` says exactly when and how a caller avoids it.
- In the PE parsers, memory that changes while it is read: the reader is a function of address and size.
- PeAgreement.ParsersAgreeUnlessRebound: says nothing about a library whose export tables or identifying header fields were themselves rewritten, nor about inputs that one parser accepts and the other refuses, because their limits differ on purpose.
- CommandLine.TailRoundTrip: the standard parser is written out from Microsoft's documented rules for CommandLineToArgvW and the C runtime, with the three known readings of two quotes in a row; wild-card expansion is not part of it.
- CodeEmission.StubReachesEncryption: the processor model knows only the instructions the loader emits, and takes the client's reset routine as any routine that returns with its stack balanced and leaves the stub alone.
- The four ground-item stub bodies: each is an arbitrary function of image base, stub and state address; the relocations inside the templates are not modelled.
- LaunchTarget.Target.WriteCode: page protection appears only through the calls that may fail, not as state.
- LaunchPatch.Apply: that it succeeds is stated for a target on which no operation on committed memory fails and no allocation is refused; which of the system's calls fail is not modelled.
- LaunchRun.Run: attaching the library is an outcome; what it does to the child's memory is not modelled.
- Validation of the executable path, and the client's command line as the operating system receives it beyond the printed line.
- MonitorReference.CallersAreToldWhatTheyAreOwed: the results of commands and of diagnostics queries are one kind of reply.
- MonitorLoop.RunMonitor: connecting, retrying and validating a client's identity happen before the modelled session; the calls still queued when it ends are not part of it.
- ClientRoster.ClientRoster.Reconcile: what the registry answers for each process is an input, and the order in which processes are visited is left open.
- ResyncStatus.ResyncTrackers: each client's tracker is a value in the map, updated by replacement.
- MessageDialogs.Observer.Refresh: scanning for panes and reading their text are inputs; a text counts as changed when any byte of its buffer is, as the code compares buffers.
- DialogTheorems.RunIsSound: supposes distinct nonzero panes in each scan and fewer names than a whole cycle of numbers.
- SlotTheorems.RunKeepsInv: resetting is allowed only while no thread is inside, which is what its callers see to.
- Daemon view types, wire codecs, option parsing and output rendering, log rotation and the small standalone counters: they would add only one-branch facts.
