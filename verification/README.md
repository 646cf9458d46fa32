# Verified models of the gate and publication scripts

This project models the fault-tolerant parts of the repository in Dafny and proves what they keep:
protocols over a shared directory, publication transactions with rollback, a bounded child process, an
optimistic file read, admission gates, archive extraction with generated link wrappers, and the
parsers, encodings and checked folds around the evidence and quality gates. To check everything:

    dafny verify dfyconfig.toml

One module models one component:

| module | component |
|---|---|
| `PairPublication`, `PairProgress` | N publishers of an artifact pair in one directory: lock, stage, link, clean up, roll back; and that one left alone succeeds |
| `BaselinePublication` | the five-file publish transaction, manifest last behind a sync barrier, with reverse rollback |
| `ManifestPublication`, `CandidateAttestation` | the two-file manifest publish and the commit-graph attestation above it |
| `StableSnapshot` | the snapshot of one file between two identical stat identities, against any writer |
| `BoundedProcess` | the bounded child process: two pipes, a signal and reap protocol, descriptor cleanup |
| `Admission` | zero-waiter gates, per principal and per request |
| `PathText`, `TarWrappers` | member names, link resolution, and the path functions of the generated wrapper |
| `TarExtraction`, `TarRuntime` | the two-pass extraction with wrapper materialisation, and what a wrapper executes |
| `Inventory` | the worklist inventory of a mutation workspace |
| `TreePreimage`, `TreeScan` | the byte streams of the two tree digests, and the Pyright package scanner |
| `JsonShape`, `Porcelain`, `MutationResults` | the JSON shape budget, the Git status recogniser, mutation accounting |
| `Custody`, `Release` | receipt verification against a replay registry, and the release decision |

Common modelling choices:

- A system call that raises has no effect. `rename`, `link` and exclusive `open` are atomic, `fstat` on an
  open descriptor does not fail, and an inode that is open or named is not reused. Which calls fail is a
  function of the call number (`fails`) or a choice at each step, so every theorem covers every fault
  pattern. A helper that only reads, or only prepares private files, counts as one call.
- Digests are the value they were taken from, or an uninterpreted function with the collision freedom
  that is needed stated as a condition on the values at hand.
- Bytes are characters below 256, so that the path functions of `PathText` apply to encoded paths.
- A check of evidence in the local checkout (`localCheck`) is a deterministic function of the reference and
  its context, and the bounded child's own return code is passed through without a meaning and is left out.
- Concurrent components are state machines over their steps. Components that update variables, lists or
  the file system in place are methods, and classes hold the state that outlives one call.

Where the code does less than its surroundings suggest, the model follows the code and says exactly when
the property holds:

- `BoundedProcess.BoundedRun.Run`: a pipe end that was opened is never closed exactly when the second pipe
  cannot be created or the spawn raises something other than `OSError` (then all opened so far), when its
  own close fails, or when the final clean-up finds the leader unreaped and its kill, reap or wait fails
  (then every read end still open). The history of all calls is part of the result, and each of these is
  stated on it and on the calls that fail.
- `BaselinePublication.Rollback`: manifest-last order, seen in memory, survives a rollback exactly when the
  manifest was not replaced, its own restore did not fail, or no restore succeeded. Against a crash in the
  middle of the rollback, every state is safe exactly when the manifest was not replaced or the restore of
  every fixture failed. Which restores fail (`FailedRestores`), and for publishable outputs how many files
  were replaced and at which call the rollback begins (`ForwardRun`), are functions of the calls that fail.
  `RollbackRunIsNotCrashSafe` is a successful rollback that passes an unsafe state, for every publishable
  input, when only the final validation fails.
- `ManifestPublication.UndoneFiles`: a rollback restores the directory's contents, and its modes exactly
  when the manifest was not replaced or had mode 0644. `UndoneModeCanDiffer` is a run on every attestable
  directory, and `PrivateManifestLosesItsMode` one on a directory whose manifest has mode 0600.
- `CandidateAttestation.AnyDescribingArchiveIsAccepted`: the verification does not compare the archived
  manifest with the one in the candidate's own tree; it accepts exactly the archives that describe the
  candidate's fixtures (`VerifyAcceptsExactly`).
- `PairPublication.SuccessIsComplete`: an `os.close` that raises ends the call with an exception and leaves
  the later descriptors open; if the publication was complete by then, both targets stay in place.
- `TarRuntime.ExecutedNodeIsChecked`: the interpreter that a wrapper executes is the one that was checked
  exactly when the link is in `bin` of its top-level entry (`LinkOutsideBinHasNoInterpreter` are accepted
  archives whose wrapper executes a path that the archive does not have).
- `TarRuntime.EmbeddedTargetIsReviewed`: the text a wrapper embeds is the reviewed one exactly when the path
  is declared for it under its joined name too, which only a name with a trailing slash can fail
  (`AmbiguousDeclarationRunsAnotherFile` are accepted archives whose wrapper runs another file).
- `Inventory.WorkspaceFileInventory`: the workspace's own descriptor, which is not yet on the worklist, is
  lost when the second path lookup after the open raises.
- `Inventory.InventoryIsTheTree`: only a directory named `.git` is skipped; a top-level regular file of that
  name is listed.

## Model

| member | source | states |
|---|---|---|
| `PairPublication.LegalKeepsPartition` | scripts/build_asvs_matrix.py:2553-2582 | a step that only adds free names and inodes and only removes what it holds keeps the directory partitioned: the entries whose inode a publisher created are exactly those it holds |
| `PairPublication.ActIsSound` | scripts/build_asvs_matrix.py:2527-2757 | every system call of a publisher, with or without a failure, from any point of the protocol, gives that guarantee and leads to the next point's local invariant; a raising close ends the cleanup and leaves the remaining descriptors open |
| `PairPublication.StepKeepsInvariant` | scripts/build_asvs_matrix.py:2616-2757 | one step of any publisher keeps the whole invariant of all publishers |
| `PairPublication.ExecutionKeepsInvariant` | scripts/build_asvs_matrix.py:2616-2757 | the invariant holds in every state of every interleaving |
| `PairPublication.ForwardKeepsInodes` | scripts/build_asvs_matrix.py:2654-2757 | until a publication fails, its staged inodes are its own and cannot be recycled, because a descriptor or a name pins them |
| `PairPublication.ForeignEntriesAreUntouched` | scripts/build_asvs_matrix.py:2553-2651 | no step removes, rebinds or writes an entry whose inode the moving publisher did not create, locks of others included, even in a rollback after the unlock |
| `PairPublication.EarlierFilesSurvive` | scripts/build_asvs_matrix.py:2654-2757 | files present before the publishers keep name, inode and bytes through every run |
| `PairPublication.SuccessIsComplete` | scripts/build_asvs_matrix.py:2654-2757 | a publisher that returned, or that raised only from closing a descriptor after a complete publication, has exactly its two targets, each with link count one and the requested bytes, and no temporary or lock |
| `PairPublication.FailureLeavesNothing` | scripts/build_asvs_matrix.py:2616-2640 | a publisher that rolled back leaves no entry except leaked names, even if a close raised afterwards |
| `PairPublication.OnlyFailuresLeak` | scripts/build_asvs_matrix.py:2553-2571 | a step leaks a name exactly when it is a rollback call on that name that fails, and a leaked name stays leaked |
| `PairPublication.LeakedMeansFailed` | scripts/build_asvs_matrix.py:2553-2640 | in every execution a name is leaked if and only if an earlier rollback call on it failed |
| `PairPublication.CleanRollbackLeavesNothing` | scripts/build_asvs_matrix.py:2616-2640 | a rollback none of whose own calls failed leaves none of the entries its publisher made: no target, no temporary, no lock |
| `PairProgress.StepAdvances` | scripts/build_asvs_matrix.py:2527-2757 | with a free way ahead, every step that is no failure, a short write included, keeps the publication on course and lowers a bound on the steps left: no check of its own stops it |
| `PairProgress.SoloRunStaysOnCourse` | scripts/build_asvs_matrix.py:2527-2757 | a publisher that runs alone and unfailing never fails, and each step brings it nearer its end or finds it done |
| `PairProgress.CooperationIsPossible` | scripts/build_asvs_matrix.py:2527-2757 | at every point some choice of the environment is no failure, so such a run can always go on |
| `PairProgress.UndisturbedPublisherSucceeds` | scripts/build_asvs_matrix.py:2527-2757 | from every state that keeps the invariant and in which its remaining names are free, every solo run without a failure that has as many steps as calls and bytes are left ends in success |
| `PairProgress.SuccessMeansNoFault` | scripts/build_asvs_matrix.py:2654-2757 | a publication that has not failed made no failing call: every failing call of the `try` body leads to a rollback |
| `PairProgress.EveryStageIsLeft` | scripts/build_asvs_matrix.py:2654-2757 | a publication that has got anywhere went through every earlier step in order: no write, sync, check, link or removal is skipped |
| `PairProgress.RollbackAdvances` | scripts/build_asvs_matrix.py:2616-2651 | every call of a rollback, failed or not, brings it nearer its end |
| `PairProgress.RollbackEnds` | scripts/build_asvs_matrix.py:2616-2757 | in every execution, whatever the others do and whatever fails, a rollback is over after a bounded number of its own moves |
| `PairPublication.LockIsExclusive` | scripts/build_asvs_matrix.py:2654-2757 | at most one publisher is between taking and releasing the lock |
| `BaselinePublication.PublicationStates` | scripts/baseline_capture_io.py:2440-2456 | accepts only the five expected outputs over a directory of at most those regular files, and records their state |
| `BaselinePublication.StagePublication` | scripts/baseline_capture_io.py:2458-2479 | every output is staged with its bytes and every existing destination has a faithful backup |
| `BaselinePublication.BarrierGivesCrashSafety` | scripts/baseline_capture_io.py:2481-2497 | while the manifest is not renamed, or all fixtures are durable, no persisted subset of the pending updates shows the new manifest without the new fixtures |
| `BaselinePublication.PublishOne` | scripts/baseline_capture_io.py:2481-2497 | one replacement keeps the prefix of new files and the barrier, and every disk state it passes through is crash-safe |
| `BaselinePublication.PublishStaged` | scripts/baseline_capture_io.py:2481-2497 | in every forward run, stopped by a fault anywhere, the replaced files are a prefix in order and every intermediate disk state is crash-safe; success leaves everything durable |
| `BaselinePublication.RestoreDestination` | scripts/baseline_capture_io.py:2499-2515 | restores the backup or absence of one destination, or fails and changes nothing; it fails exactly when its rename, or its check or unlink, does |
| `BaselinePublication.UnwoundOrder` | scripts/baseline_capture_io.py:2517-2534 | during the unwinding, manifest-last order holds exactly when the manifest is back, was never replaced, or nothing was restored |
| `BaselinePublication.RestoreAll` | scripts/baseline_capture_io.py:2517-2528 | restores in reverse and goes on after a failure: the outputs whose restore failed are exactly those whose own calls fail, visited downwards from the first call; keeps the account of order and crash safety over the whole trace |
| `BaselinePublication.Rollback` | scripts/baseline_capture_io.py:2517-2534 | reports an error exactly when one of its calls failed, leaves every destination restored except exactly those whose own restore call fails, keeps manifest-last order exactly under the stated condition, and passes only crash-safe states exactly when the manifest was not replaced or every fixture's restore failed |
| `BaselinePublication.UnwindingIsSafeExactly` | scripts/baseline_capture_io.py:2517-2534 | with the new fixtures durable and the new manifest durable or pending, a state of the unwinding is crash-safe exactly when no pending update names a fixture |
| `BaselinePublication.RollbackRunIsNotCrashSafe` | scripts/baseline_capture_io.py:2517-2577 | for every publishable input, the run in which only the final validation fails rolls back completely and passes a state that is not crash-safe |
| `BaselinePublication.RestoredFiles` | scripts/baseline_capture_io.py:2517-2534 | a destination is new exactly when its restore failed, otherwise it is the original file in existence, bytes and mode |
| `BaselinePublication.FaultDecides` | scripts/baseline_capture_io.py:2458-2497 | a first fault at any call of the forward run stops it there, and the number of replaced files follows from the place |
| `BaselinePublication.Transact` | scripts/baseline_capture_io.py:2537-2577 | staging, renaming and, on a fault, rolling back; where it stops, what was replaced and which restores fail are given by the calls that fail |
| `BaselinePublication.PublishOutputBytes` | scripts/baseline_capture_io.py:2537-2577 | the whole transaction: all five published and durable, or refused untouched, or rolled back to the original files, or a rollback failure that leaves new exactly the files whose own restore call fails; files not yet replaced are untouched in every state on the way; for publishable outputs the first failing call decides: none in the whole forward run means published, the first of all refused, any other a rollback that begins right after it with the files replaced by then; the states before it are crash-safe, those of the rollback exactly under the stated condition |
| `ManifestPublication.ReplacePair` | scripts/capture_baseline.py:529-544 | archives first and activates second; every directory state on the way has the archive beside an active version 4 manifest |
| `ManifestPublication.RollBack` | scripts/capture_baseline.py:545-557 | undoes exactly what was published, and fails partially only in ways that keep the archive beside the active manifest |
| `ManifestPublication.CommitPair` | scripts/capture_baseline.py:529-557 | published exactly when the pair is valid and none of the four calls fails, otherwise rolled back, or a failed rollback after at least two faults; in all of them every state keeps the archive that the active manifest digests |
| `ManifestPublication.UndoneFiles` | scripts/capture_baseline.py:545-557 | a rolled-back directory has the original contents, and the original modes if and only if the manifest was not replaced or had mode 0644 |
| `ManifestPublication.UndoneModeCanDiffer` | scripts/capture_baseline.py:493-557 | on every attestable directory, the run in which only the last validation fails rolls back all contents, and the modes if and only if the manifest had mode 0644 |
| `ManifestPublication.PrivateManifestLosesItsMode` | scripts/capture_baseline.py:493-557 | on a valid one-case directory whose manifest has mode 0600 that run leaves other modes than it found |
| `ManifestPublication.StageManifests` | scripts/capture_baseline.py:493-528 | goes on to the renames exactly when the manifest is there, the archive is not, the preview is valid and no call fails |
| `ManifestPublication.PublishCommittedManifests` | scripts/capture_baseline.py:493-557 | the whole publish: refused untouched, published, rolled back or failed, with the archive invariant at every step; for an attestable directory each of refusal, publication and replacement is equivalent to a condition on which calls fail, and one fault alone never leaves a failed rollback |
| `ManifestPublication.BuiltManifestIsAttestable` | scripts/capture_baseline.py:458-490 | the manifest built from any valid version 3 directory makes a valid pair with it |
| `CandidateAttestation.WrittenDirectory` | scripts/capture_baseline.py:560-582 | writing turns a valid version 3 directory into a valid committed directory with the old manifest archived unchanged |
| `CandidateAttestation.ValidV3Exactly` | scripts/capture_baseline.py:231-295 | a version 3 manifest is valid exactly when its recorded trees agree, its tools are the eight, its cases are exactly the keys of three case files that share none, and each entry is the digest of the fixture that the tree holds |
| `CandidateAttestation.CommittedExactly` | scripts/capture_baseline.py:342-408 | a committed directory is valid exactly when it holds the six files, its archive describes the fixtures, and the active manifest digests the archive and the fixtures and lists the same cases |
| `CandidateAttestation.WriteAcceptsExactly` | scripts/capture_baseline.py:298-318 | the write succeeds exactly on a clean tree with the five files whose manifest describes the fixtures, digests included |
| `CandidateAttestation.VerifyAcceptsExactly` | scripts/capture_baseline.py:611-662 | HEAD is accepted exactly under conditions on its tree, its manifests' fields, its parent and the paths where the two trees disagree |
| `CandidateAttestation.AttestedFixturesAreTheCandidates` | scripts/capture_baseline.py:611-662 | the archived manifest of an accepted HEAD, and the active one, digest the fixtures that the candidate's own tree holds |
| `CandidateAttestation.AnyDescribingArchiveIsAccepted` | scripts/capture_baseline.py:342-408 | any version 3 manifest that describes the candidate's fixtures is accepted as the archive |
| `CandidateAttestation.AttestationIsSound` | scripts/capture_baseline.py:611-662 | an accepted HEAD is the single child of the named candidate, agrees with it outside the two manifest paths, and its digests are those of the candidate's fixtures |
| `CandidateAttestation.AttestationIsComplete` | scripts/capture_baseline.py:560-662 | writing on a clean valid commit succeeds, and committing it as the only child is accepted |
| `CandidateAttestation.SecondWriteIsRejected` | scripts/capture_baseline.py:298-318 | a second write is rejected, before and after the commit |
| `StableSnapshot.UnchangedOrStamped` | scripts/baseline_capture_io.py:363-372 | over any interval a file is unchanged or carries a later change stamp |
| `StableSnapshot.EqualIdentityMeansUnchanged` | scripts/baseline_capture_io.py:363-372 | equal stat identities at two times mean that nothing changed in between |
| `StableSnapshot.SnapshotRegularFile` | scripts/baseline_capture_io.py:500-554 | against any writer, an accepted snapshot is the complete contents of the one version present from the first to the last look, with every call and read in between, despite short reads; without a writer exactly a suitable file is accepted |
| `StableSnapshot.ReadChunks` | scripts/baseline_capture_io.py:525-533 | reads in bounded chunks, never more than one byte over the maximum; of an unchanged file it is the whole contents |
| `BoundedProcess.BoundedRun.ReadPipe` | scripts/baseline_capture_io.py:1286-1297 | a read extends the buffer within its limit, or reports the end, an overflow or an error |
| `BoundedProcess.BoundedRun.DrainProcessPipes` | scripts/baseline_capture_io.py:1300-1320 | the loop terminates on remaining capacity, buffers never pass limit plus one, success means both streams are complete, and it gives up only at a call that failed, that found nothing to read or that read too much |
| `BoundedProcess.BoundedRun.KillProcessGroup` | scripts/baseline_capture_io.py:1223-1239 | the group is signalled only while its leader is unreaped, then reaped and awaited, stopping at the first call that fails |
| `BoundedProcess.BoundedRun.FinishProcessGroup` | scripts/baseline_capture_io.py:1261-1275 | waits, kills, reaps and waits for the group, stopping at the first call that fails; on success the leader is reaped and the group gone |
| `BoundedProcess.BoundedRun.CloseDescriptors` | scripts/baseline_capture_io.py:1323-1328 | every descriptor is tried in turn, one call each, and each is closed once exactly unless its own close failed |
| `BoundedProcess.BoundedRun.CleanUp` | scripts/baseline_capture_io.py:1375-1378 | kills, reaps and waits exactly if the leader is unreaped, and closes every pipe still open exactly unless one of these calls failed |
| `BoundedProcess.BoundedRun.Supervise` | scripts/baseline_capture_io.py:1371-1378 | everything after the spawn: the calls of each phase follow from the calls that fail, and the phases decide the outcome |
| `BoundedProcess.GroupIsKilled` | scripts/baseline_capture_io.py:1223-1378 | whatever fails, a supervised run signals the group before it is over |
| `BoundedProcess.CleanupFailsExactly` | scripts/baseline_capture_io.py:1223-1378 | the clean-up fails exactly if the leader is unreaped by then and its kill, reap or wait fails |
| `BoundedProcess.BoundedRun.Run` | scripts/baseline_capture_io.py:1331-1383 | over every path the history of calls is what the calls that fail make it: the drain loop, the orderly end if that drained, the clean-up if the leader is unreaped, the last closes unless that failed; the group of every started child is signalled, and before the reap; each cause of a raise and the normal return are equivalent to conditions on the inputs and these calls; each opened pipe end is closed exactly once or is lost, and the lost ones are given exactly; a normal return means reaped, group gone and complete outputs within limits; an undisturbed run whose output fits returns |
| `Admission.AdmissionGate.TryAcquirePermit` | src/nplg_mcp/admission.py:38-44 | takes a permit exactly below capacity |
| `Admission.AdmissionGate.ReleasePermit` | src/nplg_mcp/admission.py:46-52 | returns a permit, and raises exactly when none is held |
| `Admission.PrincipalAdmission.TryAcquireFor` | src/nplg_mcp/admission.py:69-75 | changes only the named principal's gate, and raises exactly for an unknown one |
| `Admission.PrincipalAdmission.ReleaseFor` | src/nplg_mcp/admission.py:77-83 | changes only the named principal's gate, and raises exactly for an unknown or idle one |
| `Admission.StepBalances` | src/nplg_mcp/admission.py:96-121 | one request step changes its own gate by exactly the change of its admission, and the release never raises |
| `Admission.PermitsAreConserved` | src/nplg_mcp/admission.py:19-121 | in every interleaving the active count is the number of admitted unfinished requests and never exceeds capacity |
| `Admission.RefusedOnlyAtCapacity` | src/nplg_mcp/admission.py:96-121 | a guarded arrival is refused exactly when the gate is full, otherwise admitted |
| `Admission.QuiescenceReturnsAllPermits` | src/nplg_mcp/admission.py:46-121 | in every interleaving, with no admitted request left every permit is back |
| `Admission.ArrivalIsDecided` | src/nplg_mcp/admission.py:96-117 | what an arrival becomes, by its scope: it bypasses the gate unless it is HTTP below the prefix, otherwise it takes a permit below capacity and is refused at capacity; nothing else changes |
| `Admission.EndReturnsThePermit` | src/nplg_mcp/admission.py:118-121 | however an admitted request ends, normally or by an exception, exactly one permit of its own gate comes back and the request is over |
| `Admission.EndTouchesNoGate` | src/nplg_mcp/admission.py:101-117 | a refused or bypassing request ends without touching a gate |
| `Admission.EndedIsOver` | src/nplg_mcp/admission.py:96-121 | in every interleaving a request that ended after it arrived stays over |
| `Admission.FinishedRequestsReturnAllPermits` | src/nplg_mcp/admission.py:38-121 | in every interleaving, once every request of a principal that arrived has ended, however it ended, none of its permits is held |
| `Admission.PrincipalsAreIsolated` | src/nplg_mcp/admission.py:55-83 | two runs with the same moves of one principal agree on that principal whatever the others do |
| `PathText.NormPathBelow` | scripts/bootstrap_toolchain.py:878-905 | `normpath(join(dir, target))` below a clean absolute directory is the component-by-component normalisation of the target from that directory |
| `TarWrappers.SafeNamesAreClean` | scripts/bootstrap_toolchain.py:705-720 | accepted names are clean components, spelled with or without one trailing slash |
| `TarWrappers.SafeNameRoundTrip` | scripts/bootstrap_toolchain.py:705-720 | every list of safe components is read back from its joined name |
| `TarWrappers.ResolveWrapperTarget` | scripts/bootstrap_toolchain.py:791-813 | the stack loop computes the resolution function, errors included |
| `TarWrappers.WalkAcceptsExactly` | scripts/bootstrap_toolchain.py:791-813 | the stack walk succeeds exactly when every `..` is met at least two levels deep, counting names up and `..` down, and ends at that depth |
| `TarWrappers.ResolveAcceptsExactly` | scripts/bootstrap_toolchain.py:791-813 | a link below its top-level entry is accepted exactly for well-formed targets that stay inside the entry |
| `TarWrappers.WalkIsNormalization` | scripts/bootstrap_toolchain.py:791-813 | a successful stack walk equals path normalisation from any clean base |
| `TarWrappers.ResolutionMeansTheWrapperPath` | scripts/bootstrap_toolchain.py:791-905 | an accepted target resolves to clean components under the link's top-level entry, equal to the path the wrapper computes with `normpath` and `join` |
| `TarExtraction.MakeDirsExactly` | scripts/bootstrap_toolchain.py:864-872 | making directories with their parents succeeds exactly when nothing but directories is in the way, and adds exactly the missing ones |
| `TarExtraction.PutFileExactly` | scripts/bootstrap_toolchain.py:872-875 | an exclusive create below made parents succeeds exactly when the path is free and its way holds only directories, and adds exactly that file and its missing parents |
| `TarExtraction.ExtractRegular` | scripts/bootstrap_toolchain.py:855-875 | a member that is no link is extracted exactly when it is a plain file or directory and no earlier member is in its way; the stage is then that of one more member |
| `TarExtraction.ExtractMember` | scripts/bootstrap_toolchain.py:824-875 | a named member is accepted exactly when a link is declared, reviewed and resolvable, or another member can be extracted |
| `TarExtraction.ExtractMembers` | scripts/bootstrap_toolchain.py:953-967 | the first pass succeeds exactly when every member can follow those before it, and then the stage and the recorded links are exactly those of the members |
| `TarExtraction.WrapperPayload` | scripts/bootstrap_toolchain.py:878-905 | a wrapper is built exactly when its target and the interpreter of its entry are extracted files, its path is free and its joined name is declared, and it embeds the text declared there |
| `TarExtraction.BuildPayloads` | scripts/bootstrap_toolchain.py:922-934 | all payloads are built, before anything is written, exactly when each one can be; their sizes add up |
| `TarExtraction.WriteWrappers` | scripts/bootstrap_toolchain.py:935-938 | the wrappers are all written exactly when each finds its way free and meets no earlier one, and then the stage gains exactly them and their parents |
| `TarExtraction.MaterializeWrappers` | scripts/bootstrap_toolchain.py:908-938 | the second pass succeeds exactly when the declared paths are safe and are the links, no target is a link, every payload can be built, the bytes fit and there is room for every wrapper |
| `TarExtraction.PassesAreExtractable` | scripts/bootstrap_toolchain.py:908-974 | after a successful first pass the second one succeeds exactly for archives whose members are apart, whose links are the declared ones with a regular target and interpreter, and whose bytes fit |
| `TarExtraction.ExtractTar` | scripts/bootstrap_toolchain.py:941-974 | the whole extraction succeeds exactly for those archives; it then leaves exactly the members and the ways to them, each regular member with its size, exactly the declared links as wrappers with a checked target and interpreter, and all bytes within the ceiling |
| `TarRuntime.ExecutedNodeIsChecked` | scripts/bootstrap_toolchain.py:888-905 | the interpreter that a wrapper executes is the checked one if and only if the link is in `bin` of its top-level entry |
| `TarRuntime.ExecutedTargetExactly` | scripts/bootstrap_toolchain.py:895-905 | any embedded text, relative or absolute, whether or not it would resolve, runs a given file if and only if its components lead there |
| `TarRuntime.ExecutedTargetIsChecked` | scripts/bootstrap_toolchain.py:791-905 | an embedded text that resolves runs the checked file if and only if it resolves as the reviewed text does |
| `TarRuntime.EmbeddedTargetIsReviewed` | scripts/bootstrap_toolchain.py:838-938 | for every link of every accepted archive the embedded text is its reviewed link text if and only if both spellings of its path are declared for the same text |
| `TarRuntime.WrapperExecutesTheCheckedFiles` | scripts/bootstrap_toolchain.py:878-974 | for every link of every accepted archive, wherever the stage is: the executed interpreter is the checked file exactly for links in `bin`, and the executed target is the checked file exactly when the embedded text leads there, which it does whenever the declarations agree; both are regular files of the stage |
| `TarRuntime.LinkOutsideBinHasNoInterpreter` | scripts/bootstrap_toolchain.py:878-974 | runs of the extraction that accept a link outside `bin` whose executed interpreter is no path of the stage |
| `TarRuntime.AmbiguousDeclarationRunsAnotherFile` | scripts/bootstrap_toolchain.py:838-974 | runs of the extraction that accept a link declared in both spellings, whose wrapper runs another file than the checked one |
| `Inventory.OpenBoundDirectory` | scripts/run_mutation_gate.py:1685-1702 | succeeds exactly when none of its four calls fails, closes the descriptor again otherwise, and leaks it exactly when the lookup after the open raises |
| `Inventory.OpenBoundChild` | scripts/run_mutation_gate.py:1705-1717 | succeeds exactly when neither of its two calls fails, with one more open descriptor, and otherwise leaves the balance as it was |
| `Inventory.VisitEntry` | scripts/run_mutation_gate.py:1735-1764 | one entry keeps the account of files, entries, calls and descriptors, and fails only for a special or linked entry or a failing call |
| `Inventory.ScanEntry` | scripts/run_mutation_gate.py:1735-1764 | one entry is read, counted and visited; it stops the scan only for a failing call, a bad entry or the ceiling |
| `Inventory.ScanDirectory` | scripts/run_mutation_gate.py:1733-1766 | scans one directory, pushes its children and closes it whatever happens |
| `Inventory.WorkspaceFileInventory` | scripts/run_mutation_gate.py:1724-1770 | terminates; succeeds exactly when all entries are plain, they are within the ceiling and none of the calls the whole walk takes fails, and then with exactly the tree's files; every descriptor is closed exactly once except the stated one |
| `Inventory.InventoryIsTheTree` | scripts/run_mutation_gate.py:1747-1763 | the result is exactly the joined paths of regular files outside a top-level `.git` directory |
| `TreePreimage.ValueOfBigEndian` | scripts/pyright_identity.py:344-346 | a big-endian number of any width is read back |
| `TreePreimage.RecordRoundTrip` | scripts/pyright_identity.py:344-347 | a record with length-prefixed path, size and digest is decoded from the front of any stream |
| `TreePreimage.DecodeEncode` | scripts/pyright_identity.py:340-347 | the stream of any encodable record list decodes to that list |
| `TreePreimage.EqualStreamsEqualRecords` | scripts/pyright_identity.py:340-347 | equal streams mean equal record lists |
| `TreePreimage.ParsePrint` | scripts/verify_pep561.py:368-392 | the stream of directory and file members parses back to them |
| `TreePreimage.EqualStreamsEqualMembers` | scripts/verify_pep561.py:365-393 | equal streams mean equal member lists |
| `TreePreimage.FeedMembers` | scripts/verify_pep561.py:365-393 | the loop feeds exactly the domain and the printed members |
| `TreeScan.TreeScanner.VisitFile` | scripts/pyright_identity.py:208-243 | records one file exactly when it is a bounded single link, within both package limits, and its call does not fail |
| `TreeScan.TreeScanner.Visit` | scripts/pyright_identity.py:136-206 | a directory's files are appended exactly; the visit succeeds exactly when everything is admissible and within limits and none of its calls fails |
| `TreeScan.TreeScanner.RelativePath` | scripts/pyright_identity.py:105-117 | accepts a name exactly when it is not empty, has no slash and no NUL, and its path is within 4096 bytes |
| `TreeScan.TreeScanner.Scan` | scripts/pyright_identity.py:127-134 | succeeds exactly when the tree is admissible, within limits and no call fails; the sorted records are then exactly the tree's files and the byte total is the sum of their sizes |
| `TreeScan.SortIsSorted` | scripts/pyright_identity.py:134-134 | sorting by path orders the records and keeps them all |
| `TreeScan.FilesAreTheTree` | scripts/pyright_identity.py:136-206 | the walk finds exactly the regular files reachable by path components |
| `TreeScan.TreeIdentity` | scripts/pyright_identity.py:338-348 | the loop feeds the domain and the encoded records and returns their number and total size |
| `TreeScan.PreimageIdentifiesTree` | scripts/pyright_identity.py:322-348 | two readable trees feed the same bytes exactly when they hold the same files, in whatever order directories list them |
| `JsonShape.ValidateJsonSequence` | scripts/build_asvs_matrix.py:2206-2212 | the list loop with its early exits accepts exactly the fitting children and counts them |
| `JsonShape.ValidateJsonMapping` | scripts/build_asvs_matrix.py:2215-2222 | the same for members, keys counted |
| `JsonShape.ValidateJsonShape` | scripts/build_asvs_matrix.py:2225-2246 | accepts exactly when every node is at depth at most 32, integers are interoperable, strings are at most 65,536 bytes in UTF-8, nothing is unsupported and there are at most 100,000 nodes; returns that number |
| `JsonShape.WidthIsEncodedLength` | scripts/build_asvs_matrix.py:2236-2239 | the width of a character is the length of its UTF-8 bytes, which its lead byte announces and which spell it |
| `JsonShape.LengthIsEncodedLength` | scripts/build_asvs_matrix.py:2236-2239 | the measured length of a string is the length of its UTF-8 encoding |
| `Porcelain.PrintIsInjective` | scripts/run_quality_gate.py:151-209 | printing lists of valid entries is injective |
| `Porcelain.ReadIsSound` | scripts/run_quality_gate.py:178-208 | fields that are read spell valid entries and print back to themselves |
| `Porcelain.ReadIsComplete` | scripts/run_quality_gate.py:178-208 | the fields of any valid entries are read as those entries |
| `Porcelain.ReadFields` | scripts/run_quality_gate.py:178-208 | the index loop accepts exactly the readable field lists |
| `Porcelain.ParsePorcelainStatus` | scripts/run_quality_gate.py:151-209 | accepts exactly the printed forms of valid entry lists within 8 MiB, and is clean exactly for the empty list |
| `MutationResults.ParseTargetMutants` | scripts/run_mutation_gate.py:1388-1440 | accepts a target exactly when its rows are valid, new and supported, and counts sets of mutants |
| `MutationResults.ReadRow` | scripts/run_mutation_gate.py:1403-1431 | one result is refused, left out or counted exactly by its name, function, target and status |
| `MutationResults.ValidateTargetSupport` | scripts/run_mutation_gate.py:1345-1385 | accepts exactly a duration for every executed mutant, an estimate for every selected one, a well-formed hash for every generated function, and finite measures within a day |
| `MutationResults.AfterLastDotExactly` | scripts/run_mutation_gate.py:1417-1417 | the local name is the part after the last dot |
| `MutationResults.BatchesAdd` | scripts/run_mutation_gate.py:1466-1468 | with distinct names the selected and killed mutants of two batches add up |
| `MutationResults.ParseMutationResults` | scripts/run_mutation_gate.py:1443-1479 | accepts exactly the acceptable results, with totals equal to the sizes of the sets of selected and killed mutants |
| `MutationResults.AcceptedResultsConserve` | scripts/run_mutation_gate.py:1443-1479 | total is the sum over targets and over functions, the functions counted are exactly the required ones with at least one mutant each, killed is at most total, and the 65 percent floor holds |
| `Custody.ReplayRegistry.Accept` | scripts/build_asvs_matrix.py:1488-1493 | accepts first use or reuse for the same subject, and never rebinds a nonce |
| `Custody.VerifyCustodiedEvidence` | scripts/build_asvs_matrix.py:3155-3206 | succeeds exactly when the one authority named gives a receipt that endorses the claim and whose nonce is unused or stands for its subject; it then records that nonce, and otherwise changes nothing |
| `Custody.BindsIsEndorses` | scripts/build_asvs_matrix.py:3173-3202 | a receipt binds exactly when each of its fields is the field of reference or context it must be, its decision fits the risk, and the time is within its validity |
| `Custody.BoundExactly` | scripts/build_asvs_matrix.py:3155-3202 | the receipt that reaches the registry is exactly the one that the only authority with the named identifier gives and that endorses the claim |
| `Custody.NonceMeansOneSubject` | scripts/build_asvs_matrix.py:3127-3206 | over any sequence of verifications, accepted receipts with one nonce carry one subject, the one both claims demanded |
| `Release.VerifyReference` | scripts/build_asvs_matrix.py:3345-3362 | decides a reference once and for all: no later registry use changes the answer |
| `Release.CitationBlockers` | scripts/build_asvs_matrix.py:1719-1833 | the codes of a citation in their order, now and against every later registry: each is given exactly for its own condition |
| `Release.RowBlockers` | scripts/build_asvs_matrix.py:1788-1835 | the codes of a row in their order: its verdict or review date, its citations, the required kinds |
| `Release.CitationCodesExactly` | scripts/build_asvs_matrix.py:1742-1833 | each code of a citation is given exactly when its own condition holds of the row, the reference and the registry |
| `Release.RowCodesExactly` | scripts/build_asvs_matrix.py:1785-1835 | each code of a row is given exactly when its own condition holds, citations included |
| `Release.VerifiedInExactly` | scripts/build_asvs_matrix.py:3250-3362 | a reference is verified exactly when its own fields bind it to the claim at this time and, in the context of that claim, the local check passes or a receipt valid now vouches for it and holds its nonce |
| `Release.LookupExactly` | scripts/build_asvs_matrix.py:1814-1814 | the index by identifier finds the last reference with the identifier |
| `Release.SelectExactly` | scripts/build_asvs_matrix.py:1861-1861 | the selected rows are the rows of the profile, each once and in order |
| `Release.DecisionCodesExactly` | scripts/build_asvs_matrix.py:1857-1893 | each of the sixteen codes is among those found exactly when its own condition holds of the inputs and the registry |
| `Release.DistinctKeepsOrder` | scripts/build_asvs_matrix.py:1894-1894 | each reason keeps the place of its first occurrence |
| `Release.PinnedExactly` | scripts/build_asvs_matrix.py:1860-1880 | the two requirement comparisons together say that the matrix is the pinned list in order with level and text |
| `Release.SettledFromStart` | scripts/build_asvs_matrix.py:1883-1904 | a finished evaluation finds every row holding exactly when the rows are sound apart from the registry, and each cited nonce was unused or bound to its digest at the start and is cited for one digest only |
| `Release.CandidateProfileRelease` | scripts/build_asvs_matrix.py:1838-1904 | release exactly when the matrix is the pinned list, identifiers are unique, every row is sound and its nonces fit the registry as the evaluation finds it and each other; then all rows hold against the registry it leaves and every custodied citation has a receipt that is valid now; otherwise the reasons are exactly the codes whose own conditions hold, each once, in the order of first occurrence |

## Left out

- HTTP downloads, TLS, server start-up, command lines, and the live smoke, canary and conformance runners: plumbing over libraries.
- Pydantic field patterns, the threat ledger and the other literal inventories, and the tables of required functions: finite data; requirement lists, policies and registries are parameters here.
- SHA-256, JSON text parsing, tar and zip decoding, UTF-8 decoding and Git itself: library code, kept abstract.
- Response-number normalisation in `scripts/baseline_replay.py`, the Git output capture and the rendered matrix product in `scripts/build_asvs_matrix.py`: they would add easier members of the kinds already here.
- The other two process runners, and `fingerprint_paths`, whose stream is not length-prefixed.
- Whole-tree snapshots: stability is claimed per file, as the code checks it; the scanner and inventory models walk a tree that does not change, and a change that the code detects is a failed call.
- Directories changed by programs other than the modelled publishers, more than one device, and ignored or untracked files in the attestation's worktree.
- `PairPublication`: the order in which descriptors are closed is left open, and a close that raises counts as not done.
- Closing a directory descriptor in the inventory and removing staging directories do not fail in the model.
- `JsonShape`: strings are Unicode scalar values, so a lone surrogate, which the code also rejects, cannot be written down.
- `TreeScan`: names are their encoded bytes; a name that has no UTF-8 encoding is rejected by the code and is not represented.
- `Porcelain`: the digest of the payload is not modelled; whether a byte string is UTF-8 is a parameter.
- `Release`: the pinned requirements are a parameter with unique identifiers, as their loader guarantees; the candidate repository and file checks of a local reference are one parameter; the bootstrap path, which never releases, is not modelled.
- `MutationResults`: the mutant-name pattern and the metadata loader are parameters, and the sorted order of the reported function counts is not kept.
