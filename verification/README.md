# Verified model of Tribios

Tribios serves copy-on-write Workspaces of one Git Project: each Workspace is an immutable Base state, a
sparse upper tree and a set of tombstones, and every mutation is journaled so that a crash leaves the old or
the new state (docs/adr/0005-journal-crash-consistent-workspace-mutations.md). This project models that core,
the capture policy and walk that make the Base state, and the index, inode and path codecs, and proves their
properties for all inputs, all runs and all crash points. `dafny verify dfyconfig.toml` verifies all of it.

## Reading order

| file | content |
|---|---|
| `Layers.dfy` | paths, layers, the merged view |
| `PlainTree.dfy` | the reference: each call on one plain directory tree |
| `OverlayLaws.dfy` | what copy-up, publication, removal and rename do to the view |
| `Journal.dfy` | durable state of a Workspace, tombstone rows, settling a record |
| `Listings.dfy`, `ListingCache.dfy` | merged listings, the cache and the range it erases |
| `Staging.dfy` | staged copies |
| `CallStates.dfy` | the durable steps of a call, and what a crash in each of its states leaves |
| `Merging.dfy`, `CopyUp.dfy`, `StageStates.dfy` | merged listings, copied parents, stages entry by entry |
| `EditLaws.dfy` | what edits and creations leave, byte by byte |
| `InPlace.dfy`, `Removals.dfy`, `Renames.dfy` | what each kind of mutation leaves, also when it is refused or given up |
| `WorkspaceEngine.dfy` | the engine: one method per call, each durable write one state of a trace |
| `ProjectRecovery.dfy` | recovery of a whole Project, interruptible at every durable write |
| `ProjectCrashes.dfy` | crash of a call, then of its recovery, in a whole Project |
| `Runs.dfy` | whole runs of calls, faults, crashes and restarts |
| `Abandonment.dfy`, `VisibleRollback.dfy`, `FailureWindows.dfy` | where the code falls short, with exact conditions |
| `Lifecycle.dfy`, `ProjectManager.dfy` | creation, removal, reclamation, crash and recovery interleaved |
| `CallMoves.dfy` | engine traces as runs of the lifecycle machine |
| `Paths.dfy`, `LikePattern.dfy` | strings and segments, the SQL pattern for descendants |
| `GlobMatcher.dfy`, `Utf8.dfy`, `CapturePolicy.dfy`, `BaseCapture.dfy` | the policy, the explainer, the walk |
| `GlobLaws.dfy`, `CaptureLaws.dfy` | what globs, patterns and the policy mean |
| `GitIndex.dfy`, `GitIndexFormat.dfy`, `InodeMixer.dfy` | index parsing, rewriting and writing, Workspace inode numbers |

## How crashes are modelled

A process can die between any two durable writes; completed writes persist. An engine call appends every
durable state to its `trace`. `CrashAtomic` says of each state of the trace which visible tree recovery makes
of it: the old one before the publishing phase is committed, the new one from then on. `remove_all` is many
single-entry steps, so half-removed trees are states of the trace. `Restart` turns such a state back into an
engine. Recovery and the lifecycle are machines of single durable steps as well; their imperative forms and the
traces of engines (`Traced`) are proved to be runs of those machines. `Serve` puts all of it together: whole runs
of calls, faults, crashes and restarts. `CrashedCallEndsOldOrNew` does so for one call in a Project whose other
Workspaces are in any reachable state, and for a recovery that is itself interrupted.

Each error that the code can report before or at publication is a fault: a parent before or after its mkdir,
an entry of the staged copy, each step of the journal, the publishing call. The contracts hold for every fault.
For a publication that is given up after its phase commit they say what is left instead of crash atomicity
(`CrashBehaviour`), because there the code does not provide it.

## Where the code falls short of its documentation

Each of these is stated exactly, with the condition under which the code does what it promises.

- Rename always drops the tombstones at and below its destination (src/core/workspace_engine.cpp:739, 403-407). If Base
  has entries strictly below the destination that only those tombstones hid, they show again, even beneath a
  file. Rename is a move if and only if `CleanRename` holds, and keeps the engine consistent if and only if
  `SoundRename` holds (`RenameView`, `RenameSound`, `RenameUncoversRemovedFile`).
- The DELETE that drops those rows uses LIKE, which ignores ASCII case, while docs/linux.md:63-64 promises
  case-sensitive paths. Rows and memory agree if and only if no row clashes by case alone; otherwise a removed
  file can return after a restart (`TombsAgree`, `CaseFoldLosesTombstone`).
- chmod and utimens of a directory that the upper tree holds non-empty fail with ENOTEMPTY, and a crash between
  the phase commit and the removal of the stage leaves a Project that recovery refuses; every other state
  recovers to the old tree (`PublishingRecoversIffReplaceable`, `ChmodOfFilledDirectoryBlocksRecovery`,
  `BarredInPlace`).
- A chmod or utimens of the Workspace root writes a record with an empty path: recovery refuses exactly the
  states of that call which hold the record (`RootRefused`, `Edits`).
- A publication given up after the phase commit removes its stage before its record
  (src/core/workspace_engine.cpp:371-389). Recovery publishes a half-removed stage, and takes a missing one for
  published: with nothing at the destination it refuses the Project, after a rename it deletes the source. On
  durable files such a call still ends old or new if and only if it replaces one single entry of the upper tree
  (`AbandonedStaysAtomic`, `HalfStagePublished`, `StageGoneOutcome`, `AbandonedRenameLosesSource`). On visible
  trees Base shows through where the stage has lost entries, so that more is kept: an edit does so if and only if
  its path is in the upper tree, the replacement is accepted, and mkdir keeps the mode of every directory strictly
  inside, or of all but one when the entry itself does not change (`RollbackShowsOldOrNew`, `HalfPublishedView`).
- Directories that copy-up or materialisation creates get their mode through mkdir, which drops the umask,
  set-user-ID and set-group-ID bits, and nothing restores it. The contracts on calls name the directories that
  are made anew (`Remade`): those copied up on the way, even by a call that fails, and those inside a staged copy.
  A call agrees with the reference to the last bit if and only if mkdir keeps the mode of each (`RemadeIff`).
- A chmod or utimens of the Workspace root succeeds only while the upper tree holds nothing but its root, and
  then makes every entry a new inode. Listings of directories below stay cached with the old numbers; they are
  exact if and only if they are empty (`RootPublicationCoherent`). After any other call listings are exact.
- A write_file that fails on an absent path leaves the empty file if and only if creating it succeeded; a
  faultless creation followed by any fatal fault of the write does that (`WriteFile`, `LeavesCreated`).
- Unlinking or renaming `.git` is allowed, and a Project with an Active Workspace that shows no .git pointer is
  refused when it is opened again (`Restart`, `Serve`).

## Model

| member | source | states |
|---|---|---|
| `Layers.ViewIsTree` | src/core/workspace_engine.cpp:138-150 | looking paths up through the upper tree, the tombstones and Base behaves like one directory tree, because an upper non-directory never uncovers Base entries |
| `PlainTree.InsertKeepsTree` | src/core/workspace_engine.cpp:650-685 | the reference create keeps a directory tree a directory tree |
| `PlainTree.MovedKeepsTree` | src/core/workspace_engine.cpp:710-743 | so does the reference rename |
| `PlainTree.ClearParents` | src/core/workspace_engine.cpp:247-269 | no obstacle on the way to a path means its parent is a visible directory |
| `PlainTree.ParentErrors` | src/core/workspace_engine.cpp:247-269 | on the way to an entry it is ENOTDIR exactly if something that is no directory is in the way, and otherwise ENOENT exactly if anything is missing |
| `PlainTree.CreateErrors` | src/core/workspace_engine.cpp:650-667 | a creation fails with EEXIST exactly if something is there, and otherwise exactly as the way to it does |
| `PlainTree.RemovalErrors` | src/core/workspace_engine.cpp:687-708 | each error of unlink and rmdir, and their success, by the exact condition |
| `PlainTree.RenameErrors` | src/core/workspace_engine.cpp:710-743 | a rename succeeds exactly if the source is there, the destination's parent is a directory, the destination is not beneath the source, and what it replaces is of its like and empty; EBUSY, EINVAL, ENOTEMPTY and EISDIR each by the exact condition |
| `OverlayLaws.CopyUpView` | src/core/workspace_engine.cpp:247-269 | copying a parent directory up changes the visible tree in nothing but that directory's mode, and in nothing at all if and only if mkdir keeps the mode: no umask bit, set-user-ID or set-group-ID in it |
| `OverlayLaws.RemadeIff` | src/core/workspace_engine.cpp:247-307 | making any set of directories anew with mkdir leaves a tree as it was if and only if mkdir keeps the mode of each: the exact condition under which every call below agrees with the reference to the last mode bit |
| `OverlayLaws.PublishView` | src/core/workspace_engine.cpp:387-391 | publishing a staged entry over any destination keeps the overlay sound and replaces exactly the visible subtree there |
| `OverlayLaws.RemoveView` | src/core/workspace_engine.cpp:413-460 | removing the upper subtree and adding the tombstone removes exactly the visible subtree |
| `OverlayLaws.RenameView` | src/core/workspace_engine.cpp:710-743 | a completed rename shows exactly the staged subtree at the destination and nothing at the source if and only if the rename is clean: a proper ancestor of the destination is tombstoned, or the moved subtree covers every Base entry strictly below the destination (in particular if there is none) |
| `OverlayLaws.MovedRemade` | src/core/workspace_engine.cpp:271-307 | that tree is the reference's subtree move with exactly the moved directories, and those copied up on the way, made anew |
| `OverlayLaws.RenameSound` | src/core/workspace_engine.cpp:387-407 | a rename, clean or not, keeps the overlay sound if and only if a proper ancestor of the destination is tombstoned or no Base entry lies strictly beneath a moved non-directory |
| `OverlayLaws.CleanIsSound` | src/core/workspace_engine.cpp:387-407 | a clean rename always does |
| `OverlayLaws.CopiedStable` | src/core/workspace_engine.cpp:271-307 | materialising a visible subtree copies it unchanged if and only if mkdir keeps the mode of every directory in it |
| `Journal.TombsAgree` | src/core/metadata_store.cpp:369-401 | stored and in-memory tombstones agree after the final transaction if and only if no row lies below the target through ASCII case alone |
| `Journal.FoldsAlike` | src/core/metadata_store.cpp:383-392 | LIKE takes two characters for the same exactly if they are, or differ in ASCII case alone |
| `Journal.CaseFoldLosesTombstone` | src/core/metadata_store.cpp:383-392 | renaming `A/x` to `a` deletes, in the transaction that adds it, the tombstone that hides `A/x` |
| `Journal.RecoverPrepared` | src/core/recovery.cpp:291-301 | a prepared record rolls back, however much of the stage exists |
| `Journal.RecoverPublishing` | src/core/recovery.cpp:303-325 | a publishing record whose stage is in place ends in the completed operation |
| `Journal.RecoverPublished` | src/core/recovery.cpp:61-77 | one whose stage is already published ends there too, even with a rename's source half removed |
| `Journal.RecoverRemoval` | src/core/recovery.cpp:45-59 | a publishing unlink or rmdir finishes from any half-removed subtree |
| `Journal.RemovalSettles` | src/core/recovery.cpp:45-59 | a committed removal takes away exactly the subtree, and recovery refuses it exactly if it is an unlink with something below |
| `Journal.MakeDirsMakes` | src/core/recovery.cpp:61-77 | recovery makes exactly the missing directories down to a destination's parent, and refuses exactly if something else is in the way |
| `Journal.PreparingRollsBack` | src/core/recovery.cpp:291-301 | every state before the publishing commit recovers to the old upper tree and tombstones |
| `Journal.ForwardCompletes` | src/core/recovery.cpp:303-325 | every state from the publishing commit on recovers to the completed operation's upper tree and tombstones |
| `Listings.ListedIffVisible` | src/core/workspace_engine.cpp:152-177 | a name is listed in a directory exactly when looking that child up succeeds |
| `Listings.EmptyListing` | src/core/workspace_engine.cpp:704-706 | an empty listing means that nothing at all is visible below, the test rmdir and rename rely on |
| `Listings.ListingIsOfChildren` | src/core/workspace_engine.cpp:152-177 | each listed child has its own type - directory, file or symlink - and the inode number of the upper entry if there is one, and of the Base entry otherwise |
| `Listings.CacheSurvives` | src/core/workspace_engine.cpp:179-193 | after a change at and under forgotten paths every listing still cached equals the freshly merged one |
| `ListingCache.DirectoryEntriesCache.ForgetCachedDirectoryEntries` | src/core/workspace_engine.cpp:183-193 | the lower_bound loop leaves the ordered map sorted and erases exactly the parent, the path and every key that starts with the path and a slash |
| `ListingCache.PrefixRunEnds` | src/core/workspace_engine.cpp:188-192 | keys that share a prefix are contiguous in byte order |
| `ListingCache.ForgetsKeyIsForgets` | src/core/workspace_engine.cpp:183-193 | on normalised paths those keys are the parent, the path and its descendants |
| `Staging.ThroughNext` | src/core/workspace_engine.cpp:287-296 | materialising child by child amounts to grafting the whole subtree |
| `Staging.PlannedWellFormed` | src/core/workspace_engine.cpp:271-307 | a completed stage is a well-formed tree |
| `Engine.WorkspaceEngine.BaseIsVisible` | src/core/workspace_engine.cpp:138-143 | true exactly when neither the path nor an ancestor below the root is tombstoned |
| `Engine.WorkspaceEngine.FindVisibleEntryLayer` | src/core/workspace_engine.cpp:145-150 | finds the node and inode that the merged view shows, or nothing when it shows nothing |
| `Engine.WorkspaceEngine.MergeVisibleDirectoryEntries` | src/core/workspace_engine.cpp:152-177 | the two merge loops build exactly the listing of the merged view, inode numbers included; each entry has the type and number of its visible child |
| `Engine.WorkspaceEngine.Readdir` | src/core/workspace_engine.cpp:212-231 | the answer with the cache is the freshly merged listing, or the same error; each entry has the type and number of its visible child |
| `Engine.WorkspaceEngine.CreateMissingUpperParentDirectories` | src/core/workspace_engine.cpp:247-269 | ends as the walk down one plain tree ends, or with the injected error; either way exactly the Base-only directories on the way, down to where it ended, have become upper directories made by mkdir and nothing else shows differently, and a crash between any two of its steps leaves the tree with some of them made |
| `Engine.WorkspaceEngine.MaterializeVisibleEntryAt` | src/core/workspace_engine.cpp:271-307 | the stage receives exactly the visible subtree, node by node, unless copying an entry of it fails, and nothing else durable changes even then |
| `Engine.WorkspaceEngine.AbandonOperation` | src/core/workspace_engine.cpp:371-376 | the rollback's states: the stage loses exactly one entry at a time, its root last, is gone while the record is left, and then the record is gone |
| `Engine.WorkspaceEngine.PublishStagedOperation` | src/core/workspace_engine.cpp:309-411 | on success the upper tree and tombstones are those of the completed operation, on failure those from before; every durable state before the publishing commit rolls back, and after it completes or, if the publication is refused or given up, is one of the rollback's |
| `Engine.WorkspaceEngine.RemoveVisibleEntryAtomically` | src/core/workspace_engine.cpp:413-460 | removes exactly the visible subtree, in crash-atomic steps |
| `CallStates.ProtocolIsAtomic` | src/core/recovery.cpp:182-325 | states that are preparing before a commit and going forward after it are crash-atomic: the old visible tree, then the new one |
| `CopyUp.ParentsAreAtomic` | src/core/workspace_engine.cpp:247-269 | the durable states of parent copy-up all recover to the old visible tree with some of the directories on the way made anew |
| `CallStates.CallAtomicExactly` | src/core/workspace_engine.cpp:247-269 | crash atomicity up to these directories is crash atomicity outright when mkdir keeps their modes |
| `CallStates.Reopens` | src/core/recovery.cpp:182-346 | a state that recovers to a tree can be recovered under any mode, opened, and shows that tree |
| `Engine.Restart` | src/core/project_manager.cpp:197-241 | crash, recover, validate and open: the Project is refused exactly if the recovered tree shows no .git pointer or Git does not agree with it; otherwise the new engine is consistent and shows the tree the crashed state stands for |
| `Engine.WorkspaceEngine.Create` | src/core/workspace_engine.cpp:650-667 | agrees with create on one plain tree, errors included, but for the Base-only directories on the way, which are made anew; fails under every fatal fault; crash-atomic, and if the publication is given up after its phase commit each state still recovers to the old or the new tree, but the last one with a record, which recovery refuses; the file has the mode asked for under the umask, is empty, and no other entry comes, goes or changes |
| `Engine.WorkspaceEngine.Mkdir` | src/core/workspace_engine.cpp:669-685 | the same for mkdir: the new directory is empty even over a tombstone, and keeps of its mode what mkdir keeps |
| `Engine.WorkspaceEngine.Symlink` | src/core/workspace_engine.cpp:745-762 | the same for symlink |
| `Engine.WorkspaceEngine.Unlink` | src/core/workspace_engine.cpp:687-695 | agrees with unlink on one plain tree outright, whatever the modes; crash-atomic, and if the removal is given up each state still recovers to the old or the new tree |
| `Engine.WorkspaceEngine.Rmdir` | src/core/workspace_engine.cpp:697-708 | the same for rmdir |
| `Engine.WorkspaceEngine.Chmod` | src/core/workspace_engine.cpp:764-779 | agrees with chmod on one plain tree, but for the Base-only directories on the way and those inside the entry, which are made anew, and for a directory the upper tree holds non-empty, which fails with ENOTEMPTY; for every fault it says when the phase commit is reached, and below the root it is crash-atomic, or if given up each state of an upper entry recovers to the old tree or to the new one with only some directories inside made anew; a non-empty upper directory recovers to the old tree in every state but those from the commit on in which its stage waits, and these are refused; at the root exactly the recorded states are refused, and listings stay exact if none below it holds anything; a success sets the mode, keeps kind and contents, and changes no other path but directories made anew |
| `Engine.WorkspaceEngine.Utimens` | src/core/workspace_engine.cpp:802-819 | the same for utimens; a success changes no node but directories made anew |
| `Engine.WorkspaceEngine.Truncate` | src/core/workspace_engine.cpp:781-800 | agrees with truncate on one plain tree, but for the Base-only directories on the way; crash-atomic, and if given up after the phase commit each state is still old or new, but for the last one with a record of an entry that only Base holds, which recovery refuses; a success leaves `size` bytes: the old ones, then zeros |
| `Engine.WorkspaceEngine.WriteFile` | src/core/workspace_engine.cpp:641-648 | agrees with writing a file on one plain tree, but for the Base-only directories on the way; a call that fails on an absent path leaves the empty file if and only if its creating half succeeded, which a faultless creation before a fatal write does; crashes act on each half as on create and truncate; a success leaves the written bytes at their offset, the old bytes elsewhere, and zeros in a gap |
| `Engine.WorkspaceEngine.OpenForWriting` | src/core/workspace_engine.cpp:462-490 | with O_CREAT creates the file as on one plain tree, or finds it; EISDIR, ENOENT and EEXIST exactly as the flags say |
| `Engine.WorkspaceEngine.OpenHandle` | src/core/workspace_engine.cpp:462-505 | with O_TRUNC a second operation empties the file, even one just created; crashes act on each of the two as on create and truncate |
| `Engine.WorkspaceEngine.WriteOpened` | src/core/workspace_engine.cpp:532-569 | a write through a handle agrees with the reference on whatever is at its path by now, a file, a symlink, a directory or nothing, crashes included, but for the Base-only directories on the way; a success leaves the written bytes at their offset, the old bytes elsewhere, and zeros in a gap |
| `Engine.WorkspaceEngine.CheckRename` | src/core/workspace_engine.cpp:713-729 | the checks find exactly the obstacle that forbids the rename on one plain tree, in the same order |
| `Engine.WorkspaceEngine.Rename` | src/core/workspace_engine.cpp:710-743 | fails as the rename of one plain tree fails; on success shows the subtree move, with the directories on the way and the moved ones made anew, if and only if the rename is clean; keeps the engine consistent if and only if no Base entry comes to lie beneath a moved non-directory, and memory and rows in step if and only if no row clashes by case; crash-atomic whenever both hold, clean or not, unless given up after the phase commit |
| `Engine.WorkspaceEngine.PublishRename` | src/core/workspace_engine.cpp:732-742 | every rename, clean or not and in step or not, is crash-atomic on durable states; if it is given up after the phase commit, the states before it show the old tree, the staged copy is then lost entry by entry, and the last recorded state is refused, or loses the source to what was at the destination |
| `CallStates.ProtocolIsDurable` | src/core/recovery.cpp:182-325 | so is every staged operation whose publishing rename can succeed |
| `InPlace.EditAgrees` | src/core/workspace_engine.cpp:764-800 | replacing an entry by its edited copy is the edit of one plain tree, but for the directories inside it and on the way, for every edit and every outcome |
| `EditLaws.EditShows` | src/core/workspace_engine.cpp:764-819 | the reference's edits byte by byte: bytes written at their offset with the old ones around them and zeros in a gap, bytes cut off or padded with zeros, modes set, and every other path as it was but for directories on the way and inside, which mkdir makes anew |
| `EditLaws.CreateShows` | src/core/workspace_engine.cpp:650-685 | a creation adds just that entry, and changes nothing else but directories on the way, which mkdir makes anew |
| `InPlace.InPlaceBehaviour` | src/core/workspace_engine.cpp:309-411 | crash behaviour of every publication over its own path, given up or not, in every state of it |
| `InPlace.BarredInPlace` | src/core/workspace_engine.cpp:371-389 | a copy that waits for a directory the upper tree holds non-empty: the old tree in every durable state, except that recovery refuses those from the commit on in which the stage waits |
| `InPlace.HalfPublishedView` | src/core/recovery.cpp:61-77 | a half-removed stage published over what the upper tree holds shows the new tree with only some of its inner directories made anew, because Base shows through where entries are missing |
| `VisibleRollback.RollbackShowsOldOrNew` | src/core/workspace_engine.cpp:371-389 | every state of a rollback over its own path recovers to exactly the old or exactly the new visible tree if and only if the path is in the upper tree, the replacement is accepted, and mkdir keeps the mode of every directory strictly inside, or of all but one when the entry itself does not change |
| `InPlace.RootPublicationCoherent` | src/core/workspace_engine.cpp:183-193 | after a chmod or utimens of the view root the cached listings are exact if and only if none of a directory below it holds anything, because erasing the empty path erases only its own key |
| `Renames.RenameCoherent` | src/core/workspace_engine.cpp:313-314 | after a rename the listings still cached are exact |
| `ProjectRecovery.InterruptionsKeepOutcome` | src/core/recovery.cpp:182-346 | any number of recoveries interrupted anywhere, then one full run, ends where one uninterrupted run ends, if no rename row moves an entry beneath itself, as in the journal of every reachable state (`JournalIsSound`) |
| `ProjectRecovery.StepKeepsOutcome` | src/core/recovery.cpp:182-346 | no single durable step of recovery changes where recovery ends, on such a journal |
| `ProjectRecovery.RecoveredIsFixed` | src/core/recovery.cpp:182-346 | a finished recovery leaves an empty journal and running it again changes nothing |
| `ProjectRecovery.Independent` | src/core/recovery.cpp:182-346 | what recovery makes of one Workspace depends on nothing but that Workspace's records and files |
| `ProjectRecovery.SucceedsIffEachDoes` | src/core/recovery.cpp:182-346 | recovery of a Project succeeds if and only if it succeeds for every Workspace alone |
| `ProjectRecovery.AgreesWithEngine` | src/core/recovery.cpp:273-325 | for one Workspace it is the recovery that the crash theorem of the engine speaks of; rows of requests on an Active Workspace are dropped |
| `ProjectCrashes.CrashedCallEndsOldOrNew` | src/core/recovery.cpp:182-346 | a call of one Workspace cut short in any durable state, while other Workspaces and requests are in any state that the lifecycle machine reaches, and its recovery cut short any number of times: it completes if and only if each other Workspace alone recovers, and then this one shows exactly the new tree from the publishing commit on, and the old one, up to directories made anew, before it |
| `ProjectCrashes.CrashHolds` | src/core/recovery.cpp:182-346 | what a Project that died holds of an Active Workspace is the durable state its engine was in, and every row of its journal is sound |
| `ProjectCrashes.EngineCrash` | src/core/recovery.cpp:182-346 | every state of every engine trace is one that a process can die in: the machine gets there, and a Project represents it |
| `ProjectCrashes.InterruptionsAfterAnyCrash` | src/core/recovery.cpp:182-346 | whatever state the process dies in, interrupted recoveries end where one uninterrupted run ends |
| `ProjectCrashes.CrashedOperationEndsOldOrNew` | src/core/recovery.cpp:182-346 | the same on durable states, for every operation: exactly the old or exactly the completed files |
| `ProjectCrashes.RecoversInProject` | src/core/recovery.cpp:182-346 | rows of other Workspaces can stop a recovery but not change what it makes of this one |
| `Runs.Serve` | src/core/project_manager.cpp:197-241 | any run of calls with faults and crashes, each crash followed by recovery, validation and a new engine: what shows is the reference folded over exactly the calls that took place, but for directories made anew - all that were answered with success, none that were answered with an error, some of those cut short - each one a call that the reference makes there; without a fault the answer is the reference's, or ENOTEMPTY of chmod and utimens; and the run ends early only at a call that succeeds and leaves the reference, a crash of a call that can be refused or completed wrongly, or a missing .git pointer |
| `Runs.Perform` | src/core/workspace_engine.cpp:650-819 | one call of a run: the answer tells what the tree shows and is the reference's if nothing is injected, and a crash at any of its steps leaves the old tree or the one it means |
| `Runs.MeantAlike` | src/core/workspace_engine.cpp:650-819 | every reference call carries trees that differ only in directories made anew to such trees again, and fails on both with the same error |
| `ProjectRecovery.Recoverer.RecoverInterruptedOperations` | src/core/recovery.cpp:182-346 | the recovery loop, each removal entry by entry and each lifecycle row step by step, ends as RecoverAll says or refuses with the same error, and every state it passes through recovers to the same outcome |
| `ProjectRecovery.Recoverer.SettleLifecycle` | src/core/recovery.cpp:190-271 | rolling a creation back or finishing a removal, one entry, one table and one record at a time, never changes where recovery ends |
| `ProjectRecovery.Recoverer.PublishStep` | src/core/recovery.cpp:61-77 | making missing parents one by one and publishing a stage leaves no stage and an entry at the destination, without changing where recovery ends, even when a parent cannot be made |
| `ProjectRecovery.Recoverer.RemoveSource` | src/core/recovery.cpp:45-59 | remove_all below an upper path, one entry at a time, never changes where recovery ends |
| `ProjectRecovery.Recoverer.RemoveStage` | src/core/recovery.cpp:291-301 | removing a stage entry by entry never changes where recovery ends |
| `FailureWindows.PublishingRecoversIffReplaceable` | src/core/recovery.cpp:61-77 | a publishing record whose stage is in place recovers if and only if the publishing rename is accepted |
| `FailureWindows.ChmodOfFilledDirectoryBlocksRecovery` | src/core/workspace_engine.cpp:764-779 | a crash during chmod of a directory the upper tree holds non-empty, after the phase commit, leaves a Project that recovery refuses |
| `Abandonment.AbandonedStaysAtomic` | src/core/workspace_engine.cpp:371-389 | on durable files: every state of a publication given up after its phase commit recovers to exactly the old or the completed files if and only if it replaces one single entry of the upper tree, is accepted, and would change no row and remove no source |
| `Abandonment.StageGoneOutcome` | src/core/recovery.cpp:61-77 | once its stage is gone recovery refuses the Project if nothing is at the destination, and otherwise takes the entry there for the published one |
| `Abandonment.HalfStagePublished` | src/core/recovery.cpp:61-77 | a half-removed stage is published in place of the whole, and the result is the completed one if and only if nothing of it was removed yet |
| `Abandonment.UnplaceableRefused` | src/core/recovery.cpp:61-77 | a waiting stage, half removed or not, that rename refuses to put in place blocks recovery |
| `CallStates.RootRefused` | src/core/recovery.cpp:273-277 | of the durable states of a call on the view root recovery refuses exactly those with a record |
| `FailureWindows.AbandonedRenameLosesSource` | src/core/workspace_engine.cpp:371-389 | a crash between stage removal and record removal of an abandoned rename over an upper entry: after recovery the source is not visible and the destination shows what it showed before |
| `FailureWindows.RenameUncoversRemovedFile` | src/core/workspace_engine.cpp:739-739 | a concrete rename after which a removed Base file shows again beneath a file |
| `Lifecycle.MoveKeeps` | src/core/project_manager.cpp:197-455 | every step of creation, removal, reclamation, calls, crash, recovery and opening keeps the lifecycle invariant of every name, and no journal id is ever used twice |
| `Lifecycle.OpeningServes` | src/core/project_manager.cpp:197-241 | after opening, calls can begin exactly on the Active Workspaces |
| `Lifecycle.ReachablePromises` | src/core/project_manager.cpp:243-455 | in every reachable state a Creating record has its creation row, a Removed record its removal row, a free name has no upper tree and no tombstones, Active means activated and not removed, and at most one file-system record per Workspace is unsettled |
| `Lifecycle.HasProject` | src/core/recovery.cpp:182-190 | every sound state has a Project that recovery can load: records, files, and one journal with all rows in the order of their ids |
| `Lifecycle.JournalIsSound` | src/core/workspace_engine.cpp:710-743 | no row of that journal moves an entry beneath itself |
| `Lifecycle.RecoveryEndsLifecycles` | src/core/recovery.cpp:190-271 | after a successful recovery no row is pending and every record is Active or Reclaimed: Active exactly if its Active commit happened and its Removed commit did not, and otherwise nothing of the Workspace is left |
| `Lifecycle.RecoveryPassesValidation` | src/core/recovery.cpp:374-391 | so the journal and record-state part of the storage validation always passes after it |
| `Lifecycle.SettleMatches` | src/core/recovery.cpp:188-325 | one turn of the recovery loop is one step of the lifecycle machine |
| `CallMoves.StepIsMove` | src/core/workspace_engine.cpp:309-460 | every durable step of an engine call is a move of the lifecycle machine, whatever other Workspaces and requests are doing |
| `CallMoves.EngineIsRun` | src/core/workspace_engine.cpp:309-460 | the whole trace of an engine is a run of the machine, so that the lifecycle invariant of every name holds in each of its states, and after a crash in each |
| `Lifecycle.UntouchedShowsBase` | src/core/project_manager.cpp:243-374 | whatever the name was used for before, a Workspace that no call has touched since its Active commit shows the Base state and its .git file, across crashes too |
| `Manager.ProjectManager.CreateWorkspace` | src/core/project_manager.cpp:243-374 | for each point of failure, the flush of the new storage included, exactly what record, rows, files and engine are left, for this name only; it refuses exactly when the name is in use; a created Workspace is Active, served, holds its root and pointer file and owes no row, and an undone one leaves files and rows as they were |
| `Manager.ProjectManager.RemoveWorkspace` | src/core/project_manager.cpp:376-426 | refuses and leaves everything as it was, or commits Removed, drops the engine and hands over to a reclaiming thread |
| `Manager.ProjectManager.Reclaim` | src/core/project_manager.cpp:428-455 | for each point at which the thread gives up, exactly what is left; the removal row goes only when it finishes; one that finishes leaves no files, no row and a Reclaimed record |
| `Paths.NormalizeRelative` | src/core/paths.cpp:7-38 | the character loop returns the join of the segments that resolving the path leaves |
| `Paths.ResolveIsClean` | src/core/paths.cpp:7-38 | they are never empty, `.` or `..` |
| `Paths.NormalizeIdempotent` | src/core/paths.cpp:7-38 | normalising twice is normalising once |
| `Paths.NormalizeComposes` | src/core/paths.cpp:7-38 | normalising `normalize(a) + "/" + b` equals normalising `a + "/" + b`, for all strings |
| `Paths.ResolveLaws` | src/core/paths.cpp:7-38 | `s/..` leads to the parent of where `s` leads, or stays at the view root; `s/.` and `s/` lead where `s` leads, and `s/n` to its child `n`; `..`, `.` and the empty string lead to the root |
| `Paths.NormalFormIffClean` | src/core/recovery.cpp:40-43 | a string is its own normal form, which recovery requires of journal paths, exactly when it spells clean segments |
| `Paths.StringsFollowSegments` | src/core/paths.cpp:40-47 | parent_of and join_relative on strings are parent and child on segments |
| `Paths.PrefixIsUnder` | src/core/workspace_engine.cpp:403-407 | the prefix test on strings is the descendant relation on segments |
| `LikePattern.EscapeLikeWildcards` | src/core/metadata_store.cpp:16-23 | the loop returns the escaped text |
| `LikePattern.EscapedMatches` | src/core/metadata_store.cpp:16-23 | the escaped text is a pattern for itself up to ASCII case, whatever wildcards it holds |
| `LikePattern.PatternSelectsBelow` | src/core/metadata_store.cpp:321-327 | the escaped path and `/%` match a path exactly when it starts with that path and a slash, up to ASCII case |
| `LikePattern.DeleteIsDropStored` | src/core/metadata_store.cpp:383-392 | the DELETE of the final transaction keeps a row exactly when the journal model does |
| `InodeMixer.MixerIsBijection` | src/core/workspace_engine.cpp:96-103 | the 64-bit mixer is a bijection |
| `InodeMixer.SaltedWorkspaceInode` | src/core/workspace_engine.cpp:96-104 | the statements compute the salted, mixed number |
| `InodeMixer.CollideOnlyAtOne` | src/core/workspace_engine.cpp:92-104 | no Workspace inode is 0, and two backing inodes collide exactly when one mixes to 0 and the other to 1 |
| `InodeMixer.KnownValue` | src/core/workspace_engine.cpp:92-104 | one value of the mixer, from the three shifts and both products |
| `InodeMixer.Inverses` | src/core/workspace_engine.cpp:99-102 | two 64-bit constants are the modular inverses of the multipliers: each product is 1 modulo 2^64 |
| `InodeMixer.ProductUndone` | src/core/workspace_engine.cpp:99-102 | multiplying by an odd constant is undone by multiplying by its inverse modulo 2^64 |
| `Utf8.IsValidUtf8` | src/core/capture_policy.cpp:61-95 | accepts a byte string exactly when it is a concatenation of encoded Unicode scalar values (RFC 3629, sections 3 and 4) |
| `Utf8.TextStep` | src/core/capture_policy.cpp:63-93 | a well-started text is text exactly when what follows its first scalar is |
| `GlobMatcher.MatchCaptureGlob` | src/core/capture_policy.cpp:226-230 | returns true exactly when the memo-free matching relation holds, within 1 + (|glob|+1)(|text|+1)^2 calls |
| `GlobMatcher.Matcher.MatchFrom` | src/core/capture_policy.cpp:164-176 | agrees with the relation at every pair of indices, keeps the failure table to true non-matches, and evaluates no pair twice |
| `GlobMatcher.Matcher.Evaluate` | src/core/capture_policy.cpp:178-222 | the scanning loop decides the relation within one row of further calls |
| `GlobMatcher.Matcher.TryRun` | src/core/capture_policy.cpp:197-201 | trying the ends of a star in order finds a match exactly when some slash-free run works |
| `GlobMatcher.Matcher.TryDirs` | src/core/capture_policy.cpp:187-195 | trying segment starts in order finds a match exactly when skipping some whole directories works |
| `GlobMatcher.FindClassEnd` | src/core/capture_policy.cpp:22-34 | finds the end of a character class, or that it has none, without leaving the glob |
| `GlobMatcher.ClassMatches` | src/core/capture_policy.cpp:36-59 | decides membership in the parsed ranges of a class, negation included |
| `GlobLaws.ClassRoundTrip` | src/core/capture_policy.cpp:22-59 | a class reads back as written, whatever stands around it: characters and ranges, escaped where needed, `]` in first place, `-` where it is no range, and `!` or `^` for the complement |
| `GlobLaws.GlobMeaning` | src/core/capture_policy.cpp:159-230 | a glob written from characters, `?`, classes, stars and whole-segment double stars matches exactly the texts that split into one part for each: that character, one character but `/`, one in the class, no `/`, whole directories, anything |
| `CapturePolicy.ValidateGlob` | src/core/capture_policy.cpp:109-121 | accepts exactly the globs whose parse has no malformed piece |
| `CapturePolicy.Decide` | src/core/capture_policy.cpp:279-290 | the last pattern that applies decides, by kind, anchoring and negation; without one nothing is excluded |
| `CapturePolicy.ExplainCaptureDecision` | src/core/capture_policy.cpp:299-352 | the string loop over ancestors answers by the declarative rule on segments |
| `CapturePolicy.ExplainerAgrees` | src/core/capture_policy.cpp:299-352 | for every path that exists the explainer says included exactly when the walk captures it |
| `CapturePolicy.OutsideStaysOutside` | src/core/capture_policy.cpp:316-336 | what is said to be left out takes everything beneath it along, existing or not, and a symlink does so even when the link itself is captured |
| `CapturePolicy.MissingIsAsIfThere` | src/core/capture_policy.cpp:338-352 | for a path that does not exist the explainer says what it would if a directory, or else a file, stood there |
| `CaptureLaws.PatternScope` | src/core/capture_policy.cpp:147-156 | an anchored literal pattern applies to exactly that path, any other one to every path with that last name, and a directory pattern to directories only |
| `CaptureLaws.LaterOverrules` | src/core/capture_policy.cpp:279-290 | a pattern overrules all before it wherever it applies, and changes nothing elsewhere |
| `CaptureLaws.CapturedIffAllPass` | src/core/base_capture.cpp:65-123 | captured is what lies outside .git and .tribios and, with every ancestor, is a file, directory or symlink on the root's device that the policy does not exclude |
| `CaptureLaws.FilesWeigh` | src/core/base_capture.cpp:88-116 | only regular files add to the byte accounts, each its size |
| `BaseCapture.CaptureWalk.WalkProject` | src/core/base_capture.cpp:125-157 | the Base state holds exactly the captured paths, and captured plus excluded entries and bytes equal those of everything that could be captured; a dry run counts the same |
| `BaseCapture.CaptureWalk.CaptureDirectory` | src/core/base_capture.cpp:65-123 | below a captured directory exactly the captured paths reach the Base state, and all others that could be captured are counted as excluded |
| `BaseCapture.CaptureWalk.CountExcludedTree` | src/core/base_capture.cpp:38-50 | counts exactly what can be reached from an excluded entry |
| `BaseCapture.WalkAgreesWithExplainer` | src/core/base_capture.cpp:65-123 | the walk captures an existing path exactly when the explainer says it is included |
| `BaseCapture.CapturedEntriesAre` | src/core/base_capture.cpp:65-123 | the captured entries are the paths for which the pruned-walk rule holds |
| `BaseCapture.AccountsAddUp` | src/core/base_capture.cpp:125-157 | captured and excluded entries are disjoint and together everything accountable |
| `GitIndex.ParseGitIndex` | src/core/git_index.cpp:53-117 | accepts and returns exactly what the functional parser does |
| `GitIndex.ReadPathStripLength` | src/core/git_index.cpp:36-49 | decodes the offset varint without exceeding 64 bits on any input |
| `GitIndex.StripDecodes` | src/core/git_index.cpp:36-49 | decoding what Git's encoder writes gives the number back, for every 64-bit number |
| `GitIndex.StripIsEncoding` | src/core/git_index.cpp:36-49 | every varint the decoder accepts is the encoder's own |
| `GitIndex.ParsingIgnoresStats` | src/core/git_index.cpp:53-117 | an accepted file parses the same whatever its stat fields and checksum hold |
| `GitIndex.RewritingDoesNotInterfere` | src/core/git_index.cpp:129-149 | rewriting any sequence of stats in an accepted file and resealing keeps length, paths, modes and offsets, reads back the last stats written, and changes no other byte but the checksum |
| `GitIndex.WrittenReadsBack` | src/core/git_index.cpp:119-142 | reading a stat returns what was written |
| `GitIndex.GitIndexFile.WriteStat` | src/core/git_index.cpp:129-142 | nine words in place change exactly the stat fields of that entry, and the file still parses to the same entries |
| `GitIndex.GitIndexFile.Seal` | src/core/git_index.cpp:144-149 | only the checksum changes, to the digest of everything before it |
| `GitIndex.GitIndexFile.TranslateVerifiedEntries` | src/core/workspace_git_index.cpp:72-118 | word by word in the final bytes: a file or symlink whose recorded stat, the device aside, is what lstat reports gets whole seconds, the given device, owner and group, the size, and the low half of its Workspace inode; any other one gets nine zeros; entries of other types keep theirs; and the file is sealed |
| `GitIndex.SeededEntries` | src/core/workspace_git_index.cpp:72-118 | what rewriting each entry with its due stat and sealing leaves of it, on the words read back |
| `GitIndexFormat.WrittenParses` | src/core/git_index.cpp:53-117 | round trip of versions 2, 3 and 4: any NUL-free paths, padded with one to eight bytes or sharing with the previous path, with extended flags and extensions, parse back to those paths, modes and offsets |
| `GitIndexFormat.AcceptedIffWritten` | src/core/git_index.cpp:53-117 | a file is accepted if and only if it is written in this format; every other one is refused |

## Left out

- Engine.WorkspaceEngine.Rename: on visible trees, crash atomicity is stated for renames that keep the overlay sound and rows and memory in step; `PublishRename` states it on durable states for all of them. A rename given up after its phase commit is not crash-atomic, as said above.
- Engine.WorkspaceEngine.Create: not crash-atomic when its publication is given up after the phase commit, because recovery refuses one state of it; the same holds for Mkdir, Symlink, and for Truncate, WriteFile and WriteOpened on an entry that only Base holds.
- Engine.WorkspaceEngine.Chmod: not crash-atomic at the root, on a directory that the upper tree holds non-empty, and where a given-up publication is not, because recovery refuses or half completes some of these states, as said above; the same holds for Utimens.
- Engine.WorkspaceEngine.MaterializeVisibleEntryAt: permission checks on the daemon are not modelled. A daemon without privileges cannot copy into a directory that it made without owner write and search bits, and cannot read an entry without owner read; such a copy ends as a fault, wherever it strikes, and the call fails and changes nothing but directories on the way.
- Engine.WorkspaceEngine.CreateMissingUpperParentDirectories: a directory copied up into one with set-group-ID inherits that bit on Linux, which is not modelled.
- Engine.WorkspaceEngine.WriteFile: an edit through a symlink acts outside the two trees, so its result is a parameter; writes are whole, without injected short writes.
- Engine.Restart: whether Git agrees with the .git pointer (registry, fsck, branch) is a parameter; the other checks of the storage validation, such as the form of tombstone paths, hold of what the engine writes and are not modelled.
- Runs.Serve: write_file is its two halves, and a handle is its path.
- Lifecycle.RecoveryEndsLifecycles: Git's part of settling a lifecycle record (worktree registry, fsck, branch deletion) succeeds, so recovery's refusals for Git reasons are not modelled.
- Manager.ProjectManager.CreateWorkspace: the undo steps after a failure succeed; the code ignores their errors, and then a Creating record can lose its row.
- Manager.ProjectManager.RemoveWorkspace: when the removal goes through, it is required that no engine call of that Workspace is in flight (one that outlives the Removed commit may still write files and tombstones of a removed name), and the control server handles one lifecycle request at a time.
- ProjectRecovery.Recoverer.PublishStep: the inode numbers of directories that recovery makes are not modelled.
- BaseCapture.CaptureWalk.WalkProject: the tree is readable and does not change during the walk; the order of directory entries is arbitrary; the list of exclusions and the timings are not modelled.
- CapturePolicy.Decide: patterns are given parsed; trimming a line and its anchoring flags (src/core/capture_policy.cpp:97-153) are not part of this model.
- GitIndex.ParseGitIndex: which error text a refused file gets is not modelled, only that it is refused; SHA-1 is any 20-byte function.
- LikePattern.PatternSelectsBelow: SQLite's limit on the length of a pattern is not modelled.
- Machine crashes that lose unsynced data, I/O errors after publication, when the code leaves the record pending, and failures of the rollback itself, which the code ignores.
- Open handles, timestamps, fsync of handles, `upper_bytes`: operating-system state; writes are modelled by path.
- Following symlinks inside a path: paths are segments over trees, with symlinks as leaves.
- Directory entries of unknown type: an entry's kind is always known.
- FUSE callbacks, mounting, kernel caches, sockets, the CLI and the daemon's main loop: foreign calls.
- Configuration, Workspace-name validation, the SQLite schema checks and diagnostics: they would add only easy members.
