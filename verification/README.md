# A verified model of the NostDB server's crash recovery and protocol state

`nostd` owns one data directory, keeps named Databases in it, and serves them over a framed, stateful protocol.
This project models in Dafny the parts of it where correctness spans many steps:

- **Snapshot restore** (`Restore*.dfy`): the journaled replacement of a live Database file and its startup recovery.
- **Catalog and lifecycle** (`Catalog*.dfy`, `Lifecycle*.dfy`): the journaled catalog, create, rename and drop, startup.
- **Protocol** (`Framing`, `Base64`, `Connection`, `Responses`, `Interleaving`, `Transfer`): frames, connection state, responses.
- **Startup** (`Startup.dfy`): a start that recovers interrupted restores and then the catalog.
- **Binding** (`Binding.dfy`): what a connection runs, joined with what happens to the catalog meanwhile.

Verify everything with `dafny verify dfyconfig.toml`.

## How faults are modelled

Every file or engine operation may fail (`faults` says which of the coming ones do; `Quiet` means none). Every state that
the files pass through is added to `exposed`, so a clause about all newly exposed states is a clause about a crash
at any point. The same states stand in order in `trail`, each one file operation after the one before. The history theorems
start both afresh with each event and report that walk, so the same state may be crashed in again and again.
A restore disk also carries `survivors`: the directories that a power loss may leave, because changes made
since the last directory sync may be missing. With `reorders == false` a power loss keeps a prefix of the unsynced changes,
with `reorders == true` any subset of them. Files have identities, so a rename moves a name and never copies bytes;
the bytes of a file are taken to survive a power loss, because the code syncs a file before anything relies on it.
The catalog model uses process crashes only, because the catalog code syncs nothing but the root directory.
Two flags record what the code does not notice: `rollbackFailed`, that an undo of a catalog write failed itself, and `misjudged`,
that a check failed on a file which the engine accepts. Contracts say exactly when each rises, and that neither does without faults.
The storage engine is a value: which contents it opens, which pass its check, and what adopting a snapshot leaves.

## Main results

1. *Old or new, over any history* (`RestoreHistory.Endure`). Any sequence of client writes, restores, crashes (process or
   power loss, inside a restore or inside recovery) and starts is carried out event by event, with one report each, and each
   report is what its event allows. Every start opens what clients last wrote, last restored with success or last found, or
   what a restore that was not answered with success since then may have left. The one exception takes a start with faults ahead
   that has a former file beside the live one. Files that recovery calls inconsistent never occur.
2. *Recovery is restartable* (`Restore.ManagedDatabase.Recover`, `RestoreRuns.RecoverThrough`). For every list of crashes, each
   recovery is stopped if it passes through the state given for it and otherwise runs to its end. The last one ends with the same
   files as an uninterrupted run, and succeeds if nothing fails; no byte of any file changes.
3. *A catalog change is atomic and never loses storage* (`LifecycleHistory.Endure`, `CatalogStore.CatalogStore.Load`). At every
   crash point the catalog is the former one or exactly the one the operation leads to. After a load `databases/` holds exactly the
   listed IDs. Every ID ever listed has the storage it was created with in exactly one of `databases/` and `trash/`
   (`LifecycleHistory.StoredOnce`), and a dropped Database never comes back (`LifecycleHistory.RetiredForever`). A whole start
   recovers restores first and the catalog then: no file that a restore moved aside keeps it from starting, and after a crash at any
   state on the way the next start can begin (`Startup.Open`, `Startup.OpenTwice`).
4. *What a connection does is decided by the answers it has given* (`Connection.Session.Serve`). A commit runs exactly the
   statements answered `queued` since the matching begin, on the Database selected then (`Connection.BatchIsQueued`); a restore gets
   exactly the chunks accepted since its begin (`Connection.InstallIsUploaded`).
5. *A selection stays bound to its storage* (`Binding.RunsWhereSelected`), across renames, drops, reused names and restarts,
   also between the three locks that an execution takes.
6. *Events of one request form one response* in every interleaving, exactly if its identifier is used once
   (`Interleaving.RepeatedIdentifier`). Frames and snapshots survive their round trips.

## Where the code falls short of its description

- **Recovery on an unsynced installation.** `docs/DATABASE_PROTOCOL.md` promises that startup finishes or rolls back an interrupted
  replacement. If the process stops right after the installing rename, a restart deletes the backup (or the snapshot) before any
  directory sync. On a file system that reorders, a power loss then leaves the snapshot without the original, uninstalled, which
  recovery refuses (`RestoreBarriers.HazardStrikes`). `RestoreBarriers.RecoverySafeExactly` proves that recovery is crash-safe if and
  only if this hazard is absent; `RestoreRuns.PassTheHazard` proves that every successful restore passes through it. In-order file
  systems do not have it. Of the other syncs, four are needed on a reordering disk, by the barrier lemmas. Two are not: the one
  between removing a candidate and its journal, and the one between removing a rejected snapshot and the original's return
  (`RestoreBarriers.CandidateRemovalNeedsNoSync`, `RestoreBarriers.WithdrawalNeedsNoSync`).
- **A check that fails for another reason.** When the cleanup after a successful restore fails, the former file stays beside the new
  one, which clients keep using. A validation that then fails spuriously at startup brings the former file back:
  `RestoreRuns.LoseAWrite` is such a run. `RestoreFiles.KeptWhateverTheVerdict` proves that a live file is safe from this if and only
  if no former file is left beside it.
- **An error is not a promise.** A restore that is answered with an error and leaves no handle may still be completed by the next
  start: `RestoreRuns.RollForwardAfterError` is such a run. `RestoreRuns.ErrorLeadsBack` proves that the original returns if and only
  if it is in place, or the snapshot was withdrawn already, or the engine does not accept the snapshot. A drop that is answered with
  an error may have been committed: `Lifecycle.DropDespiteError` is such a run. Every errored drop was committed if and only if its
  journal is there and its storage has yet to move (`Lifecycle.DatabaseDaemon.DropDatabase`, `LifecycleHistory.Endure`); every other
  errored operation leaves the catalog and the handles as they were.
- **A lost undo.** The renames that undo a failed catalog write ignore their own errors. The next write then deletes the only copy
  that is left: `CatalogStore.LoseTheCatalog` is such a run, and `CatalogStore.CatalogStore.WriteAtomic` states the guarantee when
  the state file is in place. An undo has failed if and only if the state file is not the catalog that the daemon serves; the former
  catalog or the next one is still on disk then. A history ends early there and only there (`LifecycleHistory.Endure`).
- **Torn journals and a second interrupted write** make startup refuse, with nothing lost; without faults, startup
  succeeds exactly if neither is there (`CatalogStore.CatalogStore.Load`, `Restore.ManagedDatabase.Recover`).
- **Repeated request identifiers** are answered with an error under the repeated identifier, so that identifier's events are no
  longer one response.

## Model

| member | source | states |
|---|---|---|
| RestoreHistory.Endure | src/daemon.rs:846-1215 | for every history with faults and crashes: one report per event, each what its event allows, with the walk of file operations from the state before to the state after; a running daemon has handle and files in agreement, a stopped one can be started, no start meets unexplained files; every start opens an expected content unless a check failed on a good file, which takes a start with faults ahead and a former file beside the live one, and never happens without faults |
| RestoreHistory.CrashDelivers | src/daemon.rs:1116-1187 | a process crash or a power loss keeps the promise of which contents a start may open |
| RestoreHistory.Write | src/daemon.rs:441-470 | an open Database takes a client's write, which becomes the one content that later starts may open; an unavailable one takes none |
| RestoreHistory.Try | src/daemon.rs:846-1047 | success shows the prepared snapshot; a refusal shows what was there, with exactly the concurrent write that happened; any other end leaves the journal; and a crash at any state of the walk from start to end leaves the former content at that point or the prepared snapshot |
| RestoreHistory.Perform | src/daemon.rs:846-1047 | a restore's observation, and the walk it takes from the files before to the files after, one operation at a time |
| RestoreHistory.TryStopped | src/daemon.rs:846-1047 | a crash is taken at any state of the walk, process crash or power loss, and keeps the expectation; otherwise the walk runs to its end |
| RestoreHistory.Serve | src/daemon.rs:846-1047 | one event of a running daemon is what it allows, and keeps agreement and expectation |
| RestoreHistory.Boot | src/daemon.rs:1116-1187 | a start, stopped by a crash at any state of its walk or not, opens an expected content or leaves the files startable; without faults it fails only for a torn journal, two rejected files or an engine that does not open the file; a good file is misjudged only with faults ahead and a former file beside the live one |
| RestoreHistory.Revive | src/daemon.rs:1116-1187 | recovery walks from the files before to the files after, every state of it keeps the promise of which contents a start may open, and in the hazardous state too if nothing interrupts it; a good file is misjudged only with faults ahead and a former file beside the live one |
| RestoreHistory.ReviveUndisturbed | src/daemon.rs:1116-1187 | a recovery that nothing disturbs succeeds from the hazardous state as well, leaves one file alone, and keeps what was expected |
| RestoreHistory.RecoveryDelivers | src/daemon.rs:1116-1187 | a harmless state of recovery delivers what its start would |
| RestoreRuns.LoseAWrite | src/daemon.rs:1062-1215 | a run in which a restore succeeds, a client writes, the daemon restarts, and clients read the content from before the restore |
| RestoreRuns.PassTheHazard | src/daemon.rs:949-983 | on a reordering disk every successful restore passes through a state from which a stopped recovery may leave files that the next one refuses |
| RestoreRuns.RecoverThrough | src/daemon.rs:1153-1215 | for every list of crashes, one recovery each: it walks from the disk before, is stopped exactly if it passes through the given state, and otherwise runs to its end; however often process crashes, or any crashes on an in-order disk, interrupt, the files lead to the same live file; the last recovery leaves that file alone and, without faults, succeeds exactly on a complete journal with a file that passes its check; without faults no file is misjudged, and with them only where a former file is left beside the live one |
| RestoreRuns.RollForwardAfterError | src/daemon.rs:947-948 | a run in which a restore is answered with an error and the next start installs its snapshot |
| RestoreRuns.ErrorLeadsBack | src/daemon.rs:1153-1215 | after an errored restore recovery returns the original if and only if it is in place, the snapshot was withdrawn, or the engine does not accept it; otherwise the snapshot is installed |
| Restore.ManagedDatabase.constructor | src/daemon.rs:68-76 | a Database with one open file runs in agreement with its disk |
| Restore.ManagedDatabase.RestoreSnapshot | src/daemon.rs:846-1047 | success means the prepared snapshot is open; on every path an open handle is the live file that startup keeps, no handle means the journal is on disk; any crash leads to the former content or the prepared snapshot; other files keep their bytes, except for exactly the write that others made |
| Restore.ManagedDatabase.Replace | src/daemon.rs:875-1047 | from a calm directory, the same for staging, swapping and the removal of an unjournaled candidate |
| Restore.ManagedDatabase.StageAndSwap | src/daemon.rs:875-1037 | a failure without a journal leaves the former file in place everywhere a crash may look |
| Restore.ManagedDatabase.LockAndSwap | src/daemon.rs:902-1037 | the former content is the one at the moment the lock is taken, later writes of others included |
| Restore.ManagedDatabase.Stage | src/daemon.rs:875-900 | until the journal is synced the live file is untouched; then candidate and journal are both on disk and the candidate is the prepared snapshot |
| Restore.ManagedDatabase.WriteCandidate | src/daemon.rs:1368-1391 | a new file with exactly these bytes, or a failure that changes no other file |
| Restore.ManagedDatabase.FillCandidate | src/daemon.rs:1368-1391 | a crash may leave any prefix of the bytes, with the live file in place |
| Restore.ManagedDatabase.AdoptCandidate | src/daemon.rs:881-898 | a candidate that is taken over holds the prepared snapshot |
| Restore.ManagedDatabase.WriteJournal | src/daemon.rs:1393-1401 | the journal is whole, partial or missing, and the live file stays in place in every exposed state |
| Restore.ManagedDatabase.JournalAndSync | src/daemon.rs:899-900 | success means the journal is on disk whatever a power loss leaves |
| Restore.ManagedDatabase.DiscardCandidate | src/daemon.rs:1040-1045 | removing an unjournaled candidate touches nothing else |
| Restore.ManagedDatabase.CleanupUncommitted | src/daemon.rs:1049-1060 | candidate, then journal, are gone and synced, with the live file in place at every crash point |
| Restore.ManagedDatabase.CleanupCommitted | src/daemon.rs:1062-1100 | the former file goes before the journal; every interruption still leads to the installed snapshot or keeps the choice |
| Restore.ManagedDatabase.Swap | src/daemon.rs:902-948 | with the handle taken and the live file moved aside, every outcome agrees with the disk and every crash point is recoverable |
| Restore.ManagedDatabase.Install | src/daemon.rs:949-983 | the snapshot is installed or the former file moved back, with the same guarantees |
| Restore.ManagedDatabase.Confirm | src/daemon.rs:984-1037 | a snapshot that opens is committed; one that does not is withdrawn before the former file returns |
| Restore.ManagedDatabase.RollBack | src/daemon.rs:1000-1037 | the former file is open again, or the journal stays for the next start |
| Restore.ManagedDatabase.Reopen | src/daemon.rs:924-946 | an abandoned restore leaves the live file open and the directory calm, or the journal in place |
| Restore.ManagedDatabase.ClientWrite | src/daemon.rs:441-470 | writing through the handle keeps handle and disk in agreement |
| Restore.ManagedDatabase.CleanupUnjournaledCandidate | src/daemon.rs:1240-1255 | refuses exactly when files were moved aside without a journal, otherwise removes a lone candidate durably |
| Restore.ManagedDatabase.Recover | src/daemon.rs:1116-1187 | from every recoverable state: stopping anywhere is harmless, a live file that stands alone is kept whatever fails, success leaves one of the two files and nothing else, a settled directory is left alone; without faults it refuses exactly a torn journal and two rejected files; a file is misjudged exactly if an accepted snapshot is rejected or an accepted original refused, which takes a fault and a former file left beside |
| Restore.ManagedDatabase.SettleJournaled | src/daemon.rs:1153-1187 | the same for a directory with a journal; without faults it refuses exactly where neither file passes its check; a file is misjudged exactly if an accepted one is rejected or refused |
| Restore.ManagedDatabase.RecoverJournaled | src/daemon.rs:1153-1184 | the five combinations of files are told apart; recovery refuses as inconsistent exactly the combinations that lead nowhere; a file is misjudged exactly if an accepted one is rejected or refused |
| Restore.ManagedDatabase.JudgeInstalled | src/daemon.rs:1189-1215 | an accepted snapshot is kept and a rejected one replaced by an original that is itself checked; a file is misjudged exactly if an accepted one is rejected or refused |
| Restore.ManagedDatabase.WithdrawInstalled | src/daemon.rs:1194-1215 | a rejected snapshot is replaced by the original, which is checked before anything else goes, and misjudged exactly if it is refused although the engine accepts it |
| Restore.ManagedDatabase.CompleteInstall | src/daemon.rs:1157-1163 | an installation stopped between its renames is completed and then judged; a file is misjudged exactly if an accepted one is rejected or refused |
| Restore.ManagedDatabase.CompleteRollback | src/daemon.rs:1168-1173 | a rollback stopped before its rename is completed |
| Restore.ManagedDatabase.RestoreOriginal | src/daemon.rs:1194-1209 | the rejected snapshot is gone durably before the original takes its name |
| Restore.ManagedDatabase.FinishRecovery | src/daemon.rs:1180-1184 | leftovers go before the journal, with a sync between |
| Restore.ManagedDatabase.Validate | src/daemon.rs:1217-1238 | passes only files the engine accepts, and records a rejection exactly if the file did not deserve it |
| Restore.RecoverAll | src/daemon.rs:1116-1187 | directories are recovered in turn up to the first that fails; the rest are untouched, those before are tidy, every state on the way is recoverable and one file operation after the one before, no content changes; without faults all are recovered exactly if none has a torn journal or two rejected files |
| RestoreFiles.RecoveryIsSafe | src/daemon.rs:1153-1215 | every state on the way of a recovery is recoverable and leads to the same file; its end holds one file and no leftovers |
| RestoreFiles.RecoveryKeepsFile | src/daemon.rs:1153-1215 | a file that recovery accepts, or that stands alone, is kept in whatever a crash of that recovery leaves |
| RestoreFiles.KeptWhateverTheVerdict | src/daemon.rs:1189-1215 | a live file stays whatever the verdict is if and only if no former file is left beside it |
| RestoreFiles.RecoveryKeepsContents | src/daemon.rs:1153-1215 | recovery changes names only |
| RestoreFiles.RecoveryIsHarmless | src/daemon.rs:1153-1215 | each state of a recovery is safe, unchanged in content, leads where the start does if the verdict is right, and keeps the live file |
| RestoreFiles.VerdictIsSafe | src/daemon.rs:1189-1215 | both verdicts are crash-safe and end with the file they name |
| RestoreFiles.RollbackIsSafe | src/daemon.rs:1194-1209 | a rollback may be stopped anywhere |
| RestoreFiles.FinishIsSafe | src/daemon.rs:1180-1184 | the final cleanup may be stopped anywhere |
| RestoreFiles.MoveIsSafe | src/daemon.rs:1157-1173 | the renames of recovery may be stopped anywhere |
| RestoreFiles.JournalRemovalIsSafe | src/daemon.rs:1180-1184 | the journal may go once the directory is calm and synced |
| RestoreBarriers.JournalBarrier | src/daemon.rs:899-900 | moving the live file before the journal is synced is safe exactly if nothing reorders; after the sync it always is |
| RestoreBarriers.LiveRenameBarrier | src/daemon.rs:947-949 | without the sync between the two renames a reordering power loss may drop the only copy of the original, and only then |
| RestoreBarriers.InstallRenameBarrier | src/daemon.rs:983-1037 | forgetting the original before the installation is synced is safe exactly if nothing reorders |
| RestoreBarriers.CleanupBarrier | src/daemon.rs:1078-1098 | removing the journal before the original's removal is synced is safe exactly if nothing reorders |
| RestoreBarriers.CandidateRemovalNeedsNoSync | src/daemon.rs:1049-1060 | candidate and journal of an abandoned restore may be removed without a sync between, on any disk |
| RestoreBarriers.WithdrawalNeedsNoSync | src/daemon.rs:1194-1209 | a rejected snapshot may be removed and the original moved back without a sync between, on any disk |
| RestoreBarriers.HazardStrikes | src/daemon.rs:1153-1215 | recovery of an unsynced installation on a reordering disk passes through a state of which a power loss may leave files that recovery refuses |
| RestoreBarriers.RecoverySafeExactly | src/daemon.rs:1153-1215 | recovery of any recoverable disk is crash-safe if and only if that hazard is absent |
| Catalog.ValidateCatalog | src/catalog.rs:252-296 | accepts exactly the catalogs with the known version, UUIDs for IDs, valid names and states, distinct IDs and strictly increasing names |
| Catalog.NeighboursSuffice | src/catalog.rs:252-296 | comparing neighbours establishes the order, and with it unique names |
| Catalog.BeforeTransitive | src/catalog.rs:252-296 | the order on names is transitive |
| Catalog.BeforeTotal | src/catalog.rs:252-296 | any two different names are ordered |
| Catalog.SortPermutes | src/daemon.rs:247-256 | sorting by name keeps every entry with its multiplicity |
| Catalog.SortSorts | src/daemon.rs:247-256 | entries with distinct names end up strictly increasing |
| Catalog.CreateIsWellFormed | src/daemon.rs:247-256 | pushing a new entry and sorting gives a valid catalog with exactly one more ID and name |
| Catalog.RenameIsWellFormed | src/daemon.rs:300-319 | editing a name and sorting gives a valid catalog with the same IDs, and always a different one |
| Catalog.DropIsWellFormed | src/daemon.rs:385-387 | retaining the others gives a valid catalog without exactly that ID |
| Catalog.FindIsUnique | src/daemon.rs:201-215 | in a valid catalog the first entry with a name is the only one |
| CatalogFiles.OnTheWayIsConsistent | src/catalog.rs:214-235 | once the journal is written the former and the next catalog both fit the storage as it is, and before that the former does, whether the journal is torn or missing |
| CatalogFiles.CompletedDropIsConsistent | src/catalog.rs:405-418 | moving a dropped Database to the trash keeps its own storage in one place, and the trash cannot hold it already |
| CatalogFiles.ListedIsNotPending | src/catalog.rs:405-418 | a listed Database has no drop pending and nothing in the trash |
| CatalogFiles.QuarantinedOrphanIsConsistent | src/catalog.rs:312-339 | only storage that was never listed goes to orphan quarantine |
| CatalogFiles.LoadedIsSettled | src/catalog.rs:179-196 | with nothing pending and nothing unlisted, every ID is in its place with the storage it was created with |
| CatalogStore.CatalogStore.constructor | src/catalog.rs:109-118 | an initialized data directory is settled |
| CatalogStore.CatalogStore.WritePending | src/catalog.rs:459-485 | creates the pending catalog or fails, never touching another file |
| CatalogStore.CatalogStore.WriteOperation | src/catalog.rs:459-485 | never overwrites a journal that is already there |
| CatalogStore.CatalogStore.WriteAtomic | src/catalog.rs:424-457 | a crash at any point leaves exactly the former or the next catalog, if the state file was in place; if it was not, the last copy is lost; an undo has failed exactly if the write failed and the state file is not the former catalog, and never without faults |
| CatalogStore.CatalogStore.MoveAside | src/catalog.rs:434-439 | the present catalog becomes the previous one, or stays; a missing one is never moved |
| CatalogStore.CatalogStore.InstallPending | src/catalog.rs:440-456 | the pending catalog is in place, or the previous one is back unless that undo fails too, which is so exactly if the state file is not the previous one after a failure |
| CatalogStore.CatalogStore.KeepInstalled | src/catalog.rs:447-456 | an installed catalog that cannot be synced is taken back; the undo failed exactly if the state file is not the previous one then |
| CatalogStore.CatalogStore.UndoRename | src/catalog.rs:443-450 | puts the previous catalog back, or records the failure exactly if that rename fails too |
| CatalogStore.LoseTheCatalog | src/catalog.rs:424-457 | a run of two changes after which no catalog is left |
| CatalogStore.CatalogStore.JournalAndWrite | src/catalog.rs:221-233 | every state on the way is accounted for; a stale journal blocks the change; an undo has failed exactly if the state file is not the catalog to be served |
| CatalogStore.CatalogStore.Transition | src/catalog.rs:214-235 | memory and disk hold the same catalog afterwards; at every crash point the catalog is exactly the former or the next one, consistent with the storage; an undo has failed exactly if they differ, with the former or the next catalog still on disk, and never without faults |
| CatalogStore.CatalogStore.RecoverAtomicState | src/catalog.rs:341-371 | recovery of the catalog files never changes which catalog is found; refuses only a second interrupted write |
| CatalogStore.CatalogStore.RecoverOperation | src/catalog.rs:373-422 | after any crash the journal matches one of its sides and a committed create has its file, so exactly a torn journal is refused; no crash point changes the catalog |
| CatalogStore.CatalogStore.CompleteDrop | src/catalog.rs:405-418 | a committed drop meets nothing in the trash and its move keeps every crash point consistent |
| CatalogStore.CatalogStore.ValidateStorage | src/catalog.rs:298-310 | true exactly if every listed Database has its file |
| CatalogStore.CatalogStore.RecoverOrphans | src/catalog.rs:312-339 | leaves no unlisted storage active, never meets a conflict after a crash, and no crash point changes the catalog |
| CatalogStore.CatalogStore.Quarantine | src/catalog.rs:322-336 | moves one unlisted directory, and only it |
| CatalogStore.CatalogStore.Load | src/catalog.rs:179-196 | from every state a crash leaves: loads with `databases/` exactly the listed IDs and every dropped ID in `trash/`, each with its own storage, or refuses with the catalog intact; no crash point changes the catalog; without faults it loads if and only if no journal is torn and no second write was interrupted; from any state at all it loads only if every listed Database had its file |
| Lifecycle.DatabaseDaemon.CreateStorage | src/daemon.rs:230-246 | makes the storage or takes it back |
| Lifecycle.DatabaseDaemon.AddEntry | src/daemon.rs:247-257 | the new entry is journaled and committed, or the catalog is unchanged; a crash leaves one of the two catalogs; an undo has failed exactly if the state file is not the served catalog, never without faults |
| Lifecycle.DatabaseDaemon.CommitCreate | src/daemon.rs:247-274 | a listed Database has its file and its handle on it; a failed create leaves neither entry nor handle; a crash leaves one of the two catalogs; an undo has failed exactly if the state file is not the served catalog, never without faults |
| Lifecycle.DatabaseDaemon.CreateDatabase | src/daemon.rs:217-275 | the catalog's refusals are exact, and without faults and leftovers every valid new name succeeds; a crash anywhere leaves the former catalog or the one with the new entry, with matching storage; an undo has failed exactly if the state file is not the served catalog, never without faults |
| Lifecycle.DatabaseDaemon.CommitRename | src/daemon.rs:300-324 | a crash leaves the former name or the new one, never anything else; an undo has failed exactly if the state file is not the served catalog, never without faults |
| Lifecycle.DatabaseDaemon.RenameDatabase | src/daemon.rs:277-325 | the ID keeps its storage and handle and is found under the new name only; refusals are exact; a crash leaves the former or the renamed catalog; an undo has failed exactly if the state file is not the served catalog, never without faults |
| Lifecycle.DatabaseDaemon.RemoveEntry | src/daemon.rs:385-388 | the removal is journaled and committed with the storage still in place, or the catalog is unchanged; an undo has failed exactly if the state file is not the served catalog, never without faults |
| Lifecycle.DatabaseDaemon.CommitDrop | src/daemon.rs:385-405 | success means this Database's own storage is in the trash; an error means the drop was committed if and only if it is journaled and its storage is still in place, and that is so when only the move fails; an undo has failed exactly if the state file is not the served catalog, never without faults |
| Lifecycle.DatabaseDaemon.DropOrReopen | src/daemon.rs:385-405 | the same, with the handle put back if the removal was not committed; an undo has failed exactly if the state file is not the served catalog, never without faults |
| Lifecycle.DatabaseDaemon.MoveToTrash | src/daemon.rs:400-405 | every crash point between commit and move is consistent; a failed move changes no file |
| Lifecycle.DatabaseDaemon.DropListed | src/daemon.rs:359-405 | busy exactly if the handle has no open engine, with nothing changed; an undo has failed exactly if the state file is not the served catalog, never without faults |
| Lifecycle.DatabaseDaemon.DropDatabase | src/daemon.rs:339-406 | only a confirmed name drops, and it drops exactly its Database; refusals and busy are exact; an error that is no refusal follows a committed drop if and only if the storage has yet to move, as it does whenever only the move fails; without faults an open Database is dropped; a crash leaves the former catalog or the one without the entry; an undo has failed exactly if the state file is not the served catalog, never without faults |
| Lifecycle.DropDespiteError | src/daemon.rs:388-400 | a run in which a drop is answered with an error, the name is gone, and the next start moves the storage to the trash |
| Lifecycle.DatabaseDaemon.Open | src/daemon.rs:141-179 | the handles are exactly the listed Databases, open on the storage each was created with; crashes during startup change nothing that is listed; without faults it succeeds exactly on loadable files |
| Lifecycle.DatabaseDaemon.SelectDatabase | src/daemon.rs:201-215 | a name gives the ID of the entry with that name, and nothing exactly if there is none |
| Lifecycle.DatabaseDaemon.HandleForSelectedId | src/daemon.rs:571-599 | an operation gets the handle of this very ID, on the storage that stands in `databases/` under it, or is told not found or busy, each exactly when it applies |
| LifecycleHistory.Endure | src/daemon.rs:141-406 | any history of operations, crashes and starts gives a run in which every step is what its event allows: each operation walks from the files before to the files after, answers exactly, and leaves the former catalog or its own result; an error leaves catalog and handles as they were unless it is that of a drop, which is committed if and only if its storage has yet to move; a crash is taken at any state of the walk, and a start leaves the listed Databases in place and open; the run ends early exactly if an undo fails, within an operation of a running daemon with faults ahead, which walks to a state file that is not the served catalog while the former catalog or the outcome is still on disk; without faults it never does |
| LifecycleHistory.RetiredForever | src/daemon.rs:339-406 | an ID that is dropped at any moment of a run stays dropped at every later moment |
| LifecycleHistory.StoredOnce | src/catalog.rs:298-422 | at every moment of a run each ID ever listed has the storage it was created with in exactly one of `databases/` and `trash/`, and in no quarantine |
| LifecycleHistory.BoundForever | src/daemon.rs:571-599 | at any later moment a handle for a listed ID is on the storage the ID had |
| LifecycleHistory.RecordsGrow | src/daemon.rs:141-406 | the storage recorded for an ID never changes |
| LifecycleHistory.Operate | src/daemon.rs:217-406 | one operation with its walk of file operations, every state of which is consistent and holds the former catalog or the outcome, and a crash at any state of it; an operation whose undo fails is told apart, with its walk and what is still on disk |
| LifecycleHistory.Boot | src/daemon.rs:141-179 | one start with its walk of file operations, no state of which changes the catalog, and a crash at any state of it |
| Startup.Open | src/daemon.rs:141-179 | from whatever a crash leaves of the catalog, the storage and any number of restores, a start serves exactly the listed Databases, each with its file in place, or leaves the catalog as it was; it walks through both, one file operation at a time, and every state on the way can be resumed and has the same catalog; without faults it succeeds if and only if every restore and the catalog can be recovered |
| Startup.Stop | src/daemon.rs:141-179 | a process crash or a power loss at any state of a start, with no disk left in the hazardous state, leaves what the next start can begin with |
| Startup.OpenTwice | src/daemon.rs:141-179 | a start that is stopped at any state of its walk, and the one after it, find the same catalog throughout |
| Startup.RecoverRestores | src/daemon.rs:1116-1187 | once the restores are recovered every file is in place under its own name, and the storage is consistent with the catalog; every state on the way can be resumed |
| Startup.LoadFirst | src/catalog.rs:298-310 | with the file of a listed Database moved aside, loading the catalog before the restores are recovered does not succeed |
| Startup.MovedAside | src/daemon.rs:919-948 | between the two renames of a restore the storage contradicts the catalog, and only in the file that was moved aside |
| Binding.RunsWhereSelected | src/protocol.rs:294-323 | a statement or batch reaches, whenever its worker asks the catalog, finds the handle and takes the engine, the storage its selected name stood for when it was selected, or is told not found or busy |
| Binding.SelectionOf | src/protocol.rs:294-323 | the ID of every statement and batch comes from one earlier selection on the connection |
| Binding.Resolve | src/daemon.rs:571-599 | a lookup of a selected ID that nothing comes between goes exactly where the theorem says |
| Framing.LengthRoundTrip | client/src/lib.rs:566-597 | every 32-bit length survives its four big-endian bytes |
| Framing.BytesRoundTrip | client/src/lib.rs:566-597 | four bytes encode one length only |
| Framing.Channel.WriteFrame | client/src/lib.rs:566-581 | writes one frame for a payload of 1 to 1048576 bytes and nothing otherwise |
| Framing.Channel.ReadFrame | client/src/lib.rs:584-597 | yields the next payload and leaves the bytes after it, or reports truncation or a bad length |
| Framing.ReceiveCutFrame | src/protocol.rs:1035-1051 | a frame cut short is an error and never a payload |
| Framing.CompleteIsMaximal | src/protocol.rs:1035-1072 | the number of complete frames in a prefix is the largest that fits it |
| Framing.PrefixYieldsCompleteFrames | src/protocol.rs:1035-1072 | any prefix of a stream yields exactly its complete payloads, then an error |
| Framing.StreamRoundTrip | src/protocol.rs:1035-1072 | every list of payloads is read back as it was written |
| Framing.ReceivedIsWhatWasFramed | src/protocol.rs:1035-1051 | whatever bytes arrive, the accepted payloads are the ones whose frames they begin with |
| Base64.DecodeEncode | src/protocol.rs:899-899 | decoding undoes encoding, for all bytes |
| Base64.EncodeDecode | src/protocol.rs:717-717 | only the canonical encoding of some bytes is accepted |
| Connection.Session.constructor | src/protocol.rs:189-196 | after the greeting nothing is selected, queued or uploaded |
| Connection.Session.Dispatch | src/protocol.rs:250-834 | the answer and the work of every request are the ones its log of answers allows, and the state stays what the client was told |
| Connection.Session.Route | src/protocol.rs:281-834 | the same for a request that is not refused for its role or an open transaction |
| Connection.Session.Serve | src/protocol.rs:198-235 | over any sequence of inputs the log grows by exactly the frames whose identifiers increase, in order; every exchange is justified by the ones before it, and the registry holds exactly the running requests |
| Connection.Session.Accept | src/protocol.rs:212-235 | an accepted request that goes to a worker enters the registry, where its identifier never is already |
| Connection.Session.End | src/protocol.rs:994-998 | a request that ends leaves the registry |
| Connection.TakenIncrease | src/protocol.rs:212-222 | the identifiers of dispatched frames increase strictly |
| Connection.RegistryGrows | src/protocol.rs:978-992 | a fresh identifier collides with no running request |
| Connection.Session.HandleQuery | src/protocol.rs:306-371 | runs at once on the selected ID, or joins the open transaction within its limit |
| Connection.Session.HandleBegin | src/protocol.rs:415-448 | begins exactly if a Database is selected and no transaction is open |
| Connection.Session.HandleCommit | src/protocol.rs:449-535 | runs the statements queued since the matching begin on the ID selected then; the branch for a cleared selection is never taken |
| Connection.Session.HandleRollback | src/protocol.rs:536-555 | discards exactly an open transaction |
| Connection.Session.HandleSelect | src/protocol.rs:294-305 | binds the connection to the stable ID behind the name |
| Connection.Session.HandleDrop | src/protocol.rs:613-631 | a connection that drops its own Database has nothing selected |
| Connection.Session.HandleRestoreBegin | src/protocol.rs:649-693 | starts an upload exactly within the size limit, for a known name and with none under way |
| Connection.Session.HandleRestoreChunk | src/protocol.rs:694-765 | accepts exactly the next chunk within all bounds, and a refused chunk changes nothing |
| Connection.Session.HandleRestoreCommit | src/protocol.rs:766-799 | the daemon gets exactly the accepted chunks, and only once they have the declared size |
| Connection.Session.HandleRestoreAbort | src/protocol.rs:800-814 | ends the upload |
| Connection.Session.HandleOther | src/protocol.rs:556-612 | a cancel reaches exactly a running request of this connection; administration leaves the connection as it is |
| Connection.OpenSinceBegin | src/protocol.rs:415-535 | an open transaction has one begin, nothing ended it since, and it holds the statements queued since |
| Connection.BatchIsQueued | src/protocol.rs:415-535 | a commit that reaches the engine passes the statements queued since its matching begin, in order, on the ID selected at that begin |
| Connection.UploadSinceBegin | src/protocol.rs:649-814 | an upload has one begin, was neither aborted nor installed since, and holds the chunks accepted since |
| Connection.InstallIsUploaded | src/protocol.rs:766-799 | a restore gets the chunks accepted since its begin, of exactly the declared size, for the name given there |
| Connection.SelectedSince | src/protocol.rs:294-305 | a selection is the ID that its name stood for when it was selected |
| Responses.Sender.SendResponse | src/protocol.rs:920-948 | an event that does not fit a frame is replaced by one error that ends the response |
| Responses.Sender.SendStatement | src/protocol.rs:836-877 | what goes out is the response up to the first event that does not fit |
| Responses.Sender.SendSnapshot | src/protocol.rs:879-906 | the same for a snapshot's chunks |
| Responses.StatementEventsAreComplete | src/protocol.rs:836-877 | a stream's end counts its rows |
| Responses.SnapshotEventsAreComplete | src/protocol.rs:879-906 | chunk numbers are contiguous and the end counts them |
| Responses.CutIsComplete | src/protocol.rs:920-948 | cutting a complete response at an oversized event leaves a complete response |
| Responses.TerminalIsLast | src/protocol.rs:836-948 | a complete response ends with its one terminal event |
| Interleaving.EventsOfOneRequest | src/protocol.rs:189-235 | after any greeting and for any interleaving, the events of an identifier used at most once are a part, in order, of one complete response: the one its job sends |
| Interleaving.ScriptIsComplete | src/protocol.rs:836-948 | whatever a request comes to, what the server sends for it is one complete response |
| Interleaving.RepeatedIdentifier | src/protocol.rs:212-222 | once everything has gone out, the events of an identifier are part of one complete response if and only if it was used at most once, the greeting included |
| Interleaving.Await | src/protocol.rs:375-535 | the answer of a statement or batch is decided by the worker's end and what came before it; the timer never answers by itself, and what was committed is never answered with an error other than too large |
| Interleaving.CommittedIsNeverCalledStopped | src/protocol.rs:388-411 | whatever the timer and cancellation do, a committed statement or batch is sent whole if it fits |
| Transfer.UploadExported | src/protocol.rs:649-799 | on every connection of an administrator without a transaction or an upload, the dispatcher accepts every frame of what an export sent and hands the daemon the exported bytes, for every snapshot within the limit |
| Transfer.UploadChunks | src/protocol.rs:694-765 | every exported chunk is accepted in turn |
| Transfer.BeginIsAccepted | src/protocol.rs:649-693 | whatever the log, a begin within the limits opens the upload |
| Transfer.ExportedChunkIsAccepted | src/protocol.rs:694-765 | the answers given so far decide that the next exported chunk is accepted, and that it extends the upload by its bytes |
| Transfer.CommitInstalls | src/protocol.rs:766-799 | after the last chunk a commit installs exactly the exported bytes |
| Transfer.ChunkFrameFits | client/src/lib.rs:20-22 | every chunk frame of an export and of an upload fits the frame bound, for all 64-bit identifiers and sequence numbers |
| Transfer.ExportIsNeverCut | src/protocol.rs:879-948 | no event of an export is replaced for its size |

## Left out

- RestoreHistory.Endure: on a reordering disk in the one hazardous state it takes only starts that nothing disturbs, because a crash there is unrecoverable; content claims take writes that the engine accepts and an engine that passes the files it writes itself.
- LifecycleHistory.Endure: ends where an undo of a failed catalog write itself fails, because the code ignores that error and serves on with a catalog that is not the one on disk; it says how that operation ends and no more.
- Lifecycle.DatabaseDaemon.CreateDatabase: takes the generated ID as a parameter that is a UUID and was never used before.
- Lifecycle.DatabaseDaemon.SetAside: the move of a failed create's storage is best effort in the code, so no clause promises that it happens; the next load moves what is left.
- Transfer.UploadExported: an upload is bound to a name that is resolved again at its commit, so it makes no stable-ID claim.
- Connection.Session.Serve: the hello exchange, closing a connection and the accept loop are not modelled; what the daemon answers during a request is a parameter, tied to the catalog in `Binding`.
- The storage engine: planning, execution, checkpointing and integrity checks are one abstract value.
- Two restores of one Database at the same time: the check for leftovers precedes the lock in the code, and the model runs one restore at a time.
- Startup.Open: the catalog's files and the restores' directories are two models of one disk, joined by which database files are there; a directory without a database file and without a restore is one that restore recovery passes over. A crash that leaves a disk in the hazardous state is not resumed.
- Initialization with its rollback, credentials, configuration, file locks, lock sidecars and poisoned locks.
- Logical import and export: staging around the engine's compiler that ends in the same restore.
- The HTTP compatibility adapter, the command line, JSON and TOML encoding, and value conversion: they would only add easy members.
- Client-side numbering and response matching: a counter and a comparison.
- Bounded queue capacity and socket backpressure: the response queue is unbounded here, or closed.
