/** Why the directory syncs are where they are. When a power loss may keep any
    subset of the unsynced changes, leaving out one of the four syncs between
    the restore's renames and removals lets a crash make the directory
    unrecoverable or lose the original; and recovery itself is exposed exactly
    where it starts on an unsynced installation. */
module RestoreBarriers {
  import opened Core
  import opened RestoreFiles

  /** A synced directory. */
  function At(d: Directory, store: map<Inode, Content>): Disk {
    Disk(d, {d}, store)
  }

  /** The staged restore whose journal has just been written, unsynced. */
  function Journaled(id: string, origin: Inode, staged: Inode, store: map<Inode, Content>, reorders: bool): Disk {
    var live := At(Directory(Some(origin), None, None, Missing), store);
    After(After(After(live, Link(Candidate, staged), reorders), OpenJournal, reorders), FillJournal(Prepared(id)), reorders)
  }

  lemma JournaledIsCalm(id: string, origin: Inode, staged: Inode, store: map<Inode, Content>, reorders: bool)
    ensures var journaled := Journaled(id, origin, staged, store, reorders);
            && journaled.now == Directory(Some(origin), Some(staged), None, Prepared(id))
            && AllCalm(journaled, id, origin)
            && Directory(Some(origin), None, None, Missing) in journaled.survivors
  {
    var a := After(At(Directory(Some(origin), None, None, Missing), store), Link(Candidate, staged), reorders);
    assert AllCalm(a, id, origin);
    var b := After(a, OpenJournal, reorders);
    assert AllCalm(b, id, origin);
  }

  lemma MoveAfterJournal(disk: Disk, id: string, origin: Inode, staged: Inode, reorders: bool)
    requires disk.now == Directory(Some(origin), Some(staged), None, Prepared(id)) && AllCalm(disk, id, origin)
    ensures Safe(After(disk, Move(Target, Backup, origin), false), id, origin, staged)
    ensures Safe(After(AfterSync(disk), Move(Target, Backup, origin), reorders), id, origin, staged)
  {
  }

  lemma MoveWithoutJournal(disk: Disk, id: string, origin: Inode, staged: Inode)
    requires Directory(Some(origin), None, None, Missing) in disk.survivors
    ensures !Safe(After(disk, Move(Target, Backup, origin), true), id, origin, staged)
  {
    var d, m := Directory(Some(origin), None, None, Missing), Move(Target, Backup, origin);
    assert Effect(d, m) in After(disk, m, true).survivors;
    assert !Recoverable(Effect(d, m), id, origin, staged);
  }

  /** Moving the live file before the journal is known to be on disk. */
  lemma JournalBarrier(id: string, origin: Inode, staged: Inode, store: map<Inode, Content>, reorders: bool)
    ensures var journaled := Journaled(id, origin, staged, store, reorders);
            && Safe(journaled, id, origin, staged)
            && (Safe(After(journaled, Move(Target, Backup, origin), reorders), id, origin, staged) <==> !reorders)
            && Safe(After(AfterSync(journaled), Move(Target, Backup, origin), reorders), id, origin, staged)
  {
    var journaled := Journaled(id, origin, staged, store, reorders);
    JournaledIsCalm(id, origin, staged, store, reorders);
    MoveAfterJournal(journaled, id, origin, staged, reorders);
    MoveWithoutJournal(journaled, id, origin, staged);
  }

  predicate Holds(d: Directory, file: Inode) {
    Some(file) in {d.target, d.candidate, d.backup}
  }

  /** Installing the snapshot before the live file's move is known to be on disk:
      a power loss may drop the only copy of the original. */
  lemma LiveRenameBarrier(id: string, origin: Inode, staged: Inode, store: map<Inode, Content>, reorders: bool)
    requires origin != staged
    ensures var moved := After(At(Directory(Some(origin), Some(staged), None, Prepared(id)), store), Move(Target, Backup, origin), reorders);
            var install := Move(Candidate, Target, staged);
            && ((forall d | d in After(moved, install, reorders).survivors :: Holds(d, origin)) <==> !reorders)
            && (forall d | d in After(AfterSync(moved), install, reorders).survivors :: Holds(d, origin))
  {
    var staging := Directory(Some(origin), Some(staged), None, Prepared(id));
    var moved := After(At(staging, store), Move(Target, Backup, origin), reorders);
    var install := Move(Candidate, Target, staged);
    if reorders {
      assert staging in moved.survivors;
      assert Effect(staging, install) in After(moved, install, reorders).survivors;
      assert !Holds(Effect(staging, install), origin);
    }
  }

  /** Forgetting the original before the installation is known to be on disk. */
  lemma InstallRenameBarrier(id: string, origin: Inode, staged: Inode, store: map<Inode, Content>, reorders: bool)
    requires origin != staged
    ensures var installed := After(At(Directory(None, Some(staged), Some(origin), Prepared(id)), store), Move(Candidate, Target, staged), reorders);
            && (Safe(After(installed, Unlink(Backup), reorders), id, origin, staged) <==> !reorders)
            && Safe(After(AfterSync(installed), Unlink(Backup), reorders), id, origin, staged)
  {
    var swapped := Directory(None, Some(staged), Some(origin), Prepared(id));
    var installed := After(At(swapped, store), Move(Candidate, Target, staged), reorders);
    if reorders {
      assert swapped in installed.survivors;
      assert Effect(swapped, Unlink(Backup)) in After(installed, Unlink(Backup), reorders).survivors;
      assert !Recoverable(Effect(swapped, Unlink(Backup)), id, origin, staged);
    }
  }

  /** Removing the journal before the original's removal is known to be on disk. */
  lemma CleanupBarrier(id: string, origin: Inode, staged: Inode, store: map<Inode, Content>, reorders: bool)
    requires origin != staged
    ensures var cleaned := After(At(Directory(Some(staged), None, Some(origin), Prepared(id)), store), Unlink(Backup), reorders);
            && ((forall d | d in After(cleaned, RemoveJournal, reorders).survivors :: Recoverable(d, id, origin, staged)) <==> !reorders)
            && Safe(After(AfterSync(cleaned), RemoveJournal, reorders), id, origin, staged)
  {
    var installed := Directory(Some(staged), None, Some(origin), Prepared(id));
    var cleaned := After(At(installed, store), Unlink(Backup), reorders);
    if reorders {
      assert installed in cleaned.survivors;
      assert Effect(installed, RemoveJournal) in After(cleaned, RemoveJournal, reorders).survivors;
      assert !Recoverable(Effect(installed, RemoveJournal), id, origin, staged);
    }
  }

  /** The first removal that recovery makes of an unsynced installation. */
  function Struck(disk: Disk, accepted: bool): Disk {
    After(disk, Unlink(if accepted then Backup else Target), true)
  }

  /** On a reordering disk that removal may strike a directory that has nothing
      else: a power loss then leaves files that recovery refuses as inconsistent. */
  lemma HazardStrikes(disk: Disk, accepted: bool, id: string, origin: Inode, staged: Inode, engine: Engine) returns (left: Directory)
    requires Safe(disk, id, origin, staged) && Hazard(disk, accepted, true)
    ensures Struck(disk, accepted) in RecoveryStates(disk, accepted, true)
    ensures left in Struck(disk, accepted).survivors && Final(left, Struck(disk, accepted), engine) == None
    ensures !Safe(Struck(disk, accepted), id, origin, staged)
    ensures accepted ==> left.journal == Prepared(id)
  {
    var d :| d in disk.survivors && if accepted then d.target.None? else d.backup.None?;
    left := Effect(d, Unlink(if accepted then Backup else Target));
    assert Installed(disk.now, id, origin, staged);
    assert Recoverable(d, id, origin, staged);
    var states := RecoveryStates(disk, accepted, true);
    assert Struck(disk, accepted) == states[if accepted then 2 else 1];
    assert !Recoverable(left, id, origin, staged);
  }

  /** Two syncs are not needed for recoverability, even on a reordering disk: the one
      between the removal of a candidate and that of its journal, once the directory
      is calm wherever a crash may lead; */
  lemma CandidateRemovalNeedsNoSync(disk: Disk, id: string, origin: Inode, staged: Inode, reorders: bool)
    requires AllCalm(disk, id, origin)
    ensures Safe(After(After(disk, Unlink(Candidate), reorders), RemoveJournal, reorders), id, origin, staged)
  {
    CalmStays(disk, Unlink(Candidate), id, origin, reorders);
    CalmStays(After(disk, Unlink(Candidate), reorders), RemoveJournal, id, origin, reorders);
  }

  /** and the one between the removal of a rejected snapshot and the original's return. */
  lemma WithdrawalNeedsNoSync(id: string, origin: Inode, staged: Inode, store: map<Inode, Content>, reorders: bool)
    ensures var withdrawn := After(At(Directory(Some(staged), None, Some(origin), Prepared(id)), store), Unlink(Target), reorders);
            Safe(After(withdrawn, Move(Backup, Target, origin), reorders), id, origin, staged)
  {
    var installed := Directory(Some(staged), None, Some(origin), Prepared(id));
    var withdrawn := After(At(installed, store), Unlink(Target), reorders);
    assert forall d | d in withdrawn.survivors :: d == installed || d == Effect(installed, Unlink(Target));
  }

  /** Recovery is crash-safe on a disk whose changes are not all synced if and
      only if that hazard is absent. */
  lemma RecoverySafeExactly(disk: Disk, accepted: bool, id: string, origin: Inode, staged: Inode, engine: Engine, reorders: bool)
    requires Safe(disk, id, origin, staged) && disk.now.journal == Prepared(id)
    ensures AllSafe(RecoveryStates(disk, accepted, reorders), id, origin, staged) <==> !Hazard(disk, accepted, reorders)
  {
    if Hazard(disk, accepted, reorders) {
      var left := HazardStrikes(disk, accepted, id, origin, staged, engine);
    } else {
      RecoveryIsSafe(disk, accepted, id, origin, staged, engine, reorders);
    }
  }
}
