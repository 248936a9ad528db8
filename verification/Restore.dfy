/** Snapshot restore of one managed Database (`restore_snapshot_with_operations`)
    and its startup recovery (`recover_snapshot_operations`), with every file
    operation allowed to fail and every point between two of them a crash point. */
module Restore {
  import opened Core
  import opened RestoreFiles

  datatype Failure = SnapshotIncompatible | RecoveryRequired | DatabaseBusy | CheckpointFailed | InternalError

  datatype Outcome = Done | Failed(why: Failure)

  datatype Reason = Unreadable | WrongIdentity | WrongStage | Inconsistent | Unjournaled | OriginalInvalid

  datatype Recovery = Recovered | Interrupted | Refused(reason: Reason)

  /** Only `file` may differ in content. */
  ghost predicate SameBut(x: Disk, y: Disk, file: Inode) {
    forall f: Inode | f != file :: x.Read(f) == y.Read(f)
  }

  /** The answers of a start that a crash or a failing operation can explain. */
  predicate Explained(r: Recovery) {
    r in {Recovered, Interrupted, Refused(OriginalInvalid), Refused(Unreadable)}
  }

  /** Apart from the staged file, only the live file differs, and exactly by what
      other clients `wrote` to it. */
  ghost predicate KeepsOthers(after: Disk, before: Disk, live: Option<Inode>, file: Inode, wrote: Option<Content>) {
    forall f: Inode | f != file :: after.Read(f) == if live == Some(f) then wrote.GetOr(before.Read(f)) else before.Read(f)
  }

  /** The operations that still may fail, after the next `n`. */
  function Later(faults: seq<bool>, n: nat): seq<bool> {
    if |faults| <= n then [] else faults[n..]
  }

  /** Recovery has a snapshot to judge and neither file passes its check. */
  predicate Spoilt(d: Directory, disk: Disk, engine: Engine) {
    && d.backup.Some? && (d.target.Some? != d.candidate.Some?)
    && !engine.Accepts(disk.Read(Judged(d))) && !engine.Accepts(disk.Read(d.backup.value))
  }

  /** The journal is complete, and one of the two files passes its check. */
  predicate Solvable(disk: Disk, engine: Engine) {
    disk.now.journal != Partial && !Spoilt(disk.now, disk, engine)
  }

  /** A check has failed on a file that the engine accepts: on the snapshot, which
      was rejected for it, or on the original, which recovery then refused. */
  predicate Misjudges(d: Directory, disk: Disk, engine: Engine, r: Recovery, accepted: bool) {
    || (!accepted && engine.Accepts(disk.Read(Judged(d))))
    || (r == Refused(OriginalInvalid) && d.backup.Some? && engine.Accepts(disk.Read(d.backup.value)))
  }

  /** Recovery checks a file here that the engine accepts. */
  predicate Doubtful(disk: Disk, engine: Engine) {
    && disk.now.backup.Some?
    && (engine.Accepts(disk.Read(Judged(disk.now))) || engine.Accepts(disk.Read(disk.now.backup.value)))
  }

  /** A restore has passed the state from which recovery is not crash-safe. */
  ghost predicate HazardPassed(exposed: set<Disk>) {
    exists x | x in exposed :: Hazard(x, true, true)
  }

  class ManagedDatabase {
    const id: string
    const engine: Engine
    /** Whether a power loss may keep any subset of unsynced changes, not only a prefix. */
    const reorders: bool

    var disk: Disk
    /** The file the engine currently has open for clients. */
    var handle: Option<Inode>
    var nextFile: Inode
    /** Which of the coming file and engine operations fail; none once it is used up. */
    var faults: seq<bool>
    /** Every disk state reached so far: the points at which a crash may strike. */
    var exposed: set<Disk>
    /** The same states in the order in which they were reached. */
    var trail: seq<Disk>

    /** Whether an engine failure made recovery reject a file that passes its checks. */
    ghost var misjudged: bool

    /** The live file when the latest restore began, and the snapshot it staged. */
    ghost var origin: Inode
    ghost var staged: Inode

    /** A Database with one file, open. */
    constructor (id: string, engine: Engine, reorders: bool, content: Content, faults: seq<bool>)
      ensures this.id == id && this.engine == engine && this.reorders == reorders && this.faults == faults
      ensures Running() && handle.Some? && disk.Read(handle.value) == content && !misjudged
    {
      this.id, this.engine, this.reorders, this.faults := id, engine, reorders, faults;
      var live := Directory(Some(0), None, None, Missing);
      disk := Disk(live, {live}, map[0 := content]);
      handle, nextFile, exposed, trail := Some(0), 1, {}, [];
      misjudged, origin, staged := false, 0, 0;
    }

    predicate Quiet()
      reads this`faults
    {
      forall k | 0 <= k < |faults| :: !faults[k]
    }

    /** The next `n` operations succeed. */
    predicate Clear(n: nat)
      reads this`faults
    {
      |faults| >= n && forall k | 0 <= k < n :: !faults[k]
    }

    /** The next `n` operations succeed and the one after them fails. */
    predicate FailsAfter(n: nat)
      reads this`faults
    {
      Clear(n) && |faults| > n && faults[n]
    }

    /** What holds whenever no restore is under way. */
    ghost predicate Running()
      reads this
    {
      && Safe(disk, id, origin, staged)
      && origin < nextFile && staged < nextFile
      && (handle.Some? ==>
            && disk.now.target == handle
            && Kept(disk, id, origin, handle.value))
    }

    /** The trail leads to the present state, one file operation at a time, and
        nowhere that was not exposed. */
    ghost predicate Tracked()
      reads this`disk, this`exposed, this`trail
    {
      TrailTo(disk)
    }

    ghost predicate TrailTo(last: Disk)
      reads this`exposed, this`trail
    {
      trail != [] && trail[|trail| - 1] == last && Walk(trail, reorders) && forall x | x in trail :: x in exposed
    }

    twostate predicate StaysTracked()
      reads this`disk, this`exposed, this`trail
    {
      old(Tracked()) ==> Tracked() && trail[0] == old(trail)[0]
    }

    /** Notes the state that an operation has reached. */
    method Note(ghost before: Disk)
      requires OneStep(before, disk, reorders)
      modifies this`exposed, this`trail
      ensures exposed == old(exposed) + {disk} && trail == old(trail) + [disk]
      ensures old(TrailTo(before)) ==> Tracked() && trail[0] == old(trail)[0]
    {
      exposed := exposed + {disk};
      trail := trail + [disk];
    }

    // ---- file operations ----

    method Strikes() returns (fault: bool)
      modifies this`faults
      ensures fault == (old(faults) != [] && old(faults)[0]) && faults == Later(old(faults), 1)
      ensures old(Quiet()) ==> Quiet() && !fault
    {
      fault := false;
      if faults != [] {
        fault, faults := faults[0], faults[1..];
      }
    }

    method Apply(c: Change)
      requires Feasible(c, disk.now)
      modifies this`disk, this`exposed, this`trail
      ensures disk == After(old(disk), c, reorders)
      ensures exposed == old(exposed) + {disk}
      ensures StaysTracked()
    {
      disk := After(disk, c, reorders);
      Note(old(disk));
    }

    method Write(file: Inode, bytes: Content)
      modifies this`disk, this`exposed, this`trail
      ensures disk == AfterWrite(old(disk), file, bytes)
      ensures exposed == old(exposed) + {disk}
      ensures StaysTracked()
    {
      disk := AfterWrite(disk, file, bytes);
      Note(old(disk));
    }

    method Sync() returns (ok: bool)
      modifies this`disk, this`exposed, this`trail, this`faults
      ensures disk == if ok then AfterSync(old(disk)) else old(disk)
      ensures exposed == old(exposed) + {disk}
      ensures ok == !(old(faults) != [] && old(faults)[0]) && faults == Later(old(faults), 1)
      ensures old(Quiet()) ==> Quiet() && ok
      ensures StaysTracked()
    {
      var fault := Strikes();
      ok := !fault;
      if ok {
        disk := AfterSync(disk);
      }
      Note(old(disk));
    }

    method Rename(source: Slot, destination: Slot) returns (ok: bool)
      modifies this`disk, this`exposed, this`trail, this`faults
      ensures ok ==> old(disk.now).Get(source).Some?
      ensures ok ==> disk == After(old(disk), Move(source, destination, old(disk.now).Get(source).value), reorders)
      ensures !ok ==> disk == old(disk)
      ensures exposed == old(exposed) + {disk}
      ensures ok == (!(old(faults) != [] && old(faults)[0]) && old(disk.now).Get(source).Some?) && faults == Later(old(faults), 1)
      ensures old(Quiet()) ==> Quiet() && (ok <==> old(disk.now).Get(source).Some?)
      ensures StaysTracked()
    {
      var fault := Strikes();
      var file := disk.now.Get(source);
      ok := !fault && file.Some?;
      if ok {
        Apply(Move(source, destination, file.value));
      } else {
        Note(disk);
      }
    }

    /** Removing a file that is not there counts as done. */
    method Remove(slot: Slot) returns (ok: bool)
      modifies this`disk, this`exposed, this`trail, this`faults
      ensures disk == if ok && old(disk.now).Get(slot).Some? then After(old(disk), Unlink(slot), reorders) else old(disk)
      ensures exposed == old(exposed) + {disk}
      ensures ok == !(old(faults) != [] && old(faults)[0]) && faults == Later(old(faults), 1)
      ensures old(Quiet()) ==> Quiet() && ok
      ensures StaysTracked()
    {
      var fault := Strikes();
      ok := !fault;
      if ok && disk.now.Get(slot).Some? {
        Apply(Unlink(slot));
      } else {
        Note(disk);
      }
    }

    method DeleteJournal() returns (ok: bool)
      modifies this`disk, this`exposed, this`trail, this`faults
      ensures disk == if ok then After(old(disk), RemoveJournal, reorders) else old(disk)
      ensures exposed == old(exposed) + {disk}
      ensures old(Quiet()) ==> Quiet() && ok
      ensures StaysTracked()
    {
      var fault := Strikes();
      ok := !fault;
      if ok {
        Apply(RemoveJournal);
      } else {
        Note(disk);
      }
    }

    method OpenTarget() returns (file: Option<Inode>)
      modifies this`faults
      ensures file.Some? ==> file == disk.now.target && engine.opens(disk.Read(file.value))
      ensures faults == Later(old(faults), 1)
      ensures file.Some? <==> !(old(faults) != [] && old(faults)[0]) && disk.now.target.Some? && engine.opens(disk.Read(disk.now.target.value))
      ensures old(Quiet()) ==>
                Quiet() && (file.Some? <==> disk.now.target.Some? && engine.opens(disk.Read(disk.now.target.value)))
    {
      var fault := Strikes();
      if !fault && disk.now.target.Some? && engine.opens(disk.Read(disk.now.target.value)) {
        return disk.now.target;
      }
      return None;
    }

    // ---- restore ----

    /** Removes a candidate that no journal covers. */
    method CleanupUnjournaledCandidate() returns (r: Recovery)
      modifies this`disk, this`exposed, this`trail, this`faults
      ensures disk.store == old(disk).store
      ensures r == Recovered ==>
                || (disk == old(disk) && (disk.now.journal.Missing? ==> disk.now.candidate.None? && disk.now.backup.None?))
                || (disk.Synced() && disk.now == old(disk.now).(candidate := None) && old(disk.now).backup.None?)
      ensures r.Refused? <==> old(disk.now.journal.Missing? && (disk.now.backup.Some? || (disk.now.candidate.Some? && disk.now.target.None?)))
      ensures r.Refused? ==> r == Refused(Unjournaled) && disk == old(disk)
      ensures forall x | x in exposed && x !in old(exposed) :: x.store == disk.store
      ensures old(disk.now).target.Some? && AllCalm(old(disk), id, old(disk.now).target.value) ==>
                && disk.now.target == old(disk.now).target
                && AllCalm(disk, id, disk.now.target.value)
                && forall x | x in exposed && x !in old(exposed) :: AllCalm(x, id, disk.now.target.value)
      ensures !old(disk.now).journal.Missing? || (old(disk.now).candidate.None? && old(disk.now).backup.None?) ==>
                r == Recovered && disk == old(disk) && exposed == old(exposed) && faults == old(faults)
      ensures old(Quiet()) ==> Quiet() && !r.Interrupted?
      ensures StaysTracked()
    {
      if !disk.now.journal.Missing? || (disk.now.candidate.None? && disk.now.backup.None?) {
        return Recovered;
      }
      if disk.now.target.Some? && disk.now.candidate.Some? && disk.now.backup.None? {
        var removed := Remove(Candidate);
        if !removed {
          return Interrupted;
        }
        var synced := Sync();
        return if synced then Recovered else Interrupted;
      }
      return Refused(Unjournaled);
    }

    /** One change that leaves a calm directory calm. */
    method ApplyCalm(c: Change, ghost file: Inode)
      requires c.OpenJournal? || c == FillJournal(Prepared(id)) || (c.Link? && c.slot == Candidate)
      requires AllCalm(disk, id, file)
      modifies this`disk, this`exposed, this`trail
      ensures disk == After(old(disk), c, reorders) && exposed == old(exposed) + {disk}
      ensures AllCalm(disk, id, file)
      ensures StaysTracked()
    {
      CalmStays(disk, c, id, file, reorders);
      Apply(c);
    }

    method SyncCalm(ghost file: Inode) returns (ok: bool)
      requires AllCalm(disk, id, file)
      modifies this`disk, this`exposed, this`trail, this`faults
      ensures disk == (if ok then AfterSync(old(disk)) else old(disk)) && exposed == old(exposed) + {disk}
      ensures AllCalm(disk, id, file)
      ensures ok == !(old(faults) != [] && old(faults)[0]) && faults == Later(old(faults), 1)
      ensures old(Quiet()) ==> Quiet() && ok
      ensures StaysTracked()
    {
      ok := Sync();
    }

    /** Removes a candidate or the journal from a calm directory. */
    method DropCandidate(ghost file: Inode) returns (ok: bool)
      requires AllCalm(disk, id, file)
      modifies this`disk, this`exposed, this`trail, this`faults
      ensures disk.now == (if ok then old(disk.now).(candidate := None) else old(disk.now))
      ensures disk.store == old(disk).store && exposed == old(exposed) + {disk}
      ensures AllCalm(disk, id, file)
      ensures old(Quiet()) ==> Quiet() && ok
      ensures StaysTracked()
    {
      CalmStays(disk, Unlink(Candidate), id, file, reorders);
      ok := Remove(Candidate);
    }

    method DropJournal(ghost file: Inode) returns (ok: bool)
      requires AllCalm(disk, id, file)
      modifies this`disk, this`exposed, this`trail, this`faults
      ensures disk.now == (if ok then old(disk.now).(journal := Missing) else old(disk.now))
      ensures disk.store == old(disk).store && exposed == old(exposed) + {disk}
      ensures AllCalm(disk, id, file)
      ensures old(Quiet()) ==> Quiet() && ok
      ensures StaysTracked()
    {
      CalmStays(disk, RemoveJournal, id, file, reorders);
      ok := DeleteJournal();
    }

    /** Creates a file, writes it and syncs its bytes; a partial file is removed
        again if possible (`write_new_synced`). */
    method WriteCandidate(bytes: Content) returns (ok: bool)
      requires disk.now.target.Some? && AllCalm(disk, id, disk.now.target.value)
      modifies this`disk, this`exposed, this`trail, this`faults, this`nextFile
      ensures nextFile == old(nextFile) + 1
      ensures disk.now.(candidate := None) == old(disk.now).(candidate := None)
      ensures ok ==> disk.now.candidate == Some(old(nextFile)) && disk.Read(old(nextFile)) == bytes
      ensures AllCalm(disk, id, disk.now.target.value) && SameBut(disk, old(disk), old(nextFile))
      ensures forall x | x in exposed && x !in old(exposed) ::
                AllCalm(x, id, disk.now.target.value) && SameBut(x, old(disk), old(nextFile))
      ensures old(Quiet()) ==> Quiet() && ok
      ensures old(Clear(2)) ==> ok && faults == old(faults)[2..]
      ensures StaysTracked()
    {
      var file := nextFile;
      nextFile := nextFile + 1;
      var fault := Strikes();
      if fault {
        return false;
      }
      Write(file, []);
      ApplyCalm(Link(Candidate, file), disk.now.target.value);
      ok := FillCandidate(file, bytes);
    }

    /** Writes some of the bytes, then all of them, unless that fails. */
    method FillCandidate(file: Inode, bytes: Content) returns (ok: bool)
      requires disk.now.target.Some? && AllCalm(disk, id, disk.now.target.value) && disk.now.candidate == Some(file)
      modifies this`disk, this`exposed, this`trail, this`faults
      ensures disk.now.(candidate := None) == old(disk.now).(candidate := None)
      ensures ok ==> disk.now == old(disk.now) && disk.Read(file) == bytes
      ensures AllCalm(disk, id, disk.now.target.value) && SameBut(disk, old(disk), file)
      ensures forall x | x in exposed && x !in old(exposed) :: AllCalm(x, id, disk.now.target.value) && SameBut(x, old(disk), file)
      ensures ok == !(old(faults) != [] && old(faults)[0]) && (ok ==> faults == Later(old(faults), 1))
      ensures StaysTracked()
    {
      var part: nat :| part <= |bytes|;
      Write(file, bytes[..part]);
      var fault := Strikes();
      if fault {
        var removed := DropCandidate(disk.now.target.value);
        return false;
      }
      Write(file, bytes);
      return true;
    }

    method WriteJournal(ghost file: Inode) returns (ok: bool)
      requires AllCalm(disk, id, file)
      modifies this`disk, this`exposed, this`trail, this`faults
      ensures disk.store == old(disk).store
      ensures disk.now.(journal := Missing) == old(disk.now).(journal := Missing)
      ensures ok ==> disk.now.journal == Prepared(id)
      ensures !ok ==> disk.now.journal in {old(disk.now).journal, Partial, Missing}
      ensures AllCalm(disk, id, file)
      ensures forall x | x in exposed && x !in old(exposed) :: AllCalm(x, id, file) && x.store == disk.store
      ensures old(Quiet()) ==> Quiet() && ok
      ensures old(Clear(2)) ==> ok && faults == old(faults)[2..]
      ensures StaysTracked()
    {
      var fault := Strikes();
      if fault {
        return false;
      }
      ApplyCalm(OpenJournal, file);
      fault := Strikes();
      if fault {
        var removed := DropJournal(file);
        return false;
      }
      ApplyCalm(FillJournal(Prepared(id)), file);
      return true;
    }

    /** Validates the candidate, takes it over and checkpoints it. */
    method AdoptCandidate(file: Inode, bytes: Content) returns (ok: bool)
      modifies this`disk, this`exposed, this`trail, this`faults
      ensures disk == old(disk) || (engine.Prepare(bytes).Some? && disk == AfterWrite(old(disk), file, engine.Prepare(bytes).value))
      ensures exposed <= old(exposed) + {disk}
      ensures ok ==> engine.Prepare(bytes) == Some(disk.Read(file))
      ensures old(Quiet()) ==> Quiet() && (ok <==> engine.Prepare(bytes).Some?)
      ensures old(Clear(2)) && engine.Prepare(bytes).Some? ==> ok && faults == old(faults)[2..]
      ensures StaysTracked()
    {
      var fault := Strikes();
      var prepared := engine.Prepare(bytes);
      if fault || prepared.None? {
        return false;
      }
      Write(file, prepared.value);
      fault := Strikes();
      return !fault;
    }

    /** Writes, validates and adopts the candidate, then the journal, then syncs both. */
    method Stage(bytes: Content) returns (r: Outcome)
      requires disk.now.target.Some? && AllCalm(disk, id, disk.now.target.value)
      requires disk.now.candidate.None? && disk.now.journal.Missing?
      modifies this`disk, this`exposed, this`trail, this`faults, this`nextFile
      ensures nextFile == old(nextFile) + 1
      ensures r == Done ==>
                && disk.Synced()
                && disk.now == old(disk.now).(candidate := Some(old(nextFile)), journal := Prepared(id))
                && engine.Prepare(bytes) == Some(disk.Read(old(nextFile)))
      ensures disk.now.target == old(disk.now).target
      ensures AllCalm(disk, id, disk.now.target.value)
      ensures SameBut(disk, old(disk), old(nextFile))
      ensures forall x | x in exposed && x !in old(exposed) ::
                AllCalm(x, id, disk.now.target.value) && SameBut(x, old(disk), old(nextFile))
      ensures old(Quiet()) ==> Quiet() && (r == Done <==> engine.Prepare(bytes).Some?)
      ensures old(Clear(7)) && engine.Prepare(bytes).Some? ==> r == Done && faults == old(faults)[7..]
      ensures StaysTracked()
    {
      ghost var file := disk.now.target.value;
      var staging := nextFile;
      var written := WriteCandidate(bytes);
      if !written {
        return Failed(InternalError);
      }
      var adopted := AdoptCandidate(staging, bytes);
      if !adopted {
        return Failed(SnapshotIncompatible);
      }
      var journaled := JournalAndSync(file);
      return if journaled then Done else Failed(InternalError);
    }

    /** Writes the journal and syncs the directory. */
    method JournalAndSync(ghost file: Inode) returns (ok: bool)
      requires AllCalm(disk, id, file)
      modifies this`disk, this`exposed, this`trail, this`faults
      ensures disk.store == old(disk).store
      ensures disk.now.(journal := Missing) == old(disk.now).(journal := Missing)
      ensures ok ==> disk.Synced() && disk.now.journal == Prepared(id)
      ensures AllCalm(disk, id, file)
      ensures forall x | x in exposed && x !in old(exposed) :: AllCalm(x, id, file) && x.store == disk.store
      ensures old(Quiet()) ==> Quiet() && ok
      ensures old(Clear(3)) ==> ok && faults == old(faults)[3..]
      ensures StaysTracked()
    {
      ok := WriteJournal(file);
      if ok {
        ok := SyncCalm(file);
      }
    }

    /** Puts the untouched live file's directory back in order (`cleanup_uncommitted_restore`). */
    method CleanupUncommitted() returns (ok: bool)
      requires disk.now.target.Some? && AllCalm(disk, id, disk.now.target.value)
      modifies this`disk, this`exposed, this`trail, this`faults
      ensures disk.store == old(disk).store
      ensures disk.now.target == old(disk.now).target
      ensures AllCalm(disk, id, disk.now.target.value)
      ensures forall x | x in exposed && x !in old(exposed) :: AllCalm(x, id, disk.now.target.value) && x.store == disk.store
      ensures ok ==> disk.Synced() && disk.now == Directory(old(disk.now).target, None, None, Missing)
      ensures old(Quiet()) ==> Quiet() && ok
      ensures StaysTracked()
    {
      ghost var file := disk.now.target.value;
      ok := DropCandidate(file);
      if ok {
        ok := SyncCalm(file);
      }
      if ok {
        ok := DropJournal(file);
      }
      if ok {
        ok := SyncCalm(file);
      }
    }

    /** Every state exposed since `seen`, and the present one, is on this path. */
    ghost predicate Follows(states: seq<Disk>, seen: set<Disk>)
      reads this`disk, this`exposed
    {
      disk in states && forall x | x in exposed && x !in seen :: x in states
    }

    /** Removes the former live file, then the journal, as far as it gets. */
    method RemoveFormer()
      requires disk.now.candidate == None && disk.now.backup.Some?
      modifies this`disk, this`exposed, this`trail, this`faults
      ensures Follows(FinishStates(old(disk), reorders), old(exposed)) && old(exposed) <= exposed
      ensures old(Quiet()) ==> Quiet() && disk == FinishStates(old(disk), reorders)[5]
      ensures old(FailsAfter(0)) ==> disk == old(disk) && faults == old(faults)[1..]
      ensures StaysTracked()
    {
      ghost var states := FinishStates(disk, reorders);
      assert disk == states[0];
      var ok := Remove(Backup);
      assert ok ==> disk == states[2];
      if !ok {
        return;
      }
      ok := Sync();
      assert ok ==> disk == states[3];
      if !ok {
        return;
      }
      ForgetJournal();
    }

    /** Removes the journal, as far as it gets. */
    method ForgetJournal()
      modifies this`disk, this`exposed, this`trail, this`faults
      ensures var gone := After(old(disk), RemoveJournal, reorders);
              && Follows([old(disk), gone, AfterSync(gone)], old(exposed)) && old(exposed) <= exposed
              && (old(Quiet()) ==> Quiet() && disk == AfterSync(gone))
      ensures StaysTracked()
    {
      var ok := DeleteJournal();
      if ok {
        ok := Sync();
      }
    }

    /** Forgets the former live file, then the journal; a failure leaves the rest
        to the next startup (`cleanup_committed_restore`). */
    method CleanupCommitted(ghost former: Inode, ghost file: Inode)
      requires disk.Synced() && Installed(disk.now, id, former, file)
      modifies this`disk, this`exposed, this`trail, this`faults
      ensures disk.store == old(disk).store
      ensures disk.now.target == Some(file)
      ensures Safe(disk, id, former, file)
      ensures Kept(disk, id, former, file)
      ensures forall x | x in exposed && x !in old(exposed) ::
                Safe(x, id, former, file) && x.store == disk.store
      ensures old(exposed) <= exposed
      ensures old(Quiet()) ==> Quiet() && disk.Synced() && disk.now == Directory(Some(file), None, None, Missing)
      ensures old(FailsAfter(0)) ==> disk == old(disk) && faults == old(faults)[1..]
      ensures StaysTracked()
    {
      assert Safe(disk, id, former, file) && Kept(disk, id, former, file);
      FinishIsSafe(disk, id, former, file, engine, reorders);
      FinishKeepsFile(disk, id, former, file, reorders);
      FinishKeepsContents(disk, reorders);
      RemoveFormer();
    }

    /** Handle and disk agree, whatever a crash would leave: an open handle is the
        live file and startup keeps it; without one the journal is on disk. */
    ghost predicate Agrees(former: Inode, file: Inode)
      reads this
    {
      && Safe(disk, id, former, file)
      && (handle.Some? ==>
            && disk.now.target == handle
            && Kept(disk, id, former, handle.value))
      && (handle == None ==> forall d | d in disk.survivors :: d.journal == Prepared(id))
    }

    /** The part of a restore that holds the handle's lock: `file` is staged and
        journaled, `former` is the live file. */
    method Swap(ghost former: Inode, ghost file: Inode) returns (r: Outcome)
      requires disk.Synced() && disk.now == Directory(Some(former), Some(file), None, Prepared(id))
      requires handle.Some? ==> handle == Some(former)
      requires former != file
      modifies this`disk, this`exposed, this`trail, this`faults, this`handle
      ensures disk.store == old(disk).store
      ensures Agrees(former, file)
      ensures forall x | x in exposed && x !in old(exposed) :: Safe(x, id, former, file) && x.store == disk.store
      ensures r == Done ==> handle == Some(file) && engine.opens(disk.Read(file))
      ensures r.Failed? ==> handle == None || (handle == Some(former) && AllCalm(disk, id, former))
      ensures old(handle) == None ==> r == Failed(DatabaseBusy) && handle == None
      ensures old(Quiet()) && old(handle).Some? && engine.opens(disk.Read(file)) ==>
                r == Done && disk.Synced() && disk.now == Directory(Some(file), None, None, Missing)
      ensures old(FailsAfter(6)) && old(handle).Some? && engine.opens(disk.Read(file)) ==>
                r == Done && disk.Synced() && Installed(disk.now, id, former, file) && faults == old(faults)[7..]
      ensures r == Done && reorders ==> HazardPassed(exposed)
      ensures StaysTracked()
      ensures r.Failed? ==> Recallable(disk, id, file)
      ensures old(FailsAfter(2)) && old(handle).Some? ==>
                r.Failed? && handle == None && Swapped(disk.now, id, former, file) && faults == old(faults)[3..]
      ensures old(Quiet()) ==> Quiet()
    {
      if handle.None? {
        return Failed(DatabaseBusy);
      }
      var current := handle;
      handle := None;
      var fault := Strikes();
      if fault {
        handle := current;
        var cleaned := CleanupUncommitted();
        return Failed(if cleaned then CheckpointFailed else RecoveryRequired);
      }
      r := MoveAside(former, file);
    }

    /** Moves the live file aside, then the snapshot into its place. */
    method MoveAside(ghost former: Inode, ghost file: Inode) returns (r: Outcome)
      requires disk.Synced() && disk.now == Directory(Some(former), Some(file), None, Prepared(id)) && former != file
      requires handle == None
      modifies this`disk, this`exposed, this`trail, this`faults, this`handle
      ensures disk.store == old(disk).store
      ensures Agrees(former, file)
      ensures forall x | x in exposed && x !in old(exposed) :: Safe(x, id, former, file) && x.store == disk.store
      ensures r == Done ==> handle == Some(file) && engine.opens(disk.Read(file))
      ensures r.Failed? ==> handle == None || (handle == Some(former) && AllCalm(disk, id, former))
      ensures r.Failed? ==> Recallable(disk, id, file)
      ensures old(Quiet()) && engine.opens(disk.Read(file)) ==>
                r == Done && disk.Synced() && disk.now == Directory(Some(file), None, None, Missing)
      ensures old(FailsAfter(5)) && engine.opens(disk.Read(file)) ==>
                r == Done && disk.Synced() && Installed(disk.now, id, former, file) && faults == old(faults)[6..]
      ensures old(FailsAfter(1)) ==> r.Failed? && handle == None && Swapped(disk.now, id, former, file) && faults == old(faults)[2..]
      ensures r == Done && reorders ==> HazardPassed(exposed)
      ensures StaysTracked()
      ensures old(Quiet()) ==> Quiet()
    {
      var moved := Rename(Target, Backup);
      if !moved {
        r := Reopen();
        return;
      }
      var synced := Sync();
      if !synced {
        return Failed(InternalError);
      }
      r := Install(former, file);
    }

    /** Moves the snapshot into place, or the former live file back. */
    method Install(ghost former: Inode, ghost file: Inode) returns (r: Outcome)
      requires disk.Synced() && Swapped(disk.now, id, former, file)
      requires handle == None
      requires former != file
      modifies this`disk, this`exposed, this`trail, this`faults, this`handle
      ensures disk.store == old(disk).store
      ensures Agrees(former, file)
      ensures forall x | x in exposed && x !in old(exposed) :: Safe(x, id, former, file) && x.store == disk.store
      ensures r == Done ==> handle == Some(file) && engine.opens(disk.Read(file))
      ensures r.Failed? ==> handle == None || (handle == Some(former) && AllCalm(disk, id, former))
      ensures old(Quiet()) && engine.opens(disk.Read(file)) ==>
                r == Done && disk.Synced() && disk.now == Directory(Some(file), None, None, Missing)
      ensures old(FailsAfter(3)) && engine.opens(disk.Read(file)) ==>
                r == Done && disk.Synced() && Installed(disk.now, id, former, file) && faults == old(faults)[4..]
      ensures r == Done && reorders ==> HazardPassed(exposed)
      ensures StaysTracked()
      ensures r.Failed? ==> Recallable(disk, id, file)
      ensures old(Quiet()) ==> Quiet()
    {
      var installed := Rename(Candidate, Target);
      if !installed {
        r := RollBack(former, file);
        return;
      }
      if reorders {
        assert old(disk).now in disk.survivors && Hazard(disk, true, true) && disk in exposed;
      }
      var synced := Sync();
      if !synced {
        return Failed(InternalError);
      }
      r := Confirm(former, file);
    }

    /** Opens the installed snapshot; a snapshot that does not open is withdrawn. */
    method Confirm(ghost former: Inode, ghost file: Inode) returns (r: Outcome)
      requires disk.Synced() && Installed(disk.now, id, former, file)
      requires handle == None
      requires former != file
      modifies this`disk, this`exposed, this`trail, this`faults, this`handle
      ensures disk.store == old(disk).store
      ensures Agrees(former, file)
      ensures forall x | x in exposed && x !in old(exposed) :: Safe(x, id, former, file) && x.store == disk.store
      ensures r == Done ==> handle == Some(file) && engine.opens(disk.Read(file))
      ensures r.Failed? ==> handle == None || (handle == Some(former) && AllCalm(disk, id, former))
      ensures old(Quiet()) && engine.opens(disk.Read(file)) ==>
                r == Done && disk.Synced() && disk.now == Directory(Some(file), None, None, Missing)
      ensures old(FailsAfter(1)) && engine.opens(disk.Read(file)) ==> r == Done && disk == old(disk) && faults == old(faults)[2..]
      ensures r == Done ==> old(exposed) <= exposed
      ensures StaysTracked()
      ensures r.Failed? ==> Recallable(disk, id, file)
      ensures old(Quiet()) ==> Quiet()
    {
      var reopened := OpenTarget();
      if reopened.Some? {
        handle := reopened;
        CleanupCommitted(former, file);
        return Done;
      }
      var removed := Remove(Target);
      if !removed {
        return Failed(RecoveryRequired);
      }
      var synced := Sync();
      if !synced {
        return Failed(InternalError);
      }
      r := RollBack(former, file);
    }

    /** Moves the former live file back after a failed or rejected installation. */
    method RollBack(ghost former: Inode, ghost file: Inode) returns (r: Outcome)
      requires disk.Synced() && (Swapped(disk.now, id, former, file) || Withdrawn(disk.now, id, former))
      requires handle == None
      requires former != file
      modifies this`disk, this`exposed, this`trail, this`faults, this`handle
      ensures disk.store == old(disk).store && r.Failed?
      ensures Agrees(former, file)
      ensures forall x | x in exposed && x !in old(exposed) :: Safe(x, id, former, file) && x.store == disk.store
      ensures handle == None || (handle == Some(former) && AllCalm(disk, id, former))
      ensures StaysTracked()
      ensures Recallable(disk, id, file)
      ensures old(Quiet()) ==> Quiet()
    {
      var restored := Rename(Backup, Target);
      if !restored {
        return Failed(RecoveryRequired);
      }
      var synced := Sync();
      if !synced {
        return Failed(InternalError);
      }
      r := Reopen();
    }

    /** Opens the live file again and abandons the restore. */
    method Reopen() returns (r: Outcome)
      requires disk.now.target.Some? && AllCalm(disk, id, disk.now.target.value)
      requires disk.Synced() && disk.now.journal == Prepared(id)
      requires handle == None
      modifies this`disk, this`exposed, this`trail, this`faults, this`handle
      ensures disk.store == old(disk).store && r.Failed?
      ensures disk.now.target == old(disk.now).target
      ensures AllCalm(disk, id, disk.now.target.value)
      ensures forall x | x in exposed && x !in old(exposed) :: AllCalm(x, id, disk.now.target.value) && x.store == disk.store
      ensures handle == None || handle == disk.now.target
      ensures handle == None ==> disk == old(disk)
      ensures StaysTracked()
      ensures old(Quiet()) ==> Quiet()
    {
      var reopened := OpenTarget();
      if reopened.None? {
        return Failed(RecoveryRequired);
      }
      handle := reopened;
      var cleaned := CleanupUncommitted();
      return Failed(if cleaned then InternalError else RecoveryRequired);
    }

    /** A client writes through the open handle. */
    method ClientWrite(bytes: Content)
      modifies this`disk, this`exposed, this`trail
      ensures disk == if handle.Some? then AfterWrite(old(disk), handle.value, bytes) else old(disk)
      ensures exposed == old(exposed) + {disk}
      ensures old(Running()) ==> Running()
      ensures StaysTracked()
    {
      if handle.Some? {
        Write(handle.value, bytes);
      } else {
        Note(disk);
      }
    }

    /** Replaces the Database by a snapshot. `meanwhile` is what other clients
        last wrote before the restore takes the handle's lock. */
    method RestoreSnapshot(bytes: Content, meanwhile: Option<Content>) returns (r: Outcome, wrote: bool)
      requires Running()
      modifies this
      ensures Running()
      ensures misjudged == old(misjudged)
      ensures old(disk.now).journal.Missing? ==>
                && Honours(disk, old(disk), disk, origin, staged, bytes)
                && forall x | x in exposed && x !in old(exposed) :: Honours(x, old(disk), disk, origin, staged, bytes)
      ensures r == Done ==>
                && handle == Some(old(nextFile))
                && engine.Prepare(bytes) == Some(disk.Read(old(nextFile)))
      ensures r.Failed? && handle.Some? ==> handle == old(handle)
      ensures old(handle).Some? && handle == None ==> disk.now.journal == Prepared(id)
      ensures old(disk.now).journal.Missing? ==> old(disk.now).target == Some(origin) && staged in {origin, old(nextFile)}
      ensures !old(disk.now).journal.Missing? ==>
                r.Failed? && !wrote && handle == old(handle) && disk == old(disk) && exposed == old(exposed) && origin == old(origin) && staged == old(staged)
      ensures wrote ==> meanwhile.Some? && old(handle).Some?
      ensures KeepsOthers(disk, old(disk), old(handle), old(nextFile), if wrote then meanwhile else None)
      ensures old(FailsAfter(13)) && old(handle).Some? && Plain(old(disk.now)) &&
              engine.Prepare(bytes).Some? && engine.opens(engine.Prepare(bytes).value) ==>
                r == Done && disk.Synced() && Installed(disk.now, id, origin, staged) && faults == old(faults)[14..]
      ensures r == Done && reorders ==> HazardPassed(exposed)
      ensures old(Quiet()) && old(handle).Some? && old(disk.now).journal.Missing? &&
              engine.Prepare(bytes).Some? && engine.opens(engine.Prepare(bytes).value) ==>
                r == Done && disk.Synced() && disk.now == Directory(Some(old(nextFile)), None, None, Missing)
      ensures StaysTracked()
      ensures old(disk.now).journal.Missing? && r.Failed? && origin != staged ==> Recallable(disk, id, staged)
      ensures old(FailsAfter(9)) && old(handle).Some? && Plain(old(disk.now)) && engine.Prepare(bytes).Some? ==>
                r.Failed? && handle == None && Swapped(disk.now, id, origin, staged) && engine.Prepare(bytes) == Some(disk.Read(staged)) && faults == old(faults)[10..]
      ensures old(Quiet()) ==> Quiet()
    {
      if disk.now.journal.Missing? {
        origin, staged := disk.now.target.value, disk.now.target.value;
      }
      wrote := false;
      var refusal := Preflight(bytes);
      if refusal.Some? {
        return Failed(refusal.value), wrote;
      }
      r, wrote := Replace(bytes, meanwhile);
    }

    /** Refuses an empty snapshot and a directory with leftovers of a restore. */
    method Preflight(bytes: Content) returns (refusal: Option<Failure>)
      modifies this`disk, this`exposed, this`trail, this`faults
      ensures disk.store == old(disk).store
      ensures refusal.None? ==> Plain(disk.now) && bytes != []
      ensures !old(disk.now).journal.Missing? ==> refusal.Some? && disk == old(disk) && exposed == old(exposed)
      ensures old(disk.now).target.Some? && AllCalm(old(disk), id, old(disk.now).target.value) ==>
                && disk.now.target == old(disk.now).target && AllCalm(disk, id, disk.now.target.value)
                && forall x | x in exposed && x !in old(exposed) :: AllCalm(x, id, disk.now.target.value) && x.store == disk.store
      ensures Plain(old(disk.now)) && bytes != [] ==> refusal.None? && disk == old(disk) && exposed == old(exposed) && faults == old(faults)
      ensures old(Quiet()) && bytes != [] && old(disk.now).journal.Missing? && old(disk.now).target.Some? && old(disk.now).backup == None ==>
                Quiet() && refusal.None?
      ensures StaysTracked()
      ensures old(Quiet()) ==> Quiet()
    {
      if bytes == [] {
        return Some(SnapshotIncompatible);
      }
      var tidy := CleanupUnjournaledCandidate();
      if tidy != Recovered {
        return Some(InternalError);
      }
      if disk.now.candidate.Some? || disk.now.backup.Some? || !disk.now.journal.Missing? {
        return Some(RecoveryRequired);
      }
      return None;
    }

    /** Stages and swaps; a candidate that a failure leaves without a journal goes. */
    method Replace(bytes: Content, meanwhile: Option<Content>) returns (r: Outcome, wrote: bool)
      requires Running() && disk.now.target == Some(origin) && AllCalm(disk, id, origin)
      requires disk.now.candidate.None? && disk.now.journal.Missing?
      modifies this
      ensures Running() && origin == old(origin) && staged == old(nextFile)
      ensures misjudged == old(misjudged)
      ensures Honours(disk, old(disk), disk, origin, staged, bytes)
      ensures forall x | x in exposed && x !in old(exposed) :: Honours(x, old(disk), disk, origin, staged, bytes)
      ensures r == Done ==> handle == Some(staged) && engine.Prepare(bytes) == Some(disk.Read(staged))
      ensures r.Failed? && handle.Some? ==> handle == old(handle)
      ensures old(handle).Some? && handle == None ==> disk.now.journal == Prepared(id)
      ensures wrote ==> meanwhile.Some? && old(handle).Some?
      ensures KeepsOthers(disk, old(disk), old(handle), staged, if wrote then meanwhile else None)
      ensures r == Done && reorders ==> HazardPassed(exposed)
      ensures old(Quiet()) && old(handle).Some? &&
              engine.Prepare(bytes).Some? && engine.opens(engine.Prepare(bytes).value) ==>
                r == Done && disk.Synced() && disk.now == Directory(Some(staged), None, None, Missing)
      ensures old(FailsAfter(13)) && old(handle).Some? &&
              engine.Prepare(bytes).Some? && engine.opens(engine.Prepare(bytes).value) ==>
                r == Done && disk.Synced() && Installed(disk.now, id, origin, staged) && faults == old(faults)[14..]
      ensures StaysTracked()
      ensures r.Failed? ==> Recallable(disk, id, staged)
      ensures old(FailsAfter(9)) && old(handle).Some? && engine.Prepare(bytes).Some? ==>
                r.Failed? && handle == None && Swapped(disk.now, id, origin, staged) && engine.Prepare(bytes) == Some(disk.Read(staged)) && faults == old(faults)[10..]
      ensures old(Quiet()) ==> Quiet()
    {
      r, wrote := StageAndSwap(bytes, meanwhile);
      if r.Failed? && disk.now.candidate.Some? && disk.now.journal.Missing? {
        DiscardCandidate();
      }
    }

    /** A directory with its live file and nothing else. */
    static predicate Plain(d: Directory) {
      d == Directory(d.target, None, None, Missing)
    }

    method DiscardCandidate()
      requires disk.now.target.Some? && AllCalm(disk, id, disk.now.target.value)
      modifies this`disk, this`exposed, this`trail, this`faults
      ensures disk.store == old(disk).store
      ensures disk.now.(candidate := None) == old(disk.now).(candidate := None)
      ensures AllCalm(disk, id, disk.now.target.value)
      ensures forall x | x in exposed && x !in old(exposed) :: AllCalm(x, id, disk.now.target.value) && x.store == disk.store
      ensures StaysTracked()
      ensures old(Quiet()) ==> Quiet()
    {
      ghost var file := disk.now.target.value;
      var removed := DropCandidate(file);
      if removed {
        var synced := SyncCalm(file);
      }
    }

    method StageAndSwap(bytes: Content, meanwhile: Option<Content>) returns (r: Outcome, wrote: bool)
      requires Running() && disk.now.target == Some(origin) && AllCalm(disk, id, origin)
      requires disk.now.candidate.None? && disk.now.journal.Missing?
      modifies this
      ensures Running() && origin == old(origin) && staged == old(nextFile)
      ensures disk.now.journal.Missing? ==> AllCalm(disk, id, if r == Done then staged else origin)
      ensures misjudged == old(misjudged)
      ensures Honours(disk, old(disk), disk, origin, staged, bytes)
      ensures forall x | x in exposed && x !in old(exposed) :: Honours(x, old(disk), disk, origin, staged, bytes)
      ensures r == Done ==> handle == Some(staged) && engine.Prepare(bytes) == Some(disk.Read(staged))
      ensures r.Failed? && handle.Some? ==> handle == old(handle)
      ensures old(handle).Some? && handle == None ==> disk.now.journal == Prepared(id)
      ensures wrote ==> meanwhile.Some? && old(handle).Some?
      ensures KeepsOthers(disk, old(disk), old(handle), staged, if wrote then meanwhile else None)
      ensures r == Done && reorders ==> HazardPassed(exposed)
      ensures old(Quiet()) && old(handle).Some? &&
              engine.Prepare(bytes).Some? && engine.opens(engine.Prepare(bytes).value) ==>
                r == Done && disk.Synced() && disk.now == Directory(Some(staged), None, None, Missing)
      ensures old(FailsAfter(13)) && old(handle).Some? &&
              engine.Prepare(bytes).Some? && engine.opens(engine.Prepare(bytes).value) ==>
                r == Done && disk.Synced() && Installed(disk.now, id, origin, staged) && faults == old(faults)[14..]
      ensures StaysTracked()
      ensures r.Failed? ==> Recallable(disk, id, staged)
      ensures old(FailsAfter(9)) && old(handle).Some? && engine.Prepare(bytes).Some? ==>
                r.Failed? && handle == None && Swapped(disk.now, id, origin, staged) && engine.Prepare(bytes) == Some(disk.Read(staged)) && faults == old(faults)[10..]
      ensures old(Quiet()) ==> Quiet()
    {
      staged, wrote := nextFile, false;
      r := Stage(bytes);
      if r.Failed? {
        return;
      }
      ghost var ready, seen := disk, exposed;
      r, wrote := LockAndSwap(bytes, meanwhile);
      assert forall x | x in exposed && x !in seen :: Honours(x, ready, disk, origin, staged, bytes);
    }

    /** Other clients write until the lock is taken; then the files are swapped. */
    method LockAndSwap(bytes: Content, meanwhile: Option<Content>) returns (r: Outcome, wrote: bool)
      requires disk.Synced() && disk.now == Directory(Some(origin), Some(staged), None, Prepared(id))
      requires engine.Prepare(bytes) == Some(disk.Read(staged)) && origin != staged
      requires handle.Some? ==> handle == Some(origin)
      modifies this`disk, this`exposed, this`trail, this`faults, this`handle
      ensures Agrees(origin, staged)
      ensures Honours(disk, old(disk), disk, origin, staged, bytes)
      ensures forall x | x in exposed && x !in old(exposed) :: Honours(x, old(disk), disk, origin, staged, bytes)
      ensures r == Done ==> handle == Some(staged)
      ensures r.Failed? ==> handle == None || (handle == Some(origin) && AllCalm(disk, id, origin))
      ensures old(handle) == None ==> handle == None
      ensures disk.Read(staged) == old(disk).Read(staged)
      ensures wrote ==> meanwhile.Some? && old(handle).Some?
      ensures KeepsOthers(disk, old(disk), old(handle), staged, if wrote then meanwhile else None)
      ensures r == Done && reorders ==> HazardPassed(exposed)
      ensures old(Quiet()) && old(handle).Some? && engine.opens(disk.Read(staged)) ==>
                r == Done && disk.Synced() && disk.now == Directory(Some(staged), None, None, Missing)
      ensures old(FailsAfter(6)) && old(handle).Some? && engine.opens(disk.Read(staged)) ==>
                r == Done && disk.Synced() && Installed(disk.now, id, origin, staged) && faults == old(faults)[7..]
      ensures StaysTracked()
      ensures r.Failed? ==> Recallable(disk, id, staged)
      ensures old(FailsAfter(2)) && old(handle).Some? ==>
                r.Failed? && handle == None && Swapped(disk.now, id, origin, staged) && faults == old(faults)[3..]
      ensures old(Quiet()) ==> Quiet()
    {
      wrote := meanwhile.Some? && handle.Some?;
      if meanwhile.Some? {
        ClientWrite(meanwhile.value);
      }
      ghost var locked := disk;
      assert AllCalm(locked, id, origin);
      r := Swap(origin, staged);
    }

    /** A crash in state `x` leads back to the former live file, with its content
        of then, or on to the prepared snapshot. */
    ghost predicate Honours(x: Disk, before: Disk, after: Disk, former: Inode, file: Inode, bytes: Content)
    {
      && Safe(x, id, former, file)
      && (x.Read(former) == before.Read(former) || x.Read(former) == after.Read(former))
      && (AllCalm(x, id, former) ||
          (engine.Prepare(bytes) == Some(x.Read(file)) && x.Read(former) == after.Read(former)))
    }

    // ---- startup recovery ----

    method Validate() returns (ok: bool)
      requires disk.now.target.Some?
      modifies this`faults, this`misjudged
      ensures ok ==> engine.Accepts(disk.Read(disk.now.target.value))
      ensures misjudged == (old(misjudged) || (!ok && engine.Accepts(disk.Read(disk.now.target.value))))
      ensures ok == (!(old(faults) != [] && old(faults)[0]) && engine.Accepts(disk.Read(disk.now.target.value)))
      ensures faults == Later(old(faults), 1)
      ensures old(Quiet()) ==>
                Quiet() && misjudged == old(misjudged) && (ok <==> engine.Accepts(disk.Read(disk.now.target.value)))
    {
      var fault := Strikes();
      var accepted := engine.Accepts(disk.Read(disk.now.target.value));
      ok := !fault && accepted;
      misjudged := misjudged || (fault && accepted);
    }

    method MoveIntoPlace(source: Slot) returns (ok: bool)
      requires disk.now.Get(source).Some?
      modifies this`disk, this`exposed, this`trail, this`faults
      ensures Follows(MoveStates(old(disk), source, reorders), old(exposed))
      ensures ok ==> disk == MoveStates(old(disk), source, reorders)[2]
      ensures old(Quiet()) ==> Quiet() && ok
      ensures StaysTracked()
    {
      ok := Rename(source, Target);
      if ok {
        ok := Sync();
      }
    }

    /** Puts the original back in place of a rejected snapshot. */
    method RestoreOriginal() returns (ok: bool)
      requires disk.now.target.Some? && disk.now.backup.Some?
      modifies this`disk, this`exposed, this`trail, this`faults
      ensures Follows(RollbackStates(old(disk), reorders), old(exposed))
      ensures ok ==> disk == RollbackStates(old(disk), reorders)[4]
      ensures old(Quiet()) ==> Quiet() && ok
      ensures StaysTracked()
    {
      ghost var states := RollbackStates(disk, reorders);
      assert states[0] == disk && states[2..] == MoveStates(states[2], Backup, reorders);
      ok := Remove(Target);
      if !ok {
        return;
      }
      ok := Sync();
      if !ok {
        return;
      }
      ok := MoveIntoPlace(Backup);
    }

    /** Removes the leftovers and syncs. */
    method RemoveLeftovers() returns (ok: bool)
      modifies this`disk, this`exposed, this`trail, this`faults
      ensures Follows(FinishStates(old(disk), reorders)[..4], old(exposed))
      ensures ok ==> disk == FinishStates(old(disk), reorders)[3]
      ensures old(Quiet()) ==> Quiet() && ok
      ensures StaysTracked()
    {
      ghost var states := FinishStates(disk, reorders);
      assert states[..4] == [states[0], states[1], states[2], states[3]];
      ok := Remove(Candidate);
      if !ok {
        return;
      }
      assert disk == states[1];
      ok := Remove(Backup);
      if !ok {
        return;
      }
      assert disk == states[2];
      ok := Sync();
    }

    /** Removes the leftovers, then the journal. */
    method FinishRecovery() returns (ok: bool)
      modifies this`disk, this`exposed, this`trail, this`faults
      ensures Follows(FinishStates(old(disk), reorders), old(exposed))
      ensures ok ==> disk == FinishStates(old(disk), reorders)[5]
      ensures old(Quiet()) ==> Quiet() && ok
      ensures StaysTracked()
    {
      ghost var states := FinishStates(disk, reorders);
      ok := RemoveLeftovers();
      assert forall x | x in states[..4] :: x in states;
      if !ok {
        return;
      }
      ok := DeleteJournal();
      if !ok {
        return;
      }
      assert disk == states[4];
      ok := Sync();
    }

    /** Keeps an installed snapshot that passes its checks and otherwise puts the
        original back, then finishes. */
    method JudgeInstalled() returns (r: Recovery, accepted: bool)
      requires disk.now.target.Some? && disk.now.backup.Some?
      modifies this`disk, this`exposed, this`trail, this`faults, this`misjudged
      ensures Follows(VerdictStates(old(disk), accepted, reorders), old(exposed))
      ensures r == Recovered ==> disk == Last(VerdictStates(old(disk), accepted, reorders))
      ensures !misjudged ==> !old(misjudged) && accepted == engine.Accepts(old(disk).Read(old(disk.now).target.value))
      ensures misjudged == (old(misjudged) || Misjudges(old(disk.now), old(disk), engine, r, accepted))
      ensures r in {Recovered, Interrupted, Refused(OriginalInvalid)}
      ensures old(Quiet()) ==>
                && Quiet() && misjudged == old(misjudged) && accepted == engine.Accepts(old(disk).Read(Judged(old(disk.now))))
                && r == (if accepted || engine.Accepts(old(disk).Read(old(disk.now).backup.value)) then Recovered else Refused(OriginalInvalid))
      ensures old(faults) == [true] && engine.Accepts(old(disk).Read(old(disk.now).backup.value)) ==> !accepted && r == Recovered && Quiet()
      ensures StaysTracked()
    {
      accepted := Validate();
      if accepted {
        var ok := FinishRecovery();
        r := if ok then Recovered else Interrupted;
      } else {
        r := WithdrawInstalled();
      }
    }

    /** Puts the original back, checks it and finishes. */
    method WithdrawInstalled() returns (r: Recovery)
      requires disk.now.target.Some? && disk.now.backup.Some?
      modifies this`disk, this`exposed, this`trail, this`faults, this`misjudged
      ensures Follows(VerdictStates(old(disk), false, reorders), old(exposed))
      ensures r == Recovered ==> disk == Last(VerdictStates(old(disk), false, reorders))
      ensures misjudged == (old(misjudged) || (r == Refused(OriginalInvalid) && engine.Accepts(old(disk).Read(old(disk.now).backup.value))))
      ensures r in {Recovered, Interrupted, Refused(OriginalInvalid)}
      ensures old(Quiet()) ==>
                && Quiet() && misjudged == old(misjudged)
                && r == (if engine.Accepts(old(disk).Read(old(disk.now).backup.value)) then Recovered else Refused(OriginalInvalid))
      ensures StaysTracked()
    {
      var ok := RestoreOriginal();
      if !ok {
        return Interrupted;
      }
      var valid := Validate();
      if !valid {
        return Refused(OriginalInvalid);
      }
      ok := FinishRecovery();
      return if ok then Recovered else Interrupted;
    }

    /** Completes an installation that stopped between its two renames. */
    method CompleteInstall() returns (r: Recovery, accepted: bool)
      requires disk.now.target.None? && disk.now.candidate.Some? && disk.now.backup.Some?
      modifies this`disk, this`exposed, this`trail, this`faults, this`misjudged
      ensures Follows(RecoveryStates(old(disk), accepted, reorders), old(exposed))
      ensures r == Recovered ==> disk == Last(RecoveryStates(old(disk), accepted, reorders))
      ensures !misjudged ==> !old(misjudged) && accepted == engine.Accepts(old(disk).Read(Judged(old(disk.now))))
      ensures misjudged == (old(misjudged) || Misjudges(old(disk.now), old(disk), engine, r, accepted))
      ensures r in {Recovered, Interrupted, Refused(OriginalInvalid)}
      ensures old(Quiet()) ==>
                && Quiet() && misjudged == old(misjudged) && accepted == engine.Accepts(old(disk).Read(Judged(old(disk.now))))
                && r == (if accepted || engine.Accepts(old(disk).Read(old(disk.now).backup.value)) then Recovered else Refused(OriginalInvalid))
      ensures StaysTracked()
    {
      accepted := engine.Accepts(disk.Read(Judged(disk.now)));
      var ok := MoveIntoPlace(Candidate);
      if !ok {
        return Interrupted, accepted;
      }
      r, accepted := JudgeInstalled();
    }

    /** Completes a rollback that stopped before its rename. */
    method CompleteRollback() returns (r: Recovery)
      requires disk.now.target.None? && disk.now.candidate.None? && disk.now.backup.Some?
      modifies this`disk, this`exposed, this`trail, this`faults
      ensures forall accepted :: Follows(RecoveryStates(old(disk), accepted, reorders), old(exposed))
      ensures forall accepted :: r == Recovered ==> disk == Last(RecoveryStates(old(disk), accepted, reorders))
      ensures r in {Recovered, Interrupted}
      ensures old(Quiet()) ==> Quiet() && r == Recovered
      ensures StaysTracked()
    {
      var ok := MoveIntoPlace(Backup);
      if ok {
        ok := FinishRecovery();
      }
      r := if ok then Recovered else Interrupted;
    }

    /** Settles a journaled restore, whatever step it had reached. */
    method RecoverJournaled() returns (r: Recovery, accepted: bool)
      modifies this`disk, this`exposed, this`trail, this`faults, this`misjudged
      ensures Follows(RecoveryStates(old(disk), accepted, reorders), old(exposed))
      ensures r == Recovered ==> disk == Last(RecoveryStates(old(disk), accepted, reorders))
      ensures !misjudged ==> !old(misjudged) && accepted == engine.Accepts(old(disk).Read(Judged(old(disk.now))))
      ensures misjudged == (old(misjudged) || Misjudges(old(disk.now), old(disk), engine, r, accepted))
      ensures misjudged && !old(misjudged) ==> Doubtful(old(disk), engine)
      ensures r == Refused(Inconsistent) <==> Final(old(disk.now), old(disk), engine) == None
      ensures r in {Recovered, Interrupted, Refused(OriginalInvalid), Refused(Inconsistent)}
      ensures old(Quiet()) ==>
                && Quiet() && r != Interrupted && misjudged == old(misjudged)
                && accepted == engine.Accepts(old(disk).Read(Judged(old(disk.now))))
                && (r == Refused(OriginalInvalid) <==> Spoilt(old(disk.now), old(disk), engine))
      ensures (&& old(faults) == [true] && old(disk.now).target.Some? && old(disk.now).candidate.None? && old(disk.now).backup.Some?
               && engine.Accepts(old(disk).Read(old(disk.now).backup.value))) ==> !accepted && r == Recovered && Quiet()
      ensures StaysTracked()
    {
      var d := disk.now;
      accepted := engine.Accepts(disk.Read(Judged(d)));
      if d.target.Some? && d.backup.None? {
        var ok := FinishRecovery();
        r := if ok then Recovered else Interrupted;
      } else if d.target.None? && d.candidate.Some? && d.backup.Some? {
        r, accepted := CompleteInstall();
      } else if d.target.Some? && d.candidate.None? && d.backup.Some? {
        r, accepted := JudgeInstalled();
      } else if d.target.None? && d.candidate.None? && d.backup.Some? {
        r := CompleteRollback();
      } else {
        r := Refused(Inconsistent);
      }
    }

    method SettleJournaled(ghost former: Inode, ghost file: Inode) returns (r: Recovery, accepted: bool)
      requires disk.now.journal == Prepared(id)
      modifies this`disk, this`exposed, this`trail, this`faults, this`misjudged
      ensures disk.store == old(disk).store
      ensures old(Covered(disk, id, former, file, reorders)) ==>
                && Harmless(disk, old(disk), id, former, file, engine, reorders, !misjudged)
                && (forall x | x in exposed && x !in old(exposed) ::
                      Harmless(x, old(disk), id, former, file, engine, reorders, !misjudged))
                && (r == Recovered ==> disk.now.target in {Some(former), Some(file)} && Plain(disk.now))
                && (r.Refused? ==> r.reason == OriginalInvalid)
      ensures misjudged == (old(misjudged) || Misjudges(old(disk.now), old(disk), engine, r, accepted))
      ensures misjudged && !old(misjudged) ==> Doubtful(old(disk), engine)
      ensures old(Quiet()) ==> Quiet() && misjudged == old(misjudged)
      ensures Final(old(disk.now), old(disk), engine).Some? && old(Quiet()) ==>
                && Quiet() && misjudged == old(misjudged) && accepted == engine.Accepts(old(disk).Read(Judged(old(disk.now))))
                && r == if Spoilt(old(disk.now), old(disk), engine) then Refused(OriginalInvalid) else Recovered
      ensures r == Recovered ==> disk == Last(RecoveryStates(old(disk), accepted, reorders))
      ensures old(faults) == [true] && Installed(old(disk.now), id, former, file) && engine.Accepts(old(disk).Read(former)) ==>
                !accepted && r == Recovered && Quiet()
      ensures StaysTracked()
    {
      r, accepted := RecoverJournaled();
      RecoveryKeepsContents(old(disk), accepted, reorders);
      if old(Covered(disk, id, former, file, reorders)) {
        RecoveryIsHarmless(old(disk), accepted, id, former, file, engine, reorders, !misjudged);
        RecoveryIsSafe(old(disk), accepted, id, former, file, engine, reorders);
      }
    }

    /** Startup recovery of this Database's directory. Whenever every state a
        restore could have left is recoverable, so is every state a crash of
        recovery can leave, and a successful recovery leaves one of the two files
        in place, nothing else, and every content as it was. */
    method Recover(ghost former: Inode, ghost file: Inode) returns (r: Recovery, accepted: bool)
      modifies this`disk, this`exposed, this`trail, this`faults, this`misjudged
      ensures disk.store == old(disk).store
      ensures old(Covered(disk, id, former, file, reorders)) ==>
                && Harmless(disk, old(disk), id, former, file, engine, reorders, !misjudged)
                && (forall x | x in exposed && x !in old(exposed) ::
                      Harmless(x, old(disk), id, former, file, engine, reorders, !misjudged))
                && (r == Recovered ==> disk.now.target in {Some(former), Some(file)} && Plain(disk.now))
                && (r.Refused? ==> r.reason == OriginalInvalid || (r.reason == Unreadable && disk == old(disk) && disk.now.journal == Partial))
      ensures misjudged == (old(misjudged) || Misjudges(old(disk.now), old(disk), engine, r, accepted))
      ensures misjudged && !old(misjudged) ==> Doubtful(old(disk), engine)
      ensures old(Quiet()) ==> Quiet() && misjudged == old(misjudged)
      ensures old(disk.now) == Directory(old(disk.now).target, None, None, Missing) ==>
                r == Recovered && disk == old(disk) && exposed == old(exposed)
      ensures old(Covered(disk, id, former, file, reorders)) && old(Quiet()) ==>
                && misjudged == old(misjudged) && Quiet()
                && (r == Refused(Unreadable) <==> old(disk.now).journal == Partial)
                && (r == Refused(OriginalInvalid) <==> old(disk.now).journal == Prepared(id) && Spoilt(old(disk.now), old(disk), engine))
                && r != Interrupted
      ensures old(disk.now).journal == Prepared(id) && r == Recovered ==> disk == Last(RecoveryStates(old(disk), accepted, reorders))
      ensures old(disk.now).journal == Prepared(id) && Final(old(disk.now), old(disk), engine).Some? && old(Quiet()) ==>
                && Quiet() && misjudged == old(misjudged) && accepted == engine.Accepts(old(disk).Read(Judged(old(disk.now))))
                && r == if Spoilt(old(disk.now), old(disk), engine) then Refused(OriginalInvalid) else Recovered
      ensures old(faults) == [false, true] && Installed(old(disk.now), id, former, file) && engine.Accepts(old(disk).Read(former)) ==>
                !accepted && r == Recovered && Quiet()
      ensures StaysTracked()
    {
      accepted := true;
      r := CleanupUnjournaledCandidate();
      if r != Recovered || disk.now.journal.Missing? {
        return;
      }
      r, accepted := RecoverRecorded(former, file);
    }

    /** Settles the restore of a directory with a journal, if the journal is whole. */
    method RecoverRecorded(ghost former: Inode, ghost file: Inode) returns (r: Recovery, accepted: bool)
      requires !disk.now.journal.Missing?
      modifies this`disk, this`exposed, this`trail, this`faults, this`misjudged
      ensures disk.store == old(disk).store
      ensures old(Covered(disk, id, former, file, reorders)) ==>
                && Harmless(disk, old(disk), id, former, file, engine, reorders, !misjudged)
                && (forall x | x in exposed && x !in old(exposed) ::
                      Harmless(x, old(disk), id, former, file, engine, reorders, !misjudged))
                && (r == Recovered ==> disk.now.target in {Some(former), Some(file)} && Plain(disk.now))
                && (r.Refused? ==> r.reason == OriginalInvalid || (r.reason == Unreadable && disk == old(disk) && disk.now.journal == Partial))
      ensures misjudged == (old(misjudged) || Misjudges(old(disk.now), old(disk), engine, r, accepted))
      ensures misjudged && !old(misjudged) ==> Doubtful(old(disk), engine)
      ensures old(Quiet()) ==> Quiet() && misjudged == old(misjudged)
      ensures old(Covered(disk, id, former, file, reorders)) && old(Quiet()) ==>
                && (r == Refused(Unreadable) <==> old(disk.now).journal == Partial)
                && (r == Refused(OriginalInvalid) <==> old(disk.now).journal == Prepared(id) && Spoilt(old(disk.now), old(disk), engine))
                && r != Interrupted
      ensures old(disk.now).journal == Prepared(id) && r == Recovered ==> disk == Last(RecoveryStates(old(disk), accepted, reorders))
      ensures old(disk.now).journal == Prepared(id) && Final(old(disk.now), old(disk), engine).Some? && old(Quiet()) ==>
                && accepted == engine.Accepts(old(disk).Read(Judged(old(disk.now))))
                && r == if Spoilt(old(disk.now), old(disk), engine) then Refused(OriginalInvalid) else Recovered
      ensures old(faults) == [false, true] && Installed(old(disk.now), id, former, file) && engine.Accepts(old(disk).Read(former)) ==>
                !accepted && r == Recovered && Quiet()
      ensures StaysTracked()
    {
      accepted := true;
      r := ReadJournal();
      if r == Recovered {
        r, accepted := SettleJournaled(former, file);
      }
    }

    /** Reads the journal and checks that it is this Database's own. */
    method ReadJournal() returns (r: Recovery)
      modifies this`faults
      ensures r == Recovered ==> disk.now.journal == Prepared(id)
      ensures r != Refused(OriginalInvalid)
      ensures r == Refused(Unreadable) ==> !disk.now.journal.Record?
      ensures WrittenHere(disk.now.journal, id) ==> r in {Recovered, Interrupted, Refused(Unreadable)}
      ensures r == Interrupted <==> old(faults) != [] && old(faults)[0]
      ensures disk.now.journal == Prepared(id) && r != Interrupted ==> r == Recovered
      ensures disk.now.journal == Partial && r != Interrupted ==> r == Refused(Unreadable)
      ensures faults == Later(old(faults), 1) && (old(Quiet()) ==> Quiet())
    {
      var fault := Strikes();
      if fault {
        return Interrupted;
      }
      if !disk.now.journal.Record? {
        return Refused(Unreadable);
      }
      if disk.now.journal.version != 1 || disk.now.journal.database != id {
        return Refused(WrongIdentity);
      }
      if disk.now.journal.stage != "prepared" {
        return Refused(WrongStage);
      }
      return Recovered;
    }
  }

  /** Every directory is one that a restore can have left. */
  ghost predicate AllCovered(databases: seq<ManagedDatabase>)
    reads databases
  {
    forall db | db in databases :: Covered(db.disk, db.id, db.origin, db.staged, db.reorders)
  }

  /** Recovery has nothing to refuse: every journal is complete, and every directory
      with a snapshot to judge has a file that passes the check. */
  predicate AllSolvable(databases: seq<ManagedDatabase>)
    reads databases
  {
    forall db | db in databases :: Solvable(db.disk, db.engine)
  }

  predicate AllQuiet(databases: seq<ManagedDatabase>)
    reads databases
  {
    forall db | db in databases :: db.Quiet()
  }

  /** This Database has its file in place and no leftovers. */
  ghost predicate Tidy(db: ManagedDatabase)
    reads db`disk
  {
    ManagedDatabase.Plain(db.disk.now) && db.disk.now.target.Some?
  }

  /** A crash in any state exposed since `seen` leaves a recoverable directory. */
  ghost predicate NewlySafe(db: ManagedDatabase, seen: set<Disk>)
    reads db`exposed, db`origin, db`staged
  {
    forall x | x in db.exposed && x !in seen :: Safe(x, db.id, db.origin, db.staged)
  }

  /** What the recovery of a directory is compared with. */
  datatype Before = Before(disk: Disk, exposed: set<Disk>, trail: seq<Disk>, faults: seq<bool>)

  ghost function Here(db: ManagedDatabase): Before
    reads db`disk, db`exposed, db`trail, db`faults
  {
    Before(db.disk, db.exposed, db.trail, db.faults)
  }

  /** Since then no content has changed and, from files that a restore can have
      left, every state on the way is recoverable; each was reached from the one
      before by one file operation. */
  ghost predicate Handled(db: ManagedDatabase, before: Before)
    reads db`disk, db`exposed, db`trail, db`origin, db`staged
  {
    && db.disk.store == before.disk.store
    && (Covered(before.disk, db.id, db.origin, db.staged, db.reorders) ==>
          Safe(db.disk, db.id, db.origin, db.staged) && NewlySafe(db, before.exposed))
    && (before.trail == [before.disk] && before.disk in before.exposed ==> db.Tracked() && db.trail[0] == before.disk)
  }

  /** The directory was recovered: it is tidy, and there was nothing to refuse. */
  ghost predicate Cleared(db: ManagedDatabase, before: Before)
    reads db`disk, db`exposed, db`trail, db`origin, db`staged
  {
    && Handled(db, before)
    && (Covered(before.disk, db.id, db.origin, db.staged, db.reorders) ==>
          Tidy(db) && ((forall k | 0 <= k < |before.faults| :: !before.faults[k]) ==> Solvable(before.disk, db.engine)))
  }

  lemma UntouchedIsHandled(db: ManagedDatabase)
    ensures Handled(db, Here(db))
  {
  }

  /** Startup recovery of one of the Database directories. */
  method RecoverOne(db: ManagedDatabase) returns (r: Recovery)
    modifies db`disk, db`exposed, db`trail, db`faults, db`misjudged
    ensures Handled(db, old(Here(db))) && (r == Recovered ==> Cleared(db, old(Here(db))))
    ensures old(Covered(db.disk, db.id, db.origin, db.staged, db.reorders)) ==> Explained(r)
    ensures old(Covered(db.disk, db.id, db.origin, db.staged, db.reorders)) && old(db.Quiet()) ==>
              && db.Quiet() && r != Interrupted
              && (r == Recovered <==> old(Solvable(db.disk, db.engine)))
  {
    var accepted;
    r, accepted := db.Recover(db.origin, db.staged);
  }

  /** Startup recovery of every Database directory, in turn; the first one that
      does not recover ends it (`recover_snapshot_operations`). */
  method RecoverAll(databases: seq<ManagedDatabase>) returns (r: Recovery, done: nat)
    requires forall i, j | 0 <= i < j < |databases| :: databases[i] != databases[j]
    modifies databases`disk, databases`exposed, databases`trail, databases`faults, databases`misjudged
    ensures done <= |databases| && (r == Recovered <==> done == |databases|)
    ensures forall k | done < k < |databases| :: databases[k].disk == old(databases[k].disk)
    ensures forall k | 0 <= k < |databases| :: Handled(databases[k], old(Here(databases[k])))
    ensures old(AllCovered(databases)) ==> Explained(r) && forall k | 0 <= k < done :: Tidy(databases[k])
    ensures old(AllCovered(databases)) && old(AllQuiet(databases)) ==> (r == Recovered <==> old(AllSolvable(databases)))
  {
    r, done := Recovered, 0;
    while done < |databases|
      invariant 0 <= done <= |databases| && r == Recovered
      invariant forall k | 0 <= k < done :: Cleared(databases[k], old(Here(databases[k])))
      invariant forall k | done <= k < |databases| :: Here(databases[k]) == old(Here(databases[k]))
    {
      assert databases[done] in databases;
      r := RecoverOne(databases[done]);
      if r != Recovered {
        break;
      }
      done := done + 1;
    }
    forall k | done < k < |databases|
      ensures Handled(databases[k], old(Here(databases[k])))
    {
      UntouchedIsHandled(databases[k]);
    }
  }
}
