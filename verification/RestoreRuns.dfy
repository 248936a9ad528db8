/** Runs of the restore: the one that loses a client's write, the one that completes
    a restore after its error, the hazard that every restore passes, and recoveries
    that are interrupted again and again. */
module RestoreRuns {
  import opened Core
  import opened RestoreFiles
  import opened Restore
  import opened RestoreBarriers

  /** The removal of the former file fails after a restore, and so does, for a
      reason of its own, the check of the file in use at the next start. */
  const SPURIOUS_CHECK := seq(13, _ => false) + [true, false, true]

  /** A restore succeeds with the former file still beside the new one, a client
      writes, and the daemon stops. */
  method WriteBesideTheFormer(db: ManagedDatabase, bytes: Content, later: Content) returns (answer: Outcome)
    requires db.Running() && db.handle.Some? && ManagedDatabase.Plain(db.disk.now) && db.faults == SPURIOUS_CHECK
    requires db.engine.Prepare(bytes).Some? && db.engine.opens(db.engine.Prepare(bytes).value)
    modifies db
    ensures answer == Done && db.handle == None && db.faults == [false, true]
    ensures db.disk.Synced() && Installed(db.disk.now, db.id, db.origin, db.staged) && db.origin != db.staged
    ensures db.disk.Read(db.staged) == later && db.disk.Read(db.origin) == old(db.disk.Read(db.handle.value))
  {
    assert db.disk.now in db.disk.survivors;
    assert db.faults[14..] == [false, true];
    var wrote;
    answer, wrote := db.RestoreSnapshot(bytes, None);
    db.ClientWrite(later);
    db.handle := None;
  }

  /** The next start checks the file in use, the check fails for a reason of its
      own, and clients read the former file. */
  method StartWithSpuriousCheck(db: ManagedDatabase) returns (file: Option<Inode>)
    requires db.faults == [false, true] && db.disk.Synced() && Installed(db.disk.now, db.id, db.origin, db.staged)
    requires db.engine.Accepts(db.disk.Read(db.origin))
    modifies db
    ensures file == Some(db.origin) && db.origin == old(db.origin) && db.disk.store == old(db.disk.store)
  {
    ghost var stopped := db.disk;
    assert Safe(stopped, db.id, db.origin, db.staged);
    var r, accepted := db.Recover(db.origin, db.staged);
    VerdictIsSafe(stopped, accepted, db.id, db.origin, db.staged, db.engine, db.reorders);
    file := db.OpenTarget();
  }

  /** A restore is answered with success, a client writes, the daemon restarts, and
      clients read what the Database held before the restore. */
  method LoseAWrite(db: ManagedDatabase, bytes: Content, later: Content) returns (answer: Outcome, file: Option<Inode>)
    requires db.Running() && db.handle.Some? && ManagedDatabase.Plain(db.disk.now) && db.faults == SPURIOUS_CHECK
    requires db.engine.Accepts(db.disk.Read(db.handle.value))
    requires db.engine.Prepare(bytes).Some? && db.engine.opens(db.engine.Prepare(bytes).value)
    modifies db
    ensures answer == Done
    ensures file.Some? && db.disk.Read(file.value) == old(db.disk.Read(db.handle.value))
  {
    answer := WriteBesideTheFormer(db, bytes, later);
    file := StartWithSpuriousCheck(db);
  }

  /** The recovery of a process that stopped here passes through a state of which a
      power loss may leave files that recovery refuses. */
  ghost predicate Fatal(x: Disk, engine: Engine) {
    && Struck(x, true) in RecoveryStates(x, true, true)
    && exists d | d in Struck(x, true).survivors :: Final(d, Struck(x, true), engine) == None
  }

  lemma HazardIsFatal(x: Disk, id: string, origin: Inode, staged: Inode, engine: Engine)
    requires Safe(x, id, origin, staged) && Hazard(x, true, true)
    ensures Fatal(x, engine)
  {
    var left := HazardStrikes(x, true, id, origin, staged, engine);
  }

  /** Every successful restore on a reordering disk passes through such a state. */
  method PassTheHazard(db: ManagedDatabase, bytes: Content) returns (answer: Outcome)
    requires db.Running() && db.reorders
    modifies db
    ensures answer == Done ==> exists x | x in db.exposed :: Fatal(x, db.engine)
  {
    db.exposed, db.trail := {}, [];
    var wrote;
    answer, wrote := db.RestoreSnapshot(bytes, None);
    if answer == Done {
      ghost var x :| x in db.exposed && Hazard(x, true, true);
      assert db.Honours(x, old(db.disk), db.disk, db.origin, db.staged, bytes);
      HazardIsFatal(x, db.id, db.origin, db.staged, db.engine);
    }
  }

  /** The sync after the live file was moved aside fails. */
  const UNSYNCED_MOVE := seq(9, _ => false) + [true]

  /** The restore is answered with an error, between its two renames. */
  method FailBetweenRenames(db: ManagedDatabase, bytes: Content) returns (answer: Outcome)
    requires db.Running() && db.handle.Some? && ManagedDatabase.Plain(db.disk.now) && db.faults == UNSYNCED_MOVE
    requires db.engine.Prepare(bytes).Some?
    modifies db
    ensures answer.Failed? && db.handle == None && db.faults == []
    ensures Safe(db.disk, db.id, db.origin, db.staged) && Swapped(db.disk.now, db.id, db.origin, db.staged)
    ensures db.engine.Prepare(bytes) == Some(db.disk.Read(db.staged))
  {
    var wrote;
    answer, wrote := db.RestoreSnapshot(bytes, None);
  }

  /** The next start completes the installation. */
  method CompleteAtStart(db: ManagedDatabase) returns (file: Option<Inode>)
    requires db.faults == [] && Safe(db.disk, db.id, db.origin, db.staged) && Swapped(db.disk.now, db.id, db.origin, db.staged)
    requires db.engine.Accepts(db.disk.Read(db.staged))
    modifies db
    ensures file == Some(db.staged) && db.staged == old(db.staged) && db.disk.store == old(db.disk.store)
  {
    ghost var stopped := db.disk;
    var r, accepted := db.Recover(db.origin, db.staged);
    RecoveryIsSafe(stopped, accepted, db.id, db.origin, db.staged, db.engine, db.reorders);
    assert db.disk in RecoveryStates(stopped, accepted, db.reorders);
    file := db.OpenTarget();
  }

  /** A restore is answered with an error, and the next start installs its snapshot. */
  method RollForwardAfterError(db: ManagedDatabase, bytes: Content) returns (answer: Outcome, file: Option<Inode>)
    requires db.Running() && db.handle.Some? && ManagedDatabase.Plain(db.disk.now) && db.faults == UNSYNCED_MOVE
    requires db.engine.Prepare(bytes).Some? && db.engine.Accepts(db.engine.Prepare(bytes).value)
    modifies db
    ensures answer.Failed?
    ensures file.Some? && db.engine.Prepare(bytes) == Some(db.disk.Read(file.value))
  {
    answer := FailBetweenRenames(db, bytes);
    file := CompleteAtStart(db);
  }

  /** What an error means: recovery after a restore that failed leads back to the
      original exactly if the original is in place, or the snapshot was withdrawn
      already, or the engine does not accept it. Otherwise it installs the snapshot. */
  lemma ErrorLeadsBack(disk: Disk, d: Directory, id: string, origin: Inode, staged: Inode, engine: Engine)
    requires Safe(disk, id, origin, staged) && Recallable(disk, id, staged) && origin != staged && d in disk.survivors
    ensures Final(d, disk, engine) == Some(origin) <==>
            d.target == Some(origin) || Withdrawn(d, id, origin) || !engine.Accepts(disk.Read(staged))
    ensures Final(d, disk, engine) in {Some(origin), Some(staged)}
  {
    assert Recoverable(d, id, origin, staged);
  }

  /** One recovery: the states it passed through and its answer. */
  datatype Leg = Leg(passed: seq<Disk>, r: Recovery)

  /** The recovery began at `first`. It was stopped if it passed through the given
      state, and otherwise ran to its own end. */
  ghost predicate Travelled(leg: Leg, stop: (Disk, Disk), first: Disk, next: Disk, reorders: bool) {
    && leg.passed != [] && leg.passed[0] == first && Walk(leg.passed, reorders)
    && next == if stop.0 in leg.passed && Crash(stop.0, stop.1) then stop.1 else leg.passed[|leg.passed| - 1]
  }

  /** These crashes stop the process only. */
  predicate Processes(stops: seq<(Disk, Disk)>) {
    forall k | 0 <= k < |stops| :: stops[k].0 == stops[k].1
  }

  /** Recovery that crashes interrupt any number of times, at any states it passes
      through. As long as it judges files rightly, every interruption leaves files
      that lead to the same live file: for process crashes on any disk, and for
      power losses too on a disk that keeps changes in order. It ends early only in
      the hazardous state, and the last recovery succeeds if nothing fails. */
  method RecoverThrough(db: ManagedDatabase, stops: seq<(Disk, Disk)>) returns (legs: seq<Leg>, trace: seq<Disk>, last: Leg)
    requires Covered(db.disk, db.id, db.origin, db.staged, db.reorders)
    modifies db`disk, db`exposed, db`trail, db`faults, db`misjudged
    ensures |legs| <= |stops| && |trace| == |legs| + 1 && trace[0] == old(db.disk)
    ensures forall k | 0 <= k < |legs| :: Travelled(legs[k], stops[k], trace[k], trace[k + 1], db.reorders)
    ensures |legs| < |stops| ==> Hazardous(trace[|legs|], db.reorders)
    ensures if Hazardous(trace[|legs|], db.reorders) then db.disk == trace[|legs|] && last.r == Interrupted
            else Path(last.passed, trace[|legs|], db.disk, db.reorders)
    ensures old(db.Quiet()) && !Hazardous(trace[|legs|], db.reorders) ==> (last.r == Recovered <==> Solvable(trace[|legs|], db.engine))
    ensures db.disk.store == old(db.disk).store && Safe(db.disk, db.id, db.origin, db.staged)
    ensures var file := Final(old(db.disk.now), old(db.disk), db.engine);
            !db.misjudged && (Processes(stops) || (!db.reorders && LeadsAll(old(db.disk), db.engine, file))) ==>
              && Leads(db.disk, db.engine, file)
              && (last.r == Recovered ==> db.disk.now == Directory(file, None, None, Missing))
    ensures old(db.Quiet()) ==> db.misjudged == old(db.misjudged)
    ensures db.misjudged && !old(db.misjudged) ==> exists k | 0 <= k < |trace| :: Doubtful(trace[k], db.engine)
  {
    ghost var file := Final(db.disk.now, db.disk, db.engine);
    ghost var certain := Processes(stops) || (!db.reorders && LeadsAll(db.disk, db.engine, file));
    legs, trace, last := [], [db.disk], Leg([], Interrupted);
    while |legs| < |stops| && !Hazardous(db.disk, db.reorders)
      invariant |legs| <= |stops| && |trace| == |legs| + 1 && trace[0] == old(db.disk) && trace[|legs|] == db.disk
      invariant forall k | 0 <= k < |legs| :: Travelled(legs[k], stops[k], trace[k], trace[k + 1], db.reorders)
      invariant db.disk.store == old(db.disk).store && Safe(db.disk, db.id, db.origin, db.staged)
      invariant old(db.Quiet()) ==> db.Quiet() && db.misjudged == old(db.misjudged)
      invariant old(db.misjudged) ==> db.misjudged
      invariant db.misjudged && !old(db.misjudged) ==> exists k | 0 <= k < |legs| :: Doubtful(trace[k], db.engine)
      invariant certain && !db.misjudged ==> Leads(db.disk, db.engine, file)
      invariant certain && !db.misjudged && !Processes(stops) ==> LeadsAll(db.disk, db.engine, file)
      decreases |stops| - |legs|
    {
      ghost var before := trace;
      var leg := RecoverOnce(db, stops[|legs|], file, Processes(stops));
      legs, trace := legs + [leg], trace + [db.disk];
      assert forall k | 0 <= k < |legs| :: trace[k] == before[k];
    }
    if !Hazardous(db.disk, db.reorders) {
      last := RecoverOnceMore(db, file);
    }
  }

  lemma CrashLeads(x: Disk, left: Disk, start: Disk, engine: Engine, file: Option<Inode>, reorders: bool)
    requires Faithful(x, start, engine, reorders) && Crash(x, left) && x.now in x.survivors && Leads(start, engine, file)
    ensures x == left ==> Leads(left, engine, file)
    ensures !reorders && LeadsAll(start, engine, file) ==> Leads(left, engine, file) && LeadsAll(left, engine, file)
  {
  }

  lemma StartIsFaithful(disk: Disk, engine: Engine, reorders: bool)
    ensures Faithful(disk, disk, engine, reorders)
  {
  }

  /** One recovery that no crash stops, and the states it passes through. */
  method RecoverTracked(db: ManagedDatabase) returns (leg: Leg)
    requires Covered(db.disk, db.id, db.origin, db.staged, db.reorders)
    modifies db`disk, db`exposed, db`trail, db`faults, db`misjudged
    ensures Path(leg.passed, old(db.disk), db.disk, db.reorders)
    ensures forall x | x in leg.passed :: Sound(x, old(db.disk), db.id, db.origin, db.staged)
    ensures !db.misjudged ==> !old(db.misjudged) && forall x | x in leg.passed :: Faithful(x, old(db.disk), db.engine, db.reorders)
    ensures leg.r == Recovered ==> ManagedDatabase.Plain(db.disk.now)
    ensures old(db.Quiet()) ==> db.Quiet() && (leg.r == Recovered <==> Solvable(old(db.disk), db.engine))
    ensures old(db.Quiet()) ==> db.misjudged == old(db.misjudged)
    ensures db.misjudged && !old(db.misjudged) ==> Doubtful(old(db.disk), db.engine)
  {
    db.exposed, db.trail := {db.disk}, [db.disk];
    StartIsFaithful(db.disk, db.engine, db.reorders);
    var r, accepted := db.Recover(db.origin, db.staged);
    leg := Leg(db.trail, r);
  }

  /** One recovery, stopped on its way if it passes through the given state. */
  method RecoverOnce(db: ManagedDatabase, stop: (Disk, Disk), ghost file: Option<Inode>, ghost processes: bool) returns (leg: Leg)
    requires Covered(db.disk, db.id, db.origin, db.staged, db.reorders)
    requires processes ==> stop.0 == stop.1
    modifies db`disk, db`exposed, db`trail, db`faults, db`misjudged
    ensures Travelled(leg, stop, old(db.disk), db.disk, db.reorders)
    ensures old(db.Quiet()) ==> db.Quiet()
    ensures db.disk.store == old(db.disk).store && Safe(db.disk, db.id, db.origin, db.staged)
    ensures !db.misjudged ==> !old(db.misjudged)
    ensures !db.misjudged && Leads(old(db.disk), db.engine, file) ==>
              && (processes ==> Leads(db.disk, db.engine, file))
              && (!db.reorders && LeadsAll(old(db.disk), db.engine, file) ==>
                    Leads(db.disk, db.engine, file) && LeadsAll(db.disk, db.engine, file))
    ensures old(db.Quiet()) ==> db.misjudged == old(db.misjudged)
    ensures db.misjudged && !old(db.misjudged) ==> Doubtful(old(db.disk), db.engine)
  {
    leg := RecoverTracked(db);
    ghost var at := db.disk;
    assert at in leg.passed;
    if stop.0 in leg.passed && Crash(stop.0, stop.1) {
      at := stop.0;
      db.disk := stop.1;
    }
    if !db.misjudged && Leads(old(db.disk), db.engine, file) {
      CrashLeads(at, db.disk, old(db.disk), db.engine, file, db.reorders);
    }
  }

  /** A last recovery that no crash stops. */
  method RecoverOnceMore(db: ManagedDatabase, ghost file: Option<Inode>) returns (leg: Leg)
    requires Covered(db.disk, db.id, db.origin, db.staged, db.reorders)
    modifies db`disk, db`exposed, db`trail, db`faults, db`misjudged
    ensures Path(leg.passed, old(db.disk), db.disk, db.reorders)
    ensures old(db.Quiet()) ==> (leg.r == Recovered <==> Solvable(old(db.disk), db.engine))
    ensures db.disk.store == old(db.disk).store && Safe(db.disk, db.id, db.origin, db.staged)
    ensures !db.misjudged ==> !old(db.misjudged)
    ensures !db.misjudged && Leads(old(db.disk), db.engine, file) ==>
              Leads(db.disk, db.engine, file) && (leg.r == Recovered ==> db.disk.now == Directory(file, None, None, Missing))
    ensures old(db.Quiet()) ==> db.misjudged == old(db.misjudged)
    ensures db.misjudged && !old(db.misjudged) ==> Doubtful(old(db.disk), db.engine)
  {
    leg := RecoverTracked(db);
    assert db.disk in leg.passed;
  }
}
