/** `CatalogStore`: the catalog in memory, its durable replacement, and startup
    recovery. Every file operation may fail, and a process crash may strike
    between any two of them. */
module CatalogStore {
  import opened Core
  import opened Catalog
  import opened CatalogFiles

  datatype Refusal =
    | InterruptedTwice | NoCatalog | UnreadableCatalog | InvalidCatalog | UnreadableJournal | UnknownVersion
    | NeitherSide | CreateWithoutStorage | ActiveAndTrash | MissingStorage | OrphanConflict

  datatype Loading = Loaded | Stopped | Refused(why: Refusal)

  /** No earlier operation left a file that the next one has to create. */
  predicate Free(root: Root) {
    root.operation == None && root.pending == None
  }

  /** Nothing is left over that a load cannot deal with: a second interrupted
      catalog write, or a journal that was never completely written. */
  predicate Loadable(root: Root) {
    !(root.pending.Some? && root.quarantined) && root.operation != Some(Scrambled)
  }

  /** Every state exposed since `seen` is consistent and holds one of these catalogs. */
  ghost predicate NewlyConsistent(exposed: set<Root>, seen: set<Root>, committed: map<string, nat>, catalogs: set<Catalog>) {
    forall x | x in exposed && x !in seen :: Consistent(x, committed) && CatalogOf(x).value in catalogs
  }

  ghost predicate NewlyShrunk(exposed: set<Root>, seen: set<Root>, start: Root) {
    forall x | x in exposed && x !in seen :: Shrunk(x, start)
  }

  /** Consistent on the way to a catalog, and further on with it. */
  lemma ConsistentAllAlong(last: set<Root>, middle: set<Root>, seen: set<Root>, committed: map<string, nat>, catalogs: set<Catalog>, c: Catalog)
    requires NewlyConsistent(middle, seen, committed, catalogs) && NewlyConsistent(last, middle, committed, {c}) && c in catalogs
    ensures NewlyConsistent(last, seen, committed, catalogs)
  {
  }

  /** The operations that still may fail, after one. */
  function Later(faults: seq<bool>): seq<bool> {
    if faults == [] then [] else faults[1..]
  }

  /** The next operation fails. */
  predicate Failing(faults: seq<bool>) {
    faults != [] && faults[0]
  }

  /** The undo of a failed installing rename fails too. */
  const LOST_UNDO := [false, false, false, false, true, false, true]

  class CatalogStore {
    var root: Root
    var catalog: Catalog
    var faults: seq<bool>
    /** Every state of the files so far: the points at which a crash may strike. */
    var exposed: set<Root>
    /** The same states in the order in which they were reached. */
    var trail: seq<Root>
    /** Whether a rename that was to undo a failed catalog write failed itself. */
    var rollbackFailed: bool
    /** The IDs that were ever listed in the durable catalog, each with the storage
        it was created with. */
    var committed: map<string, nat>

    predicate Quiet()
      reads this`faults
    {
      forall k | 0 <= k < |faults| :: !faults[k]
    }

    /** The next `n` operations do not fail. */
    predicate Clear(n: nat)
      reads this`faults
    {
      |faults| >= n && forall k | 0 <= k < n :: !faults[k]
    }

    /** The operation after the next `n` is the only one to fail. */
    predicate FailsOnlyAfter(n: nat)
      reads this`faults
    {
      |faults| > n && forall k | 0 <= k < |faults| :: faults[k] <==> k == n
    }

    /** A data directory that has just been initialized. */
    constructor (faults: seq<bool>)
      ensures catalog == Catalog(CATALOG_VERSION, []) && Settled(root, committed, catalog) && Steady()
      ensures this.faults == faults && !rollbackFailed
    {
      catalog := Catalog(CATALOG_VERSION, []);
      root := Root(Some(Holds(Catalog(CATALOG_VERSION, []))), None, None, None, false, map[], map[], {}, {});
      this.faults := faults;
      exposed, trail, committed := {}, [], map[];
      rollbackFailed := false;
    }

    /** What holds whenever the catalog lock is free. */
    ghost predicate Steady()
      reads this`root, this`catalog, this`committed
    {
      Consistent(root, committed) && root.state == Some(Holds(catalog)) && Ids(catalog) <= committed.Keys
    }

    // ---- file operations ----

    method Strikes() returns (fault: bool)
      modifies this`faults
      ensures fault == Failing(old(faults)) && faults == Later(old(faults))
      ensures old(Quiet()) ==> Quiet() && !fault
      ensures forall n: nat | old(FailsOnlyAfter(n)) :: if n == 0 then fault && Quiet() else !fault && FailsOnlyAfter(n - 1)
    {
      fault := false;
      if faults != [] {
        fault, faults := faults[0], faults[1..];
      }
    }

    /** The trail leads to the present state, one file operation at a time, and
        nowhere that was not exposed. */
    ghost predicate Tracked()
      reads this`root, this`exposed, this`trail
    {
      trail != [] && trail[|trail| - 1] == root && Walk(trail) && forall x | x in trail :: x in exposed
    }

    twostate predicate StaysTracked()
      reads this`root, this`exposed, this`trail
    {
      old(Tracked()) ==> Tracked() && trail[0] == old(trail)[0]
    }

    method Step(op: FileOp)
      modifies this`root, this`exposed, this`trail
      ensures root == Applied(old(root), op) && exposed == old(exposed) + {root}
      ensures StaysTracked()
    {
      root := Applied(root, op);
      exposed, trail := exposed + {root}, trail + [root];
    }

    /** Performs a file operation, unless it fails. */
    method Try(op: FileOp) returns (ok: bool)
      modifies this`root, this`exposed, this`trail, this`faults
      ensures root == if ok then Applied(old(root), op) else old(root)
      ensures exposed == old(exposed) + {root}
      ensures ok == !Failing(old(faults)) && faults == Later(old(faults))
      ensures old(Quiet()) ==> Quiet() && ok
      ensures StaysTracked()
    {
      var fault := Strikes();
      ok := !fault;
      Step(if ok then op else SyncRoot);
    }

    // ---- replacing the catalog ----

    /** `write_json_new` of the pending catalog. */
    method WritePending(next: Catalog) returns (ok: bool)
      modifies this`root, this`exposed, this`trail, this`faults
      ensures root.(pending := None) == old(root).(pending := None)
      ensures ok ==> root.pending == Some(Holds(next)) && old(root).pending == None
      ensures forall x | x in exposed && x !in old(exposed) :: x.(pending := None) == old(root).(pending := None)
      ensures old(Quiet()) ==> Quiet() && (ok <==> old(root).pending == None)
      ensures old(Clear(2)) && old(root).pending == None ==> ok && faults == old(faults)[2..]
      ensures StaysTracked()
    {
      if root.pending.Some? {
        return false;
      }
      ok := Try(PutPending(Garbled));
      if !ok {
        return;
      }
      var fault := Strikes();
      if fault {
        var removed := Try(RemovePending);
        return false;
      }
      Step(PutPending(Holds(next)));
    }

    /** `write_json_new` of the lifecycle journal. */
    method WriteOperation(journal: OperationFile) returns (ok: bool)
      modifies this`root, this`exposed, this`trail, this`faults
      ensures root.(operation := None) == old(root).(operation := None)
      ensures ok ==> root.operation == Some(journal) && old(root).operation == None
      ensures !ok ==> root.operation in {old(root).operation, None, Some(Scrambled)}
      ensures old(root).operation != None ==> root == old(root)
      ensures forall x | x in exposed && x !in old(exposed) ::
                x.(operation := None) == old(root).(operation := None) &&
                x.operation in {old(root).operation, None, Some(Scrambled), Some(journal)} &&
                (old(root).operation != None ==> x == old(root))
      ensures old(Quiet()) ==> Quiet() && (ok <==> old(root).operation == None)
      ensures old(Clear(2)) && old(root).operation == None ==> ok && faults == old(faults)[2..]
      ensures StaysTracked()
    {
      if root.operation.Some? {
        return false;
      }
      ok := Try(PutOperation(Scrambled));
      if !ok {
        return;
      }
      var fault := Strikes();
      if fault {
        var removed := Try(RemoveOperation);
        return false;
      }
      Step(PutOperation(journal));
    }

    /** Whatever happens, startup would find one of these two catalogs. */
    static predicate Either(x: Root, start: Root, before: Catalog, next: Catalog) {
      CatalogOf(x) in {Some(before), Some(next)} && Rest(x) == Rest(start)
    }

    /** Replaces the durable catalog (`write_atomic`). If the state file is in
        place at the start, a crash at any point leaves the former or the next
        catalog. If it is not, the only remaining copy is deleted. */
    method WriteAtomic(next: Catalog) returns (ok: bool)
      modifies this`root, this`exposed, this`trail, this`faults, this`rollbackFailed
      ensures old(rollbackFailed) ==> rollbackFailed
      ensures old(Parsed(root.state)).Some? ==>
                var before := old(Parsed(root.state)).value;
                && Either(root, old(root), before, next)
                && (forall x | x in exposed && x !in old(exposed) :: Either(x, old(root), before, next))
                && (ok ==> root.state == Some(Holds(next)))
                && (!ok && !rollbackFailed ==> root.state == Some(Holds(before)))
                && (before != next ==> (rollbackFailed <==> old(rollbackFailed) || (!ok && root.state != Some(Holds(before)))))
      ensures old(Quiet()) ==> Quiet() && rollbackFailed == old(rollbackFailed)
      ensures old(root).state == None && old(root).pending == None && old(Quiet()) ==>
                !ok && CatalogOf(root) == None
      ensures old(Quiet()) && old(Parsed(root.state)).Some? && old(root).pending == None ==>
                && Quiet() && ok && rollbackFailed == old(rollbackFailed)
                && root == old(root).(state := Some(Holds(next)), previous := None)
      ensures old(Clear(7)) && old(Parsed(root.state)).Some? && old(root).pending == None ==>
                && ok && faults == old(faults)[7..] && rollbackFailed == old(rollbackFailed)
                && root == old(root).(state := Some(Holds(next)), previous := None)
      ensures old(faults) == LOST_UNDO && old(Parsed(root.state)).Some? && old(root).pending == None ==>
                !ok && faults == [] && root == old(root).(state := None, previous := old(root).state)
      ensures StaysTracked()
    {
      ok := WritePending(next);
      if !ok {
        return;
      }
      ok := MoveAside();
      if !ok {
        return;
      }
      ok := InstallPending();
    }

    /** Removes the previous copy and puts the present one in its place. */
    method MoveAside() returns (ok: bool)
      modifies this`root, this`exposed, this`trail, this`faults
      ensures ok ==> old(root).state.Some? && root == old(root).(previous := old(root).state, state := None)
      ensures !ok ==> root == old(root) || root == old(root).(previous := None)
      ensures forall x | x in exposed && x !in old(exposed) ::
                x == root || x == old(root) || x == old(root).(previous := None)
      ensures old(Quiet()) ==> Quiet() && (ok <==> old(root).state.Some?) && root.previous == old(root).state
      ensures old(Clear(2)) && old(root).state.Some? ==> ok && faults == old(faults)[2..]
      ensures StaysTracked()
    {
      ok := Try(RemovePrevious);
      if !ok {
        return;
      }
      if root.state.None? {
        return false;
      }
      ok := Try(StateToPrevious);
    }

    /** Moves the pending catalog into place, or the previous one back. */
    method InstallPending() returns (ok: bool)
      requires root.state.None? && root.previous.Some? && root.pending.Some?
      modifies this`root, this`exposed, this`trail, this`faults, this`rollbackFailed
      ensures old(rollbackFailed) ==> rollbackFailed
      ensures Rest(root) == Rest(old(root)) && CatalogOf(root) in {Parsed(old(root).previous), Parsed(old(root).pending)}
      ensures forall x | x in exposed && x !in old(exposed) ::
                Rest(x) == Rest(old(root)) && CatalogOf(x) in {Parsed(old(root).previous), Parsed(old(root).pending)}
      ensures ok ==> root.state == old(root).pending
      ensures !ok && !rollbackFailed ==> root.state == old(root).previous
      ensures old(root).pending != old(root).previous ==>
                (rollbackFailed <==> old(rollbackFailed) || (!ok && root.state != old(root).previous))
      ensures old(Quiet()) ==>
                && Quiet() && ok && rollbackFailed == old(rollbackFailed)
                && root == old(root).(state := old(root).pending, pending := None, previous := None)
      ensures old(Clear(3)) ==>
                && ok && faults == old(faults)[3..] && rollbackFailed == old(rollbackFailed)
                && root == old(root).(state := old(root).pending, pending := None, previous := None)
      ensures old(faults) == [true, false, true] ==> !ok && faults == [] && root == old(root).(pending := None)
      ensures StaysTracked()
    {
      ok := Try(PendingToState);
      if !ok {
        TakeBack(RemovePending);
        return;
      }
      ok := KeepInstalled();
    }

    /** Makes the installed catalog durable and removes the previous one, or moves
        the previous one back. */
    method KeepInstalled() returns (ok: bool)
      requires root.state.Some? && root.previous.Some?
      modifies this`root, this`exposed, this`trail, this`faults, this`rollbackFailed
      ensures old(rollbackFailed) ==> rollbackFailed
      ensures Rest(root) == Rest(old(root)) && CatalogOf(root) in {CatalogOf(old(root)), Parsed(old(root).previous)}
      ensures forall x | x in exposed && x !in old(exposed) ::
                Rest(x) == Rest(old(root)) && CatalogOf(x) in {CatalogOf(old(root)), Parsed(old(root).previous)}
      ensures ok ==> root.state == old(root).state
      ensures !ok && !rollbackFailed ==> root.state == old(root).previous
      ensures old(root).state != old(root).previous ==>
                (rollbackFailed <==> old(rollbackFailed) || (!ok && root.state != old(root).previous))
      ensures old(Quiet()) ==> Quiet() && ok && rollbackFailed == old(rollbackFailed) && root == old(root).(previous := None)
      ensures old(Clear(2)) ==>
                ok && faults == old(faults)[2..] && rollbackFailed == old(rollbackFailed) && root == old(root).(previous := None)
      ensures StaysTracked()
    {
      ok := Try(SyncRoot);
      if !ok {
        TakeBack(RemoveState);
        return;
      }
      var removed := Try(RemovePrevious);
    }

    /** Removes what could not be installed and moves the previous catalog back. */
    method TakeBack(op: FileOp)
      requires op == RemovePending || op == RemoveState
      requires root.previous.Some?
      modifies this`root, this`exposed, this`trail, this`faults, this`rollbackFailed
      ensures old(rollbackFailed) ==> rollbackFailed
      ensures Rest(root) == Rest(old(root)) && CatalogOf(root) in {CatalogOf(old(root)), Parsed(old(root).previous)}
      ensures forall x | x in exposed && x !in old(exposed) ::
                Rest(x) == Rest(old(root)) && CatalogOf(x) in {CatalogOf(old(root)), Parsed(old(root).previous)}
      ensures !rollbackFailed ==> root.state == old(root).previous
      ensures old(root).state != old(root).previous ==> (rollbackFailed <==> old(rollbackFailed) || root.state != old(root).previous)
      ensures old(faults) == [false, true] ==> faults == [] && root == Applied(old(root), op)
      ensures StaysTracked()
    {
      var removed := Try(op);
      UndoRename();
    }

    /** Moves the previous catalog back; its own failure is ignored. */
    method UndoRename()
      modifies this`root, this`exposed, this`trail, this`faults, this`rollbackFailed
      ensures exposed == old(exposed) + {root}
      ensures root == if Failing(old(faults)) then old(root) else old(root).(state := old(root).previous, previous := None)
      ensures rollbackFailed == (old(rollbackFailed) || Failing(old(faults)))
      ensures old(faults) == [true] ==> faults == []
      ensures StaysTracked()
    {
      var undone := Try(PreviousToState);
      rollbackFailed := rollbackFailed || !undone;
    }

    /** Whatever failed, the former catalog or the next one is on disk; and an undo
        has failed exactly if the state file is not the catalog that is served. */
    ghost predicate Accounted(former: Catalog, next: Catalog, served: Catalog, failedBefore: bool)
      reads this`root, this`rollbackFailed
    {
      && CatalogOf(root) in {Some(former), Some(next)}
      && (former != next ==> (rollbackFailed <==> failedBefore || root.state != Some(Holds(served))))
    }

    /** Writes the journal, then the catalog; takes the journal back if that fails. */
    method JournalAndWrite(next: Catalog, journal: OperationFile) returns (ok: bool)
      modifies this`root, this`exposed, this`trail, this`faults, this`rollbackFailed
      ensures old(rollbackFailed) ==> rollbackFailed
      ensures old(root).operation != None ==>
                !ok && root == old(root) && forall x | x in exposed && x !in old(exposed) :: x == root
      ensures old(root).operation == None && old(root).state == Some(Holds(catalog)) && !rollbackFailed ==>
                && (forall x | x in exposed && x !in old(exposed) :: OnTheWay(x, old(root), catalog, next, journal))
                && OnTheWay(root, old(root), catalog, next, journal)
                && root.state == Some(Holds(if ok then next else catalog))
                && (ok ==> root.operation == Some(journal))
      ensures old(root).state == Some(Holds(catalog)) ==> Accounted(catalog, next, if ok then next else catalog, old(rollbackFailed))
      ensures old(Quiet()) ==> Quiet() && rollbackFailed == old(rollbackFailed)
      ensures Free(old(root)) && old(root).state == Some(Holds(catalog)) && old(Quiet()) ==>
                Quiet() && ok && rollbackFailed == old(rollbackFailed)
      ensures old(Clear(9)) && Free(old(root)) && old(Parsed(root.state)).Some? ==>
                && ok && faults == old(faults)[9..] && rollbackFailed == old(rollbackFailed)
                && root == old(root).(state := Some(Holds(next)), previous := None, operation := Some(journal))
      ensures old(faults) == [false, false] + LOST_UNDO && Free(old(root)) && old(Parsed(root.state)).Some? ==>
                !ok && faults == [] && root == old(root).(state := None, previous := old(root).state)
      ensures old(Quiet()) && Free(old(root)) && old(root).state == None ==>
                !ok && CatalogOf(root) == None
      ensures StaysTracked()
    {
      ok := WriteOperation(journal);
      if !ok {
        return;
      }
      ok := WriteAtomic(next);
      if !ok {
        var removed := Try(RemoveOperation);
      }
    }

    /** Writes the journal and the catalog of a change that fits. */
    method JournalAndCommit(next: Catalog, kind: Kind, id: string) returns (ok: bool)
      modifies this`root, this`exposed, this`trail, this`faults, this`rollbackFailed
      ensures old(rollbackFailed) ==> rollbackFailed
      ensures old(Steady()) && Fits(old(root), catalog, next, kind, id, committed) && !rollbackFailed ==>
                && NewlyConsistent(exposed, old(exposed), committed, {catalog, next})
                && Consistent(root, committed) && root.state == Some(Holds(if ok then next else catalog))
                && Rest(root).(operation := None) == Rest(old(root)).(operation := None)
                && (ok ==> root.operation == Some(Journal(1, kind, id, catalog, next)))
      ensures old(root).state == Some(Holds(catalog)) ==> Accounted(catalog, next, if ok then next else catalog, old(rollbackFailed))
      ensures old(Quiet()) ==> Quiet() && rollbackFailed == old(rollbackFailed)
      ensures old(root).state == Some(Holds(catalog)) && old(Quiet()) && Free(old(root)) ==>
                Quiet() && ok && rollbackFailed == old(rollbackFailed)
      ensures old(Clear(9)) && Free(old(root)) && old(Parsed(root.state)).Some? ==>
                ok && faults == old(faults)[9..] && rollbackFailed == old(rollbackFailed) && root.pending == None
      ensures old(faults) == [false, false] + LOST_UNDO && Free(old(root)) && old(Parsed(root.state)).Some? ==>
                !ok && faults == [] && root == old(root).(state := None, previous := old(root).state)
      ensures old(Quiet()) && Free(old(root)) && old(root).state == None ==> !ok && CatalogOf(root) == None
      ensures StaysTracked()
    {
      ok := JournalAndWrite(next, Journal(1, kind, id, catalog, next));
      if old(Steady()) && Fits(old(root), catalog, next, kind, id, committed) && !rollbackFailed && old(root).operation == None {
        OnTheWayIsConsistent(root, old(root), catalog, next, kind, id, committed);
        forall x | x in exposed && x !in old(exposed)
          ensures Consistent(x, committed)
        {
          OnTheWayIsConsistent(x, old(root), catalog, next, kind, id, committed);
        }
      }
    }

    /** Journals and commits one lifecycle change (`transition`). A crash at any
        point leaves the former or the next catalog, consistent with the storage. */
    method Transition(next: Catalog, kind: Kind, id: string) returns (ok: bool)
      modifies this`root, this`exposed, this`trail, this`faults, this`rollbackFailed, this`catalog
      ensures old(rollbackFailed) ==> rollbackFailed
      ensures catalog == if ok then next else old(catalog)
      ensures old(Steady()) && Fits(old(root), old(catalog), next, kind, id, committed) && !rollbackFailed ==>
                && NewlyConsistent(exposed, old(exposed), committed, {old(catalog), next})
                && Consistent(root, committed) && root.state == Some(Holds(catalog))
                && Rest(root).(operation := None) == Rest(old(root)).(operation := None)
                && (ok ==> root.operation == Some(Journal(1, kind, id, old(catalog), next)))
      ensures old(root).state == Some(Holds(old(catalog))) ==> Accounted(old(catalog), next, catalog, old(rollbackFailed))
      ensures old(Quiet()) ==> Quiet() && rollbackFailed == old(rollbackFailed)
      ensures old(Steady()) && WellFormed(next) && old(Quiet()) && Free(old(root)) ==>
                Quiet() && ok && rollbackFailed == old(rollbackFailed)
      ensures old(Clear(9)) && WellFormed(next) && Free(old(root)) && old(Parsed(root.state)).Some? ==>
                ok && faults == old(faults)[9..] && rollbackFailed == old(rollbackFailed) && root.pending == None
      ensures old(faults) == [false, false] + LOST_UNDO && WellFormed(next) && Free(old(root)) && old(Parsed(root.state)).Some? ==>
                !ok && faults == [] && root == old(root).(state := None, previous := old(root).state)
      ensures old(Quiet()) && WellFormed(next) && Free(old(root)) && old(root).state == None ==> !ok && CatalogOf(root) == None
      ensures StaysTracked()
    {
      ok := ValidateCatalog(next);
      if !ok {
        return;
      }
      ok := JournalAndCommit(next, kind, id);
      if ok {
        catalog := next;
      }
    }

    /** The journal may go: no committed drop still has its storage in place. */
    ghost predicate Settleable()
      reads this`root, this`committed
    {
      && Consistent(root, committed) && root.operation.Some? && root.operation.value.Journal?
      && (root.operation.value.kind == Drop && CatalogOf(root) == Some(root.operation.value.after) ==>
            root.operation.value.id !in root.active)
    }

    /** Removes the journal of an operation that is complete or was never committed
        (`finish_transition`). */
    method FinishTransition() returns (ok: bool)
      modifies this`root, this`exposed, this`trail, this`faults
      ensures root == if ok then old(root).(operation := None) else old(root)
      ensures exposed == old(exposed) + {root}
      ensures old(Settleable()) ==>
                Consistent(root, committed) && NewlyConsistent(exposed, old(exposed), committed, {CatalogOf(old(root)).value})
      ensures old(Quiet()) ==> Quiet() && ok
      ensures StaysTracked()
    {
      if Settleable() {
        FinishedIsConsistent(root, committed);
      }
      ok := Try(RemoveOperation);
    }

    // ---- startup ----

    /** Ends an interrupted catalog write and keeps its pending file as evidence
        (`recover_atomic_state`). */
    method RecoverAtomicState() returns (r: Loading)
      modifies this`root, this`exposed, this`trail, this`faults
      ensures CatalogOf(root) == CatalogOf(old(root)) && Rest(root) == Rest(old(root))
      ensures forall x | x in exposed && x !in old(exposed) :: CatalogOf(x) == CatalogOf(old(root)) && Rest(x) == Rest(old(root))
      ensures r == Loaded ==> root.state.Some? && root.pending == None && root.previous == None
      ensures r == Refused(InterruptedTwice) <==> r.Refused? && old(root).pending.Some? && old(root).quarantined
      ensures r == Refused(InterruptedTwice) ==> root.pending == old(root).pending && (CatalogOf(root).Some? ==> root.state.Some?)
      ensures CatalogOf(old(root)).Some? && r.Refused? ==> r.why == InterruptedTwice
      ensures old(Quiet()) ==> Quiet() && r != Stopped
      ensures CatalogOf(old(root)).Some? && old(root).pending.Some? && old(root).quarantined ==> r != Loaded
      ensures StaysTracked()
    {
      if root.state.None? && root.previous.Some? {
        var ok := Try(PreviousToState);
        if !ok {
          return Stopped;
        }
      }
      if root.pending.Some? {
        if root.quarantined {
          return Refused(InterruptedTwice);
        }
        var ok := Try(QuarantinePending);
        if !ok {
          return Stopped;
        }
      }
      if root.state.Some? && root.previous.Some? {
        if !root.state.value.Holds? {
          return Refused(UnreadableCatalog);
        }
        var ok := Try(RemovePrevious);
        if !ok {
          return Stopped;
        }
      }
      if root.state.None? {
        return Refused(NoCatalog);
      }
      return Loaded;
    }

    /** Completes or forgets the journaled operation (`recover_operation`). */
    method RecoverOperation(c: Catalog) returns (r: Loading)
      modifies this`root, this`exposed, this`trail, this`faults
      ensures root.state == old(root).state && root.pending == old(root).pending && root.previous == old(root).previous
      ensures r == Loaded ==> root.operation == None
      ensures forall i | Stored(root, i) :: Stored(old(root), i)
      ensures old(Consistent(root, committed)) && old(CatalogOf(root)) == Some(c) ==>
                && Consistent(root, committed)
                && NewlyConsistent(exposed, old(exposed), committed, {c})
                && (r.Refused? <==> old(root).operation == Some(Scrambled))
                && (r.Refused? ==> r.why == UnreadableJournal && root == old(root))
      ensures old(Quiet()) ==> Quiet() && r != Stopped
      ensures StaysTracked()
      ensures Shrunk(root, old(root)) && NewlyShrunk(exposed, old(exposed), old(root))
    {
      if root.operation.None? {
        return Loaded;
      }
      var journal := root.operation.value;
      if journal.Scrambled? {
        return Refused(UnreadableJournal);
      }
      if journal.version != 1 {
        return Refused(UnknownVersion);
      }
      if c != journal.before {
        if c != journal.after {
          return Refused(NeitherSide);
        }
        if journal.kind == Create && !Stored(root, journal.id) {
          return Refused(CreateWithoutStorage);
        }
        if journal.kind == Drop && journal.id in root.active {
          r := CompleteDrop(journal.id);
          if r != Loaded {
            return;
          }
        }
      }
      var ok := FinishTransition();
      return if ok then Loaded else Stopped;
    }

    /** Moves the storage of a committed drop to the trash. */
    method CompleteDrop(id: string) returns (r: Loading)
      requires id in root.active
      modifies this`root, this`exposed, this`trail, this`faults
      ensures root == if r == Loaded then Applied(old(root), ToTrash(id)) else old(root)
      ensures old(Dropping(id)) ==>
                && Consistent(root, committed) && !r.Refused?
                && NewlyConsistent(exposed, old(exposed), committed, {CatalogOf(old(root)).value})
      ensures old(Quiet()) ==> Quiet() && r != Stopped
      ensures StaysTracked()
      ensures Shrunk(root, old(root)) && NewlyShrunk(exposed, old(exposed), old(root))
    {
      if Dropping(id) {
        CompletedDropIsConsistent(root, committed, id);
      }
      if id in root.trash {
        return Refused(ActiveAndTrash);
      }
      var moved := Try(ToTrash(id));
      return if moved then Loaded else Stopped;
    }

    /** The journal is that of a committed drop whose storage is still in place. */
    ghost predicate Dropping(id: string)
      reads this`root, this`committed
    {
      && Consistent(root, committed) && root.operation.Some? && root.operation.value.Journal?
      && root.operation.value.kind == Drop && root.operation.value.id == id
      && CatalogOf(root) == Some(root.operation.value.after) && id in root.active
    }

    /** Every listed Database has its file (`validate_storage`). */
    method ValidateStorage(c: Catalog) returns (ok: bool)
      ensures ok <==> forall id | id in Ids(c) :: Stored(root, id)
    {
      for k := 0 to |c.databases|
        invariant forall i | 0 <= i < k :: Stored(root, c.databases[i].id)
      {
        if !Stored(root, c.databases[k].id) {
          assert c.databases[k] in c.databases;
          return false;
        }
      }
      return true;
    }

    /** Moves one unlisted directory to quarantine. */
    method Quarantine(id: string) returns (r: Loading)
      requires id in root.active
      modifies this`root, this`exposed, this`trail, this`faults
      ensures root.(active := map[], orphans := {}) == old(root).(active := map[], orphans := {})
      ensures root.active == if r == Loaded then old(root).active - {id} else old(root).active
      ensures old(Consistent(root, committed)) && old(root).operation == None && id !in Ids(CatalogOf(old(root)).value) ==>
                && Consistent(root, committed) && !r.Refused?
                && NewlyConsistent(exposed, old(exposed), committed, {CatalogOf(old(root)).value})
      ensures old(Quiet()) ==> Quiet() && r != Stopped
      ensures StaysTracked()
      ensures Shrunk(root, old(root)) && NewlyShrunk(exposed, old(exposed), old(root))
    {
      if Consistent(root, committed) && root.operation == None && id !in Ids(CatalogOf(root).value) {
        QuarantinedOrphanIsConsistent(root, committed, id);
      }
      if id in root.orphans {
        return Refused(OrphanConflict);
      }
      var moved := Try(ToOrphans(id));
      return if moved then Loaded else Stopped;
    }

    /** Moves unlisted storage to quarantine (`recover_orphans`). */
    method RecoverOrphans(c: Catalog) returns (r: Loading)
      modifies this`root, this`exposed, this`trail, this`faults
      ensures root.(active := map[], orphans := {}) == old(root).(active := map[], orphans := {})
      ensures r == Loaded ==> root.active.Keys <= Ids(c)
      ensures old(Consistent(root, committed)) && old(CatalogOf(root)) == Some(c) && old(root).operation == None ==>
                Consistent(root, committed) && NewlyConsistent(exposed, old(exposed), committed, {c}) && !r.Refused?
      ensures old(Quiet()) ==> Quiet() && r != Stopped
      ensures StaysTracked()
      ensures Shrunk(root, old(root)) && NewlyShrunk(exposed, old(exposed), old(root))
    {
      var unseen := root.active.Keys;
      while unseen != {}
        invariant unseen <= root.active.Keys && root.active.Keys <= unseen + Ids(c)
        invariant root.(active := map[], orphans := {}) == old(root).(active := map[], orphans := {})
        invariant CatalogOf(root) == CatalogOf(old(root))
        invariant Shrunk(root, old(root)) && NewlyShrunk(exposed, old(exposed), old(root))
        invariant StaysTracked()
        invariant old(Consistent(root, committed)) && old(CatalogOf(root)) == Some(c) && old(root).operation == None ==>
                    Consistent(root, committed) && NewlyConsistent(exposed, old(exposed), committed, {c})
        invariant old(Quiet()) ==> Quiet()
        decreases unseen
      {
        var id :| id in unseen;
        unseen := unseen - {id};
        if id !in Ids(c) {
          r := Quarantine(id);
          if r != Loaded {
            return;
          }
        }
      }
      return Loaded;
    }

    /** Brings the storage in line with a catalog that has been read. */
    method SettleStorage(c: Catalog) returns (r: Loading)
      modifies this`root, this`exposed, this`trail, this`faults
      ensures root.state == old(root).state && root.pending == old(root).pending && root.previous == old(root).previous
      ensures old(Consistent(root, committed)) && old(CatalogOf(root)) == Some(c) ==>
                && Consistent(root, committed) && CatalogOf(root) == Some(c)
                && NewlyConsistent(exposed, old(exposed), committed, {c})
                && (r.Refused? <==> old(root).operation == Some(Scrambled))
                && (r.Refused? ==> r.why == UnreadableJournal)
                && (r == Loaded ==> root.operation == None && root.active.Keys <= Ids(c))
      ensures r == Loaded ==> forall i | i in Ids(c) :: Stored(old(root), i)
      ensures old(Quiet()) ==> Quiet() && r != Stopped
      ensures StaysTracked()
      ensures Shrunk(root, old(root)) && NewlyShrunk(exposed, old(exposed), old(root))
    {
      r := RecoverOperation(c);
      if r != Loaded {
        return;
      }
      var ok := ValidateStorage(c);
      if !ok {
        return Refused(MissingStorage);
      }
      r := RecoverOrphans(c);
    }

    /** Startup (`load`). From anything a crash can leave it either loads, with
        exactly the listed Databases in place and every dropped one in the trash,
        or refuses for one of two reasons, with the catalog intact. */
    method Load() returns (r: Loading)
      modifies this`root, this`exposed, this`trail, this`faults, this`catalog, this`committed
      ensures old(Consistent(root, committed)) ==>
                && Consistent(root, old(committed)) && CatalogOf(root) == CatalogOf(old(root))
                && NewlyConsistent(exposed, old(exposed), old(committed), {CatalogOf(old(root)).value})
                && (r.Refused? ==>
                      || (r.why == InterruptedTwice && old(root).pending.Some? && old(root).quarantined && root.state.Some?)
                      || (r.why == UnreadableJournal && old(root).operation == Some(Scrambled)))
                && (r == Loaded ==> Loadable(old(root)) && Some(catalog) == CatalogOf(old(root)))
                && (r == Loaded ==> Settled(root, committed, catalog) && Steady())
      ensures r == Loaded ==> CatalogOf(old(root)) == Some(catalog) && forall i | i in Ids(catalog) :: Stored(old(root), i)
      ensures r == Loaded ==> committed == Recorded(root, old(committed))
      ensures r != Loaded ==> committed == old(committed)
      ensures old(Quiet()) ==> Quiet() && r != Stopped
      ensures old(Consistent(root, committed)) && old(Quiet()) ==> (r == Loaded <==> Loadable(old(root)))
      ensures StaysTracked()
      ensures Shrunk(root, old(root)) && NewlyShrunk(exposed, old(exposed), old(root))
    {
      r := RecoverAtomicState();
      if old(Consistent(root, committed)) {
        forall x | x == root || (x in exposed && x !in old(exposed))
          ensures Consistent(x, committed)
        {
          SameCatalogStaysConsistent(x, old(root), committed);
        }
      }
      if r != Loaded {
        return;
      }
      if !root.state.value.Holds? {
        return Refused(UnreadableCatalog);
      }
      var c := root.state.value.catalog;
      var ok := ValidateCatalog(c);
      if !ok {
        return Refused(InvalidCatalog);
      }
      r := SettleStorage(c);
      if r != Loaded {
        return;
      }
      if old(Consistent(root, committed)) {
        LoadedIsSettled(root, committed, c);
      }
      catalog := c;
      committed := Recorded(root, committed);
    }
  }

  /** How a catalog is lost: an undo that fails itself leaves the previous copy
      as the only one, and the next change deletes it. */
  method LoseTheCatalog(store: CatalogStore, next: Catalog, later: Catalog, kind: Kind, id: string)
    requires store.Steady() && Free(store.root) && store.faults == [false, false] + LOST_UNDO
    requires WellFormed(next) && WellFormed(later)
    modifies store
    ensures CatalogOf(store.root) == None
  {
    var first := store.Transition(next, kind, id);
    assert CatalogOf(store.root) == CatalogOf(old(store.root));
    var second := store.Transition(later, kind, id);
  }
}
