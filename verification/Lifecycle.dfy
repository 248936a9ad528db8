/** `DatabaseDaemon`: creating, renaming and dropping Databases over the journaled
    catalog, and the map of open handles. */
module Lifecycle {
  import opened Core
  import opened Catalog
  import opened CatalogFiles
  import opened CatalogStore

  datatype Failure =
    | InvalidDatabaseName | DatabaseAlreadyExists | DatabaseNotFound | DatabaseBusy | ProtocolViolation | InternalError

  datatype Result<T> = Ok(value: T) | Err(why: Failure)

  /** `id` is the generated identifier of a new Database, `tag` its new storage. */
  datatype Operation =
    | CreateOf(name: string, id: string, tag: nat)
    | RenameOf(name: string, newName: string)
    | DropOf(name: string, confirmName: string)

  /** A managed handle: the Database it stands for, the storage behind its path,
      and whether the engine has it open. */
  datatype Handle = Handle(id: string, storage: nat, open: bool)

  /** What a change is compared with. */
  datatype Past = Past(rollbackFailed: bool, catalog: Catalog, committed: map<string, nat>, exposed: set<Root>)

  /** What the catalog alone says against an operation. */
  function Objection(op: Operation, c: Catalog): Option<Failure> {
    match op
    case CreateOf(name, _, _) =>
      if !ValidName(name) then Some(InvalidDatabaseName)
      else if name in Names(c) then Some(DatabaseAlreadyExists)
      else None
    case RenameOf(name, newName) =>
      if !ValidName(newName) then Some(InvalidDatabaseName)
      else if newName in Names(c) then Some(DatabaseAlreadyExists)
      else if name !in Names(c) then Some(DatabaseNotFound)
      else None
    case DropOf(name, confirmName) =>
      if name != confirmName then Some(ProtocolViolation)
      else if name !in Names(c) then Some(DatabaseNotFound)
      else None
  }

  /** The stable ID that an operation is about. */
  function Subject(op: Operation, c: Catalog): string {
    if op.CreateOf? then op.id else IdOf(c, op.name).GetOr("")
  }

  /** The ID that a name stands for. */
  function IdOf(c: Catalog, name: string): Option<string> {
    var k := Find(c.databases, name);
    if k.Some? then Some(c.databases[k.value].id) else None
  }

  /** The catalog that an operation leads to. */
  function Outcome(op: Operation, c: Catalog): Catalog {
    if Objection(op, c).Some? then c
    else
      match op
      case CreateOf(name, id, _) => Created(c, id, name)
      case RenameOf(name, newName) =>
        var k := Find(c.databases, name);
        if k.Some? then Renamed(c, k.value, newName) else c
      case DropOf(name, _) => Dropped(c, Subject(op, c))
  }

  lemma DropOfListed(c: Catalog, name: string)
    requires Find(c.databases, name).Some?
    ensures var op, entry := DropOf(name, name), c.databases[Find(c.databases, name).value];
            && Objection(op, c) == None && Subject(op, c) == entry.id && Outcome(op, c) == Dropped(c, entry.id)
            && entry.id in Ids(c) && name in Names(c)
  {
    assert c.databases[Find(c.databases, name).value] in c.databases;
  }

  /** Whether a drop would find its Database's handle without an open engine. */
  predicate Busy(op: Operation, c: Catalog, handles: map<string, Handle>) {
    op.DropOf? && Objection(op, c).None? && Subject(op, c) in handles && !handles[Subject(op, c)].open
  }

  /** The answer is the catalog's refusal, or busy, or a success, or a failed step. */
  predicate Answered(op: Operation, c: Catalog, handles: map<string, Handle>, r: Result<string>) {
    if Objection(op, c).Some? then r == Err(Objection(op, c).value)
    else if Busy(op, c, handles) then r == Err(DatabaseBusy)
    else r == Ok(Subject(op, c)) || r == Err(InternalError)
  }

  /** Only the handle of `id` may differ. */
  ghost predicate SameHandlesBut(now: map<string, Handle>, before: map<string, Handle>, id: string) {
    forall i | i != id :: (i in now <==> i in before) && (i in now ==> now[i] == before[i])
  }

  class DatabaseDaemon {
    const store: CatalogStore
    var handles: map<string, Handle>

    constructor (store: CatalogStore)
      ensures this.store == store && handles == map[]
    {
      this.store := store;
      handles := map[];
    }

    /** What holds whenever the catalog lock is free: a handle stands under its own
        ID, for a listed Database, on the storage that Database was created with. */
    ghost predicate Serving()
      reads this`handles, store`root, store`catalog, store`committed
    {
      store.Steady() && Fitting(handles, Ids(store.catalog), store.committed)
    }

    /** The handles of listed Databases, for these records. */
    static ghost predicate Fitting(handles: map<string, Handle>, ids: set<string>, committed: map<string, nat>) {
      && handles.Keys <= ids
      && forall id | id in handles :: id in committed && handles[id].id == id && handles[id].storage == committed[id]
    }

    /** The effect of one lifecycle operation, however it ends: a crash at any
        point leaves the former catalog or the one it leads to, consistent with
        the storage; and the daemon serves on with one of the two. */
    twostate predicate Journaled(op: Operation)
      reads this, store
    {
      Between(Outcome(op, old(store.catalog))) && Accounted(Outcome(op, old(store.catalog)), old(Here()))
    }

    /** Whatever failed since `past`, the former catalog or `next` is on disk; and an
        undo has failed exactly if the state file is not the catalog that is served. */
    ghost predicate Accounted(next: Catalog, past: Past)
      reads store`root, store`catalog, store`rollbackFailed
    {
      && CatalogOf(store.root) in {Some(past.catalog), Some(next)}
      && (store.rollbackFailed <==> past.rollbackFailed || store.root.state != Some(Holds(store.catalog)))
    }

    /** Unless an undo failed: serving with the former catalog or `next`, and so
        would any daemon that starts on what a crash left. */
    twostate predicate Between(next: Catalog)
      reads this, store
    {
      !store.rollbackFailed ==>
        && Serving()
        && store.catalog in {old(store.catalog), next}
        && store.committed == Recorded(store.root, old(store.committed))
        && NewlyConsistent(store.exposed, old(store.exposed), old(store.committed), {old(store.catalog), next})
    }

    ghost function Here(): Past
      reads store`catalog, store`committed, store`exposed, store`rollbackFailed
    {
      Past(store.rollbackFailed, store.catalog, store.committed, store.exposed)
    }

    /** The same, since `past`, for a change that lists no new Database. */
    ghost predicate Held(next: Catalog, past: Past)
      reads this`handles, store`root, store`catalog, store`committed, store`exposed, store`rollbackFailed
    {
      !store.rollbackFailed ==>
        && Serving()
        && store.catalog in {past.catalog, next}
        && store.committed == past.committed
        && NewlyConsistent(store.exposed, past.exposed, past.committed, {past.catalog, next})
    }

    /** How an operation ends, told from its answer. */
    twostate predicate Concluded(op: Operation, new r: Result<string>)
      reads this, store
    {
      && Answered(op, old(store.catalog), old(handles), r)
      && SameHandlesBut(handles, old(handles), Subject(op, old(store.catalog)))
      && (r.Err? && r.why != InternalError ==> store.root == old(store.root) && store.catalog == old(store.catalog) && handles == old(handles))
      && (!store.rollbackFailed && r.Ok? ==> store.catalog == Outcome(op, old(store.catalog)))
      && (!store.rollbackFailed && r == Err(InternalError) ==>
            (store.catalog != old(store.catalog) <==> op.DropOf? && DropPending(store.root, store.catalog, Subject(op, old(store.catalog)))))
      && (old(store.Quiet()) ==> store.Quiet() && store.rollbackFailed == old(store.rollbackFailed))
      && (old(store.Quiet()) && Free(old(store.root)) && old(Complete()) && !old(store.rollbackFailed) ==>
            r != Err(InternalError) && !store.rollbackFailed)
    }

    /** Every listed Database has a handle. */
    ghost predicate Complete()
      reads this, store
    {
      handles.Keys == Ids(store.catalog)
    }

    // ---- create ----

    /** Makes the directory and the empty database file of a new Database. */
    method CreateStorage(id: string, tag: nat) returns (ok: bool)
      modifies store`root, store`exposed, store`trail, store`faults
      ensures ok ==> id !in old(store.root).active && store.root == WithStorage(old(store.root), id, Storage(tag, true))
      ensures store.root in Makings(old(store.root), id, tag)
      ensures forall x | x in store.exposed && x !in old(store.exposed) :: x in Makings(old(store.root), id, tag)
      ensures old(store.Quiet()) ==> store.Quiet() && (ok <==> id !in old(store.root).active)
      ensures store.StaysTracked()
    {
      if id in store.root.active {
        return false;
      }
      MakingsOf(store.root, id, tag);
      ok := store.Try(MakeDirectory(id, tag));
      if !ok {
        return;
      }
      var fault := store.Strikes();
      if fault {
        var removed := store.Try(RemoveDirectory(id));
        return false;
      }
      store.Step(MakeFile(id));
    }

    static function WithStorage(root: Root, id: string, storage: Storage): Root {
      root.(active := root.active[id := storage])
    }

    /** The states that making a new directory and its file passes through. */
    static function Makings(root: Root, id: string, tag: nat): set<Root> {
      {root, WithStorage(root, id, Storage(tag, false)), WithStorage(root, id, Storage(tag, true))}
    }

    static lemma MakingsOf(root: Root, id: string, tag: nat)
      requires id !in root.active
      ensures var made := Applied(root, MakeDirectory(id, tag));
              && made == WithStorage(root, id, Storage(tag, false))
              && Applied(made, MakeFile(id)) == WithStorage(root, id, Storage(tag, true))
              && Applied(made, RemoveDirectory(id)) == root
    {
      var made := Applied(root, MakeDirectory(id, tag));
      assert made.active - {id} == root.active;
      assert made.active[id := Storage(tag, true)] == root.active[id := Storage(tag, true)];
    }

    /** Adds the entry of a new Database to the catalog. */
    method AddEntry(name: string, id: string, ghost tag: nat) returns (ok: bool)
      requires ValidName(name) && ValidUuid(id) && name !in Names(store.catalog)
      requires Serving() && Unused(store.root.(active := map[]), store.committed, id)
      requires id in store.root.active && store.root.active[id] == Storage(tag, true)
      modifies store
      ensures store.committed == old(store.committed)
      ensures Accounted(Created(old(store.catalog), id, name), old(Here()))
      ensures old(store.Quiet()) ==> store.Quiet() && store.rollbackFailed == old(store.rollbackFailed)
      ensures store.catalog == if ok then Created(old(store.catalog), id, name) else old(store.catalog)
      ensures Fitting(handles, Ids(store.catalog), store.committed)
      ensures !store.rollbackFailed ==>
                && NewlyConsistent(store.exposed, old(store.exposed), store.committed, {old(store.catalog), Created(old(store.catalog), id, name)})
                && (if ok then JustListed(id, tag) else store.Steady())
      ensures old(store.Quiet()) && Free(old(store.root)) ==> store.Quiet() && ok && store.rollbackFailed == old(store.rollbackFailed)
      ensures store.StaysTracked()
    {
      CreateIsWellFormed(store.catalog, id, name);
      ok := store.Transition(Created(store.catalog, id, name), Create, id);
      assert !store.rollbackFailed ==> Rest(store.root).active == Rest(old(store.root)).active;
    }

    /** Moves the storage of a Database that could not be listed to quarantine. */
    method SetAside(id: string)
      modifies store`root, store`exposed, store`trail, store`faults
      ensures store.root.state == old(store.root).state && store.root.previous == old(store.root).previous
      ensures old(store.Quiet()) ==> store.Quiet()
      ensures old(store.Steady()) && id !in store.committed ==>
                && store.Steady() && store.committed == Recorded(store.root, store.committed)
                && NewlyConsistent(store.exposed, old(store.exposed), store.committed, {store.catalog})
      ensures store.StaysTracked()
    {
      if store.Steady() && id !in store.committed {
        FailedCreateIsConsistent(store.root, store.committed, id);
      }
      var moved := store.Try(ToFailed(id));
      if old(store.Steady()) {
        NothingToRecord(store.root, store.committed);
      }
    }

    /** `id` has just been listed, with its storage in place. */
    ghost predicate JustListed(id: string, tag: nat)
      reads store`root, store`catalog, store`committed
    {
      && Consistent(store.root, store.committed) && store.root.state == Some(Holds(store.catalog))
      && store.root.operation.Some? && store.root.operation.value.Journal? && store.root.operation.value.kind == Create
      && id in Ids(store.catalog) && Ids(store.catalog) <= store.committed.Keys + {id} && id !in store.committed
      && store.root.active[id].tag == tag
    }

    /** Forgets the journal of a create; its Database counts from now on. */
    method FinishCreate(id: string, tag: nat)
      modifies store`root, store`exposed, store`trail, store`faults, store`committed
      ensures store.root.state == old(store.root).state && store.root.previous == old(store.root).previous
      ensures old(store.Quiet()) ==> store.Quiet()
      ensures store.committed == Recorded(store.root, old(store.committed))
      ensures old(JustListed(id, tag)) ==>
                && store.Steady() && NewlyConsistent(store.exposed, old(store.exposed), old(store.committed), {store.catalog})
                && id in store.committed && store.committed[id] == tag
                && Extends(store.committed, old(store.committed))
      ensures store.StaysTracked()
    {
      var finished := store.FinishTransition();
      if old(JustListed(id, tag)) {
        ListedIsConsistent(store.root, old(store.root), store.committed, id);
      }
      store.committed := Recorded(store.root, store.committed);
    }

    static lemma FittingGrows(handles: map<string, Handle>, ids: set<string>, before: map<string, nat>, committed: map<string, nat>, id: string)
      requires Fitting(handles, ids, before) && Extends(committed, before) && id in ids && id in committed
      ensures Fitting(handles[id := Handle(id, committed[id], true)], ids, committed)
    {
    }

    /** Opens a Database that is listed now and forgets the journal. */
    method Publish(id: string, tag: nat)
      modifies this`handles, store`root, store`exposed, store`trail, store`faults, store`committed
      ensures handles == old(handles)[id := Handle(id, tag, true)]
      ensures store.root.state == old(store.root).state && store.root.previous == old(store.root).previous
      ensures old(store.Quiet()) ==> store.Quiet()
      ensures store.committed == Recorded(store.root, old(store.committed))
      ensures old(JustListed(id, tag)) && Fitting(old(handles), Ids(store.catalog), old(store.committed)) ==>
                Serving() && NewlyConsistent(store.exposed, old(store.exposed), old(store.committed), {store.catalog})
      ensures store.StaysTracked()
    {
      FinishCreate(id, tag);
      if old(JustListed(id, tag)) && Fitting(handles, Ids(store.catalog), old(store.committed)) {
        FittingGrows(handles, Ids(store.catalog), old(store.committed), store.committed, id);
      }
      handles := handles[id := Handle(id, tag, true)];
    }

    /** Commits the entry of a new Database whose storage is in place. */
    method CommitCreate(name: string, id: string, tag: nat) returns (r: Result<string>)
      requires ValidName(name) && ValidUuid(id) && name !in Names(store.catalog)
      requires Serving() && Unused(store.root.(active := map[]), store.committed, id)
      requires id in store.root.active && store.root.active[id] == Storage(tag, true)
      modifies this, store
      ensures Between(Created(old(store.catalog), id, name)) && Accounted(Created(old(store.catalog), id, name), old(Here()))
      ensures old(store.Quiet()) ==> store.Quiet() && store.rollbackFailed == old(store.rollbackFailed)
      ensures r.Ok? ==> r.value == id && handles == old(handles)[id := Handle(id, tag, true)]
      ensures !store.rollbackFailed && r.Ok? ==> store.catalog == Created(old(store.catalog), id, name)
      ensures r.Err? ==> r.why == InternalError && store.catalog == old(store.catalog) && handles == old(handles)
      ensures old(store.Quiet()) && Free(old(store.root)) ==> r.Ok? && store.rollbackFailed == old(store.rollbackFailed)
      ensures store.StaysTracked()
    {
      var ok := AddEntry(name, id, tag);
      if !ok {
        SetAside(id);
        return Err(InternalError);
      }
      Publish(id, tag);
      return Ok(id);
    }

    /** Makes the storage of a new Database under an unused ID. */
    method MakeStorage(id: string, tag: nat) returns (ok: bool)
      requires Serving() && Unused(store.root, store.committed, id)
      modifies store`root, store`exposed, store`trail, store`faults
      ensures Serving() && Unused(store.root.(active := map[]), store.committed, id)
      ensures NewlyConsistent(store.exposed, old(store.exposed), store.committed, {store.catalog})
      ensures ok ==> id in store.root.active && store.root.active[id] == Storage(tag, true)
      ensures old(store.Quiet()) ==> store.Quiet() && ok
      ensures Free(old(store.root)) ==> Free(store.root)
      ensures store.StaysTracked()
    {
      NewStorageIsConsistent(store.root, store.committed, id, Storage(tag, false));
      NewStorageIsConsistent(store.root, store.committed, id, Storage(tag, true));
      ok := CreateStorage(id, tag);
    }

    method MakeAndCommit(name: string, id: string, tag: nat) returns (r: Result<string>)
      requires ValidName(name) && ValidUuid(id) && name !in Names(store.catalog)
      requires Serving() && Unused(store.root, store.committed, id)
      modifies this, store
      ensures Between(Created(old(store.catalog), id, name)) && Accounted(Created(old(store.catalog), id, name), old(Here()))
      ensures old(store.Quiet()) ==> store.Quiet() && store.rollbackFailed == old(store.rollbackFailed)
      ensures r.Ok? ==> r.value == id && handles == old(handles)[id := Handle(id, tag, true)]
      ensures !store.rollbackFailed && r.Ok? ==> store.catalog == Created(old(store.catalog), id, name)
      ensures r.Err? ==> r.why == InternalError && store.catalog == old(store.catalog) && handles == old(handles)
      ensures old(store.Quiet()) && Free(old(store.root)) ==> r.Ok? && store.rollbackFailed == old(store.rollbackFailed)
      ensures store.StaysTracked()
    {
      var ok := MakeStorage(id, tag);
      if !ok {
        NothingToRecord(store.root, store.committed);
        return Err(InternalError);
      }
      r := CommitCreate(name, id, tag);
    }

    method CreateDatabase(name: string, id: string, tag: nat) returns (r: Result<string>)
      requires Serving() && Unused(store.root, store.committed, id) && ValidUuid(id)
      modifies this, store
      ensures Journaled(CreateOf(name, id, tag)) && Concluded(CreateOf(name, id, tag), r)
      ensures r.Ok? ==> handles == old(handles)[id := Handle(id, tag, true)]
      ensures r.Err? ==> store.catalog == old(store.catalog) && handles == old(handles)
      ensures store.StaysTracked()
    {
      NothingToRecord(store.root, store.committed);
      if !ValidName(name) {
        return Err(InvalidDatabaseName);
      }
      var found := Find(store.catalog.databases, name);
      if found.Some? {
        assert store.catalog.databases[found.value] in store.catalog.databases;
        return Err(DatabaseAlreadyExists);
      }
      r := MakeAndCommit(name, id, tag);
    }

    // ---- rename ----

    /** Commits a new name and forgets the journal. */
    method CommitRename(k: nat, newName: string) returns (r: Result<string>)
      requires Serving() && k < |store.catalog.databases| && ValidName(newName) && newName !in Names(store.catalog)
      modifies store
      ensures old(store.Quiet()) ==> store.Quiet() && store.rollbackFailed == old(store.rollbackFailed)
      ensures Accounted(Renamed(old(store.catalog), k, newName), old(Here()))
      ensures Held(Renamed(old(store.catalog), k, newName), old(Here()))
      ensures r == Ok(old(store.catalog).databases[k].id) || r == Err(InternalError)
      ensures r.Err? ==> store.catalog == old(store.catalog)
      ensures !store.rollbackFailed && r.Ok? ==> store.catalog == Renamed(old(store.catalog), k, newName)
      ensures old(store.Quiet()) && Free(old(store.root)) ==> r.Ok? && store.rollbackFailed == old(store.rollbackFailed)
      ensures store.StaysTracked()
    {
      var id := store.catalog.databases[k].id;
      RenameIsWellFormed(store.catalog, k, newName);
      var ok := store.Transition(Renamed(store.catalog, k, newName), Rename, id);
      if !ok {
        return Err(InternalError);
      }
      var finished := store.FinishTransition();
      return Ok(id);
    }

    method RenameDatabase(name: string, newName: string) returns (r: Result<string>)
      requires Serving()
      modifies this, store
      ensures Journaled(RenameOf(name, newName)) && Concluded(RenameOf(name, newName), r) && handles == old(handles)
      ensures !store.rollbackFailed && r.Ok? ==>
                && Ids(store.catalog) == Ids(old(store.catalog))
                && Names(store.catalog) == Names(old(store.catalog)) - {name} + {newName}
                && IdOf(old(store.catalog), name) == Some(r.value) && Entry(r.value, newName, "ready") in store.catalog.databases
      ensures r.Err? ==> store.catalog == old(store.catalog)
      ensures store.StaysTracked()
    {
      NothingToRecord(store.root, store.committed);
      if !ValidName(newName) {
        return Err(InvalidDatabaseName);
      }
      var taken := Find(store.catalog.databases, newName);
      if taken.Some? {
        assert store.catalog.databases[taken.value] in store.catalog.databases;
        return Err(DatabaseAlreadyExists);
      }
      var found := Find(store.catalog.databases, name);
      if found.None? {
        return Err(DatabaseNotFound);
      }
      assert store.catalog.databases[found.value] in store.catalog.databases;
      RenameIsWellFormed(store.catalog, found.value, newName);
      RenamedEntryIsListed(store.catalog, found.value, newName);
      r := CommitRename(found.value, newName);
      if !store.rollbackFailed {
        NothingToRecord(store.root, store.committed);
      }
    }

    // ---- drop ----

    /** Commits the removal of a closed Database from the catalog. */
    method RemoveEntry(id: string) returns (ok: bool)
      requires Serving() && id in Ids(store.catalog) && id !in handles
      modifies store
      ensures store.committed == old(store.committed)
      ensures Accounted(Dropped(old(store.catalog), id), old(Here()))
      ensures old(store.Quiet()) ==> store.Quiet() && store.rollbackFailed == old(store.rollbackFailed)
      ensures store.catalog == if ok then Dropped(old(store.catalog), id) else old(store.catalog)
      ensures Ids(store.catalog) <= Ids(old(store.catalog)) && (!ok ==> id in Ids(store.catalog))
      ensures !store.rollbackFailed ==>
                && Serving() && (if ok then DropCommitted(id) else !DropPending(store.root, store.catalog, id))
                && NewlyConsistent(store.exposed, old(store.exposed), store.committed, {old(store.catalog), Dropped(old(store.catalog), id)})
      ensures old(store.Quiet()) && Free(old(store.root)) ==> store.Quiet() && ok && store.rollbackFailed == old(store.rollbackFailed)
      ensures old(store.FailsOnlyAfter(9)) && Free(old(store.root)) ==>
                ok && store.FailsOnlyAfter(0) && store.rollbackFailed == old(store.rollbackFailed) && store.root.pending == None
      ensures store.StaysTracked()
    {
      DropIsWellFormed(store.catalog, id);
      ListedIsNotPending(store.root, store.committed, store.catalog, id);
      ok := store.Transition(Dropped(store.catalog, id), Drop, id);
      if !ok && !store.rollbackFailed {
        ListedIsNotPending(store.root, store.committed, store.catalog, id);
      }
    }

    /** The durable catalog no longer lists `id`, whose storage is still in place. */
    ghost predicate DropCommitted(id: string)
      reads store`root, store`catalog, store`committed
    {
      store.Steady() && id in store.committed && DropPending(store.root, store.catalog, id)
    }

    static predicate Trashed(root: Root, committed: map<string, nat>, id: string) {
      id in root.trash && id in committed && root.trash[id].tag == committed[id] && id !in root.active
    }

    /** Moves the storage of a dropped Database to the trash. */
    method Trash(id: string) returns (ok: bool)
      requires id in store.root.active
      modifies store`root, store`exposed, store`trail, store`faults
      ensures store.root == if ok then Applied(old(store.root), ToTrash(id)) else old(store.root)
      ensures old(DropCommitted(id)) ==>
                && store.Steady() && NewlyConsistent(store.exposed, old(store.exposed), store.committed, {store.catalog})
                && (ok ==> store.Settleable() && Trashed(store.root, store.committed, id))
      ensures old(store.Quiet()) ==> store.Quiet() && ok
      ensures old(store.FailsOnlyAfter(0)) ==> store.Quiet() && !ok
      ensures store.StaysTracked()
    {
      if DropCommitted(id) {
        CompletedDropIsConsistent(store.root, store.committed, id);
      }
      ok := store.Try(ToTrash(id));
    }

    /** Moves the storage of a dropped Database, and then forgets the journal. */
    method MoveToTrash(id: string) returns (r: Result<string>)
      modifies store`root, store`exposed, store`trail, store`faults
      ensures r == Ok(id) || (r == Err(InternalError) && store.root == old(store.root))
      ensures store.root.state == old(store.root).state && store.root.previous == old(store.root).previous
      ensures old(store.Quiet()) ==> store.Quiet()
      ensures old(store.FailsOnlyAfter(0)) && id in old(store.root).active ==> r.Err? && store.Quiet()
      ensures old(DropCommitted(id)) ==>
                && store.Steady()
                && NewlyConsistent(store.exposed, old(store.exposed), store.committed, {store.catalog})
                && (r.Ok? ==> Trashed(store.root, store.committed, id))
      ensures old(store.Quiet()) && id in old(store.root).active ==> r.Ok?
      ensures store.StaysTracked()
    {
      if id !in store.root.active {
        return Err(InternalError);
      }
      var ok := Trash(id);
      if !ok {
        return Err(InternalError);
      }
      var finished := store.FinishTransition();
      return Ok(id);
    }

    /** Puts the handle of a Database that was not dropped back, if it opens. */
    method Reopen(handle: Handle)
      modifies this`handles, store`faults
      ensures handles == old(handles) || handles == old(handles)[handle.id := handle.(open := true)]
      ensures old(store.Quiet()) ==> store.Quiet()
    {
      var fault := store.Strikes();
      if !fault {
        handles := handles[handle.id := handle.(open := true)];
      }
    }

    /** How a drop of a listed Database ends. An error that is not a refusal follows
        a committed removal exactly if the storage has yet to move; the next start
        moves it. */
    ghost predicate DropEnded(id: string, r: Result<string>, past: Past)
      reads this`handles, store`root, store`catalog, store`committed, store`exposed, store`rollbackFailed
    {
      Accounted(Dropped(past.catalog, id), past) && Held(Dropped(past.catalog, id), past)
      && (!store.rollbackFailed && r.Ok? ==> store.catalog == Dropped(past.catalog, id) && Trashed(store.root, store.committed, id))
      && (!store.rollbackFailed && r == Err(InternalError) ==>
            (store.catalog != past.catalog <==> DropPending(store.root, store.catalog, id)))
    }

    /** The removal is committed, and the answer is an error. */
    ghost predicate CommittedAnyway(id: string, r: Result<string>, past: Past)
      reads this`handles, store`root, store`catalog, store`committed, store`exposed, store`rollbackFailed
    {
      && r == Err(InternalError) && !store.rollbackFailed
      && store.catalog == Dropped(past.catalog, id) && store.root.pending == None
      && Serving() && DropPending(store.root, store.catalog, id) && store.committed == past.committed
    }

    /** A drop that comes to nothing. */
    lemma NothingDropped(id: string)
      requires Serving() && id in Ids(store.catalog)
      ensures DropEnded(id, Err(InternalError), Here()) && DropEnded(id, Err(DatabaseBusy), Here()) && id !in store.root.trash
    {
      ListedIsNotPending(store.root, store.committed, store.catalog, id);
    }

    /** Commits the removal of a closed Database and moves its storage away. */
    method CommitDrop(id: string) returns (removed: bool, r: Result<string>)
      requires Serving() && id in Ids(store.catalog) && id !in handles
      modifies store
      ensures DropEnded(id, r, old(Here()))
      ensures old(store.Quiet()) ==> store.Quiet() && store.rollbackFailed == old(store.rollbackFailed)
      ensures r == Ok(id) || r == Err(InternalError)
      ensures !removed ==> r.Err? && store.catalog == old(store.catalog)
      ensures old(store.Quiet()) && Free(old(store.root)) && !old(store.rollbackFailed) ==> r.Ok? && removed && !store.rollbackFailed
      ensures old(store.FailsOnlyAfter(9)) && Free(old(store.root)) && !old(store.rollbackFailed) ==>
                removed && CommittedAnyway(id, r, old(Here())) && store.Quiet()
      ensures store.StaysTracked()
    {
      removed := RemoveEntry(id);
      if !removed {
        return false, Err(InternalError);
      }
      ghost var middle := store.exposed;
      r := MoveToTrash(id);
      if !store.rollbackFailed {
        ConsistentAllAlong(store.exposed, middle, old(store.exposed), store.committed, {old(store.catalog), store.catalog}, store.catalog);
      }
    }

    /** Drops a closed Database, or puts its handle back. */
    method DropOrReopen(handle: Handle) returns (r: Result<string>)
      requires Serving() && handle.id in Ids(store.catalog) && handle.id !in handles && handle.storage == store.committed[handle.id]
      modifies this, store
      ensures DropEnded(handle.id, r, old(Here()))
      ensures old(store.Quiet()) ==> store.Quiet() && store.rollbackFailed == old(store.rollbackFailed)
      ensures r == Ok(handle.id) || r == Err(InternalError)
      ensures r.Ok? ==> handles == old(handles)
      ensures SameHandlesBut(handles, old(handles), handle.id)
      ensures old(store.Quiet()) && Free(old(store.root)) && !old(store.rollbackFailed) ==> r.Ok? && !store.rollbackFailed
      ensures old(store.FailsOnlyAfter(9)) && Free(old(store.root)) && !old(store.rollbackFailed) ==>
                CommittedAnyway(handle.id, r, old(Here())) && store.Quiet()
      ensures store.StaysTracked()
    {
      var removed;
      removed, r := CommitDrop(handle.id);
      if !removed {
        Reopen(handle);
      }
    }

    /** Checkpoints and closes an open Database. */
    method Close(id: string) returns (ok: bool)
      requires Serving() && id in handles
      modifies this`handles, store`faults
      ensures Serving() && handles == if ok then old(handles) - {id} else old(handles)
      ensures old(store.Quiet()) ==> store.Quiet() && ok
      ensures old(store.FailsOnlyAfter(10)) ==> store.FailsOnlyAfter(9) && ok
    {
      var fault := store.Strikes();
      if fault {
        return false;
      }
      handles := handles - {id};
      return true;
    }

    /** Checkpoints and closes an open Database, then drops it. */
    method CloseAndDrop(id: string) returns (r: Result<string>)
      requires Serving() && id in handles
      modifies this, store
      ensures DropEnded(id, r, old(Here()))
      ensures old(store.Quiet()) ==> store.Quiet() && store.rollbackFailed == old(store.rollbackFailed)
      ensures r == Ok(id) || r == Err(InternalError)
      ensures r.Ok? ==> handles == old(handles) - {id}
      ensures SameHandlesBut(handles, old(handles), id)
      ensures old(store.Quiet()) && Free(old(store.root)) && !old(store.rollbackFailed) ==> r.Ok? && !store.rollbackFailed
      ensures old(store.FailsOnlyAfter(10)) && Free(old(store.root)) && !old(store.rollbackFailed) ==>
                CommittedAnyway(id, r, old(Here())) && store.Quiet()
      ensures store.StaysTracked()
    {
      var handle := handles[id];
      var closed := Close(id);
      if !closed {
        NothingDropped(id);
        return Err(InternalError);
      }
      r := DropOrReopen(handle);
    }

    /** Drops a listed Database, unless its handle is missing or not open. */
    method DropListed(id: string) returns (r: Result<string>)
      requires Serving() && id in Ids(store.catalog)
      modifies this, store
      ensures DropEnded(id, r, old(Here()))
      ensures old(store.Quiet()) ==> store.Quiet() && store.rollbackFailed == old(store.rollbackFailed)
      ensures if id in old(handles) && !old(handles)[id].open then r == Err(DatabaseBusy) else r == Ok(id) || r == Err(InternalError)
      ensures r == Err(DatabaseBusy) ==> store.root == old(store.root) && store.catalog == old(store.catalog) && handles == old(handles)
      ensures r.Ok? ==> id in old(handles) && handles == old(handles) - {id}
      ensures SameHandlesBut(handles, old(handles), id)
      ensures old(store.Quiet()) && Free(old(store.root)) && !old(store.rollbackFailed) && id in old(handles) ==>
                r != Err(InternalError) && !store.rollbackFailed
      ensures old(store.FailsOnlyAfter(10)) && Free(old(store.root)) && !old(store.rollbackFailed) && id in old(handles) && old(handles)[id].open ==>
                CommittedAnyway(id, r, old(Here())) && store.Quiet()
      ensures store.StaysTracked()
    {
      NothingDropped(id);
      if id in store.root.trash || id !in handles {
        return Err(InternalError);
      }
      if !handles[id].open {
        return Err(DatabaseBusy);
      }
      r := CloseAndDrop(id);
    }

    method DropDatabase(name: string, confirmName: string) returns (r: Result<string>)
      requires Serving()
      modifies this, store
      ensures Journaled(DropOf(name, confirmName)) && Concluded(DropOf(name, confirmName), r)
      ensures r.Ok? ==> r.value in old(handles) && handles == old(handles) - {r.value}
      ensures !store.rollbackFailed && r.Ok? ==> Trashed(store.root, store.committed, r.value)
      ensures var id := Subject(DropOf(name, confirmName), old(store.catalog));
              && name == confirmName && name in Names(old(store.catalog)) && id in old(handles) && old(handles)[id].open
              && old(store.FailsOnlyAfter(10)) && Free(old(store.root)) && !old(store.rollbackFailed) ==>
                CommittedAnyway(id, r, old(Here())) && store.Quiet()
      ensures store.StaysTracked()
    {
      NothingToRecord(store.root, store.committed);
      if name != confirmName {
        return Err(ProtocolViolation);
      }
      var found := Find(store.catalog.databases, name);
      if found.None? {
        return Err(DatabaseNotFound);
      }
      DropOfListed(store.catalog, name);
      r := DropListed(store.catalog.databases[found.value].id);
      if !store.rollbackFailed {
        NothingToRecord(store.root, store.committed);
      }
    }

    // ---- startup, selection and execution ----

    /** The handles of a daemon that has just started. */
    static ghost predicate AllOpen(handles: map<string, Handle>, ids: set<string>, committed: map<string, nat>) {
      && handles.Keys == ids
      && forall id | id in handles :: id in committed && handles[id] == Handle(id, committed[id], true)
    }

    /** Loads the catalog and opens every listed Database. */
    method Open() returns (up: bool)
      requires Consistent(store.root, store.committed)
      modifies this, store
      ensures CatalogOf(store.root) == CatalogOf(old(store.root))
      ensures Consistent(store.root, store.committed) && Extends(store.committed, old(store.committed))
      ensures store.committed.Keys <= old(store.committed).Keys + Ids(CatalogOf(store.root).value)
      ensures NewlyConsistent(store.exposed, old(store.exposed), old(store.committed), {CatalogOf(store.root).value})
      ensures up ==>
                && Serving() && Settled(store.root, store.committed, store.catalog) && Loadable(old(store.root))
                && AllOpen(handles, Ids(store.catalog), store.committed)
      ensures store.rollbackFailed == old(store.rollbackFailed)
      ensures old(store.Quiet()) ==> store.Quiet() && (up <==> Loadable(old(store.root)))
      ensures store.StaysTracked()
      ensures Shrunk(store.root, old(store.root)) && NewlyShrunk(store.exposed, old(store.exposed), old(store.root))
    {
      handles := map[];
      var loading := store.Load();
      if loading != Loaded {
        return false;
      }
      up := OpenHandles();
    }

    /** Opens the Databases of a loaded catalog. */
    method OpenHandles() returns (up: bool)
      requires store.Steady() && Settled(store.root, store.committed, store.catalog) && handles == map[]
      modifies this`handles, store`faults
      ensures up ==> Serving() && AllOpen(handles, Ids(store.catalog), store.committed)
      ensures old(store.Quiet()) ==> store.Quiet() && up
    {
      var ids := Listing(store.catalog.databases);
      ListingOf(store.catalog);
      var opening := OpenEach(ids, store.root.active, store.committed);
      if opening.None? {
        return false;
      }
      handles := opening.value;
      return true;
    }

    static function Listing(entries: seq<Entry>): seq<string> {
      seq(|entries|, k requires 0 <= k < |entries| => entries[k].id)
    }

    static lemma ListingOf(c: Catalog)
      ensures (set id | id in Listing(c.databases)) == Ids(c)
    {
      var entries, ids := c.databases, Listing(c.databases);
      assert forall k | 0 <= k < |ids| :: entries[k] in entries && ids[k] == entries[k].id;
    }

    method OpenEach(ids: seq<string>, active: map<string, Storage>, ghost committed: map<string, nat>)
      returns (opening: Option<map<string, Handle>>)
      requires forall id | id in ids :: id in active && id in committed && active[id].tag == committed[id]
      modifies store`faults
      ensures opening.Some? ==> AllOpen(opening.value, (set id | id in ids), committed)
      ensures old(store.Quiet()) ==> store.Quiet() && opening.Some?
    {
      var open: map<string, Handle> := map[];
      for k := 0 to |ids|
        invariant AllOpen(open, (set id | id in ids[..k]), committed)
        invariant old(store.Quiet()) ==> store.Quiet()
      {
        var fault := store.Strikes();
        if fault {
          return None;
        }
        assert ids[..k + 1] == ids[..k] + [ids[k]];
        open := open[ids[k] := Handle(ids[k], active[ids[k]].tag, true)];
      }
      assert ids[..|ids|] == ids;
      return Some(open);
    }

    /** A restore that ends without a handle leaves the Database unavailable. */
    method Withdraw(id: string)
      modifies this`handles
      ensures handles == if id in old(handles) then old(handles)[id := old(handles)[id].(open := false)] else old(handles)
      ensures old(Serving()) ==> Serving()
    {
      if id in handles {
        handles := handles[id := handles[id].(open := false)];
      }
    }

    /** Resolves a name, once (`select_database`). */
    method SelectDatabase(name: string) returns (r: Result<string>)
      ensures r.Ok? ==> exists e | e in store.catalog.databases :: e.name == name && e.id == r.value
      ensures r.Err? <==> name !in Names(store.catalog)
      ensures r == (if IdOf(store.catalog, name).Some? then Ok(IdOf(store.catalog, name).value) else Err(DatabaseNotFound))
    {
      var found := Find(store.catalog.databases, name);
      if found.None? {
        return Err(DatabaseNotFound);
      }
      assert store.catalog.databases[found.value] in store.catalog.databases;
      return Ok(store.catalog.databases[found.value].id);
    }

    /** Where an operation on a connection's selected Database goes: to that
        Database's own storage or nowhere (`handle_for_selected_id`). */
    method HandleForSelectedId(id: string) returns (r: Result<Handle>)
      ensures r.Err? ==> r.why == (if id in Ids(store.catalog) then DatabaseBusy else DatabaseNotFound)
      ensures r.Ok? <==> id in Ids(store.catalog) && id in handles && handles[id].open
      ensures r.Ok? ==> r.value == handles[id]
      ensures r.Ok? && Serving() ==>
                r.value.id == id && id in store.root.active && store.root.active[id] == Storage(r.value.storage, true)
    {
      if !exists e | e in store.catalog.databases :: e.id == id {
        return Err(DatabaseNotFound);
      }
      if id !in handles || !handles[id].open {
        return Err(DatabaseBusy);
      }
      return Ok(handles[id]);
    }
  }

  /** How an error answers a drop that happened: the checkpoint and the nine
      operations of the commit succeed, and the move to the trash does not. The
      Database is gone from the catalog, and the next start moves its storage. */
  method DropDespiteError(daemon: DatabaseDaemon, name: string) returns (r: Result<string>, up: bool)
    requires daemon.Serving() && Free(daemon.store.root) && !daemon.store.rollbackFailed && daemon.store.FailsOnlyAfter(10)
    requires var id := IdOf(daemon.store.catalog, name); id.Some? && id.value in daemon.handles && daemon.handles[id.value].open
    modifies daemon, daemon.store
    ensures r == Err(InternalError) && up && name !in Names(daemon.store.catalog)
    ensures var id := IdOf(old(daemon.store.catalog), name).value;
            id !in daemon.handles && DatabaseDaemon.Trashed(daemon.store.root, old(daemon.store.committed), id)
  {
    ghost var id := IdOf(daemon.store.catalog, name).value;
    DroppedIsUnlisted(daemon.store.catalog, name);
    r := daemon.DropDatabase(name, name);
    up := OpenAgain(daemon, id);
  }

  /** A quiet start after an error completes a drop that is pending. */
  method OpenAgain(daemon: DatabaseDaemon, ghost id: string) returns (up: bool)
    requires daemon.Serving() && daemon.store.Quiet() && daemon.store.root.pending == None
    requires DropPending(daemon.store.root, daemon.store.catalog, id) && id in daemon.store.committed && id !in Ids(daemon.store.catalog)
    modifies daemon, daemon.store
    ensures up && daemon.store.catalog == old(daemon.store.catalog)
    ensures id !in daemon.handles && DatabaseDaemon.Trashed(daemon.store.root, old(daemon.store.committed), id)
  {
    up := daemon.Open();
  }

  /** The name goes with the Database. */
  lemma DroppedIsUnlisted(c: Catalog, name: string)
    requires WellFormed(c) && IdOf(c, name).Some?
    ensures IdOf(c, name).value in Ids(c) && IdOf(c, name).value !in Ids(Dropped(c, IdOf(c, name).value))
    ensures name in Names(c) && name !in Names(Dropped(c, IdOf(c, name).value))
  {
    var found := c.databases[Find(c.databases, name).value];
    assert found in c.databases;
    DropIsWellFormed(c, found.id);
    if name in Names(Dropped(c, found.id)) {
      var e :| e in Dropped(c, found.id).databases && e.name == name;
      FindIsUnique(c, e);
      assert false;
    }
  }
}
