/** The files of one data directory: the catalog with its pending and previous
    copies, the lifecycle journal, and the storage of every Database. */
module CatalogFiles {
  import opened Core
  import opened Catalog

  datatype CatalogFile = Garbled | Holds(catalog: Catalog)

  datatype Kind = Create | Rename | Drop

  /** The `server-operation` file; `Scrambled` bytes do not parse. */
  datatype OperationFile =
    | Scrambled
    | Journal(version: nat, kind: Kind, id: string, before: Catalog, after: Catalog)

  /** A Database's directory: its identity, which a rename keeps, and whether it
      holds the database file. */
  datatype Storage = Storage(tag: nat, file: bool)

  datatype Root = Root(
    state: Option<CatalogFile>,
    pending: Option<CatalogFile>,
    previous: Option<CatalogFile>,
    operation: Option<OperationFile>,
    /** Whether `recovery/interrupted-catalog.pending` exists. */
    quarantined: bool,
    /** The directories under `databases/` and `trash/`. */
    active: map<string, Storage>,
    trash: map<string, Storage>,
    /** `recovery/orphan-*` and `recovery/failed-create-*`. */
    orphans: set<string>,
    failed: set<string>)

  /** One operation on the files of the data directory. */
  datatype FileOp =
    | PutPending(file: CatalogFile)
    | RemovePending
    | QuarantinePending
    | StateToPrevious
    | PendingToState
    | PreviousToState
    | RemoveState
    | RemovePrevious
    | SyncRoot
    | PutOperation(journal: OperationFile)
    | RemoveOperation
    | MakeDirectory(id: string, tag: nat)
    | MakeFile(id: string)
    | RemoveDirectory(id: string)
    | ToTrash(id: string)
    | ToOrphans(id: string)
    | ToFailed(id: string)

  function Applied(root: Root, op: FileOp): Root {
    match op
    case PutPending(file) => root.(pending := Some(file))
    case RemovePending => root.(pending := None)
    case QuarantinePending => root.(pending := None, quarantined := true)
    case StateToPrevious => root.(previous := root.state, state := None)
    case PendingToState => root.(state := root.pending, pending := None)
    case PreviousToState => root.(state := root.previous, previous := None)
    case RemoveState => root.(state := None)
    case RemovePrevious => root.(previous := None)
    case SyncRoot => root
    case PutOperation(journal) => root.(operation := Some(journal))
    case RemoveOperation => root.(operation := None)
    case MakeDirectory(id, tag) => root.(active := root.active[id := Storage(tag, false)])
    case MakeFile(id) => if id in root.active then root.(active := root.active[id := Storage(root.active[id].tag, true)]) else root
    case RemoveDirectory(id) => root.(active := root.active - {id})
    case ToTrash(id) =>
      if id in root.active then root.(active := root.active - {id}, trash := root.trash[id := root.active[id]]) else root
    case ToOrphans(id) => root.(active := root.active - {id}, orphans := root.orphans + {id})
    case ToFailed(id) => root.(active := root.active - {id}, failed := root.failed + {id})
  }

  /** Each state is reached from the one before by at most one file operation. */
  ghost predicate Walk(states: seq<Root>) {
    forall i, j | 0 <= i < j < |states| && j == i + 1 :: OneStep(states[i], states[j])
  }

  ghost predicate OneStep(x: Root, y: Root) {
    y == x || exists op :: y == Applied(x, op)
  }

  /** A walk from one state to another. */
  ghost predicate Path(states: seq<Root>, first: Root, last: Root) {
    states != [] && states[0] == first && states[|states| - 1] == last && Walk(states)
  }

  function Parsed(file: Option<CatalogFile>): Option<Catalog> {
    if file.Some? && file.value.Holds? then Some(file.value.catalog) else None
  }

  /** The catalog that startup would load. */
  function CatalogOf(root: Root): Option<Catalog> {
    if root.state.None? then Parsed(root.previous) else Parsed(root.state)
  }

  predicate Stored(root: Root, id: string) {
    id in root.active && root.active[id].file
  }

  /** A drop is committed and journaled, and its storage has yet to move. */
  predicate DropPending(root: Root, c: Catalog, id: string) {
    && root.operation.Some? && root.operation.value.Journal?
    && root.operation.value.kind == Drop && root.operation.value.id == id && root.operation.value.after == c
    && Stored(root, id) && id !in root.trash
  }

  /** The storage of a Database that is no longer listed. */
  predicate Discarded(root: Root, c: Catalog, id: string, tag: nat) {
    || (DropPending(root, c, id) && root.active[id].tag == tag)
    || (id in root.trash && root.trash[id] == Storage(tag, true) && id !in root.active)
  }

  /** A journal whose two sides include the present catalog, and whose change is
      one that recovery can complete. */
  predicate JournalMatches(j: OperationFile, c: Catalog, committed: set<string>) {
    j.Journal? ==>
      && j.version == 1
      && j.before != j.after && (c == j.before || c == j.after)
      && (j.kind == Create ==> j.id in Ids(j.after))
      && (j.kind == Drop ==> j.id !in Ids(j.after) && j.id in committed)
  }

  /** What every state that a crash may leave satisfies. `committed` are the IDs
      that were ever listed, each with the storage it was created with. */
  ghost predicate Consistent(root: Root, committed: map<string, nat>) {
    CatalogOf(root).Some? &&
    var c := CatalogOf(root).value;
    && WellFormed(c)
    && (root.operation.Some? ==> JournalMatches(root.operation.value, c, committed.Keys + Ids(c)))
    && (forall id | id in Ids(c) :: Stored(root, id) && id !in root.trash && (id in committed ==> root.active[id].tag == committed[id]))
    && (forall id | id in committed && id !in Ids(c) :: Discarded(root, c, id, committed[id]))
    && (forall id | id in committed || id in Ids(c) :: id !in root.orphans && id !in root.failed)
    && (forall id | id in root.active :: id !in root.orphans)
  }

  /** Directories may have left `databases/`; none has come, and none has changed. */
  predicate Shrunk(x: Root, start: Root) {
    forall i | i in x.active :: i in start.active && x.active[i] == start.active[i]
  }

  /** No Database uses this ID, or ever did. */
  predicate Unused(root: Root, committed: map<string, nat>, id: string) {
    id !in root.active && id !in root.trash && id !in root.orphans && id !in root.failed && id !in committed
  }

  /** What a successful load leaves: nothing pending, `databases/` holds exactly
      the listed IDs, and every other ID that was ever listed is in `trash/`, each
      with the storage it was created with. */
  ghost predicate Settled(root: Root, committed: map<string, nat>, c: Catalog) {
    && WellFormed(c)
    && root.state == Some(Holds(c)) && root.pending == None && root.previous == None && root.operation == None
    && root.active.Keys == Ids(c) && Ids(c) <= committed.Keys
    && (forall id | id in Ids(c) :: root.active[id] == Storage(committed[id], true) && id !in root.trash)
    && (forall id | id in committed && id !in Ids(c) :: id in root.trash && root.trash[id] == Storage(committed[id], true))
    && (forall id | id in committed :: id !in root.orphans && id !in root.failed)
  }

  /** The IDs that were ever listed, once the present catalog counts. */
  function Recorded(root: Root, committed: map<string, nat>): map<string, nat> {
    if CatalogOf(root).None? then committed
    else
      map id | id in committed.Keys + Ids(CatalogOf(root).value) ::
        if id in committed then committed[id] else if id in root.active then root.active[id].tag else 0
  }

  /** What was recorded stays recorded. */
  ghost predicate Extends(after: map<string, nat>, before: map<string, nat>) {
    forall i | i in before :: i in after && after[i] == before[i]
  }

  lemma NothingToRecord(root: Root, committed: map<string, nat>)
    requires CatalogOf(root).Some? && Ids(CatalogOf(root).value) <= committed.Keys
    ensures Recorded(root, committed) == committed
  {
    assert committed.Keys + Ids(CatalogOf(root).value) == committed.Keys;
  }

  /** `next` is the catalog that this lifecycle operation puts in the place of `c`. */
  predicate Fits(root: Root, c: Catalog, next: Catalog, kind: Kind, id: string, committed: map<string, nat>) {
    && WellFormed(next) && next != c
    && match kind
       case Create =>
         Ids(next) == Ids(c) + {id} && Stored(root, id) &&
         id !in root.trash && id !in root.orphans && id !in root.failed && id !in committed
       case Rename => Ids(next) == Ids(c)
       case Drop => id in Ids(c) && Ids(next) == Ids(c) - {id}
  }

  /** Everything but the catalog files: the journal and the storage. */
  function Rest(root: Root): Root {
    root.(state := None, pending := None, previous := None, quarantined := false)
  }

  /** Only catalog files differ, and startup would find the same catalog. */
  lemma SameCatalogStaysConsistent(x: Root, start: Root, committed: map<string, nat>)
    requires Consistent(start, committed)
    requires Rest(x) == Rest(start) && CatalogOf(x) == CatalogOf(start)
    ensures Consistent(x, committed)
  {
  }

  /** A state on the way of a journaled transition from `c` to `next`. */
  predicate OnTheWay(x: Root, start: Root, c: Catalog, next: Catalog, journal: OperationFile) {
    || (Rest(x) == Rest(start).(operation := Some(journal)) && CatalogOf(x) in {Some(c), Some(next)})
    || (Rest(x).(operation := None) == Rest(start) && CatalogOf(x) == Some(c) && x.operation in {None, Some(Scrambled)})
  }

  lemma OnTheWayIsConsistent(x: Root, start: Root, c: Catalog, next: Catalog, kind: Kind, id: string, committed: map<string, nat>)
    requires Consistent(start, committed) && CatalogOf(start) == Some(c) && start.operation == None
    requires Fits(start, c, next, kind, id, committed) && Ids(c) <= committed.Keys
    requires OnTheWay(x, start, c, next, Journal(1, kind, id, c, next))
    ensures Consistent(x, committed)
  {
    assert x.active == Rest(x).active == Rest(start).active == start.active;
    assert x.trash == Rest(x).trash == Rest(start).trash == start.trash;
    assert x.orphans == Rest(x).orphans == start.orphans && x.failed == Rest(x).failed == start.failed;
    var now := CatalogOf(x).value;
    forall i | i in committed && i !in Ids(now)
      ensures Discarded(x, now, i, committed[i])
    {
      assert i in Ids(c) || Discarded(start, c, i, committed[i]);
    }
  }

  /** A listed Database is not being dropped. */
  lemma ListedIsNotPending(root: Root, committed: map<string, nat>, c: Catalog, id: string)
    requires Consistent(root, committed) && CatalogOf(root) == Some(c) && id in Ids(c)
    ensures !DropPending(root, c, id) && id !in root.trash
  {
  }

  /** Moving the storage of a committed drop to the trash, and forgetting the
      journal of a completed change, keep everything consistent. */
  lemma CompletedDropIsConsistent(root: Root, committed: map<string, nat>, id: string)
    requires Consistent(root, committed) && root.operation.Some? && root.operation.value.Journal?
    requires root.operation.value.kind == Drop && root.operation.value.id == id
    requires CatalogOf(root) == Some(root.operation.value.after) && id in root.active
    ensures id !in root.trash
    ensures Consistent(root.(active := root.active - {id}, trash := root.trash[id := root.active[id]]), committed)
  {
  }

  lemma FinishedIsConsistent(root: Root, committed: map<string, nat>)
    requires Consistent(root, committed) && root.operation.Some? && root.operation.value.Journal?
    requires root.operation.value.kind == Drop && CatalogOf(root) == Some(root.operation.value.after) ==> root.operation.value.id !in root.active
    ensures Consistent(root.(operation := None), committed)
  {
  }

  lemma QuarantinedOrphanIsConsistent(root: Root, committed: map<string, nat>, id: string)
    requires Consistent(root, committed) && root.operation == None
    requires id in root.active && id !in Ids(CatalogOf(root).value)
    ensures id !in root.orphans
    ensures Consistent(root.(active := root.active - {id}, orphans := root.orphans + {id}), committed)
  {
  }

  /** Storage under an unused ID makes no difference to the listed Databases. */
  lemma NewStorageIsConsistent(root: Root, committed: map<string, nat>, id: string, storage: Storage)
    requires Consistent(root, committed) && Unused(root, committed, id) && id !in Ids(CatalogOf(root).value)
    ensures Consistent(root.(active := root.active[id := storage]), committed)
  {
  }

  /** Neither does moving the storage of a failed create aside. */
  lemma FailedCreateIsConsistent(root: Root, committed: map<string, nat>, id: string)
    requires Consistent(root, committed) && id !in committed && id !in Ids(CatalogOf(root).value)
    ensures Consistent(root.(active := root.active - {id}, failed := root.failed + {id}), committed)
  {
  }

  /** With nothing pending and no unlisted storage left, the load is complete. */
  lemma LoadedIsSettled(root: Root, committed: map<string, nat>, c: Catalog)
    requires Consistent(root, committed) && root.state == Some(Holds(c)) && root.pending == None && root.previous == None
    requires root.operation == None && root.active.Keys <= Ids(c)
    ensures Settled(root, Recorded(root, committed), c) && Consistent(root, Recorded(root, committed))
  {
    CommittedGrows(root, committed);
    assert root.active.Keys == Ids(c);
  }

  lemma CommittedGrows(root: Root, committed: map<string, nat>)
    requires Consistent(root, committed)
    ensures Consistent(root, Recorded(root, committed))
  {
  }

  /** A committed create counts from now on, with or without its journal. */
  lemma ListedIsConsistent(x: Root, root: Root, committed: map<string, nat>, id: string)
    requires Consistent(root, committed) && root.operation.Some? && root.operation.value.Journal? && root.operation.value.kind == Create
    requires x == root || x == root.(operation := None)
    requires id in Ids(CatalogOf(root).value)
    ensures Consistent(x, committed) && CatalogOf(x) == CatalogOf(root)
    ensures Consistent(x, Recorded(x, committed)) && Ids(CatalogOf(root).value) <= Recorded(x, committed).Keys
    ensures Extends(Recorded(x, committed), committed)
    ensures id in Recorded(x, committed) && Recorded(x, committed)[id] == root.active[id].tag
  {
    FinishedIsConsistent(root, committed);
    CommittedGrows(x, committed);
  }
}
