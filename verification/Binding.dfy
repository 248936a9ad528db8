/** Stable binding: what a connection runs reaches the storage of the Database that
    it selected, whatever happens to the catalog in between. */
module Binding {
  import opened Core
  import opened Catalog
  import opened CatalogFiles
  import Connection
  import opened Lifecycle
  import opened LifecycleHistory

  /** The names that a dispatched request sees are those of the catalog. */
  ghost predicate Sees(world: Connection.World, m: Moment) {
    forall name :: (if name in world.ids then Some(world.ids[name]) else None) == IdOf(m.catalog, name)
  }

  /** Exchange `k` of the connection happens at moment `when[k]` of the daemon. */
  ghost predicate Timed(log: seq<Connection.Exchange>, when: seq<nat>, trace: seq<Moment>) {
    && |when| == |log|
    && (forall k | 0 <= k < |log| :: when[k] < |trace| && trace[when[k]].up && Sees(log[k].frame.world, trace[when[k]]))
    && (forall j, k | 0 <= j <= k < |log| :: when[j] <= when[k])
  }

  /** Where an execution on a selected ID goes, or why it does not. The catalog is
      `listed` when it is asked, the handle is `found` later, and its engine is
      `taken` last: each has a lock of its own. */
  function Reached(listed: Moment, found: Moment, taken: Moment, id: string): Result<nat> {
    if id !in Ids(listed.catalog) then Err(DatabaseNotFound)
    else if id !in found.handles || id !in taken.handles || !taken.handles[id].open then Err(DatabaseBusy)
    else Ok(found.handles[id].storage)
  }

  /** The Database ID of a statement or batch. */
  function Target(work: Connection.Work): string
    requires Connection.Worker(work)
  {
    match work
    case Execute(id, _) => id
    case ExecuteBatch(id, _) => id
  }

  /** The selection that a worker's ID comes from. */
  lemma SelectionOf(log: seq<Connection.Exchange>, terms: Connection.Terms, k: nat) returns (s: nat)
    requires Connection.Lawful(log, terms) && k < |log| && Connection.Worker(log[k].work)
    ensures s < k && log[s].frame.request.SelectDatabase? && log[s].frame.request.name in log[s].frame.world.ids
    ensures Target(log[k].work) == log[s].frame.world.ids[log[s].frame.request.name]
  {
    Connection.LawfulAt(log, terms, k);
    var end := k;
    if log[k].work.ExecuteBatch? {
      end := Connection.BatchIsQueued(log, terms, k);
    }
    LawfulPrefix(log, terms, end);
    s := Connection.SelectedSince(log[..end], terms);
  }

  lemma {:induction false} LawfulPrefix(log: seq<Connection.Exchange>, terms: Connection.Terms, k: nat)
    requires Connection.Lawful(log, terms) && k <= |log|
    ensures Connection.Lawful(log[..k], terms)
  {
    if k == |log| {
      assert log[..k] == log;
    } else {
      LawfulPrefix(Connection.Front(log), terms, k);
      assert Connection.Front(log)[..k] == log[..k];
    }
  }

  /** A statement or a batch that a connection hands to a worker reaches, whenever
      the worker gets each of the three locks, the storage that the selected name stood for when it
      was selected; or it is told that the Database is gone or unavailable. Renames,
      drops, reused names, crashes and restarts in between make no difference. */
  lemma RunsWhereSelected(log: seq<Connection.Exchange>, terms: Connection.Terms, when: seq<nat>,
                          history: seq<Event>, reports: seq<Report>, trace: seq<Moment>, k: nat,
                          listed: nat, found: nat, taken: nat)
    returns (s: nat)
    requires Connection.Lawful(log, terms) && Run(history, reports, trace) && Timed(log, when, trace)
    requires k < |log| && Connection.Worker(log[k].work) && when[k] <= listed <= found <= taken < |trace|
    requires trace[listed].up && trace[found].up && trace[taken].up
    ensures s < k && log[s].frame.request.SelectDatabase?
    ensures IdOf(trace[when[s]].catalog, log[s].frame.request.name) == Some(Target(log[k].work))
    ensures Stored(trace[when[s]].root, Target(log[k].work))
    ensures Reached(trace[listed], trace[found], trace[taken], Target(log[k].work)) in
              {Ok(trace[when[s]].root.active[Target(log[k].work)].tag), Err(DatabaseNotFound), Err(DatabaseBusy)}
  {
    s := SelectionOf(log, terms, k);
    var id, chosen := Target(log[k].work), trace[when[s]];
    var entry := Find(chosen.catalog.databases, log[s].frame.request.name);
    assert Sees(log[s].frame.world, chosen);
    assert chosen.catalog.databases[entry.value] in chosen.catalog.databases;
    BoundForever(history, reports, trace, when[s], found, id);
  }

  /** A lookup that nothing comes between goes exactly there. */
  method Resolve(daemon: DatabaseDaemon, id: string) returns (r: Result<nat>)
    ensures r == Reached(Now(daemon, true), Now(daemon, true), Now(daemon, true), id)
  {
    var handle := daemon.HandleForSelectedId(id);
    r := match handle
      case Ok(h) => Ok(h.storage)
      case Err(why) => Err(why);
  }
}
