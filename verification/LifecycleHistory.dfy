/** Any history of one data directory: lifecycle operations, crashes and starts.
    The run is recorded moment by moment, and every step is what its event
    allows. */
module LifecycleHistory {
  import opened Core
  import opened Catalog
  import opened CatalogFiles
  import opened CatalogStore
  import opened Lifecycle

  /** A process crash may stop an operation or a start `at` any state it passes
      through; a failed restore may leave a Database without its engine. */
  datatype Event =
    | Do(op: Operation)
    | DoStopped(op: Operation, at: Root)
    | Withdrawn(id: string)
    | Stop
    | Start
    | StartStopped(at: Root)

  datatype Moment = Moment(
    up: bool,
    root: Root,
    catalog: Catalog,
    committed: map<string, nat>,
    handles: map<string, Handle>,
    /** No operation is going to fail. */
    quiet: bool)

  /** What an event answered, and the states of the files that it passes through,
      one file operation after the other. */
  datatype Report = Report(answer: Option<Result<string>>, passed: seq<Root>)

  const IDLE := Report(None, [])

  /** New identifiers are identifiers that were never used. */
  predicate Possible(op: Operation, m: Moment) {
    op.CreateOf? ==> Unused(m.root, m.committed, op.id) && ValidUuid(op.id)
  }

  /** A running daemon's handles stand under their own IDs, for listed Databases,
      on the storage those were created with; a stopped one can be started. */
  ghost predicate Sound(m: Moment) {
    && Consistent(m.root, m.committed)
    && (if m.up then
          && m.root.state == Some(Holds(m.catalog)) && Ids(m.catalog) <= m.committed.Keys
          && DatabaseDaemon.Fitting(m.handles, Ids(m.catalog), m.committed)
        else m.handles == map[])
  }

  /** `id` was listed once and no longer is. */
  ghost predicate Retired(m: Moment, id: string) {
    id in m.committed && CatalogOf(m.root).Some? && id !in Ids(CatalogOf(m.root).value)
  }

  // ---- what each event may do ----

  /** Every state passed through is consistent and holds one of these catalogs. */
  ghost predicate Passes(passed: seq<Root>, committed: map<string, nat>, catalogs: set<Catalog>) {
    forall x | x in passed :: Consistent(x, committed) && CatalogOf(x).value in catalogs
  }

  /** A walk that begins here. */
  ghost predicate Starts(passed: seq<Root>, first: Root) {
    passed != [] && passed[0] == first && Walk(passed)
  }

  /** The operation was carried out, refused, or failed. A failed step changes
      nothing that is served, unless it is the move of a committed drop's storage. */
  ghost predicate Performed(op: Operation, a: Moment, r: Result<string>, b: Moment) {
    && b.up && Answered(op, a.catalog, a.handles, r)
    && b.catalog in {a.catalog, Outcome(op, a.catalog)}
    && (r.Ok? ==> b.catalog == Outcome(op, a.catalog))
    && (r.Err? && r.why != InternalError ==> b.catalog == a.catalog && b.root == a.root && b.handles == a.handles)
    && (r == Err(InternalError) ==>
          (b.catalog != a.catalog <==> op.DropOf? && DropPending(b.root, b.catalog, Subject(op, a.catalog))))
    && (r.Err? && !op.DropOf? ==> b.handles == a.handles)
    && SameHandlesBut(b.handles, a.handles, Subject(op, a.catalog))
    && (a.quiet && Free(a.root) && a.handles.Keys == Ids(a.catalog) ==> r != Err(InternalError))
  }

  /** A fault has struck and an undo has failed: the state file is not the catalog
      that is served. The former catalog or the outcome is still on disk. */
  predicate Derailed(op: Operation, a: Moment, b: Moment) {
    && !a.quiet && b.up && b.root.state != Some(Holds(b.catalog))
    && CatalogOf(b.root) in {Some(a.catalog), Some(Outcome(op, a.catalog))}
  }

  /** The event that an undo failed in: it walks from `a` to `b` and derails. */
  ghost predicate Broken(event: Event, a: Moment, report: Report, b: Moment) {
    && (event.Do? || event.DoStopped?) && a.up && Possible(event.op, a)
    && Path(report.passed, a.root, b.root) && Derailed(event.op, a, b)
  }

  /** The process stopped at one of the states it passed through. */
  predicate Crashed(at: Root, committed: map<string, nat>, b: Moment) {
    !b.up && b.root == at && b.handles == map[] && b.committed == Recorded(at, committed)
  }

  /** The daemon is up, with exactly the listed Databases in place and open, or
      the files are as good as before. */
  ghost predicate Started(a: Moment, b: Moment) {
    && CatalogOf(b.root) == CatalogOf(a.root)
    && (b.up ==>
          && Settled(b.root, b.committed, b.catalog) && CatalogOf(a.root) == Some(b.catalog)
          && DatabaseDaemon.AllOpen(b.handles, Ids(b.catalog), b.committed))
    && (a.quiet ==> (b.up <==> Loadable(a.root)))
    && (b.up ==> Loadable(a.root))
  }

  ghost predicate Operated(op: Operation, stop: Option<Root>, a: Moment, report: Report, b: Moment) {
    && Starts(report.passed, a.root)
    && Passes(report.passed, a.committed, {a.catalog, Outcome(op, a.catalog)})
    && (if stop.Some? && stop.value in report.passed then Crashed(stop.value, a.committed, b) && report.answer.None?
        else report.answer.Some? && Performed(op, a, report.answer.value, b) && Path(report.passed, a.root, b.root))
  }

  ghost predicate Booted(stop: Option<Root>, a: Moment, report: Report, b: Moment)
    requires CatalogOf(a.root).Some?
  {
    && Starts(report.passed, a.root)
    && report.answer.None? && Passes(report.passed, a.committed, {CatalogOf(a.root).value})
    && (if stop.Some? && stop.value in report.passed then Crashed(stop.value, a.committed, b)
        else Started(a, b) && Path(report.passed, a.root, b.root))
  }

  /** What every event keeps: recorded storage, that dropped means dropped, and that
      nothing fails if nothing was going to. */
  ghost predicate Persists(a: Moment, b: Moment) {
    Extends(b.committed, a.committed) && (a.quiet ==> b.quiet) && forall id | Retired(a, id) :: Retired(b, id)
  }

  /** One event takes the data directory from `a` to `b`. */
  ghost predicate Step(event: Event, a: Moment, report: Report, b: Moment)
    requires Sound(a)
  {
    match event
    case Do(op) =>
      if a.up && Possible(op, a) then Operated(op, None, a, report, b) else b == a && report == IDLE
    case DoStopped(op, at) =>
      if a.up && Possible(op, a) then Operated(op, Some(at), a, report, b) else b == a && report == IDLE
    case Withdrawn(id) =>
      && report == IDLE
      && b == if id in a.handles then a.(handles := a.handles[id := a.handles[id].(open := false)]) else a
    case Stop => report == IDLE && b == a.(up := false, handles := map[])
    case Start => if a.up then b == a && report == IDLE else Booted(None, a, report, b)
    case StartStopped(at) => if a.up then b == a && report == IDLE else Booted(Some(at), a, report, b)
  }

  ghost predicate Run(history: seq<Event>, reports: seq<Report>, trace: seq<Moment>) {
    && |history| == |reports| && |trace| == |reports| + 1
    && (forall k | 0 <= k < |trace| :: Sound(trace[k]))
    && (forall k | 0 <= k < |reports| :: Step(history[k], trace[k], reports[k], trace[k + 1]) && Persists(trace[k], trace[k + 1]))
  }

  // ---- what holds over whole runs ----

  lemma {:induction false} RecordsGrow(history: seq<Event>, reports: seq<Report>, trace: seq<Moment>, i: nat, k: nat)
    requires Run(history, reports, trace) && i <= k < |trace|
    ensures Extends(trace[k].committed, trace[i].committed)
    decreases k - i
  {
    if i < k {
      RecordsGrow(history, reports, trace, i, k - 1);
      assert Persists(trace[k - 1], trace[k]);
    }
  }

  /** A dropped Database never comes back, whatever names are used again. */
  lemma {:induction false} RetiredForever(history: seq<Event>, reports: seq<Report>, trace: seq<Moment>, i: nat, k: nat, id: string)
    requires Run(history, reports, trace) && i <= k < |trace| && Retired(trace[i], id)
    ensures Retired(trace[k], id)
    decreases k - i
  {
    if i < k {
      RetiredForever(history, reports, trace, i, k - 1, id);
      assert Persists(trace[k - 1], trace[k]);
    }
  }

  /** Whoever holds on to a listed ID reaches, at any later moment, the storage
      that the ID had then, or none: never the storage of another Database. */
  lemma BoundForever(history: seq<Event>, reports: seq<Report>, trace: seq<Moment>, i: nat, k: nat, id: string)
    requires Run(history, reports, trace) && i <= k < |trace|
    requires trace[i].up && id in Ids(trace[i].catalog) && trace[k].up
    ensures Stored(trace[i].root, id)
    ensures id in trace[k].handles ==>
              && trace[k].handles[id].id == id
              && trace[k].handles[id].storage == trace[i].root.active[id].tag
              && id in trace[k].root.active && trace[k].root.active[id] == Storage(trace[i].root.active[id].tag, true)
    ensures id !in Ids(trace[k].catalog) ==> id !in trace[k].handles && Retired(trace[k], id)
  {
    RecordsGrow(history, reports, trace, i, k);
    assert Sound(trace[i]) && Sound(trace[k]);
  }

  /** Every Database that was ever listed has the storage it was created with in
      exactly one of `databases/` and `trash/`, and in no quarantine. */
  lemma StoredOnce(history: seq<Event>, reports: seq<Report>, trace: seq<Moment>, i: nat, k: nat, id: string)
    requires Run(history, reports, trace) && i <= k < |trace| && id in trace[i].committed
    ensures var root, storage := trace[k].root, Storage(trace[i].committed[id], true);
            && ((id in root.active && root.active[id] == storage) <==> id !in root.trash)
            && (id in root.trash ==> root.trash[id] == storage && id !in root.active)
            && id !in root.orphans && id !in root.failed
  {
    RecordsGrow(history, reports, trace, i, k);
    assert Sound(trace[k]);
  }

  lemma OutcomeIds(op: Operation, m: Moment)
    requires Sound(m) && m.up && Possible(op, m)
    ensures Ids(Outcome(op, m.catalog)) <= Ids(m.catalog) + if op.CreateOf? then {op.id} else {}
  {
    var c := m.catalog;
    if Objection(op, c).None? {
      match op
      case CreateOf(name, id, _) => CreateIsWellFormed(c, id, name);
      case RenameOf(name, newName) => RenameIsWellFormed(c, Find(c.databases, name).value, newName);
      case DropOf(name, _) =>
    }
  }

  /** A catalog between the former and the outcome brings nothing dropped back. */
  lemma RetiredStays(op: Operation, m: Moment, b: Moment)
    requires Sound(m) && m.up && Possible(op, m)
    requires CatalogOf(b.root).Some? && CatalogOf(b.root).value in {m.catalog, Outcome(op, m.catalog)}
    requires Extends(b.committed, m.committed) && (m.quiet ==> b.quiet)
    ensures Persists(m, b)
  {
    OutcomeIds(op, m);
  }

  // ---- the run itself ----

  function Now(daemon: DatabaseDaemon, up: bool): Moment
    reads daemon, daemon.store
  {
    Moment(up, daemon.store.root, daemon.store.catalog, daemon.store.committed, daemon.handles, daemon.store.Quiet())
  }

  method Perform(daemon: DatabaseDaemon, op: Operation) returns (r: Result<string>)
    requires Sound(Now(daemon, true)) && Possible(op, Now(daemon, true)) && !daemon.store.rollbackFailed
    modifies daemon, daemon.store
    ensures daemon.store.StaysTracked() && (old(daemon.store.Quiet()) ==> daemon.store.Quiet())
    ensures daemon.store.rollbackFailed ==> Derailed(op, old(Now(daemon, true)), Now(daemon, true))
    ensures !daemon.store.rollbackFailed ==>
              && Sound(Now(daemon, true))
              && Performed(op, old(Now(daemon, true)), r, Now(daemon, true))
              && daemon.store.committed == Recorded(daemon.store.root, old(daemon.store.committed))
              && NewlyConsistent(daemon.store.exposed, old(daemon.store.exposed), old(daemon.store.committed),
                                 {old(daemon.store.catalog), Outcome(op, old(daemon.store.catalog))})
  {
    match op
    case CreateOf(name, id, tag) => r := daemon.CreateDatabase(name, id, tag);
    case RenameOf(name, newName) => r := daemon.RenameDatabase(name, newName);
    case DropOf(name, confirmName) => r := daemon.DropDatabase(name, confirmName);
  }

  /** The process stops in state `at`; `before` are the records until this event. */
  method Crash(daemon: DatabaseDaemon, at: Root, before: map<string, nat>)
    requires Consistent(at, before)
    modifies daemon, daemon.store
    ensures daemon.store.faults == old(daemon.store.faults)
    ensures Crashed(at, before, Now(daemon, false)) && Sound(Now(daemon, false)) && Extends(daemon.store.committed, before)
    ensures daemon.store.rollbackFailed == old(daemon.store.rollbackFailed)
  {
    CommittedGrows(at, before);
    daemon.handles := map[];
    daemon.store.root := at;
    daemon.store.committed := Recorded(at, before);
  }

  /** A lifecycle operation and the states it passes through. */
  method Track(daemon: DatabaseDaemon, op: Operation) returns (r: Result<string>, passed: seq<Root>)
    requires Sound(Now(daemon, true)) && Possible(op, Now(daemon, true)) && !daemon.store.rollbackFailed
    modifies daemon, daemon.store
    ensures Path(passed, old(daemon.store.root), daemon.store.root)
    ensures daemon.store.rollbackFailed ==> Derailed(op, old(Now(daemon, true)), Now(daemon, true))
    ensures !daemon.store.rollbackFailed ==>
              && Sound(Now(daemon, true)) && Persists(old(Now(daemon, true)), Now(daemon, true))
              && Performed(op, old(Now(daemon, true)), r, Now(daemon, true))
              && Passes(passed, old(daemon.store.committed), {old(daemon.store.catalog), Outcome(op, old(daemon.store.catalog))})
  {
    ghost var a := Now(daemon, true);
    var start := daemon.store.root;
    daemon.store.exposed, daemon.store.trail := {start}, [start];
    r := Perform(daemon, op);
    passed := daemon.store.trail;
    if !daemon.store.rollbackFailed {
      RecordedExtends(daemon.store.root, a.committed);
      RetiredStays(op, a, Now(daemon, true));
    }
  }

  lemma RecordedExtends(root: Root, committed: map<string, nat>)
    ensures Extends(Recorded(root, committed), committed)
  {
  }

  /** The process stops at a state that an operation passes through. */
  method CrashWithin(daemon: DatabaseDaemon, op: Operation, at: Root, before: map<string, nat>, ghost a: Moment)
    requires Sound(a) && a.up && Possible(op, a) && a.committed == before
    requires Consistent(at, before) && CatalogOf(at).value in {a.catalog, Outcome(op, a.catalog)}
    requires a.quiet ==> daemon.store.Quiet()
    modifies daemon, daemon.store
    ensures Crashed(at, before, Now(daemon, false)) && Sound(Now(daemon, false)) && Persists(a, Now(daemon, false))
    ensures daemon.store.rollbackFailed == old(daemon.store.rollbackFailed)
  {
    Crash(daemon, at, before);
    RetiredStays(op, a, Now(daemon, false));
  }

  /** An operation from `a` has ended, unless a crash stops it on its way. */
  method Conclude(daemon: DatabaseDaemon, op: Operation, stop: Option<Root>, r: Result<string>, passed: seq<Root>,
                  before: map<string, nat>, ghost a: Moment)
    returns (up: bool, report: Report)
    requires Sound(a) && a.up && Possible(op, a) && a.committed == before
    requires Passes(passed, before, {a.catalog, Outcome(op, a.catalog)}) && Path(passed, a.root, daemon.store.root)
    requires Sound(Now(daemon, true)) && Persists(a, Now(daemon, true))
    requires !(stop.Some? && stop.value in passed) ==> Performed(op, a, r, Now(daemon, true))
    modifies daemon, daemon.store
    ensures Sound(Now(daemon, up)) && Persists(a, Now(daemon, up)) && Operated(op, stop, a, report, Now(daemon, up))
    ensures daemon.store.rollbackFailed == old(daemon.store.rollbackFailed)
  {
    up, report := true, Report(Some(r), passed);
    if stop.Some? && stop.value in passed {
      CrashWithin(daemon, op, stop.value, before, a);
      up, report := false, Report(None, passed);
    }
  }

  /** A lifecycle operation, possibly stopped by a crash on its way. */
  method Operate(daemon: DatabaseDaemon, op: Operation, stop: Option<Root>) returns (up: bool, report: Report)
    requires Sound(Now(daemon, true)) && Possible(op, Now(daemon, true)) && !daemon.store.rollbackFailed
    modifies daemon, daemon.store
    ensures daemon.store.rollbackFailed ==>
              up && Path(report.passed, old(daemon.store.root), daemon.store.root) && Derailed(op, old(Now(daemon, true)), Now(daemon, true))
    ensures !daemon.store.rollbackFailed ==>
              && Sound(Now(daemon, up)) && Persists(old(Now(daemon, true)), Now(daemon, up))
              && Operated(op, stop, old(Now(daemon, true)), report, Now(daemon, up))
  {
    ghost var a := Now(daemon, true);
    var before := daemon.store.committed;
    var r, passed := Track(daemon, op);
    up, report := true, Report(Some(r), passed);
    if !daemon.store.rollbackFailed {
      up, report := Conclude(daemon, op, stop, r, passed, before, a);
    }
  }

  /** A start and the states it passes through. */
  method TrackOpen(daemon: DatabaseDaemon) returns (up: bool, passed: seq<Root>)
    requires Sound(Now(daemon, false))
    modifies daemon, daemon.store
    ensures daemon.store.rollbackFailed == old(daemon.store.rollbackFailed)
    ensures Sound(Now(daemon, up)) && Persists(old(Now(daemon, false)), Now(daemon, up))
    ensures Started(old(Now(daemon, false)), Now(daemon, up)) && Path(passed, old(daemon.store.root), daemon.store.root)
    ensures Passes(passed, old(daemon.store.committed), {CatalogOf(old(daemon.store.root)).value})
  {
    var start := daemon.store.root;
    daemon.store.exposed, daemon.store.trail := {start}, [start];
    up := daemon.Open();
    passed := daemon.store.trail;
    if !up {
      daemon.handles := map[];
    }
  }

  /** A start, possibly stopped by a crash on its way. */
  method Boot(daemon: DatabaseDaemon, stop: Option<Root>) returns (up: bool, report: Report)
    requires Sound(Now(daemon, false))
    modifies daemon, daemon.store
    ensures daemon.store.rollbackFailed == old(daemon.store.rollbackFailed)
    ensures Sound(Now(daemon, up)) && Persists(old(Now(daemon, false)), Now(daemon, up))
    ensures Booted(stop, old(Now(daemon, false)), report, Now(daemon, up))
  {
    var before := daemon.store.committed;
    var passed;
    up, passed := TrackOpen(daemon);
    report := Report(None, passed);
    if stop.Some? && stop.value in passed {
      Crash(daemon, stop.value, before);
      up := false;
    }
  }

  /** One event of a running daemon. */
  method ServeRunning(daemon: DatabaseDaemon, event: Event) returns (up: bool, report: Report)
    requires Sound(Now(daemon, true)) && !daemon.store.rollbackFailed
    modifies daemon, daemon.store
    ensures daemon.store.rollbackFailed ==> up && Broken(event, old(Now(daemon, true)), report, Now(daemon, true))
    ensures !daemon.store.rollbackFailed ==>
              && Sound(Now(daemon, up)) && Persists(old(Now(daemon, true)), Now(daemon, up))
              && Step(event, old(Now(daemon, true)), report, Now(daemon, up))
  {
    up, report := true, IDLE;
    if event.Do? || event.DoStopped? {
      if Possible(event.op, Now(daemon, true)) {
        up, report := Operate(daemon, event.op, if event.DoStopped? then Some(event.at) else None);
      }
    } else if event.Withdrawn? {
      daemon.Withdraw(event.id);
    } else if event.Stop? {
      daemon.handles := map[];
      up := false;
    }
  }

  method Serve(daemon: DatabaseDaemon, running: bool, event: Event) returns (up: bool, report: Report)
    requires Sound(Now(daemon, running)) && !daemon.store.rollbackFailed
    modifies daemon, daemon.store
    ensures daemon.store.rollbackFailed ==> up && Broken(event, old(Now(daemon, running)), report, Now(daemon, true))
    ensures !daemon.store.rollbackFailed ==>
              && Sound(Now(daemon, up)) && Persists(old(Now(daemon, running)), Now(daemon, up))
              && Step(event, old(Now(daemon, running)), report, Now(daemon, up))
  {
    if running {
      up, report := ServeRunning(daemon, event);
    } else if event.Start? {
      up, report := Boot(daemon, None);
    } else if event.StartStopped? {
      up, report := Boot(daemon, Some(event.at));
    } else {
      up, report := false, IDLE;
    }
  }

  /** Carries out a whole history. Only an undo of a failed catalog write that fails
      itself ends it early, within an operation of a running daemon that a fault
      strikes; `last` is the report of that operation. Without faults none does. */
  method Endure(daemon: DatabaseDaemon, running: bool, history: seq<Event>)
    returns (up: bool, reports: seq<Report>, trace: seq<Moment>, last: Report)
    requires Sound(Now(daemon, running)) && !daemon.store.rollbackFailed
    modifies daemon, daemon.store
    ensures |reports| <= |history| && Run(history[..|reports|], reports, trace)
    ensures trace[0] == old(Now(daemon, running))
    ensures |reports| == |history| <==> !daemon.store.rollbackFailed
    ensures !daemon.store.rollbackFailed ==> trace[|history|] == Now(daemon, up)
    ensures daemon.store.rollbackFailed ==> Broken(history[|reports|], trace[|reports|], last, Now(daemon, true))
    ensures old(daemon.store.Quiet()) ==> !daemon.store.rollbackFailed
  {
    up, reports, trace, last := running, [], [Now(daemon, running)], IDLE;
    while |reports| < |history|
      invariant |reports| <= |history| && Run(history[..|reports|], reports, trace)
      invariant trace[0] == old(Now(daemon, running)) && trace[|reports|] == Now(daemon, up)
      invariant Sound(Now(daemon, up)) && !daemon.store.rollbackFailed
      invariant old(daemon.store.Quiet()) ==> daemon.store.Quiet()
      decreases |history| - |reports|
    {
      var k := |reports|;
      var after, report := Serve(daemon, up, history[k]);
      if daemon.store.rollbackFailed {
        last := report;
        return;
      }
      RunGrows(history[..k], reports, trace, history[k], report, Now(daemon, after));
      assert history[..k + 1] == history[..k] + [history[k]];
      up, reports, trace := after, reports + [report], trace + [Now(daemon, after)];
    }
    assert history[..|history|] == history;
  }

  lemma RunGrows(history: seq<Event>, reports: seq<Report>, trace: seq<Moment>, event: Event, report: Report, next: Moment)
    requires Run(history, reports, trace) && Sound(next)
    requires Step(event, trace[|history|], report, next) && Persists(trace[|history|], next)
    ensures Run(history + [event], reports + [report], trace + [next])
  {
    var events, answers, moments := history + [event], reports + [report], trace + [next];
    forall k | 0 <= k < |moments|
      ensures Sound(moments[k])
    {
      assert moments[k] == if k < |trace| then trace[k] else next;
    }
    forall k | 0 <= k < |answers|
      ensures Step(events[k], moments[k], answers[k], moments[k + 1]) && Persists(moments[k], moments[k + 1])
    {
      if k < |reports| {
        assert events[k] == history[k] && moments[k] == trace[k] && answers[k] == reports[k] && moments[k + 1] == trace[k + 1];
      }
    }
  }
}
