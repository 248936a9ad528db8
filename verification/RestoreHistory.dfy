/** Any history of one Database: traffic, restores and starts, with failing
    operations and crashes anywhere. Every start finds what clients last wrote,
    or what a restore that was not answered with success may have left. */
module RestoreHistory {
  import opened Core
  import opened RestoreFiles
  import opened Restore

  /** A restore or a start may be stopped `at` some point by a crash that leaves
      `left`; `meanwhile` is what other clients write before the restore takes
      the handle's lock. */
  datatype Event =
    | Traffic(bytes: Content)
    | Attempt(bytes: Content, meanwhile: Option<Content>)
    | AttemptStopped(bytes: Content, meanwhile: Option<Content>, at: Disk, left: Disk)
    | Stopped(left: Disk)
    | Start
    | StartStopped(at: Disk, left: Disk)

  /** How a restore ends for its clients: answered with success, refused with the
      Database still open, or without an open Database. */
  datatype Ending = Replaced(bytes: Content) | Unchanged | Undecided(prepared: Option<Content>)

  /** What clients see of an event; `wrote` is what others wrote during a restore. */
  datatype Observation =
    | Silent
    | Wrote(bytes: Content)
    | Tried(wrote: Option<Content>, end: Ending)
    | Opened(bytes: Content)
    | NotOpened(r: Recovery)

  /** An event's observation, and the disk states that it passed through, in order. */
  datatype Report = Report(seen: Observation, passed: seq<Disk>)

  datatype Moment = Moment(
    up: bool,
    disk: Disk,
    handle: Option<Inode>,
    /** No operation is going to fail. */
    quiet: bool)
  {
    /** What clients read. */
    function Shown(): Option<Content> {
      if handle.Some? then Some(disk.Read(handle.value)) else None
    }
  }

  // ---- what each event may do ----

  predicate Still(a: Moment, b: Moment) {
    b.up == a.up && b.disk == a.disk && b.handle == a.handle
  }

  predicate Down(b: Moment, left: Disk) {
    !b.up && b.disk == left && b.handle == None
  }

  /** Whether the live file already holds what others wrote meanwhile. */
  function Written(live: Content, meanwhile: Option<Content>): Option<Content> {
    if meanwhile == Some(live) then meanwhile else None
  }

  /** A restore that ran to its answer. */
  predicate Attempted(bytes: Content, meanwhile: Option<Content>, a: Moment, seen: Observation, b: Moment, id: string, engine: Engine)
    requires a.handle.Some?
  {
    && b.up && seen.Tried? && seen.wrote in {None, meanwhile}
    && (match seen.end
        case Replaced(c) => engine.Prepare(bytes) == Some(c) && b.Shown() == Some(c)
        case Unchanged => b.handle == a.handle && b.Shown() == Some(seen.wrote.GetOr(a.disk.Read(a.handle.value)))
        case Undecided(prepared) =>
          && prepared == engine.Prepare(bytes) && b.handle == None && b.disk.now.journal == Prepared(id)
          && b.disk.Read(a.handle.value) == seen.wrote.GetOr(a.disk.Read(a.handle.value)))
    && (a.quiet && a.disk.now.journal.Missing? && engine.Prepare(bytes).Some? && engine.opens(engine.Prepare(bytes).value) ==>
          seen.end.Replaced?)
  }

  /** A start that ran to its end. */
  predicate Started(a: Moment, seen: Observation, b: Moment, id: string, engine: Engine) {
    && b.disk.store == a.disk.store
    && (b.up ==>
          && seen.Opened? && b.Shown() == Some(seen.bytes)
          && b.disk.now == Directory(b.handle, None, None, Missing))
    && (!b.up ==> seen.NotOpened? && Explained(seen.r) && b.handle == None)
    && (a.quiet && !b.up ==>
          || (seen.r == Refused(Unreadable) && a.disk.now.journal == Partial)
          || (seen.r == Refused(OriginalInvalid) && Spoilt(a.disk.now, a.disk, engine))
          || (seen.r == Recovered && b.disk.now.target.Some? && !engine.opens(b.disk.Read(b.disk.now.target.value))))
  }

  /** A walk that begins here. */
  ghost predicate Starts(passed: seq<Disk>, first: Disk, reorders: bool) {
    passed != [] && passed[0] == first && Walk(passed, reorders)
  }

  /** A start, with faults ahead, that checks a file which the engine accepts. */
  predicate Suspect(event: Event, a: Moment, engine: Engine) {
    (event.Start? || event.StartStopped?) && !a.up && !a.quiet && Doubtful(a.disk, engine)
  }

  /** Nothing is going to fail, and one of the two files passes its check. */
  predicate Undisturbed(a: Moment, engine: Engine) {
    a.quiet && !Spoilt(a.disk.now, a.disk, engine)
  }

  /** One event takes the Database from `a` to `b`. */
  ghost predicate Step(event: Event, a: Moment, report: Report, b: Moment, id: string, engine: Engine, reorders: bool) {
    var seen := report.seen;
    match event
    case Traffic(bytes) =>
      if a.up && a.handle.Some? then seen == Wrote(bytes) && b.up && b.handle == a.handle && b.Shown() == Some(bytes)
      else seen == Silent && Still(a, b)
    case Attempt(bytes, meanwhile) =>
      if a.up && a.handle.Some? then
        Attempted(bytes, meanwhile, a, seen, b, id, engine) && Path(report.passed, a.disk, b.disk, reorders)
      else seen == Silent && Still(a, b)
    case AttemptStopped(bytes, meanwhile, at, left) =>
      if a.up && a.handle.Some? then
        && Starts(report.passed, a.disk, reorders)
        && if at in report.passed && Crash(at, left) then
             Down(b, left) && seen == Tried(Written(at.Read(a.handle.value), meanwhile), Undecided(engine.Prepare(bytes)))
           else Attempted(bytes, meanwhile, a, seen, b, id, engine) && Path(report.passed, a.disk, b.disk, reorders)
      else seen == Silent && Still(a, b)
    case Stopped(left) =>
      seen == Silent && if a.up && Crash(a.disk, left) then Down(b, left) else Still(a, b)
    case Start =>
      if a.up || (Hazardous(a.disk, reorders) && !Undisturbed(a, engine)) then seen == Silent && Still(a, b)
      else Started(a, seen, b, id, engine) && Path(report.passed, a.disk, b.disk, reorders)
    case StartStopped(at, left) =>
      if a.up || Hazardous(a.disk, reorders) then seen == Silent && Still(a, b)
      else
        && Starts(report.passed, a.disk, reorders)
        && if at in report.passed && Crash(at, left) then seen == Silent && Down(b, left)
           else Started(a, seen, b, id, engine) && Path(report.passed, a.disk, b.disk, reorders)
  }

  ghost predicate Run(history: seq<Event>, reports: seq<Report>, trace: seq<Moment>, id: string, engine: Engine, reorders: bool) {
    && |history| == |reports| && |trace| == |reports| + 1
    && forall k | 0 <= k < |reports| :: Step(history[k], trace[k], reports[k], trace[k + 1], id, engine, reorders)
  }

  // ---- what clients may expect ----

  function Optional(c: Option<Content>): set<Content> {
    if c.Some? then {c.value} else {}
  }

  /** The contents that clients may find after one more observation. */
  function Then(expected: set<Content>, seen: Observation): set<Content> {
    match seen
    case Silent => expected
    case NotOpened(_) => expected
    case Wrote(bytes) => {bytes}
    case Opened(bytes) => {bytes}
    case Tried(wrote, end) =>
      var base := if wrote.Some? then {wrote.value} else expected;
      match end
      case Replaced(bytes) => {bytes}
      case Unchanged => base
      case Undecided(prepared) => base + Optional(prepared)
  }

  /** The contents that clients may find after a run that began with `initial`. */
  function Expected(reports: seq<Report>, initial: Content): set<Content> {
    if reports == [] then {initial}
    else Then(Expected(reports[..|reports| - 1], initial), reports[|reports| - 1].seen)
  }

  /** Every start opened one of the contents expected then. */
  ghost predicate Durable(reports: seq<Report>, initial: Content) {
    forall k | 0 <= k < |reports| && reports[k].seen.Opened? :: reports[k].seen.bytes in Expected(reports[..k], initial)
  }

  lemma DurableGrows(reports: seq<Report>, report: Report, initial: Content)
    requires Durable(reports, initial)
    requires report.seen.Opened? ==> report.seen.bytes in Expected(reports, initial)
    ensures Durable(reports + [report], initial)
    ensures Expected(reports + [report], initial) == Then(Expected(reports, initial), report.seen)
  {
    assert (reports + [report])[..|reports|] == reports;
    forall k | 0 <= k < |reports| && reports[k].seen.Opened?
      ensures reports[k].seen.bytes in Expected((reports + [report])[..k], initial)
    {
      assert (reports + [report])[..k] == reports[..k];
    }
  }

  /** The engine passes the files it writes itself. */
  ghost predicate Sane(engine: Engine) {
    forall bytes: Content :: engine.Prepare(bytes).Some? ==> engine.Accepts(engine.Prepare(bytes).value)
  }

  predicate Writes(event: Event, engine: Engine) {
    match event
    case Traffic(bytes) => engine.Accepts(bytes)
    case Attempt(_, meanwhile) => meanwhile.Some? ==> engine.Accepts(meanwhile.value)
    case AttemptStopped(_, meanwhile, _, _) => meanwhile.Some? ==> engine.Accepts(meanwhile.value)
    case _ => true
  }

  ghost predicate Accepted(expected: set<Content>, engine: Engine) {
    forall c | c in expected :: engine.Accepts(c)
  }

  /** Startup ends with one of the expected contents, whatever a crash leaves. */
  ghost predicate Delivers(disk: Disk, id: string, origin: Inode, staged: Inode, expected: set<Content>) {
    && Safe(disk, id, origin, staged)
    && (|| (disk.Read(origin) in expected && disk.Read(staged) in expected)
        || (Kept(disk, id, origin, origin) && disk.Read(origin) in expected)
        || (Kept(disk, id, origin, staged) && disk.Read(staged) in expected))
  }

  lemma CrashDelivers(disk: Disk, left: Disk, id: string, origin: Inode, staged: Inode, expected: set<Content>)
    requires Delivers(disk, id, origin, staged, expected) && Crash(disk, left)
    ensures Delivers(left, id, origin, staged, expected)
  {
  }

  // ---- the run itself ----

  function Now(db: ManagedDatabase, up: bool): Moment
    reads db
  {
    Moment(up, db.disk, db.handle, db.Quiet())
  }

  /** What holds of a stopped daemon's files. */
  ghost predicate Startable(db: ManagedDatabase)
    reads db
  {
    db.handle == None && Safe(db.disk, db.id, db.origin, db.staged) && db.origin < db.nextFile && db.staged < db.nextFile
  }

  /** What holds of a running daemon; a Database without a handle is unavailable
      until the next start, with its journal in place. */
  ghost predicate Available(db: ManagedDatabase)
    reads db
  {
    db.Running() && (db.handle == None ==> db.disk.now.journal == Prepared(db.id))
  }

  ghost predicate Ready(db: ManagedDatabase, up: bool)
    reads db
  {
    if up then Available(db) else Startable(db)
  }

  /** Clients read an expected content now, and after any crash and start. */
  ghost predicate Keeping(db: ManagedDatabase, expected: set<Content>)
    reads db
  {
    && Sane(db.engine) && Accepted(expected, db.engine)
    && Delivers(db.disk, db.id, db.origin, db.staged, expected)
    && (db.handle.Some? ==> db.disk.Read(db.handle.value) in expected)
  }

  method Write(db: ManagedDatabase, bytes: Content, ghost expected: set<Content>) returns (report: Report)
    requires Available(db)
    modifies db`disk, db`exposed, db`trail
    ensures Available(db) && Step(Traffic(bytes), old(Now(db, true)), report, Now(db, true), db.id, db.engine, db.reorders)
    ensures !report.seen.Opened?
    ensures old(Keeping(db, expected)) && db.engine.Accepts(bytes) ==> Keeping(db, Then(expected, report.seen))
    ensures old(db.Quiet()) ==> db.Quiet()
  {
    db.ClientWrite(bytes);
    report := Report(if db.handle.Some? then Wrote(bytes) else Silent, []);
  }

  /** A crash in state `x` of a restore leaves an expected content. */
  ghost predicate LeavesExpected(x: Disk, live: Inode, id: string, engine: Engine, origin: Inode, staged: Inode,
                                 bytes: Content, meanwhile: Option<Content>, expected: set<Content>)
  {
    var after := Then(expected, Tried(Written(x.Read(live), meanwhile), Undecided(engine.Prepare(bytes))));
    Accepted(after, engine) && Delivers(x, id, origin, staged, after)
  }

  /** A crash in state `x` of a restore of the live file `origin`, which held
      `former` at first, leads back to it or on to the prepared snapshot. */
  ghost predicate OldOrNew(x: Disk, former: Content, id: string, engine: Engine, origin: Inode, staged: Inode,
                           bytes: Content, meanwhile: Option<Content>)
  {
    && Safe(x, id, origin, staged) && (x.Read(origin) == former || Some(x.Read(origin)) == meanwhile)
    && (AllCalm(x, id, origin) || engine.Prepare(bytes) == Some(x.Read(staged)))
  }

  lemma OldOrNewIsExpected(x: Disk, former: Content, id: string, engine: Engine, origin: Inode, staged: Inode,
                           bytes: Content, meanwhile: Option<Content>, expected: set<Content>)
    requires former in expected && Accepted(expected, engine) && Sane(engine)
    requires meanwhile.Some? ==> engine.Accepts(meanwhile.value)
    requires OldOrNew(x, former, id, engine, origin, staged, bytes, meanwhile)
    ensures LeavesExpected(x, origin, id, engine, origin, staged, bytes, meanwhile, expected)
  {
    if AllCalm(x, id, origin) {
      assert Kept(x, id, origin, origin);
    }
  }

  /** A restore that ends before it begins leaves what is expected anyway. */
  lemma NothingTriedIsExpected(disk: Disk, live: Inode, id: string, engine: Engine, origin: Inode, staged: Inode,
                               bytes: Content, meanwhile: Option<Content>, expected: set<Content>)
    requires Delivers(disk, id, origin, staged, expected) && Accepted(expected, engine) && Sane(engine)
    requires meanwhile.Some? ==> engine.Accepts(meanwhile.value)
    requires Kept(disk, id, origin, live) && disk.Read(live) in expected
    ensures LeavesExpected(disk, live, id, engine, origin, staged, bytes, meanwhile, expected)
  {
    assert disk.now in disk.survivors && live in {origin, staged};
  }

  /** How a restore of the live file `origin` leaves the disk, told by its ending. */
  ghost predicate Ended(disk: Disk, handle: Option<Inode>, former: Content, id: string, engine: Engine, origin: Inode, staged: Inode,
                        bytes: Content, wrote: Option<Content>, end: Ending)
  {
    && Safe(disk, id, origin, staged)
    && (handle.Some? ==> disk.now.target == handle && Kept(disk, id, origin, handle.value))
    && (!end.Replaced? ==> disk.Read(origin) == wrote.GetOr(former))
    && (match end
        case Replaced(c) => handle.Some? && c == disk.Read(handle.value) && engine.Prepare(bytes) == Some(c)
        case Unchanged => handle == Some(origin)
        case Undecided(p) =>
          handle == None && p == engine.Prepare(bytes) && (AllCalm(disk, id, origin) || p == Some(disk.Read(staged))))
  }

  lemma EndIsExpected(disk: Disk, handle: Option<Inode>, former: Content, id: string, engine: Engine, origin: Inode, staged: Inode,
                      bytes: Content, wrote: Option<Content>, end: Ending, expected: set<Content>)
    requires former in expected && Accepted(expected, engine) && Sane(engine) && (wrote.Some? ==> engine.Accepts(wrote.value))
    requires Ended(disk, handle, former, id, engine, origin, staged, bytes, wrote, end)
    ensures var after := Then(expected, Tried(wrote, end));
            && Accepted(after, engine) && Delivers(disk, id, origin, staged, after)
            && (handle.Some? ==> disk.Read(handle.value) in after)
  {
    if end.Replaced? {
      assert disk.now in disk.survivors && handle.value in {origin, staged};
    } else if AllCalm(disk, id, origin) {
      assert Kept(disk, id, origin, origin);
    }
  }

  /** How a restore is reported. */
  function Told(r: Outcome, wrote: bool, meanwhile: Option<Content>, handle: Option<Inode>, disk: Disk, prepared: Option<Content>): Observation
  {
    Tried(if wrote then meanwhile else None,
          if handle.None? then Undecided(prepared)
          else if r == Done then Replaced(disk.Read(handle.value))
          else Unchanged)
  }

  /** A restore of a Database that has no journal of an earlier one. */
  method PerformFresh(db: ManagedDatabase, bytes: Content, meanwhile: Option<Content>) returns (report: Report)
    requires Available(db) && db.handle.Some? && db.disk.now.journal.Missing?
    modifies db
    ensures Available(db) && db.misjudged == old(db.misjudged) && report.seen.Tried?
    ensures Attempted(bytes, meanwhile, old(Now(db, true)), report.seen, Now(db, true), db.id, db.engine)
    ensures Path(report.passed, old(db.disk), db.disk, db.reorders)
    ensures old(db.handle) == Some(db.origin)
    ensures forall x | x in report.passed ::
              OldOrNew(x, old(db.disk).Read(db.origin), db.id, db.engine, db.origin, db.staged, bytes, meanwhile)
    ensures Ended(db.disk, db.handle, old(db.disk).Read(db.origin), db.id, db.engine, db.origin, db.staged, bytes, report.seen.wrote, report.seen.end)
    ensures old(db.Quiet()) ==> db.Quiet()
  {
    db.exposed, db.trail := {db.disk}, [db.disk];
    var r, wrote := db.RestoreSnapshot(bytes, meanwhile);
    report := Report(Told(r, wrote, meanwhile, db.handle, db.disk, db.engine.Prepare(bytes)), db.trail);
    assert AllCalm(old(db.disk), db.id, db.origin);
    forall x | x in report.passed
      ensures OldOrNew(x, old(db.disk).Read(db.origin), db.id, db.engine, db.origin, db.staged, bytes, meanwhile)
    {
      assert x in db.exposed;
      assert x == old(db.disk) || db.Honours(x, old(db.disk), db.disk, db.origin, db.staged, bytes);
    }
  }

  /** A restore that meets the journal of an earlier one, or no handle. */
  method PerformBlocked(db: ManagedDatabase, bytes: Content, meanwhile: Option<Content>) returns (report: Report)
    requires Available(db) && (db.handle.None? || !db.disk.now.journal.Missing?)
    modifies db
    ensures Available(db) && db.misjudged == old(db.misjudged)
    ensures db.disk == old(db.disk) && db.handle == old(db.handle) && db.origin == old(db.origin) && db.staged == old(db.staged)
    ensures report == if db.handle.Some? then Report(Tried(None, Unchanged), [db.disk]) else Report(Silent, [])
    ensures old(db.Quiet()) ==> db.Quiet()
  {
    var r, wrote := db.RestoreSnapshot(bytes, meanwhile);
    report := if db.handle.Some? then Report(Tried(None, Unchanged), [db.disk]) else Report(Silent, []);
  }

  /** One restore, with its observation and the states it passed through. */
  method Perform(db: ManagedDatabase, bytes: Content, meanwhile: Option<Content>) returns (report: Report)
    requires Available(db)
    modifies db
    ensures Available(db) && db.misjudged == old(db.misjudged)
    ensures Step(Attempt(bytes, meanwhile), old(Now(db, true)), report, Now(db, true), db.id, db.engine, db.reorders)
    ensures if old(db.handle).Some? then report.seen.Tried? else report == Report(Silent, [])
    ensures old(db.handle).Some? ==> Path(report.passed, old(db.disk), db.disk, db.reorders)
    ensures old(db.handle).Some? && old(db.disk.now).journal.Missing? ==>
              && old(db.handle) == Some(db.origin)
              && (forall x | x in report.passed ::
                    OldOrNew(x, old(db.disk).Read(db.origin), db.id, db.engine, db.origin, db.staged, bytes, meanwhile))
              && Ended(db.disk, db.handle, old(db.disk).Read(db.origin), db.id, db.engine, db.origin, db.staged, bytes, report.seen.wrote, report.seen.end)
    ensures old(db.handle).None? || !old(db.disk.now).journal.Missing? ==>
              && db.disk == old(db.disk) && db.handle == old(db.handle) && db.origin == old(db.origin) && db.staged == old(db.staged)
              && report.seen in {Silent, Tried(None, Unchanged)} && forall x | x in report.passed :: x == db.disk
    ensures old(db.Quiet()) ==> db.Quiet()
  {
    if db.handle.Some? && db.disk.now.journal.Missing? {
      report := PerformFresh(db, bytes, meanwhile);
    } else {
      report := PerformBlocked(db, bytes, meanwhile);
    }
  }

  /** A restore that runs to its answer. Each state it passes through leads, after
      a crash, to what the live file held there or to the prepared snapshot. */
  method Try(db: ManagedDatabase, bytes: Content, meanwhile: Option<Content>, ghost expected: set<Content>)
    returns (report: Report)
    requires Available(db)
    modifies db
    ensures Available(db) && Step(Attempt(bytes, meanwhile), old(Now(db, true)), report, Now(db, true), db.id, db.engine, db.reorders)
    ensures !report.seen.Opened? && db.misjudged == old(db.misjudged)
    ensures report.passed != [] ==> old(db.handle).Some?
    ensures forall x | x in report.passed :: Safe(x, db.id, db.origin, db.staged)
    ensures old(Keeping(db, expected)) && (meanwhile.Some? ==> db.engine.Accepts(meanwhile.value)) ==>
              && Keeping(db, Then(expected, report.seen))
              && forall x | x in report.passed && old(db.handle).Some? ::
                   LeavesExpected(x, old(db.handle).value, db.id, db.engine, db.origin, db.staged, bytes, meanwhile, expected)
    ensures old(db.Quiet()) ==> db.Quiet()
  {
    report := Perform(db, bytes, meanwhile);
    ghost var former := old(db.disk).Read(db.origin);
    if old(Keeping(db, expected)) && (meanwhile.Some? ==> db.engine.Accepts(meanwhile.value)) &&
       old(db.handle).Some? && old(db.disk.now).journal.Missing? {
      EndIsExpected(db.disk, db.handle, former, db.id, db.engine, db.origin, db.staged, bytes, report.seen.wrote, report.seen.end, expected);
      forall x | x in report.passed
        ensures LeavesExpected(x, old(db.handle).value, db.id, db.engine, db.origin, db.staged, bytes, meanwhile, expected)
      {
        OldOrNewIsExpected(x, former, db.id, db.engine, db.origin, db.staged, bytes, meanwhile, expected);
      }
    } else if old(Keeping(db, expected)) && (meanwhile.Some? ==> db.engine.Accepts(meanwhile.value)) && old(db.handle).Some? {
      NothingTriedIsExpected(db.disk, db.handle.value, db.id, db.engine, db.origin, db.staged, bytes, meanwhile, expected);
    }
  }

  /** A restore that a crash may stop on its way. */
  method TryStopped(db: ManagedDatabase, event: Event, ghost expected: set<Content>) returns (up: bool, report: Report)
    requires Available(db) && event.AttemptStopped?
    modifies db
    ensures Ready(db, up) && db.misjudged == old(db.misjudged)
    ensures Step(event, old(Now(db, true)), report, Now(db, up), db.id, db.engine, db.reorders)
    ensures !report.seen.Opened?
    ensures old(Keeping(db, expected)) && Writes(event, db.engine) ==> Keeping(db, Then(expected, report.seen))
    ensures old(db.Quiet()) ==> db.Quiet()
  {
    var live := db.handle;
    report := Try(db, event.bytes, event.meanwhile, expected);
    up := true;
    if event.at in report.passed && Crash(event.at, event.left) {
      var wrote := Written(event.at.Read(live.value), event.meanwhile);
      if old(Keeping(db, expected)) && Writes(event, db.engine) {
        CrashDelivers(event.at, event.left, db.id, db.origin, db.staged,
                      Then(expected, Tried(wrote, Undecided(db.engine.Prepare(event.bytes)))));
      }
      up, db.disk, db.handle := false, event.left, None;
      report := report.(seen := Tried(wrote, Undecided(db.engine.Prepare(event.bytes))));
    }
  }

  /** One event of a running daemon. */
  method Serve(db: ManagedDatabase, event: Event, ghost expected: set<Content>) returns (up: bool, report: Report)
    requires Available(db)
    modifies db
    ensures Ready(db, up) && db.misjudged == old(db.misjudged)
    ensures Step(event, old(Now(db, true)), report, Now(db, up), db.id, db.engine, db.reorders)
    ensures !report.seen.Opened?
    ensures old(Keeping(db, expected)) && Writes(event, db.engine) ==> Keeping(db, Then(expected, report.seen))
    ensures old(db.Quiet()) ==> db.Quiet()
  {
    up, report := true, Report(Silent, []);
    match event
    case Traffic(bytes) =>
      report := Write(db, bytes, expected);
    case Attempt(bytes, meanwhile) =>
      report := Try(db, bytes, meanwhile, expected);
    case AttemptStopped(_, _, _, _) =>
      up, report := TryStopped(db, event, expected);
    case Stopped(left) =>
      if Crash(db.disk, left) {
        up, db.disk, db.handle := false, left, None;
      }
    case Start =>
    case StartStopped(_, _) =>
  }

  /** A state that recovery passes through keeps the promise of its start. */
  lemma RecoveryDelivers(x: Disk, start: Disk, id: string, origin: Inode, staged: Inode, engine: Engine, reorders: bool, expected: set<Content>)
    requires Delivers(start, id, origin, staged, expected) && Accepted(expected, engine)
    requires Harmless(x, start, id, origin, staged, engine, reorders, true)
    ensures Delivers(x, id, origin, staged, expected)
  {
    assert forall f: Inode :: x.Read(f) == start.Read(f);
  }

  /** Recovery, and the states it passed through. */
  method ReviveCovered(db: ManagedDatabase, ghost expected: set<Content>) returns (r: Recovery, passed: seq<Disk>)
    requires Startable(db) && !Hazardous(db.disk, db.reorders)
    modifies db
    ensures Startable(db) && Explained(r) && db.disk.store == old(db.disk).store && (!db.misjudged ==> !old(db.misjudged))
    ensures db.origin == old(db.origin) && db.staged == old(db.staged) && db.nextFile == old(db.nextFile)
    ensures r == Recovered ==> db.disk.now == Directory(db.disk.now.target, None, None, Missing) && db.disk.now.target.Some?
    ensures forall x | x in passed :: Safe(x, db.id, db.origin, db.staged)
    ensures Path(passed, old(db.disk), db.disk, db.reorders)
    ensures old(db.Quiet()) && r != Recovered ==>
              || (r == Refused(Unreadable) && old(db.disk.now).journal == Partial)
              || (r == Refused(OriginalInvalid) && Spoilt(old(db.disk.now), old(db.disk), db.engine))
    ensures old(db.Quiet()) ==> db.Quiet()
    ensures !db.misjudged && old(Keeping(db, expected)) ==>
              Keeping(db, expected) && forall x | x in passed :: Delivers(x, db.id, db.origin, db.staged, expected)
    ensures db.misjudged && !old(db.misjudged) ==> !old(db.Quiet()) && Doubtful(old(db.disk), db.engine)
  {
    db.exposed, db.trail := {db.disk}, [db.disk];
    var accepted;
    r, accepted := db.Recover(db.origin, db.staged);
    passed := db.trail;
    if !db.misjudged && old(Keeping(db, expected)) {
      forall x | x == db.disk || (x in passed && x != old(db.disk))
        ensures Delivers(x, db.id, db.origin, db.staged, expected)
      {
        RecoveryDelivers(x, old(db.disk), db.id, db.origin, db.staged, db.engine, db.reorders, expected);
      }
    }
  }

  /** A recovery that runs to its end delivers what its start would, even where
      an interruption would not have been safe. */
  lemma EndDelivers(start: Disk, accepted: bool, id: string, origin: Inode, staged: Inode, engine: Engine, reorders: bool, expected: set<Content>)
    requires Safe(start, id, origin, staged) && Hazardous(start, reorders)
    requires accepted == engine.Accepts(start.Read(Judged(start.now)))
    ensures var end := Last(RecoveryStates(start, accepted, reorders));
            && Safe(end, id, origin, staged) && end.now == Directory(end.now.target, None, None, Missing) && end.now.target.Some?
            && (Delivers(start, id, origin, staged, expected) && Accepted(expected, engine) ==> Delivers(end, id, origin, staged, expected))
  {
    var synced := AfterSync(start);
    assert start.now in start.survivors && Installed(start.now, id, origin, staged);
    assert Covered(synced, id, origin, staged, reorders);
    EndForgetsUnsynced(start, accepted, reorders);
    var end := Last(RecoveryStates(start, accepted, reorders));
    assert end in RecoveryStates(synced, accepted, reorders);
    RecoveryIsSafe(synced, accepted, id, origin, staged, engine, reorders);
    RecoveryIsHarmless(synced, accepted, id, origin, staged, engine, reorders, true);
    if Delivers(start, id, origin, staged, expected) && Accepted(expected, engine) {
      CrashDelivers(start, synced, id, origin, staged, expected);
      RecoveryDelivers(end, synced, id, origin, staged, engine, reorders, expected);
    }
  }

  /** A recovery in which nothing fails, of files that lead somewhere. */
  method RecoverQuietly(db: ManagedDatabase) returns (r: Recovery, accepted: bool, passed: seq<Disk>)
    requires db.Quiet() && db.disk.now.journal == Prepared(db.id)
    requires Final(db.disk.now, db.disk, db.engine).Some? && !Spoilt(db.disk.now, db.disk, db.engine)
    modifies db`disk, db`exposed, db`trail, db`faults, db`misjudged
    ensures r == Recovered && db.Quiet() && db.misjudged == old(db.misjudged) && db.disk.store == old(db.disk).store
    ensures accepted == db.engine.Accepts(old(db.disk).Read(Judged(old(db.disk.now))))
    ensures db.disk == Last(RecoveryStates(old(db.disk), accepted, db.reorders))
    ensures Path(passed, old(db.disk), db.disk, db.reorders)
  {
    db.exposed, db.trail := {db.disk}, [db.disk];
    r, accepted := db.Recover(db.origin, db.staged);
    passed := db.trail;
  }

  /** Recovery in the hazardous state, with nothing to disturb it. */
  method ReviveUndisturbed(db: ManagedDatabase, ghost expected: set<Content>) returns (r: Recovery, passed: seq<Disk>)
    requires Startable(db) && Hazardous(db.disk, db.reorders) && Undisturbed(Now(db, false), db.engine)
    modifies db
    ensures Startable(db) && r == Recovered && db.disk.store == old(db.disk).store && db.misjudged == old(db.misjudged)
    ensures db.disk.now == Directory(db.disk.now.target, None, None, Missing) && db.disk.now.target.Some?
    ensures Path(passed, old(db.disk), db.disk, db.reorders) && db.Quiet()
    ensures old(Keeping(db, expected)) ==> Keeping(db, expected)
  {
    ghost var start := db.disk;
    assert start.now in start.survivors && Installed(start.now, db.id, db.origin, db.staged);
    assert Final(start.now, start, db.engine).Some?;
    var accepted;
    r, accepted, passed := RecoverQuietly(db);
    EndDelivers(start, accepted, db.id, db.origin, db.staged, db.engine, db.reorders, expected);
  }

  /** Recovery, undisturbed in the hazardous state and otherwise at the mercy of
      faults and crashes. */
  method Revive(db: ManagedDatabase, ghost expected: set<Content>) returns (r: Recovery, passed: seq<Disk>)
    requires Startable(db) && (Hazardous(db.disk, db.reorders) ==> Undisturbed(Now(db, false), db.engine))
    modifies db
    ensures Startable(db) && Explained(r) && db.disk.store == old(db.disk).store && (!db.misjudged ==> !old(db.misjudged))
    ensures r == Recovered ==> db.disk.now == Directory(db.disk.now.target, None, None, Missing) && db.disk.now.target.Some?
    ensures Path(passed, old(db.disk), db.disk, db.reorders)
    ensures !Hazardous(old(db.disk), db.reorders) ==> forall x | x in passed :: Safe(x, db.id, db.origin, db.staged)
    ensures old(db.Quiet()) && r != Recovered ==>
              || (r == Refused(Unreadable) && old(db.disk.now).journal == Partial)
              || (r == Refused(OriginalInvalid) && Spoilt(old(db.disk.now), old(db.disk), db.engine))
    ensures old(db.Quiet()) ==> db.Quiet()
    ensures !db.misjudged && old(Keeping(db, expected)) ==>
              && Keeping(db, expected)
              && (!Hazardous(old(db.disk), db.reorders) ==> forall x | x in passed :: Delivers(x, db.id, db.origin, db.staged, expected))
    ensures db.misjudged && !old(db.misjudged) ==> !old(db.Quiet()) && Doubtful(old(db.disk), db.engine)
  {
    if Hazardous(db.disk, db.reorders) {
      r, passed := ReviveUndisturbed(db, expected);
    } else {
      r, passed := ReviveCovered(db, expected);
    }
  }

  /** The engine opens what recovery left in place. */
  method Launch(db: ManagedDatabase, r: Recovery, passed: seq<Disk>, ghost expected: set<Content>) returns (up: bool, report: Report)
    requires Startable(db) && (r == Recovered ==> db.disk.now == Directory(db.disk.now.target, None, None, Missing) && db.disk.now.target.Some?)
    modifies db`handle, db`faults
    ensures Ready(db, up) && report.passed == passed
    ensures up ==> r == Recovered && db.handle == db.disk.now.target && report.seen == Opened(db.disk.Read(db.handle.value))
    ensures !up ==> db.handle == None && report.seen == NotOpened(r)
    ensures old(db.Quiet()) && r == Recovered ==> (up <==> db.engine.opens(db.disk.Read(db.disk.now.target.value)))
    ensures old(Keeping(db, expected)) ==>
              Keeping(db, Then(expected, report.seen)) && (report.seen.Opened? ==> report.seen.bytes in expected)
    ensures old(db.Quiet()) ==> db.Quiet()
  {
    if r == Recovered {
      var file := db.OpenTarget();
      db.handle := file;
    }
    up := db.handle.Some?;
    report := Report(if up then Opened(db.disk.Read(db.handle.value)) else NotOpened(r), passed);
    assert db.disk.now in db.disk.survivors;
  }

  /** A start, possibly stopped by a crash: recovery and, if it succeeds, the
      engine opening the file. */
  method Boot(db: ManagedDatabase, stop: Option<(Disk, Disk)>, ghost expected: set<Content>)
    returns (up: bool, report: Report)
    requires Startable(db)
    requires Hazardous(db.disk, db.reorders) ==> stop.None? && Undisturbed(Now(db, false), db.engine)
    modifies db
    ensures Ready(db, up) && (!db.misjudged ==> !old(db.misjudged))
    ensures if stop.Some? && stop.value.0 in report.passed && Crash(stop.value.0, stop.value.1)
            then Down(Now(db, up), stop.value.1) && report.seen == Silent
            else Started(old(Now(db, false)), report.seen, Now(db, up), db.id, db.engine) && Path(report.passed, old(db.disk), db.disk, db.reorders)
    ensures Starts(report.passed, old(db.disk), db.reorders)
    ensures !db.misjudged && old(Keeping(db, expected)) ==>
              Keeping(db, Then(expected, report.seen)) && (report.seen.Opened? ==> report.seen.bytes in expected)
    ensures old(db.Quiet()) ==> db.Quiet()
    ensures db.misjudged && !old(db.misjudged) ==> !old(db.Quiet()) && Doubtful(old(db.disk), db.engine)
  {
    var r, passed := Revive(db, expected);
    if stop.Some? && stop.value.0 in passed && Crash(stop.value.0, stop.value.1) {
      db.disk := stop.value.1;
      return false, Report(Silent, passed);
    }
    up, report := Launch(db, r, passed, expected);
  }

  method Advance(db: ManagedDatabase, running: bool, event: Event, ghost expected: set<Content>) returns (up: bool, report: Report)
    requires Ready(db, running)
    modifies db
    ensures Ready(db, up) && (!db.misjudged ==> !old(db.misjudged))
    ensures Step(event, old(Now(db, running)), report, Now(db, up), db.id, db.engine, db.reorders)
    ensures !db.misjudged && old(Keeping(db, expected)) && Writes(event, db.engine) ==>
              Keeping(db, Then(expected, report.seen)) && (report.seen.Opened? ==> report.seen.bytes in expected)
    ensures old(db.Quiet()) ==> db.Quiet()
    ensures db.misjudged && !old(db.misjudged) ==> Suspect(event, old(Now(db, running)), db.engine)
  {
    if running {
      up, report := Serve(db, event, expected);
    } else if event.Start? && (!Hazardous(db.disk, db.reorders) || Undisturbed(Now(db, false), db.engine)) {
      up, report := Boot(db, None, expected);
    } else if event.StartStopped? && !Hazardous(db.disk, db.reorders) {
      up, report := Boot(db, Some((event.at, event.left)), expected);
    } else {
      up, report := false, Report(Silent, []);
    }
  }

  /** Carries out a whole history, one report per event. Every step is what its
      event allows: in particular a running daemon has handle and files in
      agreement, a stopped one can be started, and no start meets files it cannot
      explain. Unless a failing check made recovery misjudge a file, every start
      opens a content that clients expect. That takes a start with faults ahead that
      has a former file beside the live one; without faults it never happens. Only
      starts in the one hazardous state of a reordering disk are left out. */
  method Endure(db: ManagedDatabase, running: bool, history: seq<Event>, ghost initial: Content)
    returns (up: bool, reports: seq<Report>, trace: seq<Moment>)
    requires Ready(db, running)
    modifies db
    ensures Ready(db, up) && Run(history, reports, trace, db.id, db.engine, db.reorders)
    ensures trace[0] == old(Now(db, running)) && trace[|history|] == Now(db, up)
    ensures db.misjudged && !old(db.misjudged) ==> exists k | 0 <= k < |history| :: Suspect(history[k], trace[k], db.engine)
    ensures old(db.Quiet()) ==> db.Quiet() && db.misjudged == old(db.misjudged)
    ensures old(Keeping(db, {initial})) && (forall event | event in history :: Writes(event, db.engine)) && !db.misjudged ==>
              Durable(reports, initial) && Keeping(db, Expected(reports, initial))
  {
    up, reports, trace := running, [], [Now(db, running)];
    ghost var trusted := Keeping(db, {initial}) && forall event | event in history :: Writes(event, db.engine);
    for k := 0 to |history|
      invariant |reports| == k && Ready(db, up)
      invariant Run(history[..k], reports, trace, db.id, db.engine, db.reorders)
      invariant trace[0] == old(Now(db, running)) && trace[k] == Now(db, up)
      invariant trusted && !db.misjudged ==> Durable(reports, initial) && Keeping(db, Expected(reports, initial))
      invariant db.misjudged && !old(db.misjudged) ==> exists i | 0 <= i < k :: Suspect(history[i], trace[i], db.engine)
      invariant old(db.misjudged) ==> db.misjudged
      invariant old(db.Quiet()) ==> db.Quiet() && db.misjudged == old(db.misjudged)
    {
      assert trusted ==> Writes(history[k], db.engine);
      var after, report := Advance(db, up, history[k], Expected(reports, initial));
      if trusted && !db.misjudged {
        DurableGrows(reports, report, initial);
      }
      assert history[..k + 1] == history[..k] + [history[k]];
      RunGrows(history[..k], reports, trace, history[k], report, Now(db, after), db.id, db.engine, db.reorders);
      up, reports, trace := after, reports + [report], trace + [Now(db, after)];
    }
    assert history[..|history|] == history;
  }

  lemma RunGrows(history: seq<Event>, reports: seq<Report>, trace: seq<Moment>, event: Event, report: Report, next: Moment,
                 id: string, engine: Engine, reorders: bool)
    requires Run(history, reports, trace, id, engine, reorders) && Step(event, trace[|history|], report, next, id, engine, reorders)
    ensures Run(history + [event], reports + [report], trace + [next], id, engine, reorders)
  {
    var events, answers, moments := history + [event], reports + [report], trace + [next];
    forall k | 0 <= k < |answers|
      ensures Step(events[k], moments[k], answers[k], moments[k + 1], id, engine, reorders)
    {
      if k < |reports| {
        assert events[k] == history[k] && moments[k] == trace[k] && answers[k] == reports[k] && moments[k + 1] == trace[k + 1];
      }
    }
  }

  /** A Database that runs keeps what it shows. */
  lemma RunningKeeps(db: ManagedDatabase, initial: Content)
    requires db.Running() && db.handle.Some? && initial == db.disk.Read(db.handle.value)
    requires Sane(db.engine) && db.engine.Accepts(initial)
    ensures Keeping(db, {initial})
  {
    assert db.disk.now in db.disk.survivors;
  }
}
