/** A start of the whole daemon: the interrupted restores are recovered first, and
    only then is the catalog loaded against the storage. */
module Startup {
  import opened Core
  import opened Catalog
  import opened CatalogFiles
  import opened CatalogStore
  import opened Lifecycle
  import opened Restore
  import RestoreFiles

  function IdsOf(databases: seq<ManagedDatabase>): set<string> {
    set db | db in databases :: db.id
  }

  predicate DistinctDatabases(databases: seq<ManagedDatabase>) {
    forall i, j | 0 <= i < j < |databases| :: databases[i] != databases[j] && databases[i].id != databases[j].id
  }

  function WithFile(root: Root, id: string, file: bool): Root {
    if id in root.active then root.(active := root.active[id := Storage(root.active[id].tag, file)]) else root
  }

  /** The storage as it is with the files of these Databases in place. */
  function Whole(root: Root, ids: set<string>): Root {
    root.(active := map id | id in root.active :: Storage(root.active[id].tag, root.active[id].file || id in ids))
  }

  lemma WholeIgnoresFile(root: Root, id: string, file: bool, ids: set<string>)
    requires id in ids
    ensures Whole(WithFile(root, id, file), ids) == Whole(root, ids)
  {
    assert Whole(WithFile(root, id, file), ids).active == Whole(root, ids).active;
  }

  lemma NothingMissing(root: Root, ids: set<string>)
    requires forall id | id in ids && id in root.active :: root.active[id].file
    ensures Whole(root, ids) == root
  {
    assert Whole(root, ids).active == root.active;
  }

  lemma SameFile(root: Root, id: string, file: bool)
    requires id in root.active ==> root.active[id].file == file
    ensures WithFile(root, id, file) == root
  {
    if id in root.active {
      assert root.active[id := Storage(root.active[id].tag, file)] == root.active;
    }
  }

  lemma LastFileCounts(root: Root, id: string, first: bool, file: bool)
    ensures WithFile(WithFile(root, id, first), id, file) == WithFile(root, id, file)
  {
    if id in root.active {
      assert WithFile(WithFile(root, id, first), id, file).active == WithFile(root, id, file).active;
    }
  }

  lemma StaysWhole(root: Root, committed: map<string, nat>, ids: set<string>)
    requires Consistent(root, committed)
    ensures Consistent(Whole(root, ids), committed)
  {
  }

  // ---- the states of both models together ----

  /** A directory that a restore may have touched: its ID, the file from before the
      restore, the snapshot's file, and whether its disk reorders. */
  datatype Site = Site(id: string, origin: RestoreFiles.Inode, staged: RestoreFiles.Inode, reorders: bool)

  ghost function SiteOf(db: ManagedDatabase): Site
    reads db`origin, db`staged
  {
    Site(db.id, db.origin, db.staged, db.reorders)
  }

  ghost function Sites(databases: seq<ManagedDatabase>): (sites: seq<Site>)
    reads databases
    ensures |sites| == |databases|
  {
    seq(|databases|, k requires 0 <= k < |databases| reads databases => SiteOf(databases[k]))
  }

  /** The data directory, and the files in each site's own directory. */
  datatype Joint = Joint(root: Root, disks: seq<RestoreFiles.Disk>)

  predicate DistinctSites(sites: seq<Site>) {
    forall i, j | 0 <= i < j < |sites| :: sites[i].id != sites[j].id
  }

  function SiteIds(sites: seq<Site>): set<string> {
    set site | site in sites :: site.id
  }

  /** The catalog's check looks at the same directories: one holds its database file
      exactly if the file is there under its own name, not moved aside. */
  predicate Mirrored(x: Joint, sites: seq<Site>) {
    && |x.disks| == |sites|
    && forall k | 0 <= k < |sites| && sites[k].id in x.root.active :: x.root.active[sites[k].id].file == x.disks[k].now.target.Some?
  }

  /** Whatever a crash leaves of this state, with the files that restores have moved
      aside back in place the storage would be consistent with the catalog, and
      every restore is recoverable. */
  ghost predicate Resumable(x: Joint, sites: seq<Site>, committed: map<string, nat>) {
    && Mirrored(x, sites) && Consistent(Whole(x.root, SiteIds(sites)), committed)
    && forall k | 0 <= k < |sites| :: RestoreFiles.Safe(x.disks[k], sites[k].id, sites[k].origin, sites[k].staged)
  }

  /** One file operation in the directory of site `k`. */
  ghost predicate Turns(x: Joint, y: Joint, sites: seq<Site>, k: nat) {
    && |x.disks| == |y.disks| == |sites| && k < |sites|
    && RestoreFiles.OneStep(x.disks[k], y.disks[k], sites[k].reorders)
    && y == Joint(WithFile(x.root, sites[k].id, y.disks[k].now.target.Some?), x.disks[k := y.disks[k]])
  }

  /** At most one file operation, in the data directory or in that of one site. */
  ghost predicate JointStep(x: Joint, y: Joint, sites: seq<Site>) {
    (y.disks == x.disks && OneStep(x.root, y.root)) || exists k :: Turns(x, y, sites, k)
  }

  ghost predicate JointWalk(states: seq<Joint>, sites: seq<Site>) {
    forall i, j | 0 <= i < j < |states| && j == i + 1 :: JointStep(states[i], states[j], sites)
  }

  /** A walk between two states: a start can resume each on the way, and finds the
      same catalog. */
  ghost predicate Passage(states: seq<Joint>, first: Joint, last: Joint, sites: seq<Site>, committed: map<string, nat>) {
    && states != [] && states[0] == first && states[|states| - 1] == last && JointWalk(states, sites)
    && forall x | x in states :: Resumable(x, sites, committed) && CatalogOf(x.root) == CatalogOf(first.root)
  }

  lemma PassagesJoin(a: seq<Joint>, b: seq<Joint>, first: Joint, middle: Joint, last: Joint, sites: seq<Site>, committed: map<string, nat>)
    requires Passage(a, first, middle, sites, committed) && Passage(b, middle, last, sites, committed)
    ensures Passage(a + b, first, last, sites, committed)
  {
    var c := a + b;
    forall i, j | 0 <= i < j < |c| && j == i + 1
      ensures JointStep(c[i], c[j], sites)
    {
      if j < |a| {
        assert c[i] == a[i] && c[j] == a[j];
      } else if i >= |a| {
        assert c[i] == b[i - |a|] && c[j] == b[j - |a|];
      }
    }
  }

  /** The states of one site's recovery, as states of everything. */
  function Lift(base: Joint, id: string, k: nat, trail: seq<RestoreFiles.Disk>): seq<Joint>
    requires k < |base.disks|
  {
    seq(|trail|, i requires 0 <= i < |trail| =>
      Joint(WithFile(base.root, id, trail[i].now.target.Some?), base.disks[k := trail[i]]))
  }

  lemma LiftedIsResumable(base: Joint, sites: seq<Site>, k: nat, disk: RestoreFiles.Disk, committed: map<string, nat>)
    requires Resumable(base, sites, committed) && DistinctSites(sites) && k < |sites|
    requires RestoreFiles.Safe(disk, sites[k].id, sites[k].origin, sites[k].staged)
    ensures Resumable(Joint(WithFile(base.root, sites[k].id, disk.now.target.Some?), base.disks[k := disk]), sites, committed)
  {
    assert sites[k] in sites;
    WholeIgnoresFile(base.root, sites[k].id, disk.now.target.Some?, SiteIds(sites));
  }

  lemma LiftIsPassage(base: Joint, sites: seq<Site>, k: nat, trail: seq<RestoreFiles.Disk>, committed: map<string, nat>)
    requires Resumable(base, sites, committed) && DistinctSites(sites) && k < |sites|
    requires trail != [] && trail[0] == base.disks[k] && RestoreFiles.Walk(trail, sites[k].reorders)
    requires forall x | x in trail :: RestoreFiles.Safe(x, sites[k].id, sites[k].origin, sites[k].staged)
    ensures var states := Lift(base, sites[k].id, k, trail);
            Passage(states, base, states[|trail| - 1], sites, committed)
  {
    var id := sites[k].id;
    var states := Lift(base, id, k, trail);
    SameFile(base.root, id, trail[0].now.target.Some?);
    assert states[0] == base;
    forall i, j | 0 <= i < j < |states| && j == i + 1
      ensures JointStep(states[i], states[j], sites)
    {
      LastFileCounts(base.root, id, trail[i].now.target.Some?, trail[j].now.target.Some?);
      assert Turns(states[i], states[j], sites, k);
    }
    forall x | x in states
      ensures Resumable(x, sites, committed) && CatalogOf(x.root) == CatalogOf(base.root)
    {
      var i :| 0 <= i < |states| && states[i] == x;
      LiftedIsResumable(base, sites, k, trail[i], committed);
    }
  }

  /** The states of loading the catalog, once every restore is recovered. */
  function Beside(disks: seq<RestoreFiles.Disk>, trail: seq<Root>): seq<Joint> {
    seq(|trail|, i requires 0 <= i < |trail| => Joint(trail[i], disks))
  }

  lemma LoadIsPassage(base: Joint, sites: seq<Site>, trail: seq<Root>, committed: map<string, nat>)
    requires Resumable(base, sites, committed) && InPlace(base.disks)
    requires trail != [] && trail[0] == base.root && Walk(trail)
    requires forall x | x in trail :: Consistent(x, committed) && CatalogOf(x) == CatalogOf(base.root) && Shrunk(x, base.root)
    ensures Passage(Beside(base.disks, trail), base, Joint(trail[|trail| - 1], base.disks), sites, committed)
  {
    var states := Beside(base.disks, trail);
    forall x | x in states
      ensures Resumable(x, sites, committed) && CatalogOf(x.root) == CatalogOf(base.root)
    {
      assert x.root in trail;
      StaysWhole(x.root, committed, SiteIds(sites));
    }
  }

  // ---- the start ----

  function Now(store: CatalogStore, databases: seq<ManagedDatabase>): (x: Joint)
    reads store, databases
    ensures |x.disks| == |databases| && x.root == store.root
    ensures forall k | 0 <= k < |databases| :: x.disks[k] == databases[k].disk
  {
    Joint(store.root, seq(|databases|, k requires 0 <= k < |databases| reads databases => databases[k].disk))
  }

  /** What a crash leaves: a state that a start can resume, with every one of the
      directories there, and no disk in the hazardous state. */
  ghost predicate Interrupted(store: CatalogStore, databases: seq<ManagedDatabase>)
    reads store, databases
  {
    && Resumable(Now(store, databases), Sites(databases), store.committed)
    && forall db | db in databases :: db.id in store.root.active && !RestoreFiles.Hazardous(db.disk, db.reorders)
  }

  /** The recovery of one site from this disk, each state of which is recoverable. */
  ghost predicate Traced(trail: seq<RestoreFiles.Disk>, disk: RestoreFiles.Disk, site: Site) {
    && trail != [] && trail[0] == disk && RestoreFiles.Walk(trail, site.reorders)
    && forall x | x in trail :: RestoreFiles.Safe(x, site.id, site.origin, site.staged)
  }

  /** The states that the recoveries passed through, one directory after the other;
      the catalog's check sees the directories as they are then. */
  method Replay(start: Joint, ids: seq<string>, trails: seq<seq<RestoreFiles.Disk>>, ghost sites: seq<Site>, ghost committed: map<string, nat>)
    returns (passed: seq<Joint>, last: Joint)
    requires Resumable(start, sites, committed) && DistinctSites(sites) && |trails| == |ids| == |sites|
    requires forall k | 0 <= k < |sites| :: ids[k] == sites[k].id && Traced(trails[k], start.disks[k], sites[k])
    ensures Passage(passed, start, last, sites, committed) && |last.disks| == |sites|
    ensures forall k | 0 <= k < |sites| :: trails[k] != [] && last.disks[k] == trails[k][|trails[k]| - 1]
    ensures Whole(last.root, SiteIds(sites)) == Whole(start.root, SiteIds(sites))
  {
    passed, last := [start], start;
    for k := 0 to |ids|
      invariant Passage(passed, start, last, sites, committed) && last in passed && |last.disks| == |sites|
      invariant forall i | 0 <= i < k :: last.disks[i] == trails[i][|trails[i]| - 1]
      invariant forall i | k <= i < |sites| :: last.disks[i] == start.disks[i]
      invariant Whole(last.root, SiteIds(sites)) == Whole(start.root, SiteIds(sites))
    {
      var states := Lift(last, ids[k], k, trails[k]);
      LiftIsPassage(last, sites, k, trails[k], committed);
      PassagesJoin(passed, states, start, last, states[|states| - 1], sites, committed);
      assert sites[k] in sites;
      WholeIgnoresFile(last.root, ids[k], trails[k][|trails[k]| - 1].now.target.Some?, SiteIds(sites));
      passed, last := passed + states, states[|states| - 1];
    }
  }

  /** The trails begin here. */
  method Begin(databases: seq<ManagedDatabase>)
    modifies databases`exposed, databases`trail
    ensures forall db | db in databases :: db.exposed == {db.disk} && db.trail == [db.disk]
  {
    forall db | db in databases {
      db.exposed := {db.disk};
    }
    forall db | db in databases {
      db.trail := [db.disk];
    }
  }

  lemma HandledIsTraced(db: ManagedDatabase, before: Before)
    requires Handled(db, before) && before.trail == [before.disk] && before.exposed == {before.disk}
    requires RestoreFiles.Covered(before.disk, db.id, db.origin, db.staged, db.reorders)
    ensures Traced(db.trail, before.disk, SiteOf(db)) && db.trail[|db.trail| - 1] == db.disk
  {
  }

  /** Recovers every restore, and keeps the trail of each directory. */
  method RecoverTraced(databases: seq<ManagedDatabase>) returns (ok: bool, trails: seq<seq<RestoreFiles.Disk>>)
    requires DistinctDatabases(databases) && AllCovered(databases)
    requires forall db | db in databases :: db.exposed == {db.disk} && db.trail == [db.disk]
    modifies databases`disk, databases`exposed, databases`trail, databases`faults, databases`misjudged
    ensures |trails| == |databases|
    ensures forall k | 0 <= k < |databases| ::
              && Traced(trails[k], old(databases[k].disk), SiteOf(databases[k])) && trails[k][|trails[k]| - 1] == databases[k].disk
              && databases[k].disk.store == old(databases[k].disk.store)
    ensures ok ==> forall k | 0 <= k < |databases| :: Tidy(databases[k])
    ensures old(AllQuiet(databases)) ==> (ok <==> old(AllSolvable(databases)))
  {
    var r, done := RecoverAll(databases);
    ok := r == Recovered;
    forall k | 0 <= k < |databases|
      ensures Traced(databases[k].trail, old(databases[k].disk), SiteOf(databases[k])) && databases[k].trail[|databases[k].trail| - 1] == databases[k].disk
    {
      assert databases[k] in databases;
      HandledIsTraced(databases[k], old(Here(databases[k])));
    }
    trails := seq(|databases|, k requires 0 <= k < |databases| reads databases => databases[k].trail);
  }

  method RecoverFromHere(databases: seq<ManagedDatabase>) returns (ok: bool, trails: seq<seq<RestoreFiles.Disk>>)
    requires DistinctDatabases(databases) && AllCovered(databases)
    modifies databases`disk, databases`exposed, databases`trail, databases`faults, databases`misjudged
    ensures |trails| == |databases|
    ensures forall k | 0 <= k < |databases| ::
              && Traced(trails[k], old(databases[k].disk), SiteOf(databases[k])) && trails[k][|trails[k]| - 1] == databases[k].disk
              && databases[k].disk.store == old(databases[k].disk.store)
    ensures ok ==> forall k | 0 <= k < |databases| :: Tidy(databases[k])
    ensures old(AllQuiet(databases)) ==> (ok <==> old(AllSolvable(databases)))
  {
    Begin(databases);
    ok, trails := RecoverTraced(databases);
  }

  lemma SameButFiles(x: Root, y: Root, ids: set<string>)
    requires Whole(x, ids) == Whole(y, ids)
    ensures CatalogOf(x) == CatalogOf(y) && (Loadable(x) <==> Loadable(y))
  {
    assert CatalogOf(x) == CatalogOf(Whole(x, ids)) && CatalogOf(y) == CatalogOf(Whole(y, ids));
  }

  predicate InPlace(disks: seq<RestoreFiles.Disk>) {
    forall k | 0 <= k < |disks| :: disks[k].now.target.Some?
  }

  /** Every file is in place under its own name, so the storage is as it should be. */
  lemma AllInPlace(x: Joint, sites: seq<Site>, committed: map<string, nat>)
    requires Resumable(x, sites, committed) && InPlace(x.disks)
    ensures Consistent(x.root, committed)
  {
    forall id | id in SiteIds(sites) && id in x.root.active
      ensures x.root.active[id].file
    {
      var site :| site in sites && site.id == id;
      var k :| 0 <= k < |sites| && sites[k] == site;
    }
    NothingMissing(x.root, SiteIds(sites));
  }

  /** Recovers every restore. Then each file is in place under its own name, and the
      storage is consistent with the catalog. A start can resume every state on the
      way, and nothing but the files' places has changed. */
  method RecoverRestores(store: CatalogStore, databases: seq<ManagedDatabase>) returns (ok: bool, passed: seq<Joint>)
    requires DistinctDatabases(databases) && Interrupted(store, databases)
    modifies store`root, databases`disk, databases`exposed, databases`trail, databases`faults, databases`misjudged
    ensures Passage(passed, old(Now(store, databases)), Now(store, databases), old(Sites(databases)), store.committed)
    ensures Whole(store.root, IdsOf(databases)) == old(Whole(store.root, IdsOf(databases)))
    ensures CatalogOf(store.root) == CatalogOf(old(store.root)) && (Loadable(store.root) <==> Loadable(old(store.root)))
    ensures forall db | db in databases :: db.disk.store == old(db.disk.store)
    ensures Consistent(Whole(store.root, IdsOf(databases)), store.committed) && Resumable(Now(store, databases), old(Sites(databases)), store.committed)
    ensures ok ==> Consistent(store.root, store.committed) && InPlace(Now(store, databases).disks) && forall k | 0 <= k < |databases| :: Tidy(databases[k])
    ensures old(AllQuiet(databases)) ==> (ok <==> old(AllSolvable(databases)))
  {
    var start := Now(store, databases);
    ghost var sites := Sites(databases);
    SitesOf(databases);
    var trails;
    ok, trails := RecoverFromHere(databases);
    var ids := seq(|databases|, k requires 0 <= k < |databases| => databases[k].id);
    var last;
    passed, last := Replay(start, ids, trails, sites, store.committed);
    store.root := last.root;
    assert last == Now(store, databases) && last in passed;
    SameButFiles(store.root, old(store.root), IdsOf(databases));
    if ok {
      AllInPlace(last, sites, store.committed);
    }
  }

  lemma SitesOf(databases: seq<ManagedDatabase>)
    ensures SiteIds(Sites(databases)) == IdsOf(databases)
    ensures DistinctDatabases(databases) ==> DistinctSites(Sites(databases))
  {
    var sites := Sites(databases);
    assert forall k | 0 <= k < |databases| :: sites[k] in sites && databases[k] in databases && sites[k].id == databases[k].id;
  }

  /** The daemon serves exactly the listed Databases, all of them open. */
  ghost predicate Up(daemon: DatabaseDaemon)
    reads daemon`handles, daemon.store`root, daemon.store`catalog, daemon.store`committed
  {
    && daemon.Serving() && Settled(daemon.store.root, daemon.store.committed, daemon.store.catalog)
    && DatabaseDaemon.AllOpen(daemon.handles, Ids(daemon.store.catalog), daemon.store.committed)
  }

  /** Loads the catalog once every file is in place, with the states on the way. */
  method LoadRecovered(daemon: DatabaseDaemon, disks: seq<RestoreFiles.Disk>, ghost sites: seq<Site>) returns (up: bool, passed: seq<Joint>)
    requires Resumable(Joint(daemon.store.root, disks), sites, daemon.store.committed) && Consistent(daemon.store.root, daemon.store.committed)
    requires InPlace(disks)
    modifies daemon, daemon.store
    ensures Passage(passed, old(Joint(daemon.store.root, disks)), Joint(daemon.store.root, disks), sites, old(daemon.store.committed))
    ensures CatalogOf(daemon.store.root) == CatalogOf(old(daemon.store.root)) && Consistent(daemon.store.root, daemon.store.committed)
    ensures up ==> Up(daemon)
    ensures old(daemon.store.Quiet()) ==> (up <==> Loadable(old(daemon.store.root)))
  {
    var start := daemon.store.root;
    ghost var committed := daemon.store.committed;
    daemon.store.exposed, daemon.store.trail := {start}, [start];
    up := daemon.Open();
    passed := Beside(disks, daemon.store.trail);
    LoadIsPassage(Joint(start, disks), sites, daemon.store.trail, committed);
  }

  /** `DatabaseDaemon::open`. From whatever a crash leaves of the catalog, of the
      storage and of any number of restores, a start either serves exactly the
      listed Databases, each with its file in place, or leaves the catalog as it
      was; nothing that a restore has moved aside keeps it from starting; and a
      start can resume every state on the way. */
  method Open(daemon: DatabaseDaemon, databases: seq<ManagedDatabase>) returns (up: bool, passed: seq<Joint>)
    requires DistinctDatabases(databases) && Interrupted(daemon.store, databases)
    modifies daemon, daemon.store, databases`disk, databases`exposed, databases`trail, databases`faults, databases`misjudged
    ensures CatalogOf(daemon.store.root) == CatalogOf(old(daemon.store.root))
    ensures Consistent(Whole(daemon.store.root, IdsOf(databases)), daemon.store.committed)
    ensures Passage(passed, old(Now(daemon.store, databases)), Now(daemon.store, databases), old(Sites(databases)), old(daemon.store.committed))
    ensures forall db | db in databases :: db.disk.store == old(db.disk.store)
    ensures up ==> Up(daemon) && forall k | 0 <= k < |databases| :: Tidy(databases[k])
    ensures old(AllQuiet(databases)) && old(daemon.store.Quiet()) ==>
              (up <==> old(AllSolvable(databases)) && Loadable(old(daemon.store.root)))
  {
    ghost var sites, start, committed := Sites(databases), Now(daemon.store, databases), daemon.store.committed;
    up, passed := RecoverRestores(daemon.store, databases);
    if !up {
      return;
    }
    var middle := Now(daemon.store, databases);
    var loaded;
    up, loaded := LoadRecovered(daemon, middle.disks, sites);
    assert Now(daemon.store, databases) == Joint(daemon.store.root, middle.disks);
    PassagesJoin(passed, loaded, start, middle, Now(daemon.store, databases), sites, committed);
    passed := passed + loaded;
    StaysWhole(daemon.store.root, daemon.store.committed, IdsOf(databases));
  }

  // ---- a start that is stopped, and why the order matters ----

  /** The Databases whose directories are still in `databases/`. */
  function Present(databases: seq<ManagedDatabase>, root: Root): (rest: seq<ManagedDatabase>)
    ensures forall db | db in rest :: db in databases && db.id in root.active
    ensures forall db | db in databases && db.id in root.active :: db in rest
    ensures DistinctDatabases(databases) ==> DistinctDatabases(rest)
  {
    if databases == [] then []
    else
      var front, last := Present(databases[..|databases| - 1], root), databases[|databases| - 1];
      if last.id in root.active then front + [last] else front
  }

  /** Looks at the directories again, after a crash. */
  method Look(root: Root, ids: seq<string>, left: seq<RestoreFiles.Disk>, ghost sites: seq<Site>) returns (seen: Root)
    requires DistinctSites(sites) && |ids| == |left| == |sites| && forall k | 0 <= k < |sites| :: ids[k] == sites[k].id
    ensures Mirrored(Joint(seen, left), sites) && seen.active.Keys == root.active.Keys
    ensures Whole(seen, SiteIds(sites)) == Whole(root, SiteIds(sites))
  {
    seen := root;
    for k := 0 to |ids|
      invariant seen.active.Keys == root.active.Keys
      invariant forall i | 0 <= i < k && ids[i] in seen.active :: seen.active[ids[i]].file == left[i].now.target.Some?
      invariant Whole(seen, SiteIds(sites)) == Whole(root, SiteIds(sites))
    {
      assert sites[k] in sites;
      WholeIgnoresFile(seen, ids[k], left[k].now.target.Some?, SiteIds(sites));
      seen := WithFile(seen, ids[k], left[k].now.target.Some?);
    }
  }

  method Leave(databases: seq<ManagedDatabase>, left: seq<RestoreFiles.Disk>)
    requires DistinctDatabases(databases) && |left| == |databases|
    modifies databases`disk
    ensures forall k | 0 <= k < |databases| :: databases[k].disk == left[k]
    ensures Sites(databases) == old(Sites(databases))
  {
    for k := 0 to |databases|
      invariant forall i | 0 <= i < k :: databases[i].disk == left[i]
    {
      databases[k].disk := left[k];
    }
  }

  /** The sites and disks of `y` are among those of `x`. */
  predicate Within(y: Joint, rest: seq<Site>, x: Joint, sites: seq<Site>) {
    && y.root == x.root && |y.disks| == |rest| && |x.disks| == |sites|
    && forall j | 0 <= j < |rest| :: Found(rest[j], y.disks[j], x, sites)
  }

  predicate Found(site: Site, disk: RestoreFiles.Disk, x: Joint, sites: seq<Site>)
    requires |x.disks| == |sites|
  {
    exists k | 0 <= k < |sites| :: sites[k] == site && x.disks[k] == disk
  }

  /** Sites whose directories have gone make no difference. */
  lemma FewerSites(x: Joint, sites: seq<Site>, y: Joint, rest: seq<Site>, committed: map<string, nat>)
    requires Resumable(x, sites, committed) && Within(y, rest, x, sites)
    requires forall site | site in sites && site.id in x.root.active :: site in rest
    ensures Resumable(y, rest, committed)
  {
    forall id | id in x.root.active
      ensures id in SiteIds(sites) <==> id in SiteIds(rest)
    {
      if id in SiteIds(rest) {
        var site :| site in rest && site.id == id;
        var j :| 0 <= j < |rest| && rest[j] == site;
        var k :| 0 <= k < |sites| && sites[k] == rest[j] && x.disks[k] == y.disks[j];
        assert sites[k] in sites;
      }
    }
    assert Whole(x.root, SiteIds(sites)).active == Whole(x.root, SiteIds(rest)).active;
  }

  /** A crash leaves a resumable state, whichever survivor each disk keeps. */
  lemma CrashIsResumable(at: Joint, seen: Root, left: seq<RestoreFiles.Disk>, sites: seq<Site>, committed: map<string, nat>)
    requires Resumable(at, sites, committed) && Mirrored(Joint(seen, left), sites)
    requires Whole(seen, SiteIds(sites)) == Whole(at.root, SiteIds(sites))
    requires forall k | 0 <= k < |sites| :: RestoreFiles.Crash(at.disks[k], left[k])
    ensures Resumable(Joint(seen, left), sites, committed)
  {
  }

  method LookAfter(at: Joint, ids: seq<string>, left: seq<RestoreFiles.Disk>, ghost sites: seq<Site>, ghost committed: map<string, nat>)
    returns (seen: Root)
    requires DistinctSites(sites) && |ids| == |left| == |sites| && Resumable(at, sites, committed)
    requires forall k | 0 <= k < |sites| :: ids[k] == sites[k].id && RestoreFiles.Crash(at.disks[k], left[k])
    ensures Resumable(Joint(seen, left), sites, committed)
    ensures CatalogOf(seen) == CatalogOf(at.root) && seen.active.Keys == at.root.active.Keys
  {
    seen := Look(at.root, ids, left, sites);
    CrashIsResumable(at, seen, left, sites, committed);
    SameButFiles(seen, at.root, SiteIds(sites));
  }

  lemma RestIsWithin(store: CatalogStore, databases: seq<ManagedDatabase>, rest: seq<ManagedDatabase>)
    requires forall db | db in rest :: db in databases
    ensures Within(Now(store, rest), Sites(rest), Now(store, databases), Sites(databases))
  {
    var sites, kept := Sites(databases), Sites(rest);
    forall j | 0 <= j < |kept|
      ensures Found(kept[j], Now(store, rest).disks[j], Now(store, databases), sites)
    {
      assert rest[j] in rest;
      var k :| 0 <= k < |databases| && databases[k] == rest[j];
      assert sites[k] == kept[j];
    }
  }

  lemma RestHasAll(root: Root, databases: seq<ManagedDatabase>, rest: seq<ManagedDatabase>)
    requires forall db | db in databases && db.id in root.active :: db in rest
    ensures forall site | site in Sites(databases) && site.id in root.active :: site in Sites(rest)
  {
    var sites, kept := Sites(databases), Sites(rest);
    forall site | site in sites && site.id in root.active
      ensures site in kept
    {
      var k :| 0 <= k < |sites| && sites[k] == site;
      assert databases[k] in databases;
      var j :| 0 <= j < |rest| && rest[j] == databases[k];
      assert kept[j] == site;
    }
  }

  lemma RestIsInterrupted(store: CatalogStore, databases: seq<ManagedDatabase>, rest: seq<ManagedDatabase>)
    requires Resumable(Now(store, databases), Sites(databases), store.committed) && rest == Present(databases, store.root)
    requires forall db | db in databases :: !RestoreFiles.Hazardous(db.disk, db.reorders)
    ensures Interrupted(store, rest)
  {
    RestIsWithin(store, databases, rest);
    RestHasAll(store.root, databases, rest);
    FewerSites(Now(store, databases), Sites(databases), Now(store, rest), Sites(rest), store.committed);
  }

  /** The disks are left as a crash leaves them; `seen` is the data directory then. */
  method Fall(databases: seq<ManagedDatabase>, at: Joint, left: seq<RestoreFiles.Disk>, ghost committed: map<string, nat>) returns (seen: Root)
    requires DistinctDatabases(databases) && Resumable(at, Sites(databases), committed) && |left| == |databases|
    requires forall k | 0 <= k < |databases| :: RestoreFiles.Crash(at.disks[k], left[k])
    modifies databases`disk
    ensures Resumable(Joint(seen, left), Sites(databases), committed)
    ensures CatalogOf(seen) == CatalogOf(at.root) && seen.active.Keys == at.root.active.Keys
    ensures forall k | 0 <= k < |databases| :: databases[k].disk == left[k]
  {
    ghost var sites := Sites(databases);
    SitesOf(databases);
    var ids := seq(|databases|, k requires 0 <= k < |databases| => databases[k].id);
    seen := LookAfter(at, ids, left, sites, committed);
    Leave(databases, left);
  }

  /** A crash may leave these disks, and none of them in the hazardous state. */
  predicate Fallen(at: Joint, left: seq<RestoreFiles.Disk>, databases: seq<ManagedDatabase>) {
    && |left| == |databases| == |at.disks|
    && forall k | 0 <= k < |databases| ::
         RestoreFiles.Crash(at.disks[k], left[k]) && !RestoreFiles.Hazardous(left[k], databases[k].reorders)
  }

  /** A crash in a state that a start passed through, of the process or of the power,
      leaves one that the next start can begin with; unless a disk is left in the
      hazardous state. */
  method Stop(daemon: DatabaseDaemon, databases: seq<ManagedDatabase>, at: Joint, left: seq<RestoreFiles.Disk>, before: map<string, nat>)
    returns (rest: seq<ManagedDatabase>)
    requires DistinctDatabases(databases) && Resumable(at, Sites(databases), before) && Fallen(at, left, databases)
    modifies daemon`handles, daemon.store`root, daemon.store`committed, databases`disk
    ensures rest == Present(databases, daemon.store.root) && DistinctDatabases(rest) && Interrupted(daemon.store, rest)
    ensures daemon.store.root.active.Keys == at.root.active.Keys
    ensures CatalogOf(daemon.store.root) == CatalogOf(at.root) && daemon.store.committed == before
    ensures forall k | 0 <= k < |databases| :: databases[k].disk == left[k]
  {
    var seen := Fall(databases, at, left, before);
    ghost var sites := Sites(databases);
    daemon.handles, daemon.store.root, daemon.store.committed := map[], seen, before;
    rest := Present(databases, seen);
    assert Now(daemon.store, databases) == Joint(seen, left) && Sites(databases) == sites;
    RestIsInterrupted(daemon.store, databases, rest);
  }

  /** The start after a crash in state `at`. */
  method OpenAfter(daemon: DatabaseDaemon, databases: seq<ManagedDatabase>, at: Joint, left: seq<RestoreFiles.Disk>, before: map<string, nat>)
    returns (up: bool, passed: seq<Joint>)
    requires DistinctDatabases(databases) && Resumable(at, Sites(databases), before) && Fallen(at, left, databases)
    modifies daemon, daemon.store, databases`disk, databases`exposed, databases`trail, databases`faults, databases`misjudged
    ensures passed != [] && passed[0].root.active.Keys == at.root.active.Keys && passed[|passed| - 1].root == daemon.store.root
    ensures forall x | x in passed :: CatalogOf(x.root) == CatalogOf(at.root)
    ensures CatalogOf(daemon.store.root) == CatalogOf(at.root) && (up ==> Up(daemon))
  {
    var rest := Stop(daemon, databases, at, left, before);
    assert forall db | db in rest :: db in databases;
    up, passed := Open(daemon, rest);
  }

  /** A start that a crash stops at any state it passes through, and the next one:
      every state on the way finds the same catalog, whatever the crash left. */
  method OpenTwice(daemon: DatabaseDaemon, databases: seq<ManagedDatabase>, stop: nat, left: seq<RestoreFiles.Disk>)
    returns (up: bool, first: seq<Joint>, second: seq<Joint>)
    requires DistinctDatabases(databases) && Interrupted(daemon.store, databases)
    modifies daemon, daemon.store, databases`disk, databases`exposed, databases`trail, databases`faults, databases`misjudged
    ensures first != [] && first[0] == old(Now(daemon.store, databases)) && JointWalk(first, old(Sites(databases)))
    ensures second != [] <==> stop < |first| && Fallen(first[stop], left, databases)
    ensures second != [] ==> second[0].root.active.Keys == first[stop].root.active.Keys && second[|second| - 1].root == daemon.store.root
    ensures forall x | x in first + second :: CatalogOf(x.root) == CatalogOf(old(daemon.store.root))
    ensures CatalogOf(daemon.store.root) == CatalogOf(old(daemon.store.root)) && (up ==> Up(daemon))
  {
    var before := daemon.store.committed;
    ghost var sites := Sites(databases);
    up, first := Open(daemon, databases);
    second := [];
    if stop < |first| && Fallen(first[stop], left, databases) {
      assert Sites(databases) == sites && first[stop] in first;
      up, second := OpenAfter(daemon, databases, first[stop], left, before);
    }
  }

  /** A restore that has moved the live file aside leaves exactly such a state: the
      storage as it is contradicts the catalog, and as it should be does not. */
  lemma MovedAside(root: Root, committed: map<string, nat>, id: string, ids: set<string>)
    requires Consistent(root, committed) && id in Ids(CatalogOf(root).value) && id in ids
    ensures !Consistent(WithFile(root, id, false), committed)
    ensures Consistent(Whole(WithFile(root, id, false), ids), committed)
  {
    StaysWhole(root, committed, ids);
    WholeIgnoresFile(root, id, false, ids);
    assert !Stored(WithFile(root, id, false), id);
  }

  /** The order matters: with the file of a listed Database moved aside, loading the
      catalog before the restores are recovered does not succeed. */
  method LoadFirst(store: CatalogStore, databases: seq<ManagedDatabase>, ghost k: nat) returns (r: Loading)
    requires Mirrored(Now(store, databases), Sites(databases)) && CatalogOf(store.root).Some?
    requires k < |databases| && databases[k].disk.now.target.None? && databases[k].id in Ids(CatalogOf(store.root).value)
    modifies store
    ensures r != Loaded && (old(store.Quiet()) ==> r.Refused?)
  {
    assert Sites(databases)[k].id == databases[k].id;
    r := store.Load();
  }
}
