/** The files of one Database directory during a snapshot restore, what a crash
    may leave of them, and what startup recovery makes of each combination. */
module RestoreFiles {
  import opened Core

  /** Identity of a file, independent of the names that point to it. */
  type Inode = nat

  datatype Slot = Target | Candidate | Backup

  /** The `restore-operation` file; `Partial` is a file whose bytes do not parse. */
  datatype Journal = Missing | Partial | Record(version: nat, database: string, stage: string)

  function Prepared(id: string): Journal {
    Record(1, id, "prepared")
  }

  /** The directory entries that the restore protocol reads and writes. */
  datatype Directory = Directory(
    target: Option<Inode>,
    candidate: Option<Inode>,
    backup: Option<Inode>,
    journal: Journal)
  {
    function Get(slot: Slot): Option<Inode> {
      match slot
      case Target => target
      case Candidate => candidate
      case Backup => backup
    }

    function Put(slot: Slot, file: Option<Inode>): Directory {
      match slot
      case Target => this.(target := file)
      case Candidate => this.(candidate := file)
      case Backup => this.(backup := file)
    }
  }

  /** One atomic change of directory entries, or of the journal's bytes. */
  datatype Change =
    | Link(slot: Slot, file: Inode)
    | Unlink(slot: Slot)
    | Move(source: Slot, destination: Slot, file: Inode)
    | OpenJournal
    | FillJournal(record: Journal)
    | RemoveJournal

  function Effect(d: Directory, c: Change): Directory {
    match c
    case Link(slot, file) => d.Put(slot, Some(file))
    case Unlink(slot) => d.Put(slot, None)
    case Move(source, destination, file) => d.Put(source, None).Put(destination, Some(file))
    case OpenJournal => d.(journal := Partial)
    case FillJournal(record) => if d.journal.Missing? then d else d.(journal := record)
    case RemoveJournal => d.(journal := Missing)
  }

  /** `now` is the directory every process sees. `survivors` are the directories
      that a power loss may leave behind, because some changes made since the
      last directory sync have not reached the disk. */
  datatype Disk = Disk(now: Directory, survivors: set<Directory>, store: map<Inode, Content>) {
    function Read(file: Inode): Content {
      if file in store then store[file] else []
    }

    predicate Synced() {
      survivors == {now}
    }
  }

  /** A change reaches the disk in order, so that a power loss keeps a prefix of
      the unsynced changes; or, when the file system `reorders`, a power loss
      keeps an arbitrary subset of them. */
  function After(disk: Disk, c: Change, reorders: bool): Disk {
    var now := Effect(disk.now, c);
    disk.(now := now,
          survivors := disk.survivors + {now} +
                       if reorders then set d | d in disk.survivors :: Effect(d, c) else {})
  }

  function AfterSync(disk: Disk): Disk {
    disk.(survivors := {disk.now})
  }

  function AfterWrite(disk: Disk, file: Inode, bytes: Content): Disk {
    disk.(store := disk.store[file := bytes])
  }

  /** New names are candidates only, and a rename moves the file that is there. */
  predicate Feasible(c: Change, d: Directory) {
    (c.Link? ==> c.slot == Candidate) && (c.Move? ==> d.Get(c.source) == Some(c.file))
  }

  /** One file operation takes `x` to `y`: nothing, a directory sync, a write to one
      file, or one change of the directory. */
  ghost predicate OneStep(x: Disk, y: Disk, reorders: bool) {
    || y == x
    || y == AfterSync(x)
    || (exists file, bytes :: y == AfterWrite(x, file, bytes))
    || (exists c: Change :: Feasible(c, x.now) && y == After(x, c, reorders))
  }

  /** Each state is reached from the one before by one file operation. */
  ghost predicate Walk(states: seq<Disk>, reorders: bool) {
    forall i, j | 0 <= i < j < |states| && j == i + 1 :: OneStep(states[i], states[j], reorders)
  }

  /** A walk from one state to another. */
  ghost predicate Path(states: seq<Disk>, first: Disk, last: Disk, reorders: bool) {
    states != [] && states[0] == first && states[|states| - 1] == last && Walk(states, reorders)
  }

  /** A process crash keeps what processes saw; a power loss keeps a survivor. */
  predicate Crash(disk: Disk, left: Disk) {
    left == disk
    || (left.now in disk.survivors && left.survivors == {left.now} && left.store == disk.store)
  }

  predicate WrittenHere(j: Journal, id: string) {
    j == Missing || j == Partial || j == Prepared(id)
  }

  /** `file` is in place and nothing was moved aside. */
  predicate Calm(d: Directory, id: string, file: Inode) {
    d.target == Some(file) && d.backup == None && WrittenHere(d.journal, id)
  }

  /** The live file was moved aside and the snapshot is not yet in its place. */
  predicate Swapped(d: Directory, id: string, origin: Inode, staged: Inode) {
    d == Directory(None, Some(staged), Some(origin), Prepared(id))
  }

  /** The snapshot is in place and the former live file is still kept. */
  predicate Installed(d: Directory, id: string, origin: Inode, staged: Inode) {
    d == Directory(Some(staged), None, Some(origin), Prepared(id))
  }

  /** A rejected snapshot was removed and the former live file is still aside. */
  predicate Withdrawn(d: Directory, id: string, origin: Inode) {
    d == Directory(None, None, Some(origin), Prepared(id))
  }

  predicate Recoverable(d: Directory, id: string, origin: Inode, staged: Inode) {
    || Calm(d, id, origin)
    || Calm(d, id, staged)
    || Swapped(d, id, origin, staged)
    || Installed(d, id, origin, staged)
    || Withdrawn(d, id, origin)
  }

  /** Startup keeps `file`, unless the engine rejects it while `origin` is still there. */
  predicate Keeps(d: Directory, id: string, origin: Inode, file: Inode) {
    Calm(d, id, file) || Installed(d, id, origin, file)
  }

  /** Startup keeps `file`, whatever a crash leaves. */
  ghost predicate Kept(disk: Disk, id: string, origin: Inode, file: Inode) {
    disk.now in disk.survivors && forall d | d in disk.survivors :: Keeps(d, id, origin, file)
  }

  /** Every directory that may be left has `file` in place. */
  ghost predicate AllCalm(disk: Disk, id: string, file: Inode) {
    disk.now in disk.survivors && forall d | d in disk.survivors :: Calm(d, id, file)
  }

  /** Work on a candidate or on the journal leaves a calm directory calm. */
  lemma CalmStays(disk: Disk, c: Change, id: string, file: Inode, reorders: bool)
    requires AllCalm(disk, id, file)
    requires c.OpenJournal? || c.RemoveJournal? || c == FillJournal(Prepared(id)) || c == Unlink(Candidate) || (c.Link? && c.slot == Candidate)
    ensures AllCalm(After(disk, c, reorders), id, file)
  {
  }

  /** Nowhere that a crash may lead has the snapshot replaced the original for good. */
  ghost predicate Recallable(disk: Disk, id: string, staged: Inode) {
    forall d | d in disk.survivors :: !Calm(d, id, staged)
  }

  /** Whatever a crash leaves of this disk is recoverable, and the journal goes
      last. */
  ghost predicate Safe(disk: Disk, id: string, origin: Inode, staged: Inode) {
    && disk.now in disk.survivors
    && (forall d | d in disk.survivors :: Recoverable(d, id, origin, staged))
    && (disk.now.journal.Missing? ==> disk.now.target.Some? && AllCalm(disk, id, disk.now.target.value))
  }

  /** The file that recovery leaves in place, or None where it refuses. */
  function Final(d: Directory, disk: Disk, engine: Engine): Option<Inode> {
    match (d.target, d.candidate, d.backup)
    case (Some(t), _, None) => Some(t)
    case (Some(t), None, Some(b)) => Some(if engine.Accepts(disk.Read(t)) then t else b)
    case (None, Some(c), Some(b)) => Some(if engine.Accepts(disk.Read(c)) then c else b)
    case (None, None, Some(b)) => Some(b)
    case _ => None
  }

  /** Recovery from a process crash at this point ends with `file` in place. */
  predicate Leads(disk: Disk, engine: Engine, file: Option<Inode>) {
    Final(disk.now, disk, engine) == file
  }

  /** So does recovery after a power loss. */
  predicate LeadsAll(disk: Disk, engine: Engine, file: Option<Inode>) {
    forall d | d in disk.survivors :: Final(d, disk, engine) == file
  }

  // ---- the states that recovery passes through ----

  /** A rename followed by a directory sync. */
  function MoveStates(disk: Disk, source: Slot, reorders: bool): (states: seq<Disk>)
    requires disk.now.Get(source).Some?
  {
    var moved := After(disk, Move(source, Target, disk.now.Get(source).value), reorders);
    [disk, moved, AfterSync(moved)]
  }

  /** The original replaces a rejected snapshot. */
  function RollbackStates(disk: Disk, reorders: bool): (states: seq<Disk>)
    requires disk.now.backup.Some?
  {
    var removed := After(disk, Unlink(Target), reorders);
    [disk, removed] + MoveStates(AfterSync(removed), Backup, reorders)
  }

  function Without(disk: Disk, slot: Slot, reorders: bool): Disk {
    if disk.now.Get(slot).Some? then After(disk, Unlink(slot), reorders) else disk
  }

  /** Leftovers are removed, then the journal. */
  function FinishStates(disk: Disk, reorders: bool): (states: seq<Disk>)
  {
    var a := Without(disk, Candidate, reorders);
    var b := Without(a, Backup, reorders);
    var c := After(AfterSync(b), RemoveJournal, reorders);
    [disk, a, b, AfterSync(b), c, AfterSync(c)]
  }

  /** Under reordering, the first removal that recovery makes, of the original
      or of the snapshot, would strike a survivor that has only that file. */
  predicate Hazard(disk: Disk, accepted: bool, reorders: bool) {
    && reorders
    && disk.now.target.Some? && disk.now.backup.Some?
    && exists d | d in disk.survivors :: if accepted then d.target.None? else d.backup.None?
  }

  /** A disk from which a crash of recovery may be unsafe. */
  predicate Hazardous(disk: Disk, reorders: bool) {
    Hazard(disk, true, reorders) || Hazard(disk, false, reorders)
  }

  /** Recovery can start here and be interrupted at any point. A recoverable disk
      is covered if changes reach it in order, or if it is synced. */
  ghost predicate Covered(disk: Disk, id: string, origin: Inode, staged: Inode, reorders: bool) {
    Safe(disk, id, origin, staged) && !Hazardous(disk, reorders)
  }

  ghost predicate AllSafe(states: seq<Disk>, id: string, origin: Inode, staged: Inode) {
    forall x | x in states :: Safe(x, id, origin, staged)
  }

  /** `x` is safe and has the contents of `start`. */
  ghost predicate Sound(x: Disk, start: Disk, id: string, origin: Inode, staged: Inode) {
    Safe(x, id, origin, staged) && x.store == start.store
  }

  /** Whatever a power loss leaves leads to `file`, and no unsynced change can be
      overtaken by a later one. */
  ghost predicate Lasting(disk: Disk, engine: Engine, file: Option<Inode>, reorders: bool) {
    (disk.Synced() || !reorders) && LeadsAll(disk, engine, file)
  }

  /** `x` leads where `start` does, after a power loss too if that was certain of `start`. */
  ghost predicate Faithful(x: Disk, start: Disk, engine: Engine, reorders: bool) {
    var file := Final(start.now, start, engine);
    Leads(x, engine, file) && (Lasting(start, engine, file, reorders) ==> LeadsAll(x, engine, file))
  }

  /** Each of these states leads to `file`; after a power loss too, if `durable`. */
  ghost predicate AllLead(states: seq<Disk>, engine: Engine, file: Option<Inode>, durable: bool) {
    forall x | x in states :: Leads(x, engine, file) && (durable ==> LeadsAll(x, engine, file))
  }

  lemma MoveKeepsSafe(disk: Disk, source: Slot, id: string, origin: Inode, staged: Inode, reorders: bool)
    requires Safe(disk, id, origin, staged)
    requires (source == Candidate && Swapped(disk.now, id, origin, staged)) || (source == Backup && Withdrawn(disk.now, id, origin))
    ensures AllSafe(MoveStates(disk, source, reorders), id, origin, staged)
  {
    var moved := MoveStates(disk, source, reorders)[1];
    assert Safe(moved, id, origin, staged);
    assert Safe(AfterSync(moved), id, origin, staged);
  }

  lemma MoveIsSafe(disk: Disk, source: Slot, id: string, origin: Inode, staged: Inode, engine: Engine, reorders: bool)
    requires Safe(disk, id, origin, staged)
    requires (source == Candidate && Swapped(disk.now, id, origin, staged)) || (source == Backup && Withdrawn(disk.now, id, origin))
    ensures AllSafe(MoveStates(disk, source, reorders), id, origin, staged)
    ensures AllLead(MoveStates(disk, source, reorders), engine, Final(disk.now, disk, engine), Lasting(disk, engine, Final(disk.now, disk, engine), reorders))
  {
    MoveKeepsSafe(disk, source, id, origin, staged, reorders);
    var moved, file := MoveStates(disk, source, reorders)[1], Final(disk.now, disk, engine);
    assert Leads(moved, engine, file) && Leads(AfterSync(moved), engine, file);
    assert Lasting(disk, engine, file, reorders) ==> LeadsAll(moved, engine, file);
  }

  lemma RollbackIsSafe(disk: Disk, id: string, origin: Inode, staged: Inode, engine: Engine, reorders: bool)
    requires Safe(disk, id, origin, staged) && !Hazard(disk, false, reorders)
    requires Installed(disk.now, id, origin, staged)
    ensures AllSafe(RollbackStates(disk, reorders), id, origin, staged)
    ensures !engine.Accepts(disk.Read(staged)) ==>
              AllLead(RollbackStates(disk, reorders), engine, Final(disk.now, disk, engine), Lasting(disk, engine, Final(disk.now, disk, engine), reorders))
  {
    var removed := AfterSync(After(disk, Unlink(Target), reorders));
    MoveIsSafe(removed, Backup, id, origin, staged, engine, reorders);
  }

  /** Removing the only leftover that a directory with a live file can have. */
  lemma RemovalIsSafe(disk: Disk, slot: Slot, id: string, origin: Inode, staged: Inode, engine: Engine, reorders: bool)
    requires Safe(disk, id, origin, staged) && (slot == Candidate || !Hazard(disk, true, reorders))
    requires disk.now.journal == Prepared(id) && disk.now.target.Some? && slot != Target
    ensures Safe(Without(disk, slot, reorders), id, origin, staged)
    ensures disk.now.Get(slot).Some? ==> Without(disk, slot, reorders).now == Directory(disk.now.target, None, None, Prepared(id))
    ensures disk.now.backup == None || engine.Accepts(disk.Read(disk.now.target.value)) ==>
              AllLead([Without(disk, slot, reorders)], engine, disk.now.target, Lasting(disk, engine, disk.now.target, reorders))
  {
  }

  /** The journal goes once the directory is calm and synced. */
  lemma JournalRemovalIsSafe(disk: Disk, id: string, origin: Inode, staged: Inode, engine: Engine, reorders: bool)
    requires Safe(disk, id, origin, staged) && disk.now.target.Some? && disk.now.backup == None
    ensures AllSafe([AfterSync(disk), After(AfterSync(disk), RemoveJournal, reorders), AfterSync(After(AfterSync(disk), RemoveJournal, reorders))],
                    id, origin, staged)
    ensures AllLead([AfterSync(disk), After(AfterSync(disk), RemoveJournal, reorders), AfterSync(After(AfterSync(disk), RemoveJournal, reorders))],
                    engine, disk.now.target, true)
  {
    assert Safe(After(AfterSync(disk), RemoveJournal, reorders), id, origin, staged);
  }

  lemma FinishIsSafe(disk: Disk, id: string, origin: Inode, staged: Inode, engine: Engine, reorders: bool)
    requires Safe(disk, id, origin, staged) && !Hazard(disk, true, reorders)
    requires disk.now.journal == Prepared(id) && disk.now.target.Some?
    ensures AllSafe(FinishStates(disk, reorders), id, origin, staged)
    ensures FinishStates(disk, reorders)[5].now == Directory(disk.now.target, None, None, Missing)
    ensures disk.now.backup == None || engine.Accepts(disk.Read(disk.now.target.value)) ==>
              AllLead(FinishStates(disk, reorders), engine, disk.now.target, Lasting(disk, engine, disk.now.target, reorders))
  {
    RemovalIsSafe(disk, Candidate, id, origin, staged, engine, reorders);
    RemovalIsSafe(disk, Backup, id, origin, staged, engine, reorders);
    var a := Without(disk, Candidate, reorders);
    var b := Without(a, Backup, reorders);
    assert b == a || (a == disk && b == Without(disk, Backup, reorders));
    JournalRemovalIsSafe(b, id, origin, staged, engine, reorders);
    var states := FinishStates(disk, reorders);
    assert states[..3] == [disk, a, b];
    assert states[3..] == [AfterSync(b), After(AfterSync(b), RemoveJournal, reorders), AfterSync(After(AfterSync(b), RemoveJournal, reorders))];
    forall x | x in states
      ensures Safe(x, id, origin, staged)
      ensures disk.now.backup == None || engine.Accepts(disk.Read(disk.now.target.value)) ==>
                Leads(x, engine, disk.now.target) && (Lasting(disk, engine, disk.now.target, reorders) ==> LeadsAll(x, engine, disk.now.target))
    {
      assert x in states[..3] || x in states[3..];
    }
  }

  /** What follows the verdict on an installed snapshot. */
  function VerdictStates(disk: Disk, accepted: bool, reorders: bool): (states: seq<Disk>)
    requires disk.now.backup.Some?
  {
    if accepted then FinishStates(disk, reorders)
    else
      var rollback := RollbackStates(disk, reorders);
      rollback + FinishStates(rollback[4], reorders)
  }

  /** The states of a journaled recovery, given the verdict on the snapshot; a
      failing step ends it early. A combination that no restore leaves has none. */
  function RecoveryStates(disk: Disk, accepted: bool, reorders: bool): (states: seq<Disk>)
    ensures states != []
  {
    match (disk.now.target, disk.now.candidate, disk.now.backup)
    case (Some(_), _, None) => FinishStates(disk, reorders)
    case (Some(_), None, Some(_)) => VerdictStates(disk, accepted, reorders)
    case (None, Some(_), Some(_)) =>
      var moved := MoveStates(disk, Candidate, reorders);
      moved + VerdictStates(moved[2], accepted, reorders)
    case (None, None, Some(_)) =>
      var moved := MoveStates(disk, Backup, reorders);
      moved + FinishStates(moved[2], reorders)
    case _ => [disk]
  }

  function Last(states: seq<Disk>): Disk
    requires states != []
  {
    states[|states| - 1]
  }

  /** The file whose content decides the verdict. */
  function Judged(d: Directory): Inode {
    match d.target
    case Some(file) => file
    case None => d.candidate.GetOr(0)
  }

  lemma VerdictIsSafe(disk: Disk, accepted: bool, id: string, origin: Inode, staged: Inode, engine: Engine, reorders: bool)
    requires Safe(disk, id, origin, staged) && !Hazard(disk, accepted, reorders) && Installed(disk.now, id, origin, staged)
    ensures var states := VerdictStates(disk, accepted, reorders);
            && AllSafe(states, id, origin, staged)
            && Last(states).now == Directory(Some(if accepted then staged else origin), None, None, Missing)
            && (accepted == engine.Accepts(disk.Read(staged)) ==>
                  AllLead(states, engine, Final(disk.now, disk, engine), Lasting(disk, engine, Final(disk.now, disk, engine), reorders)))
  {
    if accepted {
      FinishIsSafe(disk, id, origin, staged, engine, reorders);
    } else {
      RollbackIsSafe(disk, id, origin, staged, engine, reorders);
      var rollback := RollbackStates(disk, reorders);
      assert rollback[4] in rollback;
      FinishIsSafe(rollback[4], id, origin, staged, engine, reorders);
    }
  }

  /** Wherever a journaled recovery stops, a crash leaves a recoverable
      directory; a completed one leaves one of the two files and nothing else. */
  lemma RecoveryIsSafe(disk: Disk, accepted: bool, id: string, origin: Inode, staged: Inode, engine: Engine, reorders: bool)
    requires Safe(disk, id, origin, staged) && !Hazard(disk, accepted, reorders) && disk.now.journal == Prepared(id)
    ensures var states := RecoveryStates(disk, accepted, reorders);
            && AllSafe(states, id, origin, staged)
            && Last(states).now.target in {Some(origin), Some(staged)}
            && Last(states).now == Directory(Last(states).now.target, None, None, Missing)
            && (accepted == engine.Accepts(disk.Read(Judged(disk.now))) ==>
                  AllLead(states, engine, Final(disk.now, disk, engine), Lasting(disk, engine, Final(disk.now, disk, engine), reorders)))
  {
    if disk.now.target.Some? {
      if disk.now.backup.None? {
        FinishIsSafe(disk, id, origin, staged, engine, reorders);
      } else {
        VerdictIsSafe(disk, accepted, id, origin, staged, engine, reorders);
      }
    } else {
      var source := if disk.now.candidate.Some? then Candidate else Backup;
      MoveIsSafe(disk, source, id, origin, staged, engine, reorders);
      var moved := MoveStates(disk, source, reorders);
      assert moved[2] in moved;
      if source == Candidate {
        VerdictIsSafe(moved[2], accepted, id, origin, staged, engine, reorders);
      } else {
        FinishIsSafe(moved[2], id, origin, staged, engine, reorders);
      }
    }
  }

  lemma FinishKeepsFile(disk: Disk, id: string, origin: Inode, file: Inode, reorders: bool)
    requires Kept(disk, id, origin, file)
    ensures forall x | x in FinishStates(disk, reorders) :: Kept(x, id, origin, file)
  {
    var a := Without(disk, Candidate, reorders);
    assert Kept(a, id, origin, file);
    var b := Without(a, Backup, reorders);
    assert Kept(b, id, origin, file);
    assert Kept(After(AfterSync(b), RemoveJournal, reorders), id, origin, file);
  }

  /** A file that recovery accepts, or that stands alone, is kept at every step. */
  lemma RecoveryKeepsFile(disk: Disk, accepted: bool, id: string, origin: Inode, file: Inode, reorders: bool)
    requires Kept(disk, id, origin, file) && (accepted || disk.now.backup == None)
    ensures forall x | x in RecoveryStates(disk, accepted, reorders) :: Kept(x, id, origin, file)
  {
    FinishKeepsFile(disk, id, origin, file, reorders);
  }

  /** A live file that startup keeps stays whatever the verdict is, exactly if no
      former file is left beside it. */
  lemma KeptWhateverTheVerdict(disk: Disk, id: string, origin: Inode, file: Inode, engine: Engine, reorders: bool)
    requires Safe(disk, id, origin, file) && Kept(disk, id, origin, file) && disk.now.journal == Prepared(id) && origin != file
    requires !Hazard(disk, true, reorders) && !Hazard(disk, false, reorders)
    ensures (forall accepted :: Last(RecoveryStates(disk, accepted, reorders)).now.target == Some(file)) <==> disk.now.backup == None
  {
    if disk.now.backup == None {
      FinishIsSafe(disk, id, origin, file, engine, reorders);
    } else {
      VerdictIsSafe(disk, false, id, origin, file, engine, reorders);
      assert Last(RecoveryStates(disk, false, reorders)).now.target == Some(origin);
    }
  }

  ghost predicate SameContents(states: seq<Disk>, disk: Disk) {
    forall x | x in states :: x.store == disk.store
  }

  lemma RollbackKeepsContents(disk: Disk, reorders: bool)
    requires disk.now.backup.Some?
    ensures SameContents(RollbackStates(disk, reorders), disk)
  {
  }

  lemma FinishKeepsContents(disk: Disk, reorders: bool)
    ensures SameContents(FinishStates(disk, reorders), disk)
  {
  }

  lemma VerdictKeepsContents(disk: Disk, accepted: bool, reorders: bool)
    requires disk.now.backup.Some?
    ensures SameContents(VerdictStates(disk, accepted, reorders), disk)
  {
    FinishKeepsContents(disk, reorders);
    RollbackKeepsContents(disk, reorders);
    FinishKeepsContents(RollbackStates(disk, reorders)[4], reorders);
  }

  /** Recovery changes names only, never the bytes of a file. */
  lemma RecoveryKeepsContents(disk: Disk, accepted: bool, reorders: bool)
    ensures SameContents(RecoveryStates(disk, accepted, reorders), disk)
  {
    if disk.now.target.Some? {
      FinishKeepsContents(disk, reorders);
      if disk.now.backup.Some? {
        VerdictKeepsContents(disk, accepted, reorders);
      }
    } else if disk.now.backup.Some? {
      if disk.now.candidate.Some? {
        VerdictKeepsContents(MoveStates(disk, Candidate, reorders)[2], accepted, reorders);
      } else {
        FinishKeepsContents(MoveStates(disk, Backup, reorders)[2], reorders);
      }
    }
  }

  /** Stopping a recovery of `start` in state `x` does no harm: it is safe, with
      the same contents, and keeps a live file that stands alone. If the verdict on
      the snapshot is `right`, it leads where `start` does, and it keeps a live file
      that the engine accepts. */
  ghost predicate Harmless(x: Disk, start: Disk, id: string, origin: Inode, staged: Inode, engine: Engine, reorders: bool, right: bool) {
    && Sound(x, start, id, origin, staged)
    && (right ==> Faithful(x, start, engine, reorders))
    && (forall f: Inode | Kept(start, id, origin, f) && (start.now.backup == None || (right && engine.Accepts(start.Read(f)))) ::
          Kept(x, id, origin, f))
  }

  lemma RecoveryIsHarmless(disk: Disk, accepted: bool, id: string, origin: Inode, staged: Inode, engine: Engine, reorders: bool, right: bool)
    requires Covered(disk, id, origin, staged, reorders) && disk.now.journal == Prepared(id)
    requires right ==> accepted == engine.Accepts(disk.Read(Judged(disk.now)))
    ensures forall x | x in RecoveryStates(disk, accepted, reorders) :: Harmless(x, disk, id, origin, staged, engine, reorders, right)
  {
    RecoveryKeepsContents(disk, accepted, reorders);
    RecoveryIsSafe(disk, accepted, id, origin, staged, engine, reorders);
    forall f: Inode | Kept(disk, id, origin, f) && (disk.now.backup == None || (right && engine.Accepts(disk.Read(f))))
      ensures forall x | x in RecoveryStates(disk, accepted, reorders) :: Kept(x, id, origin, f)
    {
      RecoveryKeepsFile(disk, accepted, id, origin, f, reorders);
    }
  }

  /** A recovery of an installed snapshot that runs to its end leaves the same
      disk, whatever was unsynced when it began. */
  lemma EndForgetsUnsynced(disk: Disk, accepted: bool, reorders: bool)
    requires disk.now.target.Some? && disk.now.candidate == None && disk.now.backup.Some?
    ensures Last(RecoveryStates(disk, accepted, reorders)) == Last(RecoveryStates(AfterSync(disk), accepted, reorders))
  {
  }
}
