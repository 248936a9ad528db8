/** One authenticated connection: selection by stable ID, the transaction queue
    and the chunked snapshot upload. What the connection holds is related to the
    answers it has given, read from the log of exchanges alone. */
module Connection {
  import opened Core
  import Base64

  const SNAPSHOT_CHUNK_BYTES: nat := 256 * 1024

  datatype Role = QueryRole | AdminRole

  datatype Statement = Statement(query: string, parameters: string, readOnly: bool)

  datatype Request =
    | Hello
    | Ping
    | SelectDatabase(name: string)
    | Query(statement: Statement, stream: bool, limited: bool)
    | Begin
    | Commit
    | Rollback
    | Cancel(target: nat)
    | DatabaseCreate(name: string)
    | DatabaseList
    | DatabaseInspect(name: string)
    | DatabaseRename(name: string, newName: string)
    | DatabaseDrop(name: string, confirmName: string)
    | SnapshotExport(name: string)
    | RestoreBegin(name: string, totalBytes: nat)
    | RestoreChunk(sequence: nat, data: string)
    | RestoreCommit
    | RestoreAbort
    | LogicalExport(name: string)
    | LogicalImport(name: string)

  datatype Code =
    | ProtocolViolation | PermissionDenied | DatabaseNotSelected | DatabaseNotFound | ResourceLimit
    | TransactionAlreadyActive | NoTransaction | QueryError | RequestTooLarge | DaemonFailure

  /** The answer a request gets at once; `Working` ones are answered by a task. */
  datatype Answer =
    | Failed(code: Code)
    | Pong
    | Selected(id: string)
    | Queued(statements: nat)
    | Begun
    | RolledBack
    | Cancelled(target: nat)
    | UploadReady
    | ChunkAccepted(bytes: nat)
    | Restored(bytes: nat)
    | Aborted(bytes: nat)
    | Dropped(id: string)
    | Administered
    | Working

  /** What a request makes the daemon do. */
  datatype Work =
    | Nothing
    | Execute(id: string, statement: Statement)
    | ExecuteBatch(id: string, statements: seq<Statement>)
    | Install(name: string, bytes: Content)
    | Administer(request: Request)

  /** How the daemon responds while a request is dispatched: the catalog's names,
      and whether administration and installation succeed. */
  datatype World = World(ids: map<string, string>, succeeds: bool)

  /** A request as it arrives. */
  datatype Frame = Frame(id: nat, request: Request, world: World)

  /** One dispatched request, with the requests that were running then. */
  datatype Exchange = Exchange(frame: Frame, running: set<nat>, answer: Answer, work: Work)

  /** What reaches the read loop: a frame, or the end of a running request. */
  datatype Input = Incoming(frame: Frame) | Ended(id: nat)

  /** What is fixed for a connection: the role of its credential, the configured
      limits, and which queries the engine classifies as writes. */
  datatype Terms = Terms(role: Role, maxStatements: nat, maxSnapshotBytes: nat, writes: string -> bool)

  datatype Upload = Upload(name: string, totalBytes: nat, nextSequence: nat, bytes: Content)

  predicate IsAdminRequest(r: Request) {
    r.DatabaseCreate? || r.DatabaseList? || r.DatabaseInspect? || r.DatabaseRename? || r.DatabaseDrop? ||
    r.SnapshotExport? || r.RestoreBegin? || r.RestoreChunk? || r.RestoreCommit? || r.RestoreAbort? ||
    r.LogicalExport? || r.LogicalImport?
  }

  predicate ChangesDatabaseContext(r: Request) {
    r.SelectDatabase? || r.DatabaseRename? || r.DatabaseDrop? || r.RestoreBegin? || r.RestoreChunk? ||
    r.RestoreCommit? || r.LogicalImport?
  }

  /** The requests that read or change nothing of the connection's own. */
  predicate LeavesState(r: Request) {
    r.Hello? || r.Ping? || r.Cancel? || r.DatabaseCreate? || r.DatabaseList? || r.DatabaseInspect? || r.DatabaseRename? ||
    r.SnapshotExport? || r.LogicalExport? || r.LogicalImport?
  }

  // ---- what the log of exchanges says ----

  function Front(log: seq<Exchange>): seq<Exchange>
    requires log != []
  {
    log[..|log| - 1]
  }

  function Final(log: seq<Exchange>): Exchange
    requires log != []
  {
    log[|log| - 1]
  }

  /** The Database last announced as selected, unless it was dropped here since. */
  function Selection(log: seq<Exchange>): Option<string> {
    if log == [] then None
    else
      match Final(log).answer
      case Selected(id) => Some(id)
      case Dropped(id) => if Selection(Front(log)) == Some(id) then None else Selection(Front(log))
      case _ => Selection(Front(log))
  }

  datatype Transaction = Transaction(id: string, statements: seq<Statement>)

  /** The transaction that the client has been told is open: the selection when
      it was begun, and the statements answered `queued` since. */
  function Open(log: seq<Exchange>): Option<Transaction> {
    if log == [] then None
    else
      var before, e := Open(Front(log)), Final(log);
      if e.answer.Begun? then
        (if Selection(Front(log)).Some? then Some(Transaction(Selection(Front(log)).value, [])) else None)
      else if e.answer.Queued? && e.frame.request.Query? && before.Some? then
        Some(before.value.(statements := before.value.statements + [e.frame.request.statement]))
      else if e.frame.request.Commit? || e.frame.request.Rollback? then None
      else before
  }

  datatype Sending = Sending(name: string, totalBytes: nat, chunks: seq<Content>)

  /** The upload that the client has been told is under way, and the chunks that
      were accepted for it. */
  function Uploading(log: seq<Exchange>): Option<Sending> {
    if log == [] then None
    else
      var before, e := Uploading(Front(log)), Final(log);
      if e.answer.Aborted? || e.work.Install? then None
      else if e.answer.UploadReady? && e.frame.request.RestoreBegin? then Some(Sending(e.frame.request.name, e.frame.request.totalBytes, []))
      else if e.answer.ChunkAccepted? && e.frame.request.RestoreChunk? && before.Some? && Base64.Decode(e.frame.request.data).Some? then
        Some(before.value.(chunks := before.value.chunks + [Base64.Decode(e.frame.request.data).value]))
      else before
  }

  function Concat(chunks: seq<Content>): Content {
    if chunks == [] then [] else Concat(chunks[..|chunks| - 1]) + chunks[|chunks| - 1]
  }

  class Session {
    const terms: Terms

    var selected: Option<string>
    var transaction: Option<seq<Statement>>
    var upload: Option<Upload>
    var lastRequestId: nat
    /** The registry of running requests (`active`). */
    var active: set<nat>
    ghost var log: seq<Exchange>
    /** The running requests that have ended. */
    ghost var ended: set<nat>

    /** After the greeting nothing is selected, queued or uploaded. */
    constructor (terms: Terms, helloId: nat)
      ensures this.terms == terms && lastRequestId == helloId && log == []
      ensures Faithful() && Registered() && Lawful(log, terms)
    {
      this.terms := terms;
      selected, transaction, upload := None, None, None;
      lastRequestId, active := helloId, {};
      log, ended := [], {};
    }

    /** The connection's state is what its answers have told the client. */
    ghost predicate Faithful()
      reads this`selected, this`transaction, this`upload, this`log
    {
      && selected == Selection(log)
      && (transaction.None? <==> Open(log).None?)
      && (transaction.Some? ==>
            && Open(log) == Some(Transaction(selected.GetOr(""), transaction.value))
            && selected.Some? && |transaction.value| <= terms.maxStatements)
      && (upload.None? <==> Uploading(log).None?)
      && (upload.Some? ==> Mirrors(upload.value, Uploading(log).value))
    }

    /** The registry holds exactly the requests that were handed to a worker and
        have not ended. */
    ghost predicate Registered()
      reads this`active, this`ended, this`log, this`lastRequestId
    {
      Registry(active, ended, log, lastRequestId)
    }

    /** The buffer is the accepted chunks, within both size limits. */
    predicate Mirrors(u: Upload, s: Sending) {
      && u.name == s.name && u.totalBytes == s.totalBytes
      && u.nextSequence == |s.chunks| && u.bytes == Concat(s.chunks)
      && |u.bytes| <= u.totalBytes && 1 <= u.totalBytes <= terms.maxSnapshotBytes
    }

    /** This exchange is the latest entry of the log. */
    twostate predicate Logged(f: Frame, answer: Answer, work: Work)
      reads this
    {
      log == old(log) + [Exchange(f, active, answer, work)]
    }

    ghost method Record(f: Frame, answer: Answer, work: Work)
      modifies this`log
      ensures Logged(f, answer, work)
      ensures Front(log) == old(log) && Final(log) == Exchange(f, active, answer, work)
    {
      log := log + [Exchange(f, active, answer, work)];
    }

    method HandleQuery(f: Frame) returns (answer: Answer, work: Work)
      requires f.request.Query?
      modifies this`transaction, this`log
      ensures Logged(f, answer, work)
      ensures old(Faithful()) ==> Faithful()
      ensures old(Faithful()) && !Barred(old(log), f.request, terms) ==> Justified(old(log), Exchange(f, active, answer, work), terms)
    {
      answer, work := Working, Nothing;
      if selected.None? {
        answer := Failed(DatabaseNotSelected);
      } else if transaction.Some? {
        if f.request.stream || f.request.limited {
          answer := Failed(ProtocolViolation);
        } else if |transaction.value| >= terms.maxStatements {
          answer := Failed(ResourceLimit);
        } else {
          transaction := Some(transaction.value + [f.request.statement]);
          answer := Queued(|transaction.value|);
        }
      } else {
        work := Execute(selected.value, f.request.statement);
      }
      Record(f, answer, work);
    }

    method HandleBegin(f: Frame) returns (answer: Answer)
      requires f.request.Begin?
      modifies this`transaction, this`log
      ensures Logged(f, answer, Nothing)
      ensures old(Faithful()) ==> Faithful()
      ensures old(Faithful()) && !Barred(old(log), f.request, terms) ==> Justified(old(log), Exchange(f, active, answer, Nothing), terms)
    {
      if transaction.Some? {
        answer := Failed(TransactionAlreadyActive);
      } else if selected.None? {
        answer := Failed(DatabaseNotSelected);
      } else {
        transaction := Some([]);
        answer := Begun;
      }
      Record(f, answer, Nothing);
    }

    method HandleCommit(f: Frame) returns (answer: Answer, work: Work)
      requires f.request.Commit?
      modifies this`transaction, this`log
      ensures Logged(f, answer, work)
      ensures old(Faithful()) ==> Faithful()
      ensures old(Faithful()) && !Barred(old(log), f.request, terms) ==> Justified(old(log), Exchange(f, active, answer, work), terms)
    {
      var statements := transaction;
      transaction := None;
      work := Nothing;
      if statements.None? {
        answer := Failed(NoTransaction);
      } else if selected.None? {
        answer := Failed(DatabaseNotSelected);
      } else if exists s | s in statements.value :: s.readOnly && terms.writes(s.query) {
        answer := Failed(QueryError);
      } else {
        answer, work := Working, ExecuteBatch(selected.value, statements.value);
      }
      Record(f, answer, work);
    }

    method HandleRollback(f: Frame) returns (answer: Answer)
      requires f.request.Rollback?
      modifies this`transaction, this`log
      ensures Logged(f, answer, Nothing)
      ensures old(Faithful()) ==> Faithful()
      ensures old(Faithful()) && !Barred(old(log), f.request, terms) ==> Justified(old(log), Exchange(f, active, answer, Nothing), terms)
    {
      answer := if transaction.Some? then RolledBack else Failed(NoTransaction);
      transaction := None;
      Record(f, answer, Nothing);
    }

    method HandleSelect(f: Frame) returns (answer: Answer)
      requires f.request.SelectDatabase?
      requires transaction.None?
      modifies this`selected, this`log
      ensures Logged(f, answer, Nothing)
      ensures old(Faithful()) ==> Faithful()
      ensures f.request.name in f.world.ids ==> answer == Selected(f.world.ids[f.request.name])
      ensures f.request.name !in f.world.ids ==> answer == Failed(DatabaseNotFound) && selected == old(selected)
      ensures old(Faithful()) && !Barred(old(log), f.request, terms) ==> Justified(old(log), Exchange(f, active, answer, Nothing), terms)
    {
      if f.request.name in f.world.ids {
        selected := Some(f.world.ids[f.request.name]);
        answer := Selected(f.world.ids[f.request.name]);
      } else {
        answer := Failed(DatabaseNotFound);
      }
      Record(f, answer, Nothing);
    }

    /** A drop on this connection clears its own selection of the dropped Database. */
    method HandleDrop(f: Frame) returns (answer: Answer, work: Work)
      requires f.request.DatabaseDrop? && transaction.None?
      modifies this`selected, this`transaction, this`log
      ensures Logged(f, answer, work) && work == Administer(f.request) && transaction.None?
      ensures old(Faithful()) ==> Faithful()
      ensures answer.Dropped? || answer == Failed(DaemonFailure)
      ensures answer.Dropped? ==> selected != Some(answer.id)
      ensures selected in {old(selected), None}
      ensures old(Faithful()) && !Barred(old(log), f.request, terms) ==> Justified(old(log), Exchange(f, active, answer, work), terms)
    {
      work := Administer(f.request);
      if f.request.name in f.world.ids && f.world.succeeds {
        answer := Dropped(f.world.ids[f.request.name]);
        if selected == Some(answer.id) {
          selected, transaction := None, None;
        }
      } else {
        answer := Failed(DaemonFailure);
      }
      Record(f, answer, work);
    }

    method HandleRestoreBegin(f: Frame) returns (answer: Answer)
      requires f.request.RestoreBegin?
      modifies this`upload, this`log
      ensures Logged(f, answer, Nothing)
      ensures old(Faithful()) ==> Faithful()
      ensures answer == UploadReady <==> old(upload).None? && 1 <= f.request.totalBytes <= terms.maxSnapshotBytes && f.request.name in f.world.ids
      ensures upload == if answer == UploadReady then Some(Upload(f.request.name, f.request.totalBytes, 0, [])) else old(upload)
      ensures old(Faithful()) && !Barred(old(log), f.request, terms) ==> Justified(old(log), Exchange(f, active, answer, Nothing), terms)
    {
      if upload.Some? {
        answer := Failed(ProtocolViolation);
      } else if f.request.totalBytes == 0 || f.request.totalBytes > terms.maxSnapshotBytes {
        answer := Failed(RequestTooLarge);
      } else if f.request.name !in f.world.ids {
        answer := Failed(DatabaseNotFound);
      } else {
        upload := Some(Upload(f.request.name, f.request.totalBytes, 0, []));
        answer := UploadReady;
      }
      Record(f, answer, Nothing);
    }

    method HandleRestoreChunk(f: Frame) returns (answer: Answer)
      requires f.request.RestoreChunk?
      modifies this`upload, this`log
      ensures Logged(f, answer, Nothing)
      ensures old(Faithful()) ==> Faithful()
      ensures !answer.ChunkAccepted? ==> upload == old(upload)
      ensures answer.ChunkAccepted? <==> old(upload).Some? && Acceptable(old(upload).value, f.request)
      ensures answer.ChunkAccepted? ==> upload == Some(Extended(old(upload).value, Base64.Decode(f.request.data).value))
      ensures old(Faithful()) && !Barred(old(log), f.request, terms) ==> Justified(old(log), Exchange(f, active, answer, Nothing), terms)
    {
      if upload.None? {
        answer := Failed(ProtocolViolation);
      } else {
        var u, chunk := upload.value, Base64.Decode(f.request.data);
        if f.request.sequence != u.nextSequence || chunk.None? {
          answer := Failed(ProtocolViolation);
        } else if |chunk.value| == 0 || |chunk.value| > SNAPSHOT_CHUNK_BYTES {
          answer := Failed(RequestTooLarge);
        } else if |u.bytes| + |chunk.value| > u.totalBytes {
          answer := Failed(RequestTooLarge);
        } else {
          upload := Some(Extended(u, chunk.value));
          answer := ChunkAccepted(|upload.value.bytes|);
        }
      }
      Record(f, answer, Nothing);
      ghost var s := Uploading(old(log));
      if old(Faithful()) && answer.ChunkAccepted? {
        assert (s.value.chunks + [Base64.Decode(f.request.data).value])[..|s.value.chunks|] == s.value.chunks;
      }
    }

    /** The daemon installs exactly the declared number of bytes, or nothing. */
    method HandleRestoreCommit(f: Frame) returns (answer: Answer, work: Work)
      requires f.request.RestoreCommit?
      modifies this`upload, this`log
      ensures Logged(f, answer, work)
      ensures old(Faithful()) ==> Faithful()
      ensures work == Nothing <==> old(upload).None? || |old(upload).value.bytes| != old(upload).value.totalBytes
      ensures work != Nothing ==> work == Install(old(upload).value.name, old(upload).value.bytes)
      ensures upload == if work == Nothing then old(upload) else None
      ensures old(Faithful()) && !Barred(old(log), f.request, terms) ==> Justified(old(log), Exchange(f, active, answer, work), terms)
    {
      work := Nothing;
      if upload.None? || |upload.value.bytes| != upload.value.totalBytes {
        answer := Failed(ProtocolViolation);
      } else {
        work := Install(upload.value.name, upload.value.bytes);
        answer := if f.world.succeeds then Restored(|upload.value.bytes|) else Failed(DaemonFailure);
        upload := None;
      }
      Record(f, answer, work);
    }

    method HandleRestoreAbort(f: Frame) returns (answer: Answer)
      requires f.request.RestoreAbort?
      modifies this`upload, this`log
      ensures Logged(f, answer, Nothing) && upload == None
      ensures old(Faithful()) ==> Faithful()
      ensures old(Faithful()) && !Barred(old(log), f.request, terms) ==> Justified(old(log), Exchange(f, active, answer, Nothing), terms)
    {
      answer := Aborted(if upload.Some? then |upload.value.bytes| else 0);
      upload := None;
      Record(f, answer, Nothing);
    }

    /** Requests that leave the connection's state as it is. */
    method HandleOther(f: Frame) returns (answer: Answer, work: Work)
      requires LeavesState(f.request)
      modifies this`log
      ensures Logged(f, answer, work)
      ensures old(Faithful()) ==> Faithful()
      ensures answer == Pong <==> f.request.Ping?
      ensures answer.Cancelled? <==> f.request.Cancel? && f.request.target in active
      ensures work == if IsAdminRequest(f.request) then Administer(f.request) else Nothing
      ensures old(Faithful()) && !Barred(old(log), f.request, terms) ==> Justified(old(log), Exchange(f, active, answer, work), terms)
    {
      work := Nothing;
      if f.request.Ping? {
        answer := Pong;
      } else if f.request.Cancel? {
        answer := if f.request.target in active then Cancelled(f.request.target) else Failed(ProtocolViolation);
      } else if f.request.SnapshotExport? {
        answer, work := Working, Administer(f.request);
      } else if IsAdminRequest(f.request) {
        answer, work := if f.world.succeeds then Administered else Failed(DaemonFailure), Administer(f.request);
      } else {
        answer := Failed(ProtocolViolation);
      }
      Record(f, answer, work);
    }

    method Refuse(f: Frame, code: Code) returns (answer: Answer)
      requires IsAdminRequest(f.request) || ChangesDatabaseContext(f.request)
      modifies this`log
      ensures answer == Failed(code) && Logged(f, answer, Nothing)
      ensures old(Faithful()) ==> Faithful()
    {
      answer := Failed(code);
      Record(f, answer, Nothing);
    }

    method Dispatch(f: Frame) returns (answer: Answer, work: Work)
      modifies this`selected, this`transaction, this`upload, this`log
      ensures Logged(f, answer, work)
      ensures old(Faithful()) ==> Faithful() && Justified(old(log), Exchange(f, active, answer, work), terms)
    {
      work := Nothing;
      if terms.role != AdminRole && IsAdminRequest(f.request) {
        answer := Refuse(f, PermissionDenied);
        return;
      }
      if transaction.Some? && ChangesDatabaseContext(f.request) {
        answer := Refuse(f, ProtocolViolation);
        return;
      }
      answer, work := Route(f);
    }

    method Route(f: Frame) returns (answer: Answer, work: Work)
      requires transaction.Some? ==> !ChangesDatabaseContext(f.request)
      modifies this`selected, this`transaction, this`upload, this`log
      ensures Logged(f, answer, work)
      ensures old(Faithful()) ==> Faithful()
      ensures old(Faithful()) && !Barred(old(log), f.request, terms) ==> Justified(old(log), Exchange(f, active, answer, work), terms)
    {
      work := Nothing;
      match f.request
      case SelectDatabase(_) => answer := HandleSelect(f);
      case Query(_, _, _) => answer, work := HandleQuery(f);
      case Begin => answer := HandleBegin(f);
      case Commit => answer, work := HandleCommit(f);
      case Rollback => answer := HandleRollback(f);
      case DatabaseDrop(_, _) => answer, work := HandleDrop(f);
      case RestoreBegin(_, _) => answer := HandleRestoreBegin(f);
      case RestoreChunk(_, _) => answer := HandleRestoreChunk(f);
      case RestoreCommit => answer, work := HandleRestoreCommit(f);
      case RestoreAbort => answer := HandleRestoreAbort(f);
      case _ => answer, work := HandleOther(f);
    }

    method DispatchLawfully(f: Frame) returns (work: Work)
      requires Faithful() && Lawful(log, terms)
      modifies this`selected, this`transaction, this`upload, this`log
      ensures Faithful() && Lawful(log, terms)
      ensures log != [] && log == old(log) + [Final(log)] && Final(log).frame == f && Final(log).work == work
    {
      var answer;
      answer, work := Dispatch(f);
      assert Front(log) == old(log) && Final(log) == Exchange(f, active, answer, work);
    }

    /** Dispatches one accepted frame; a request that is handed to a worker enters
        the registry, in which its identifier cannot be yet (`insert_active`). */
    method Accept(f: Frame) returns (work: Work)
      requires Faithful() && Registered() && Lawful(log, terms) && lastRequestId < f.id
      modifies this
      ensures Faithful() && Registered() && Lawful(log, terms) && lastRequestId == f.id
      ensures |log| == |old(log)| + 1 && old(log) <= log && Final(log).frame == f && Final(log).work == work
      ensures Worker(Final(log).work) ==> f.id !in old(active)
      ensures active == if Worker(Final(log).work) then old(active) + {f.id} else old(active)
    {
      lastRequestId := f.id;
      work := DispatchLawfully(f);
      RegistryGrows(old(active), ended, old(log), Final(log), old(lastRequestId));
      if Worker(work) {
        active := active + {f.id};
      }
    }

    /** A running request ends (`remove_active`). */
    method End(id: nat)
      requires Registered()
      modifies this`active, this`ended
      ensures Registered() && active == old(active) - {id}
    {
      if id in active {
        ended := ended + {id};
      }
      active := active - {id};
    }

    /** The connection's read loop: the frames whose identifiers increase are
        dispatched in order, and only those reach the state. */
    method Serve(inputs: seq<Input>)
      requires Faithful() && Registered() && Lawful(log, terms)
      modifies this
      ensures Faithful() && Registered() && Lawful(log, terms)
      ensures Follow(log, old(log), Taken(inputs, old(lastRequestId)))
      ensures lastRequestId == Highest(Taken(inputs, old(lastRequestId)), old(lastRequestId))
    {
      for k := 0 to |inputs|
        invariant Faithful() && Registered() && Lawful(log, terms)
        invariant Follow(log, old(log), Taken(inputs[..k], old(lastRequestId)))
        invariant lastRequestId == Highest(Taken(inputs[..k], old(lastRequestId)), old(lastRequestId))
      {
        assert inputs[..k + 1][..k] == inputs[..k];
        ghost var before := log;
        Receive(inputs[k]);
        FollowGrows(log, before, old(log), Taken(inputs[..k], old(lastRequestId)));
      }
      assert inputs[..|inputs|] == inputs;
    }

    method Receive(input: Input)
      requires Faithful() && Registered() && Lawful(log, terms)
      modifies this
      ensures Faithful() && Registered() && Lawful(log, terms)
      ensures if input.Incoming? && input.frame.id > old(lastRequestId)
              then lastRequestId == input.frame.id && Follow(log, old(log), [input.frame])
              else lastRequestId == old(lastRequestId) && log == old(log)
    {
      match input
      case Ended(id) => End(id);
      case Incoming(f) =>
        if f.id > lastRequestId {
          var work := Accept(f);
        }
    }
  }

  predicate Worker(work: Work) {
    work.Execute? || work.ExecuteBatch?
  }

  /** The requests that were handed to a worker. */
  function Workers(log: seq<Exchange>): set<nat> {
    set e | e in log && Worker(e.work) :: e.frame.id
  }

  /** `active` are the workers' requests that have not ended; no identifier is
      beyond `last`. */
  ghost predicate Registry(active: set<nat>, ended: set<nat>, log: seq<Exchange>, last: nat) {
    && active == Workers(log) - ended && ended <= Workers(log)
    && forall e | e in log :: e.frame.id <= last
  }

  lemma RegistryGrows(active: set<nat>, ended: set<nat>, log: seq<Exchange>, e: Exchange, last: nat)
    requires Registry(active, ended, log, last) && last < e.frame.id
    ensures e.frame.id !in active
    ensures Registry(if Worker(e.work) then active + {e.frame.id} else active, ended, log + [e], e.frame.id)
  {
    var longer := log + [e];
    assert forall x :: x in longer <==> x in log || x == e;
    assert Workers(longer) == Workers(log) + if Worker(e.work) then {e.frame.id} else {};
  }

  function Highest(taken: seq<Frame>, last: nat): nat {
    if taken == [] then last else taken[|taken| - 1].id
  }

  /** The frames whose identifiers exceed those of all frames taken before. */
  function Taken(inputs: seq<Input>, last: nat): seq<Frame> {
    if inputs == [] then []
    else
      var before, input := Taken(inputs[..|inputs| - 1], last), inputs[|inputs| - 1];
      if input.Incoming? && input.frame.id > Highest(before, last) then before + [input.frame] else before
  }

  predicate Increasing(taken: seq<Frame>, last: nat) {
    forall i | 0 <= i < |taken| :: Highest(taken[..i], last) < taken[i].id
  }

  /** The identifiers of the frames that are taken increase strictly. */
  lemma {:induction false} TakenIncrease(inputs: seq<Input>, last: nat)
    ensures Increasing(Taken(inputs, last), last)
  {
    if inputs != [] {
      var before, taken := Taken(inputs[..|inputs| - 1], last), Taken(inputs, last);
      TakenIncrease(inputs[..|inputs| - 1], last);
      if taken != before {
        assert taken[..|before|] == before;
        assert forall i | 0 <= i < |before| :: taken[..i] == before[..i];
      }
    }
  }

  /** The log grew by exactly one exchange for each of these frames, in order. */
  ghost predicate Follow(log: seq<Exchange>, before: seq<Exchange>, taken: seq<Frame>) {
    && |log| == |before| + |taken| && before <= log
    && forall k | 0 <= k < |taken| :: log[|before| + k].frame == taken[k]
  }

  /** Every exchange of this log is justified by those before it. */
  ghost predicate Lawful(log: seq<Exchange>, terms: Terms) {
    log == [] || (Lawful(Front(log), terms) && Justified(Front(log), Final(log), terms))
  }

  lemma FollowGrows(log: seq<Exchange>, middle: seq<Exchange>, before: seq<Exchange>, taken: seq<Frame>)
    requires Follow(middle, before, taken)
    ensures log == middle ==> Follow(log, before, taken)
    ensures forall f | Follow(log, middle, [f]) :: Follow(log, before, taken + [f])
  {
  }

  /** A query runs at once on the selected Database, or joins the open
      transaction, or is refused; `log` decides which. */
  predicate QueryAnswered(log: seq<Exchange>, e: Exchange, terms: Terms)
    requires e.frame.request.Query?
  {
    if Selection(log).None? then e.answer == Failed(DatabaseNotSelected) && e.work == Nothing
    else if Open(log).None? then e.answer == Working && e.work == Execute(Selection(log).value, e.frame.request.statement)
    else
      && e.work == Nothing
      && e.answer ==
         if e.frame.request.stream || e.frame.request.limited then Failed(ProtocolViolation)
         else if |Open(log).value.statements| >= terms.maxStatements then Failed(ResourceLimit)
         else Queued(|Open(log).value.statements| + 1)
  }

  /** A commit runs exactly the statements queued since the matching begin, on
      the Database selected then, unless one of them breaks its read-only mark. */
  predicate CommitAnswered(log: seq<Exchange>, e: Exchange, terms: Terms) {
    if Open(log).None? then e.answer == Failed(NoTransaction) && e.work == Nothing
    else if exists s | s in Open(log).value.statements :: s.readOnly && terms.writes(s.query) then
      e.answer == Failed(QueryError) && e.work == Nothing
    else e.answer == Working && e.work == ExecuteBatch(Open(log).value.id, Open(log).value.statements)
  }

  /** The upload is complete: the accepted chunks have the declared size. */
  predicate Uploaded(log: seq<Exchange>) {
    Uploading(log).Some? && |Concat(Uploading(log).value.chunks)| == Uploading(log).value.totalBytes
  }

  /** An upload starts with none under way, within the size limit and for a known
      name; a chunk is accepted in turn and within all bounds. */
  predicate UploadAnswered(log: seq<Exchange>, e: Exchange, terms: Terms)
    requires e.frame.request.RestoreBegin? || e.frame.request.RestoreChunk?
  {
    match e.frame.request
    case RestoreBegin(name, totalBytes) =>
      e.answer.UploadReady? <==> Uploading(log).None? && 1 <= totalBytes <= terms.maxSnapshotBytes && name in e.frame.world.ids
    case RestoreChunk(sequence, data) =>
      var u, chunk := Uploading(log), Base64.Decode(data);
      e.answer.ChunkAccepted? <==>
        && u.Some? && sequence == |u.value.chunks| && chunk.Some? && 1 <= |chunk.value| <= SNAPSHOT_CHUNK_BYTES
        && |Concat(u.value.chunks)| + |chunk.value| <= u.value.totalBytes
    case _ => true
  }

  /** A name is resolved when it is selected; a cancel reaches a running request. */
  predicate SelectAnswered(e: Exchange)
    requires e.frame.request.SelectDatabase? || e.frame.request.Cancel?
  {
    match e.frame.request
    case SelectDatabase(name) =>
      e.answer == if name in e.frame.world.ids then Selected(e.frame.world.ids[name]) else Failed(DatabaseNotFound)
    case Cancel(target) => e.answer == if target in e.running then Cancelled(target) else Failed(ProtocolViolation)
    case _ => true
  }

  /** Whether a request is refused before anything else is looked at. */
  predicate Barred(log: seq<Exchange>, request: Request, terms: Terms) {
    (terms.role != AdminRole && IsAdminRequest(request)) || (Open(log).Some? && ChangesDatabaseContext(request))
  }

  /** The exchange is the one that the earlier answers allow. Administration is
      for administrators, context changes are refused within a transaction, and
      an installation takes exactly the accepted chunks. */
  predicate Justified(log: seq<Exchange>, e: Exchange, terms: Terms) {
    && (terms.role != AdminRole && IsAdminRequest(e.frame.request) <==> e.answer == Failed(PermissionDenied))
    && (Barred(log, e.frame.request, terms) ==> e.answer.Failed? && e.work == Nothing)
    && (e.frame.request.Query? ==> QueryAnswered(log, e, terms))
    && (e.frame.request.Commit? ==> CommitAnswered(log, e, terms))
    && (e.answer.Selected? ==> e.frame.request.SelectDatabase?) && (e.answer.UploadReady? ==> e.frame.request.RestoreBegin?)
    && (e.frame.request.Cancel? || (e.frame.request.SelectDatabase? && !Barred(log, e.frame.request, terms)) ==> SelectAnswered(e))
    && ((e.frame.request.RestoreBegin? || e.frame.request.RestoreChunk?) && !Barred(log, e.frame.request, terms) ==> UploadAnswered(log, e, terms))
    && (e.answer.Begun? <==> e.frame.request.Begin? && Selection(log).Some? && Open(log).None?)
    && (e.answer.RolledBack? <==> e.frame.request.Rollback? && Open(log).Some?)
    && (e.work.Execute? ==> e.frame.request.Query?) && (e.work.ExecuteBatch? ==> e.frame.request.Commit?)
    && (e.work.Administer? ==> IsAdminRequest(e.frame.request) && e.work.request == e.frame.request)
    && (e.work.Install? <==> e.frame.request.RestoreCommit? && !Barred(log, e.frame.request, terms) && Uploaded(log))
    && (e.work.Install? ==> e.work.name == Uploading(log).value.name && e.work.bytes == Concat(Uploading(log).value.chunks))
  }

  function QueuedIn(log: seq<Exchange>): seq<Statement> {
    if log == [] then []
    else QueuedIn(Front(log)) + (if Final(log).answer.Queued? && Final(log).frame.request.Query? then [Final(log).frame.request.statement] else [])
  }

  /** An open transaction has one matching `begin`, after which nothing was
      committed or rolled back; it consists of the statements queued since. */
  lemma {:induction false} OpenSinceBegin(log: seq<Exchange>) returns (b: nat)
    requires Open(log).Some?
    ensures b < |log| && log[b].answer.Begun?
    ensures Selection(log[..b]) == Some(Open(log).value.id)
    ensures Open(log).value.statements == QueuedIn(log[b + 1..])
    ensures forall k | b < k < |log| :: !log[k].answer.Begun? && !log[k].frame.request.Commit? && !log[k].frame.request.Rollback?
  {
    var e := Final(log);
    if e.answer.Begun? {
      b := |log| - 1;
      assert log[..b] == Front(log) && log[b + 1..] == [];
    } else {
      b := OpenSinceBegin(Front(log));
      assert Front(log)[..b] == log[..b];
      assert Front(log[b + 1..]) == Front(log)[b + 1..] && Final(log[b + 1..]) == e;
      assert forall k | b < k < |log| - 1 :: Front(log)[k] == log[k];
    }
  }

  lemma {:induction false} LawfulAt(log: seq<Exchange>, terms: Terms, k: nat)
    requires Lawful(log, terms) && k < |log|
    ensures Justified(log[..k], log[k], terms)
  {
    if k < |log| - 1 {
      LawfulAt(Front(log), terms, k);
      assert Front(log)[..k] == log[..k];
    }
  }

  /** A commit that reaches the engine has a matching begin, not ended since. It
      passes the statements that were answered `queued` since then, in order, on
      the Database that was selected at the begin. */
  lemma BatchIsQueued(log: seq<Exchange>, terms: Terms, k: nat) returns (b: nat)
    requires Lawful(log, terms) && k < |log| && log[k].work.ExecuteBatch?
    ensures b < k && log[b].answer.Begun? && Selection(log[..b]) == Some(log[k].work.id)
    ensures log[k].work.statements == QueuedIn(log[b + 1..k])
    ensures forall j | b < j < k :: !log[j].answer.Begun? && !log[j].frame.request.Commit? && !log[j].frame.request.Rollback?
  {
    LawfulAt(log, terms, k);
    b := OpenSinceBegin(log[..k]);
    assert log[..k][..b] == log[..b] && log[..k][b + 1..] == log[b + 1..k];
    assert forall j | b < j < k :: log[..k][j] == log[j];
  }

  /** The contents of the chunks that were accepted. */
  function ChunksIn(log: seq<Exchange>): seq<Content> {
    if log == [] then []
    else
      var e := Final(log);
      ChunksIn(Front(log)) +
      if e.answer.ChunkAccepted? && e.frame.request.RestoreChunk? && Base64.Decode(e.frame.request.data).Some?
      then [Base64.Decode(e.frame.request.data).value] else []
  }

  /** The upload under way was started by one request, has neither been aborted
      nor installed since, and consists of the chunks accepted since. */
  lemma {:induction false} UploadSinceBegin(log: seq<Exchange>) returns (b: nat)
    requires Uploading(log).Some?
    ensures b < |log| && log[b].answer.UploadReady? && log[b].frame.request.RestoreBegin?
    ensures Uploading(log).value.name == log[b].frame.request.name && Uploading(log).value.totalBytes == log[b].frame.request.totalBytes
    ensures Uploading(log).value.chunks == ChunksIn(log[b + 1..])
    ensures forall k | b < k < |log| :: !log[k].answer.Aborted? && !log[k].work.Install?
  {
    var e := Final(log);
    if e.answer.UploadReady? && e.frame.request.RestoreBegin? {
      b := |log| - 1;
      assert log[b + 1..] == [];
    } else {
      b := UploadSinceBegin(Front(log));
      assert Front(log[b + 1..]) == Front(log)[b + 1..] && Final(log[b + 1..]) == e;
      assert forall k | b < k < |log| - 1 :: Front(log)[k] == log[k];
    }
  }

  /** A restore gets the concatenation of the chunks accepted since its begin, of
      exactly the size that was declared there, for the Database named there. */
  lemma InstallIsUploaded(log: seq<Exchange>, terms: Terms, k: nat) returns (b: nat)
    requires Lawful(log, terms) && k < |log| && log[k].work.Install?
    ensures b < k && log[b].answer.UploadReady? && log[b].frame.request.RestoreBegin?
    ensures log[k].work.name == log[b].frame.request.name
    ensures log[k].work.bytes == Concat(ChunksIn(log[b + 1..k])) && |log[k].work.bytes| == log[b].frame.request.totalBytes
    ensures forall j | b < j < k :: !log[j].answer.Aborted? && !log[j].work.Install?
  {
    LawfulAt(log, terms, k);
    b := UploadSinceBegin(log[..k]);
    assert log[..k][b + 1..] == log[b + 1..k];
    assert forall j | b < j < k :: log[..k][j] == log[j];
  }

  /** The selection is the ID that its name stood for when it was selected. */
  lemma {:induction false} SelectedSince(log: seq<Exchange>, terms: Terms) returns (s: nat)
    requires Lawful(log, terms) && Selection(log).Some?
    ensures s < |log| && log[s].frame.request.SelectDatabase? && log[s].frame.request.name in log[s].frame.world.ids
    ensures Selection(log) == Some(log[s].frame.world.ids[log[s].frame.request.name])
    ensures forall k | s < k < |log| :: !log[k].answer.Selected?
  {
    if Final(log).answer.Selected? {
      s := |log| - 1;
    } else {
      s := SelectedSince(Front(log), terms);
      assert forall k | s < k < |log| - 1 :: Front(log)[k] == log[k];
    }
  }

  predicate Acceptable(u: Upload, request: Request)
    requires request.RestoreChunk?
  {
    var chunk := Base64.Decode(request.data);
    request.sequence == u.nextSequence && chunk.Some? && 1 <= |chunk.value| <= SNAPSHOT_CHUNK_BYTES && |u.bytes| + |chunk.value| <= u.totalBytes
  }

  function Extended(u: Upload, chunk: Content): Upload {
    u.(bytes := u.bytes + chunk, nextSequence := u.nextSequence + 1)
  }
}
