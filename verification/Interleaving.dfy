/** Concurrent requests of one connection: their events interleave on the shared
    queue, and a worker races with its timer and with cancellation. */
module Interleaving {
  import opened Core
  import opened Responses

  /** What a request comes to: a statement's result, a committed batch, a snapshot,
      an answer in one event, or a failure. */
  datatype Job =
    | StatementJob(result: StatementResult, stream: bool)
    | BatchJob(results: seq<StatementResult>)
    | SnapshotJob(bytes: Content)
    | SingleJob
    | FailureJob(code: ErrorCode)

  function EventsOf(job: Job): seq<Response> {
    match job
    case StatementJob(result, stream) => StatementEvents(result, stream)
    case BatchJob(results) => [TransactionDone(results)]
    case SnapshotJob(bytes) => SnapshotEvents(bytes)
    case SingleJob => [Single(None)]
    case FailureJob(code) => [Error(code)]
  }

  /** The events that a job sends, cut at the first that does not fit a frame. */
  function Script(job: Job, fits: Response -> bool): seq<Response> {
    Cut(EventsOf(job), fits)
  }

  lemma ScriptIsComplete(job: Job, fits: Response -> bool)
    ensures Complete(Script(job, fits))
  {
    if job.StatementJob? {
      StatementEventsAreComplete(job.result, job.stream);
    } else if job.SnapshotJob? {
      SnapshotEventsAreComplete(job.bytes);
    }
    CutIsComplete(EventsOf(job), fits);
  }

  /** The response of each accepted request, how much of it went out, and the queue. */
  datatype Outbox = Outbox(scripts: map<nat, seq<Response>>, progress: map<nat, nat>, queue: seq<Tagged>, lastRequestId: nat)

  datatype Move = Arrive(id: nat, job: Job) | Emit(id: nat)

  function Next(o: Outbox, move: Move, fits: Response -> bool): Outbox {
    match move
    case Arrive(id, job) =>
      if id <= o.lastRequestId then o.(queue := o.queue + [(id, Error(Violation))])
      else o.(scripts := o.scripts[id := Script(job, fits)], progress := o.progress[id := 0], lastRequestId := id)
    case Emit(id) =>
      if id in o.scripts && id in o.progress && o.progress[id] < |o.scripts[id]| then
        o.(queue := o.queue + [(id, o.scripts[id][o.progress[id]])], progress := o.progress[id := o.progress[id] + 1])
      else o
  }

  /** The greeting has been answered under its own identifier. */
  function Greeted(hello: nat): Outbox {
    Outbox(map[hello := [Single(None)]], map[hello := 1], [(hello, Single(None))], hello)
  }

  /** The outbox after these moves, in any order the tasks take them. */
  function Run(hello: nat, moves: seq<Move>, fits: Response -> bool): Outbox {
    if moves == [] then Greeted(hello)
    else Next(Run(hello, moves[..|moves| - 1], fits), moves[|moves| - 1], fits)
  }

  /** The events of one request, in queue order. */
  function Project(queue: seq<Tagged>, id: nat): seq<Response> {
    if queue == [] then []
    else
      var before, last := Project(queue[..|queue| - 1], id), queue[|queue| - 1];
      if last.0 == id then before + [last.1] else before
  }

  lemma ProjectAppends(queue: seq<Tagged>, event: Tagged, id: nat)
    ensures Project(queue + [event], id) == Project(queue, id) + if event.0 == id then [event.1] else []
  {
    assert (queue + [event])[..|queue|] == queue;
  }

  function Terminals(events: seq<Response>): nat {
    if events == [] then 0
    else Terminals(events[..|events| - 1]) + if Terminal(events[|events| - 1]) then 1 else 0
  }

  lemma TerminalsAppend(events: seq<Response>, event: Response)
    ensures Terminals(events + [event]) == Terminals(events) + if Terminal(event) then 1 else 0
  {
    assert (events + [event])[..|events|] == events;
  }

  /** How often a client used an identifier, the greeting included. */
  function Uses(hello: nat, moves: seq<Move>, id: nat): nat {
    if moves == [] then if id == hello then 1 else 0
    else Uses(hello, moves[..|moves| - 1], id) + if moves[|moves| - 1].Arrive? && moves[|moves| - 1].id == id then 1 else 0
  }

  // ---- the invariant, identifier by identifier ----

  predicate Waiting(o: Outbox, id: nat) {
    id in o.scripts && id in o.progress && o.progress[id] < |o.scripts[id]|
  }

  /** `n` uses of the identifier so far: each has sent its terminal event or is
      about to; a first use has sent a part of its response. */
  predicate InStep(o: Outbox, id: nat, n: nat) {
    var events := Project(o.queue, id);
    && (id in o.scripts <==> id in o.progress)
    && (id in o.scripts ==> Complete(o.scripts[id]) && o.progress[id] <= |o.scripts[id]|)
    && Terminals(events) + (if Waiting(o, id) then 1 else 0) == n
    && (id in o.scripts || n > 0 ==> id <= o.lastRequestId)
    && (n == 0 ==> id !in o.scripts && events == [])
    && (n == 1 ==> events == if id in o.scripts then o.scripts[id][..o.progress[id]] else [Error(Violation)])
  }

  lemma EmitStaysInStep(o: Outbox, id: nat, n: nat, fits: Response -> bool)
    requires InStep(o, id, n) && Waiting(o, id)
    ensures InStep(Next(o, Emit(id), fits), id, n)
  {
    var script, k := o.scripts[id], o.progress[id];
    ProjectAppends(o.queue, (id, script[k]), id);
    TerminalsAppend(Project(o.queue, id), script[k]);
    TerminalIsLast(script, k);
    assert script[..k + 1] == script[..k] + [script[k]];
  }

  lemma NextStaysInStep(o: Outbox, move: Move, id: nat, n: nat, fits: Response -> bool)
    requires InStep(o, id, n)
    ensures InStep(Next(o, move, fits), id, n + if move.Arrive? && move.id == id then 1 else 0)
  {
    match move
    case Arrive(i, job) =>
      ScriptIsComplete(job, fits);
      ProjectAppends(o.queue, (i, Error(Violation)), id);
      TerminalsAppend(Project(o.queue, id), Error(Violation));
    case Emit(i) =>
      if Waiting(o, i) {
        if i == id {
          EmitStaysInStep(o, id, n, fits);
        } else {
          ProjectAppends(o.queue, (i, o.scripts[i][o.progress[i]]), id);
        }
      }
  }

  lemma GreetedIsInStep(hello: nat, id: nat)
    ensures InStep(Greeted(hello), id, if id == hello then 1 else 0)
  {
    ProjectAppends([], (hello, Single(None)), id);
    TerminalsAppend([], Single(None));
  }

  lemma {:induction false} RunStaysInStep(hello: nat, moves: seq<Move>, id: nat, fits: Response -> bool)
    ensures InStep(Run(hello, moves, fits), id, Uses(hello, moves, id))
  {
    if moves == [] {
      GreetedIsInStep(hello, id);
    } else {
      var before, move := moves[..|moves| - 1], moves[|moves| - 1];
      RunStaysInStep(hello, before, id, fits);
      NextStaysInStep(Run(hello, before, fits), move, id, Uses(hello, before, id), fits);
    }
  }

  // ---- one response per identifier ----

  /** The events of an identifier that was used at most once are a part of one
      complete response, in order, however the tasks interleave. */
  lemma EventsOfOneRequest(hello: nat, moves: seq<Move>, id: nat, fits: Response -> bool) returns (response: seq<Response>)
    requires Uses(hello, moves, id) <= 1
    ensures Complete(response) && Project(Run(hello, moves, fits).queue, id) <= response
    ensures id in Run(hello, moves, fits).scripts ==> response == Run(hello, moves, fits).scripts[id]
  {
    RunStaysInStep(hello, moves, id, fits);
    var o := Run(hello, moves, fits);
    response := if id in o.scripts then o.scripts[id] else [Error(Violation)];
  }

  /** Every response that was begun has gone out. */
  predicate Drained(o: Outbox) {
    forall id | id in o.scripts :: !Waiting(o, id)
  }

  lemma {:induction false} PartHasOneTerminal(part: seq<Response>, response: seq<Response>)
    requires Complete(response) && part <= response
    ensures Terminals(part) <= 1 && (Terminals(part) == 1 ==> part == response)
  {
    if part != [] {
      var k := |part| - 1;
      PartHasOneTerminal(part[..k], response);
      TerminalIsLast(response, k);
      assert part[k] == response[k];
      assert part[..k] != response;
    }
  }

  /** Once everything has gone out, the events of an identifier are a part of one
      complete response if and only if the identifier was used at most once. */
  lemma RepeatedIdentifier(hello: nat, moves: seq<Move>, id: nat, fits: Response -> bool)
    requires Drained(Run(hello, moves, fits))
    ensures (exists response :: Complete(response) && Project(Run(hello, moves, fits).queue, id) <= response) <==> Uses(hello, moves, id) <= 1
  {
    var events := Project(Run(hello, moves, fits).queue, id);
    RunStaysInStep(hello, moves, id, fits);
    if Uses(hello, moves, id) <= 1 {
      var response := EventsOfOneRequest(hello, moves, id, fits);
    }
    forall response | Complete(response) && events <= response
      ensures Uses(hello, moves, id) <= 1
    {
      PartHasOneTerminal(events, response);
    }
  }

  // ---- worker, timer and cancellation ----

  /** What the engine did; an error means that nothing was committed. */
  datatype EngineOutcome =
    | Committed(result: StatementResult)
    | CommittedAll(results: seq<StatementResult>)
    | LimitError
    | OtherError
    | Died

  datatype Tick = TimerFires | CancelArrives | WorkerEnds(outcome: EngineOutcome)

  predicate Committing(outcome: EngineOutcome) {
    outcome.Committed? || outcome.CommittedAll?
  }

  /** What is answered, given what the engine did and whether the timer and a
      cancellation came first. */
  function Reply(outcome: EngineOutcome, timedOut: bool, cancelled: bool, stream: bool): Job {
    match outcome
    case Committed(result) => StatementJob(result, stream)
    case CommittedAll(results) => BatchJob(results)
    case Died => FailureJob(Internal)
    case LimitError => FailureJob(if !timedOut && cancelled then Stopped else LimitReached)
    case OtherError => FailureJob(if timedOut then LimitReached else EngineFailed)
  }

  /** When the worker ends. */
  function FirstEnd(ticks: seq<Tick>): (k: Option<nat>)
    ensures k.None? <==> forall t | t in ticks :: !t.WorkerEnds?
    ensures k.Some? ==> k.value < |ticks| && ticks[k.value].WorkerEnds? && forall i | 0 <= i < k.value :: !ticks[i].WorkerEnds?
  {
    if ticks == [] then None
    else if ticks[0].WorkerEnds? then Some(0)
    else
      var rest := FirstEnd(ticks[1..]);
      if rest.Some? then Some(rest.value + 1) else None
  }

  /** Waits for the worker of a statement or a batch: the timer cancels it, but its
      result still counts. What was committed is answered as such or, where it
      does not fit a frame, as too large; never as stopped or timed out. */
  method Await(ticks: seq<Tick>, stream: bool, fits: Response -> bool) returns (sent: Option<seq<Response>>)
    ensures sent.None? <==> FirstEnd(ticks).None?
    ensures sent.Some? ==>
              var k := FirstEnd(ticks).value;
              && Complete(sent.value)
              && sent.value == Script(Reply(ticks[k].outcome, TimerFires in ticks[..k], CancelArrives in ticks[..k], stream), fits)
              && (Committing(ticks[k].outcome) ==> forall e | e in sent.value :: e.Error? ==> e.code == TooLarge)
  {
    var timedOut, cancelled := false, false;
    sent := None;
    for k := 0 to |ticks|
      invariant sent.None? && forall i | 0 <= i < k :: !ticks[i].WorkerEnds?
      invariant timedOut == (TimerFires in ticks[..k])
      invariant cancelled == (CancelArrives in ticks[..k])
    {
      assert ticks[..k + 1] == ticks[..k] + [ticks[k]];
      match ticks[k]
      case TimerFires => timedOut := true;
      case CancelArrives => cancelled := true;
      case WorkerEnds(outcome) =>
        assert ticks[k] in ticks && FirstEnd(ticks).value == k;
        ScriptIsComplete(Reply(outcome, timedOut, cancelled, stream), fits);
        CommittedIsNeverCalledStopped(outcome, timedOut, cancelled, stream, fits);
        return Some(Script(Reply(outcome, timedOut, cancelled, stream), fits));
    }
  }

  lemma CommittedIsNeverCalledStopped(outcome: EngineOutcome, timedOut: bool, cancelled: bool, stream: bool, fits: Response -> bool)
    ensures var job := Reply(outcome, timedOut, cancelled, stream);
            && (Committing(outcome) ==> forall e | e in Script(job, fits) :: e.Error? ==> e.code == TooLarge)
            && ((forall e | e in EventsOf(job) :: fits(e)) ==> Script(job, fits) == EventsOf(job))
  {
    var whole := EventsOf(Reply(outcome, timedOut, cancelled, stream));
    var k := CutKeepsPrefix(whole, fits);
    assert forall e | e in whole[..k] :: e in whole;
  }
}
