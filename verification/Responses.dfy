/** The events that answer one request. */
module Responses {
  import opened Core
  import Base64
  import opened Connection

  datatype ErrorCode = Violation | TooLarge | LimitReached | Stopped | Internal | EngineFailed

  datatype Response =
    | Error(code: ErrorCode)
    /** An answer that is complete in one event, with a statement's result if it has one. */
    | Single(statement: Option<StatementResult>)
    | TransactionDone(results: seq<StatementResult>)
    | StreamStart(columns: seq<string>)
    | StreamRow(row: string)
    | StreamEnd(rows: nat)
    | SnapshotStart(totalBytes: nat)
    | SnapshotChunk(sequence: nat, data: string)
    | SnapshotEnd(chunks: nat)

  /** What the engine returns for a statement: rows, or a write's summary. */
  datatype StatementResult = Rows(columns: seq<string>, rows: seq<string>) | Summary(body: string)

  // ---- the shape of a response ----

  predicate RowsOnly(events: seq<Response>) {
    forall k | 0 <= k < |events| :: events[k].StreamRow?
  }

  predicate ChunksInOrder(events: seq<Response>) {
    forall k | 0 <= k < |events| :: events[k].SnapshotChunk? && events[k].sequence == k
  }

  /** A stream that has started and has not ended. */
  predicate Underway(events: seq<Response>) {
    events == [] || (events[0].StreamStart? && RowsOnly(events[1..])) || (events[0].SnapshotStart? && ChunksInOrder(events[1..]))
  }

  /** One complete response: a single event; a stream whose end counts its
      rows or chunks; or a stream cut short by one error. */
  predicate Complete(events: seq<Response>) {
    events != [] &&
    var body, last := events[..|events| - 1], events[|events| - 1];
    match last
    case Error(_) => Underway(body)
    case Single(_) => body == []
    case TransactionDone(_) => body == []
    case StreamEnd(rows) => body != [] && body[0].StreamStart? && RowsOnly(body[1..]) && rows == |body| - 1
    case SnapshotEnd(chunks) => body != [] && body[0].SnapshotStart? && ChunksInOrder(body[1..]) && chunks == |body| - 1
    case _ => false
  }

  /** The event ends its response. */
  predicate Terminal(e: Response) {
    e.Error? || e.Single? || e.TransactionDone? || e.StreamEnd? || e.SnapshotEnd?
  }

  /** A complete response ends with its one terminal event. */
  lemma TerminalIsLast(events: seq<Response>, k: nat)
    requires Complete(events) && k < |events|
    ensures Terminal(events[k]) <==> k == |events| - 1
  {
    var body := events[..|events| - 1];
    if k < |body| {
      assert events[k] == body[k];
      if k > 0 {
        assert body[k] == body[1..][k - 1];
      }
    }
  }

  // ---- what the server means to send ----

  function RowEvents(rows: seq<string>): (events: seq<Response>)
    ensures |events| == |rows| && forall k | 0 <= k < |rows| :: events[k] == StreamRow(rows[k])
  {
    if rows == [] then [] else RowEvents(rows[..|rows| - 1]) + [StreamRow(rows[|rows| - 1])]
  }

  function StatementEvents(result: StatementResult, stream: bool): seq<Response> {
    if stream && result.Rows? then
      [StreamStart(result.columns)] + RowEvents(result.rows) + [StreamEnd(|result.rows|)]
    else
      [Single(Some(result))]
  }

  /** Where chunk `k` of a snapshot starts: a multiple of SNAPSHOT_CHUNK_BYTES,
      which is spelled out to keep the product linear. */
  function Offset(k: nat): nat {
    k * 0x4_0000
  }

  lemma OffsetsAreChunkBytesApart(k: nat)
    ensures Offset(k + 1) - Offset(k) == SNAPSHOT_CHUNK_BYTES
  {
  }

  /** The first `k` chunks of a snapshot, as events. */
  function ChunkEvents(bytes: Content, k: nat): (events: seq<Response>)
    requires k == 0 || Offset(k - 1) < |bytes|
    ensures |events| == k
  {
    seq(k, i requires 0 <= i < k => SnapshotChunk(i, Base64.Encode(Chunk(bytes, i))))
  }

  function Chunk(bytes: Content, k: nat): (chunk: Content)
    requires Offset(k) < |bytes|
    ensures 1 <= |chunk| <= SNAPSHOT_CHUNK_BYTES
  {
    if Offset(k + 1) <= |bytes| then bytes[Offset(k)..Offset(k + 1)] else bytes[Offset(k)..]
  }

  function ChunkCount(bytes: Content): (n: nat)
    ensures |bytes| <= Offset(n) && (n == 0 || Offset(n - 1) < |bytes|)
  {
    (|bytes| + 0x3_FFFF) / 0x4_0000
  }

  function SnapshotEvents(bytes: Content): seq<Response> {
    [SnapshotStart(|bytes|)] + ChunkEvents(bytes, ChunkCount(bytes)) + [SnapshotEnd(ChunkCount(bytes))]
  }

  /** The events of a snapshot, one by one. */
  lemma SnapshotEventAt(bytes: Content, k: nat)
    requires k < ChunkCount(bytes)
    ensures Offset(k) < |bytes|
    ensures SnapshotEvents(bytes)[k + 1] == SnapshotChunk(k, Base64.Encode(Chunk(bytes, k)))
  {
    assert SnapshotEvents(bytes)[k + 1] == ChunkEvents(bytes, ChunkCount(bytes))[k];
  }

  lemma StatementEventsAreComplete(result: StatementResult, stream: bool)
    ensures Complete(StatementEvents(result, stream))
  {
    if stream && result.Rows? {
      var events := StatementEvents(result, stream);
      assert events[..|events| - 1][1..] == RowEvents(result.rows);
    }
  }

  lemma SnapshotEventsAreComplete(bytes: Content)
    ensures Complete(SnapshotEvents(bytes))
  {
    var n := ChunkCount(bytes);
    var events := SnapshotEvents(bytes);
    assert events[..|events| - 1][1..] == ChunkEvents(bytes, n);
  }

  // ---- what the frame bound lets through ----

  /** An event that does not fit a frame is replaced by an error, and ends the
      response. */
  function Cut(events: seq<Response>, fits: Response -> bool): seq<Response> {
    if events == [] then []
    else if fits(events[0]) then [events[0]] + Cut(events[1..], fits)
    else [Error(TooLarge)]
  }

  lemma {:induction false} CutKeepsPrefix(events: seq<Response>, fits: Response -> bool) returns (k: nat)
    ensures k <= |events|
    ensures Cut(events, fits) == events || (k < |events| && !fits(events[k]) && Cut(events, fits) == events[..k] + [Error(TooLarge)])
    ensures forall i | 0 <= i < k :: fits(events[i])
  {
    k := 0;
    if events != [] && fits(events[0]) {
      var rest := CutKeepsPrefix(events[1..], fits);
      k := rest + 1;
      assert events == [events[0]] + events[1..];
      assert events[..k] == [events[0]] + events[1..][..rest];
      assert forall i | 1 <= i < k :: events[i] == events[1..][i - 1];
    }
  }

  /** Cutting keeps a response complete. */
  lemma CutIsComplete(events: seq<Response>, fits: Response -> bool)
    requires Complete(events)
    ensures Complete(Cut(events, fits))
  {
    var k := CutKeepsPrefix(events, fits);
    var cut := Cut(events, fits);
    if cut != events {
      assert cut[..|cut| - 1] == events[..k];
      var body := events[..|events| - 1];
      assert events[..k] == body[..k];
      if k > 0 {
        assert events[..k][1..] == body[1..][..k - 1];
      }
    }
  }

  // ---- sending ----

  type Tagged = (nat, Response)

  function Tag(id: nat, events: seq<Response>): (tagged: seq<Tagged>)
    ensures |tagged| == |events| && forall k | 0 <= k < |events| :: tagged[k] == (id, events[k])
  {
    seq(|events|, k requires 0 <= k < |events| => (id, events[k]))
  }

  lemma TagAppends(id: nat, events: seq<Response>, event: Response)
    ensures Tag(id, events + [event]) == Tag(id, events) + [(id, event)]
  {
  }

  /** After `k` events that fit, what has gone out is a prefix of the cut response. */
  lemma {:induction false} CutSoFar(events: seq<Response>, k: nat, fits: Response -> bool)
    requires k <= |events| && forall i | 0 <= i < k :: fits(events[i])
    ensures events[..k] <= Cut(events, fits)
    ensures k == |events| ==> Cut(events, fits) == events
    ensures k < |events| && !fits(events[k]) ==> Cut(events, fits) == events[..k] + [Error(TooLarge)]
  {
    if k > 0 {
      CutSoFar(events[1..], k - 1, fits);
      assert events == [events[0]] + events[1..];
      assert events[..k] == [events[0]] + events[1..][..k - 1];
    }
  }

  /** The bounded queue that the connection's writer drains; it may be closed. */
  class Sender {
    const fits: Response -> bool
    var queue: seq<Tagged>
    var faults: seq<bool>

    method Push(id: nat, event: Response) returns (ok: bool)
      modifies this
      ensures queue == if ok then old(queue) + [(id, event)] else old(queue)
      ensures old(faults) == [] ==> ok && faults == []
    {
      ok := faults == [] || !faults[0];
      if faults != [] {
        faults := faults[1..];
      }
      if ok {
        queue := queue + [(id, event)];
      }
    }

    /** Sends the next event of a response after `mine` went out. False once the
        response is over: it was cut, or the queue is closed. */
    method SendResponse(id: nat, event: Response, ghost before: seq<Tagged>, ghost events: seq<Response>, ghost mine: seq<Response>)
      returns (ok: bool, ghost all: seq<Response>)
      requires queue == before + Tag(id, mine)
      requires mine < events && events[|mine|] == event && forall i | 0 <= i < |mine| :: fits(events[i])
      modifies this
      ensures queue == before + Tag(id, all)
      ensures all <= Cut(events, fits)
      ensures ok ==> all == mine + [event] && all <= events && forall i | 0 <= i < |all| :: fits(events[i])
      ensures old(faults) == [] ==> faults == [] && (ok <==> fits(event)) && (!ok ==> all == Cut(events, fits))
    {
      CutSoFar(events, |mine|, fits);
      var sent := if fits(event) then event else Error(TooLarge);
      TagAppends(id, mine, sent);
      ok := Push(id, sent);
      all := if ok then mine + [sent] else mine;
      ok := ok && fits(event);
      if ok {
        CutSoFar(events, |all|, fits);
      }
    }

    /** Sends a statement's result; `mine` are the events that went out. */
    method SendStatement(id: nat, result: StatementResult, stream: bool) returns (done: bool, ghost mine: seq<Response>)
      modifies this
      ensures queue == old(queue) + Tag(id, mine)
      ensures mine <= Cut(StatementEvents(result, stream), fits)
      ensures done ==> mine == StatementEvents(result, stream)
      ensures old(faults) == [] ==> mine == Cut(StatementEvents(result, stream), fits)
    {
      ghost var events, before := StatementEvents(result, stream), queue;
      if !(stream && result.Rows?) {
        done, mine := SendResponse(id, Single(Some(result)), before, events, []);
        if done {
          CutSoFar(events, 1, fits);
        }
        return;
      }
      done, mine := SendResponse(id, StreamStart(result.columns), before, events, []);
      var k := 0;
      while done && k < |result.rows|
        invariant k <= |result.rows|
        invariant queue == before + Tag(id, mine) && mine <= Cut(events, fits)
        invariant done ==> |mine| == k + 1 && mine <= events && forall i | 0 <= i <= k :: fits(events[i])
        invariant old(faults) == [] ==> faults == [] && (!done ==> mine == Cut(events, fits))
      {
        done, mine := SendResponse(id, StreamRow(result.rows[k]), before, events, mine);
        k := k + 1;
      }
      if done {
        done, mine := SendResponse(id, StreamEnd(|result.rows|), before, events, mine);
        if done {
          CutSoFar(events, |events|, fits);
        }
      }
    }

    /** Sends the chunks of a snapshot after its start. */
    method SendChunks(id: nat, bytes: Content, ghost before: seq<Tagged>, ghost mine: seq<Response>)
      returns (done: bool, ghost all: seq<Response>)
      requires queue == before + Tag(id, mine) && mine == [SnapshotStart(|bytes|)] && fits(mine[0])
      modifies this
      ensures queue == before + Tag(id, all) && all <= Cut(SnapshotEvents(bytes), fits)
      ensures done ==> |all| == ChunkCount(bytes) + 1 && all <= SnapshotEvents(bytes) && forall i | 0 <= i < |all| :: fits(all[i])
      ensures old(faults) == [] ==> faults == [] && (!done ==> all == Cut(SnapshotEvents(bytes), fits))
    {
      ghost var events := SnapshotEvents(bytes);
      CutSoFar(events, 1, fits);
      done, all := true, mine;
      var chunks := 0;
      while done && chunks < ChunkCount(bytes)
        invariant chunks <= ChunkCount(bytes) && (done || chunks > 0)
        invariant queue == before + Tag(id, all) && all <= Cut(events, fits)
        invariant done ==> |all| == chunks + 1 && all <= events && forall i | 0 <= i < |all| :: fits(all[i])
        invariant old(faults) == [] ==> faults == [] && (!done ==> all == Cut(events, fits))
      {
        SnapshotEventAt(bytes, chunks);
        done, all := SendResponse(id, SnapshotChunk(chunks, Base64.Encode(Chunk(bytes, chunks))), before, events, all);
        chunks := chunks + 1;
      }
    }

    /** Sends a snapshot in chunks; `mine` are the events that went out. */
    method SendSnapshot(id: nat, bytes: Content) returns (done: bool, ghost mine: seq<Response>)
      modifies this
      ensures queue == old(queue) + Tag(id, mine)
      ensures mine <= Cut(SnapshotEvents(bytes), fits)
      ensures done ==> mine == SnapshotEvents(bytes)
      ensures old(faults) == [] ==> mine == Cut(SnapshotEvents(bytes), fits)
    {
      ghost var events, before := SnapshotEvents(bytes), queue;
      done, mine := SendResponse(id, SnapshotStart(|bytes|), before, events, []);
      if done {
        done, mine := SendChunks(id, bytes, before, mine);
      }
      if done {
        done, mine := SendResponse(id, SnapshotEnd(ChunkCount(bytes)), before, events, mine);
        if done {
          CutSoFar(events, |events|, fits);
        }
      }
    }
  }
}
