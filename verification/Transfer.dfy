/** Moving a snapshot: what an export sends, an upload rebuilds, and every chunk
    fits its frame. */
module Transfer {
  import opened Core
  import opened Connection
  import opened Responses
  import Base64
  import Framing

  /** The bytes covered by the first `k` chunks. */
  function Sofar(bytes: Content, k: nat): Content {
    if Offset(k) <= |bytes| then bytes[..Offset(k)] else bytes
  }

  lemma SofarGrows(bytes: Content, k: nat)
    requires Offset(k) < |bytes|
    ensures Sofar(bytes, k + 1) == Sofar(bytes, k) + Chunk(bytes, k)
  {
  }

  lemma SofarEnds(bytes: Content)
    ensures Sofar(bytes, ChunkCount(bytes)) == bytes
  {
  }

  /** The first `k` chunks. */
  function Pieces(bytes: Content, k: nat): (chunks: seq<Content>)
    requires k == 0 || Offset(k - 1) < |bytes|
    ensures |chunks| == k
  {
    if k == 0 then [] else Pieces(bytes, k - 1) + [Chunk(bytes, k - 1)]
  }

  lemma {:induction false} PiecesOf(bytes: Content, k: nat)
    requires k == 0 || Offset(k - 1) < |bytes|
    ensures Concat(Pieces(bytes, k)) == Sofar(bytes, k)
  {
    if k > 0 {
      PiecesOf(bytes, k - 1);
      SofarGrows(bytes, k - 1);
      var before, chunk := Pieces(bytes, k - 1), Chunk(bytes, k - 1);
      ConcatAppends(before, chunk);
      assert Pieces(bytes, k) == before + [chunk];
    }
  }

  /** The next chunk stays within the size that was announced. */
  lemma PiecesFit(bytes: Content, k: nat)
    requires k < ChunkCount(bytes)
    ensures |Concat(Pieces(bytes, k))| + |Chunk(bytes, k)| <= |bytes|
  {
    PiecesOf(bytes, k);
    SofarGrows(bytes, k);
  }

  lemma ConcatAppends(chunks: seq<Content>, chunk: Content)
    ensures Concat(chunks + [chunk]) == Concat(chunks) + chunk
  {
    assert (chunks + [chunk])[..|chunks|] == chunks;
  }

  /** The request that uploads the exported chunk `k`. */
  function ChunkRequest(bytes: Content, k: nat): Request
    requires k < ChunkCount(bytes)
  {
    SnapshotEventAt(bytes, k);
    var event := SnapshotEvents(bytes)[k + 1];
    RestoreChunk(event.sequence, event.data)
  }

  lemma ChunkRequestDecodes(bytes: Content, k: nat)
    requires k < ChunkCount(bytes)
    ensures ChunkRequest(bytes, k).sequence == k && Base64.Decode(ChunkRequest(bytes, k).data) == Some(Chunk(bytes, k))
  {
    SnapshotEventAt(bytes, k);
    Base64.DecodeEncode(Chunk(bytes, k));
  }

  /** The client has been told that the first `k` chunks were accepted, and has no
      transaction open. */
  predicate Underway(log: seq<Exchange>, name: string, bytes: Content, k: nat)
    requires k <= ChunkCount(bytes)
  {
    Open(log).None? && Uploading(log) == Some(Sending(name, |bytes|, Pieces(bytes, k)))
  }

  lemma Appended(log: seq<Exchange>, e: Exchange)
    ensures Front(log + [e]) == log && Final(log + [e]) == e
  {
  }

  /** Whatever the log, a begin within the limits opens the upload. */
  lemma BeginIsAccepted(log: seq<Exchange>, e: Exchange, terms: Terms, name: string, bytes: Content)
    requires Justified(log, e, terms) && terms.role == AdminRole && Open(log).None? && Uploading(log).None?
    requires 1 <= |bytes| <= terms.maxSnapshotBytes && e.frame.request == RestoreBegin(name, |bytes|) && name in e.frame.world.ids
    ensures e.answer == UploadReady && Underway(log + [e], name, bytes, 0)
  {
    Appended(log, e);
  }

  /** The next exported chunk is accepted and extends the upload by its bytes. */
  lemma ExportedChunkIsAccepted(log: seq<Exchange>, e: Exchange, terms: Terms, name: string, bytes: Content, k: nat)
    requires Justified(log, e, terms) && terms.role == AdminRole
    requires k < ChunkCount(bytes) && Underway(log, name, bytes, k) && e.frame.request == ChunkRequest(bytes, k)
    ensures e.answer.ChunkAccepted? && Underway(log + [e], name, bytes, k + 1)
  {
    ChunkRequestDecodes(bytes, k);
    PiecesFit(bytes, k);
    Appended(log, e);
  }

  lemma CommitInstalls(log: seq<Exchange>, e: Exchange, terms: Terms, name: string, bytes: Content)
    requires Justified(log, e, terms) && terms.role == AdminRole
    requires Underway(log, name, bytes, ChunkCount(bytes)) && e.frame.request == RestoreCommit
    ensures e.work == Install(name, bytes) && Uploading(log + [e]).None?
  {
    PiecesOf(bytes, ChunkCount(bytes));
    SofarEnds(bytes);
    Appended(log, e);
  }

  ghost predicate Ready(session: Session)
    reads session
  {
    session.Faithful() && session.Registered() && Lawful(session.log, session.terms)
  }

  /** Sends one frame through the dispatcher. */
  method Send(session: Session, f: Frame) returns (work: Work, ghost e: Exchange)
    requires Ready(session) && session.lastRequestId < f.id
    modifies session
    ensures Ready(session) && session.lastRequestId == f.id && session.log == old(session.log) + [e]
    ensures e.frame == f && e.work == work && Justified(old(session.log), e, session.terms)
  {
    work := session.Accept(f);
    e := Final(session.log);
    assert Front(session.log) == old(session.log);
  }

  method UploadChunks(session: Session, id: nat, name: string, bytes: Content, world: World)
    requires Ready(session) && session.terms.role == AdminRole && session.lastRequestId == id && Underway(session.log, name, bytes, 0)
    modifies session
    ensures Ready(session) && session.lastRequestId == id + ChunkCount(bytes) && Underway(session.log, name, bytes, ChunkCount(bytes))
    ensures |session.log| == |old(session.log)| + ChunkCount(bytes) && old(session.log) <= session.log
  {
    for k := 0 to ChunkCount(bytes)
      invariant Ready(session) && session.lastRequestId == id + k && Underway(session.log, name, bytes, k)
      invariant |session.log| == |old(session.log)| + k && old(session.log) <= session.log
    {
      ghost var before := session.log;
      var work, e := Send(session, Frame(id + 1 + k, ChunkRequest(bytes, k), world));
      ExportedChunkIsAccepted(before, e, session.terms, name, bytes, k);
    }
  }

  /** Uploading the exported chunks of a snapshot under any name, on any connection
      of an administrator that has no transaction and no upload: the dispatcher
      accepts every frame, and the daemon is handed exactly the exported bytes. */
  method UploadExported(session: Session, id: nat, name: string, bytes: Content, world: World) returns (work: Work)
    requires Ready(session) && session.lastRequestId < id
    requires session.terms.role == AdminRole && session.transaction.None? && session.upload.None?
    requires 1 <= |bytes| <= session.terms.maxSnapshotBytes && name in world.ids
    modifies session
    ensures work == Install(name, bytes) && session.upload.None? && Ready(session)
    ensures |session.log| == |old(session.log)| + ChunkCount(bytes) + 2 && old(session.log) <= session.log
  {
    ghost var e;
    work, e := Send(session, Frame(id, RestoreBegin(name, |bytes|), world));
    BeginIsAccepted(old(session.log), e, session.terms, name, bytes);
    UploadChunks(session, id, name, bytes, world);
    ghost var before := session.log;
    work, e := Send(session, Frame(id + 1 + ChunkCount(bytes), RestoreCommit, world));
    CommitInstalls(before, e, session.terms, name, bytes);
  }

  // ---- the size of a chunk frame ----

  function Decimal(n: nat): string {
    if n < 10 then [('0' as int + n) as char] else Decimal(n / 10) + [('0' as int + n % 10) as char]
  }

  function Power10(k: nat): nat {
    if k == 0 then 1 else 10 * Power10(k - 1)
  }

  lemma {:induction false} DecimalLength(n: nat, k: nat)
    requires k >= 1 && n < Power10(k)
    ensures |Decimal(n)| <= k
  {
    if n >= 10 {
      DecimalLength(n / 10, k - 1);
    }
  }

  /** The encoded frames of a snapshot's export and of its upload: the fields in
      declaration order, without white space. Base64 text needs no escapes. */
  function ChunkFrameText(id: nat, sequence: nat, data: string): string {
    "{\"request_id\":" + Decimal(id) + ",\"type\":\"snapshot_chunk\",\"sequence\":" + Decimal(sequence) +
    ",\"data\":\"" + data + "\"}"
  }

  function UploadFrameText(id: nat, sequence: nat, data: string): string {
    "{\"request_id\":" + Decimal(id) + ",\"type\":\"snapshot_restore_chunk\",\"sequence\":" + Decimal(sequence) +
    ",\"data\":\"" + data + "\"}"
  }

  function CountFrameText(id: nat, kind: string, field: string, n: nat): string {
    "{\"request_id\":" + Decimal(id) + ",\"type\":\"" + kind + "\",\"" + field + "\":" + Decimal(n) + "}"
  }

  /** The text of a snapshot event. */
  function EventText(id: nat, e: Response): string
    requires e.SnapshotStart? || e.SnapshotChunk? || e.SnapshotEnd?
  {
    match e
    case SnapshotStart(totalBytes) => CountFrameText(id, "snapshot_start", "total_bytes", totalBytes)
    case SnapshotChunk(sequence, data) => ChunkFrameText(id, sequence, data)
    case SnapshotEnd(chunks) => CountFrameText(id, "snapshot_end", "chunks", chunks)
  }

  const TWO_TO_THE_64: nat := 0x1_0000_0000_0000_0000

  lemma WordLength(n: nat)
    requires n < TWO_TO_THE_64
    ensures |Decimal(n)| <= 20
  {
    assert Power10(5) == 100000;
    assert Power10(10) == 100000 * Power10(5) by {
      assert Power10(10) == 10 * 10 * 10 * Power10(7) && Power10(7) == 10 * 10 * Power10(5);
    }
    assert Power10(15) == 100000 * Power10(10) by {
      assert Power10(15) == 10 * 10 * 10 * Power10(12) && Power10(12) == 10 * 10 * Power10(10);
    }
    assert Power10(20) == 100000 * Power10(15) by {
      assert Power10(20) == 10 * 10 * 10 * Power10(17) && Power10(17) == 10 * 10 * Power10(15);
    }
    DecimalLength(n, 20);
  }

  lemma ChunkFrameLength(id: nat, sequence: nat, data: string)
    requires id < TWO_TO_THE_64 && sequence < TWO_TO_THE_64
    ensures 1 <= |ChunkFrameText(id, sequence, data)| <= |data| + 111
    ensures 1 <= |UploadFrameText(id, sequence, data)| <= |data| + 119
  {
    WordLength(id);
    WordLength(sequence);
  }

  /** For all identifiers and sequence numbers, the frame of every chunk of every
      snapshot fits the frame bound, in the export and in the upload. */
  lemma ChunkFrameFits(id: nat, bytes: Content, k: nat)
    requires id < TWO_TO_THE_64 && k < TWO_TO_THE_64 && k < ChunkCount(bytes)
    ensures SnapshotEvents(bytes)[k + 1].SnapshotChunk?
    ensures 1 <= |ChunkFrameText(id, k, SnapshotEvents(bytes)[k + 1].data)| <= Framing.MAX_FRAME_BYTES
    ensures 1 <= |UploadFrameText(id, k, SnapshotEvents(bytes)[k + 1].data)| <= Framing.MAX_FRAME_BYTES
  {
    SnapshotEventAt(bytes, k);
    ChunkFrameLength(id, k, Base64.Encode(Chunk(bytes, k)));
  }

  /** `fits` is the frame bound, for the events of a snapshot. */
  ghost predicate BoundsFrames(fits: Response -> bool, id: nat) {
    forall e: Response | e.SnapshotStart? || e.SnapshotChunk? || e.SnapshotEnd? ::
      fits(e) <==> 1 <= |EventText(id, e)| <= Framing.MAX_FRAME_BYTES
  }

  lemma CountFrameFits(id: nat, kind: string, field: string, n: nat)
    requires id < TWO_TO_THE_64 && n < TWO_TO_THE_64 && |kind| <= 20 && |field| <= 20
    ensures 1 <= |CountFrameText(id, kind, field, n)| <= Framing.MAX_FRAME_BYTES
  {
    WordLength(id);
    WordLength(n);
  }

  /** No export is ever cut: every event of every snapshot goes out. */
  lemma ExportIsNeverCut(id: nat, bytes: Content, fits: Response -> bool)
    requires id < TWO_TO_THE_64 && |bytes| < TWO_TO_THE_64 && BoundsFrames(fits, id)
    ensures Cut(SnapshotEvents(bytes), fits) == SnapshotEvents(bytes)
  {
    var events, n := SnapshotEvents(bytes), ChunkCount(bytes);
    assert n <= |bytes|;
    forall k | 0 <= k < |events|
      ensures fits(events[k])
    {
      if k == 0 {
        CountFrameFits(id, "snapshot_start", "total_bytes", |bytes|);
      } else if k == |events| - 1 {
        CountFrameFits(id, "snapshot_end", "chunks", n);
      } else {
        SnapshotEventAt(bytes, k - 1);
        ChunkFrameFits(id, bytes, k - 1);
      }
    }
    CutSoFar(events, |events|, fits);
  }
}
