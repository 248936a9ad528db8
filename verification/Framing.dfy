/** Length-prefixed frames: four big-endian length bytes and the payload. */
module Framing {
  import opened Core

  const MAX_FRAME_BYTES: nat := 1024 * 1024

  type Payload = seq<byte>

  predicate Fits(p: Payload) {
    1 <= |p| <= MAX_FRAME_BYTES
  }

  /** The four bytes of a length, most significant first. */
  function LengthBytes(n: nat): (bytes: seq<byte>)
    requires n < 0x1_0000_0000
    ensures |bytes| == 4
  {
    var upper := n / 256;
    [(upper / 256 / 256) as byte, (upper / 256 % 256) as byte, (upper % 256) as byte, (n % 256) as byte]
  }

  function LengthOf(bytes: seq<byte>): (n: nat)
    requires |bytes| == 4
    ensures n < 0x1_0000_0000
  {
    ((bytes[0] as nat * 256 + bytes[1] as nat) * 256 + bytes[2] as nat) * 256 + bytes[3] as nat
  }

  lemma LengthRoundTrip(n: nat)
    requires n < 0x1_0000_0000
    ensures LengthOf(LengthBytes(n)) == n
  {
    var upper := n / 256;
    assert upper == upper / 256 * 256 + upper % 256;
  }

  lemma LastDigit(q: nat, r: nat)
    requires r < 256
    ensures (q * 256 + r) / 256 == q && (q * 256 + r) % 256 == r
  {
  }

  lemma BytesRoundTrip(bytes: seq<byte>)
    requires |bytes| == 4
    ensures LengthBytes(LengthOf(bytes)) == bytes
  {
    var w, x, y, z := bytes[0] as nat, bytes[1] as nat, bytes[2] as nat, bytes[3] as nat;
    LastDigit(w, x);
    LastDigit(w * 256 + x, y);
    LastDigit((w * 256 + x) * 256 + y, z);
  }

  function Frame(p: Payload): seq<byte>
    requires Fits(p)
  {
    LengthBytes(|p|) + p
  }

  /** The bytes on the wire for these payloads. */
  function Stream(ps: seq<Payload>): seq<byte>
    requires forall p | p in ps :: Fits(p)
  {
    if ps == [] then [] else Frame(ps[0]) + Stream(ps[1..])
  }

  datatype Received = Got(payload: Payload, rest: seq<byte>) | Truncated | OutOfBounds

  function Receive(bytes: seq<byte>): Received {
    if |bytes| < 4 then Truncated
    else
      var n := LengthOf(bytes[..4]);
      if n == 0 || n > MAX_FRAME_BYTES then OutOfBounds
      else if |bytes| < 4 + n then Truncated
      else Got(bytes[4..4 + n], bytes[4 + n..])
  }

  /** Everything a reader gets before its first error, and that error. */
  datatype Transcript = Transcript(payloads: seq<Payload>, error: Received)

  function ReceiveAll(bytes: seq<byte>): Transcript
    decreases |bytes|
  {
    match Receive(bytes)
    case Got(payload, rest) =>
      var t := ReceiveAll(rest);
      Transcript([payload] + t.payloads, t.error)
    case error => Transcript([], error)
  }

  // ---- the methods ----

  /** One end of a connection: what was written to it and what remains to read. */
  class Channel {
    var written: seq<byte>
    var unread: seq<byte>

    method WriteFrame(p: Payload) returns (ok: bool)
      modifies this`written
      ensures ok <==> Fits(p)
      ensures written == if ok then old(written) + Frame(p) else old(written)
    {
      if |p| == 0 || |p| > MAX_FRAME_BYTES {
        return false;
      }
      written := written + LengthBytes(|p|);
      written := written + p;
      return true;
    }

    method ReadExact(n: nat) returns (bytes: Option<seq<byte>>)
      modifies this`unread
      ensures bytes.Some? <==> n <= |old(unread)|
      ensures bytes.Some? ==> |bytes.value| == n && bytes.value + unread == old(unread)
      ensures bytes.None? ==> unread == []
    {
      if n <= |unread| {
        bytes, unread := Some(unread[..n]), unread[n..];
      } else {
        bytes, unread := None, [];
      }
    }

    method ReadFrame() returns (r: Received)
      modifies this`unread
      ensures r == Receive(old(unread))
      ensures r.Got? ==> unread == r.rest
    {
      var prefix := ReadExact(4);
      if prefix.None? {
        return Truncated;
      }
      assert prefix.value == old(unread)[..4];
      var n := LengthOf(prefix.value);
      if n == 0 || n > MAX_FRAME_BYTES {
        return OutOfBounds;
      }
      var payload := ReadExact(n);
      if payload.None? {
        return Truncated;
      }
      assert payload.value == old(unread)[4..4 + n];
      return Got(payload.value, unread);
    }
  }

  // ---- what the frames carry ----

  lemma ReceiveFrame(p: Payload, rest: seq<byte>)
    requires Fits(p)
    ensures Receive(Frame(p) + rest) == Got(p, rest)
  {
    LengthRoundTrip(|p|);
    var bytes := Frame(p) + rest;
    assert bytes[..4] == LengthBytes(|p|);
    assert bytes[4..4 + |p|] == p && bytes[4 + |p|..] == rest;
  }

  /** A frame cut short is an error, never another payload. */
  lemma ReceiveCutFrame(p: Payload, k: nat)
    requires Fits(p) && k < |Frame(p)|
    ensures Receive(Frame(p)[..k]) == Truncated
  {
    LengthRoundTrip(|p|);
    if k >= 4 {
      assert Frame(p)[..k][..4] == LengthBytes(|p|);
    }
  }

  /** How many of these payloads are complete within the first `k` bytes. */
  function Complete(ps: seq<Payload>, k: nat): (n: nat)
    requires forall p | p in ps :: Fits(p)
    ensures n <= |ps|
  {
    if ps == [] || k < |Frame(ps[0])| then 0 else 1 + Complete(ps[1..], k - |Frame(ps[0])|)
  }

  /** Those payloads take up at most `k` bytes, and one more would not. */
  lemma {:induction false} CompleteIsMaximal(ps: seq<Payload>, k: nat)
    requires forall p | p in ps :: Fits(p)
    ensures |Stream(ps[..Complete(ps, k)])| <= k
    ensures Complete(ps, k) < |ps| ==> k < |Stream(ps[..Complete(ps, k) + 1])|
    ensures Complete(ps, k) == |ps| <==> |Stream(ps)| <= k
  {
    if ps == [] {
    } else if k < |Frame(ps[0])| {
      assert ps[..1] == [ps[0]] && Stream(ps[..1]) == Frame(ps[0]) + Stream([]);
    } else {
      var n := Complete(ps[1..], k - |Frame(ps[0])|);
      CompleteIsMaximal(ps[1..], k - |Frame(ps[0])|);
      assert ps[..n + 1][1..] == ps[1..][..n];
      assert n + 1 < |ps| ==> ps[..n + 2][1..] == ps[1..][..n + 1];
    }
  }

  lemma ReceiveAllFrame(p: Payload, rest: seq<byte>)
    requires Fits(p)
    ensures ReceiveAll(Frame(p) + rest) == Transcript([p] + ReceiveAll(rest).payloads, ReceiveAll(rest).error)
  {
    ReceiveFrame(p, rest);
  }

  lemma StreamPrefix(ps: seq<Payload>, k: nat)
    requires (forall p | p in ps :: Fits(p)) && ps != [] && |Frame(ps[0])| <= k <= |Stream(ps)|
    ensures Stream(ps)[..k] == Frame(ps[0]) + Stream(ps[1..])[..k - |Frame(ps[0])|]
  {
  }

  /** Any prefix of a stream yields exactly its complete payloads and then an
      error. */
  lemma {:induction false} PrefixYieldsCompleteFrames(ps: seq<Payload>, k: nat)
    requires (forall p | p in ps :: Fits(p)) && k <= |Stream(ps)|
    ensures ReceiveAll(Stream(ps)[..k]) == Transcript(ps[..Complete(ps, k)], Truncated)
  {
    if ps == [] {
    } else if k < |Frame(ps[0])| {
      assert Stream(ps)[..k] == Frame(ps[0])[..k];
      ReceiveCutFrame(ps[0], k);
    } else {
      var m := k - |Frame(ps[0])|;
      StreamPrefix(ps, k);
      PrefixYieldsCompleteFrames(ps[1..], m);
      ReceiveAllFrame(ps[0], Stream(ps[1..])[..m]);
      assert [ps[0]] + ps[1..][..Complete(ps[1..], m)] == ps[..Complete(ps, k)];
    }
  }

  lemma StreamRoundTrip(ps: seq<Payload>)
    requires forall p | p in ps :: Fits(p)
    ensures ReceiveAll(Stream(ps)) == Transcript(ps, Truncated)
  {
    PrefixYieldsCompleteFrames(ps, |Stream(ps)|);
    CompleteIsMaximal(ps, |Stream(ps)|);
    assert Stream(ps)[..|Stream(ps)|] == Stream(ps);
    assert ps[..|ps|] == ps;
  }

  /** Conversely, whatever bytes arrive, the payloads a reader accepts are
      exactly those whose frames the bytes begin with. */
  lemma {:induction false} ReceivedIsWhatWasFramed(bytes: seq<byte>)
    ensures forall p | p in ReceiveAll(bytes).payloads :: Fits(p)
    ensures Stream(ReceiveAll(bytes).payloads) <= bytes
    decreases |bytes|
  {
    match Receive(bytes)
    case Got(payload, rest) =>
      ReceivedIsWhatWasFramed(rest);
      BytesRoundTrip(bytes[..4]);
      assert bytes == Frame(payload) + rest;
      var t := ReceiveAll(rest);
      assert ([payload] + t.payloads)[1..] == t.payloads;
    case _ =>
  }
}
