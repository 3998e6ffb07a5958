/** The bounded body reader of the ASGI adapter (app/token_payments/api/asgi.py). */
module RequestBody {
  import opened Wrappers

  type Bytes = seq<bv8>

  /** What one call of `receive` returns. */
  datatype Message = Request(body: Bytes, more: bool) | Disconnect | Other(kind: string)

  /** The n-th message that `receive` returns. */
  type Stream = nat -> Message

  /** Answers 413 and 400. */
  datatype Error = BodyTooLarge | UnsupportedMessage(kind: string) | StreamLimitExceeded

  const MAX_BODY_EVENTS := 128

  function BodyOf(m: Message): Bytes {
    if m.Request? then m.body else []
  }

  /** The bytes of the first `k` messages. */
  function Received(receive: Stream, k: nat): Bytes {
    if k == 0 then [] else Received(receive, k - 1) + BodyOf(receive(k - 1))
  }

  /** The reader asks for another message after the first `k`. */
  ghost predicate Continues(receive: Stream, k: nat, limit: nat) {
    k <= MAX_BODY_EVENTS && |Received(receive, k)| <= limit
    && forall i: nat :: i < k ==> receive(i).Request? && receive(i).more
  }

  /** The first `k` messages are a whole body: only the last one says that nothing follows. */
  ghost predicate IsWholeBody(receive: Stream, k: nat, limit: nat) {
    && 1 <= k <= MAX_BODY_EVENTS && |Received(receive, k)| <= limit
    && (forall i: nat :: i < k ==> receive(i).Request? && (receive(i).more <==> i < k - 1))
  }

  /** The only result there can be, and how many messages were taken. */
  ghost predicate Outcome(receive: Stream, limit: nat, r: Result<Bytes, Error>, taken: nat) {
    || (r == Err(StreamLimitExceeded) && taken == MAX_BODY_EVENTS && Continues(receive, taken, limit))
    || (&& 1 <= taken <= MAX_BODY_EVENTS && Continues(receive, taken - 1, limit)
        && match receive(taken - 1)
           case Disconnect => r == Err(StreamLimitExceeded)
           case Other(kind) => r == Err(UnsupportedMessage(kind))
           case Request(body, more) =>
             if |Received(receive, taken)| > limit then r == Err(BodyTooLarge)
             else !more && r == Ok(Received(receive, taken)))
  }

  /** `_body_from_asgi_receive`. */
  method BodyFromReceive(receive: Stream, limit: nat) returns (r: Result<Bytes, Error>, taken: nat)
    ensures Outcome(receive, limit, r, taken)
  {
    var chunks: Bytes := [];
    var total := 0;
    taken := 0;
    while taken < MAX_BODY_EVENTS
      invariant Continues(receive, taken, limit)
      invariant chunks == Received(receive, taken) && total == |chunks|
    {
      var message := receive(taken);
      taken := taken + 1;
      match message {
        case Disconnect =>
          return Err(StreamLimitExceeded), taken;
        case Other(kind) =>
          return Err(UnsupportedMessage(kind)), taken;
        case Request(body, more) =>
          total := total + |body|;
          if total > limit {
            return Err(BodyTooLarge), taken;
          }
          chunks := chunks + body;
          if !more {
            return Ok(chunks), taken;
          }
      }
    }
    r := Err(StreamLimitExceeded);
  }

  lemma {:induction false} ReceivedGrows(receive: Stream, i: nat, k: nat)
    requires i <= k
    ensures |Received(receive, i)| <= |Received(receive, k)|
  {
    if i < k {
      ReceivedGrows(receive, i, k - 1);
    }
  }

  /** Every stream has one outcome. */
  lemma OutcomeIsUnique(receive: Stream, limit: nat, r1: Result<Bytes, Error>, taken1: nat, r2: Result<Bytes, Error>,
                        taken2: nat)
    requires Outcome(receive, limit, r1, taken1) && Outcome(receive, limit, r2, taken2)
    ensures r1 == r2 && taken1 == taken2
  {
    if taken1 < taken2 {
      StopsAt(receive, limit, r1, taken1, taken2);
    } else if taken2 < taken1 {
      StopsAt(receive, limit, r2, taken2, taken1);
    }
  }

  lemma StopsAt(receive: Stream, limit: nat, r: Result<Bytes, Error>, taken: nat, k: nat)
    requires Outcome(receive, limit, r, taken) && taken < k <= MAX_BODY_EVENTS
    ensures !Continues(receive, k - 1, limit)
  {
    ReceivedGrows(receive, taken, k - 1);
  }

  /** The reader returns bytes exactly when the stream starts with a whole body of at most 128 messages
      within the limit; they are its bytes, and just its messages were taken. */
  lemma ReturnsBodyIff(receive: Stream, limit: nat, r: Result<Bytes, Error>, taken: nat, b: Bytes)
    requires Outcome(receive, limit, r, taken)
    ensures r == Ok(b) <==> exists k: nat :: IsWholeBody(receive, k, limit) && b == Received(receive, k)
    ensures r.Ok? ==> IsWholeBody(receive, taken, limit)
  {
    if r.Ok? {
      assert IsWholeBody(receive, taken, limit);
    }
    if k: nat :| IsWholeBody(receive, k, limit) && b == Received(receive, k) {
      ReceivedGrows(receive, k - 1, k);
      OutcomeIsUnique(receive, limit, r, taken, Ok(b), k);
    }
  }

  // ----- a body that a client sends in chunks -----

  function Flatten(chunks: seq<Bytes>): Bytes {
    if chunks == [] then [] else Flatten(chunks[..|chunks| - 1]) + chunks[|chunks| - 1]
  }

  /** The server delivers the body in these chunks. */
  ghost predicate Delivers(receive: Stream, chunks: seq<Bytes>) {
    chunks != [] && forall i: nat :: i < |chunks| ==> receive(i) == Request(chunks[i], i < |chunks| - 1)
  }

  lemma {:induction false} ReceivedIsFlat(receive: Stream, chunks: seq<Bytes>, k: nat)
    requires Delivers(receive, chunks) && k <= |chunks|
    ensures Received(receive, k) == Flatten(chunks[..k])
  {
    if k > 0 {
      ReceivedIsFlat(receive, chunks, k - 1);
      assert chunks[..k][..k - 1] == chunks[..k - 1];
    }
  }

  function Least(a: nat, b: nat): nat {
    if a < b then a else b
  }

  /** The first `k` messages are too large, and the reader gets to see that. */
  lemma {:induction false} TooLargeStops(receive: Stream, chunks: seq<Bytes>, limit: nat, k: nat) returns (taken: nat)
    requires Delivers(receive, chunks) && k <= Least(|chunks|, MAX_BODY_EVENTS) && |Received(receive, k)| > limit
    ensures Outcome(receive, limit, Err(BodyTooLarge), taken)
  {
    if |Received(receive, k - 1)| > limit {
      taken := TooLargeStops(receive, chunks, limit, k - 1);
    } else {
      forall i: nat | i < k - 1 ensures receive(i).Request? && receive(i).more {
        assert receive(i) == Request(chunks[i], i < |chunks| - 1);
      }
      assert receive(k - 1) == Request(chunks[k - 1], k - 1 < |chunks| - 1);
      taken := k;
    }
  }

  /** The result depends on the bytes and on how many chunks they come in, not on where they are cut:
      a body is returned exactly when it fits the limit and comes in at most 128 chunks. */
  lemma ChunkedBody(receive: Stream, chunks: seq<Bytes>, limit: nat, r: Result<Bytes, Error>, taken: nat)
    requires Delivers(receive, chunks) && Outcome(receive, limit, r, taken)
    ensures var seen := Flatten(chunks[..Least(|chunks|, MAX_BODY_EVENTS)]);
      r == if |seen| > limit then Err(BodyTooLarge)
           else if |chunks| > MAX_BODY_EVENTS then Err(StreamLimitExceeded)
           else Ok(Flatten(chunks))
  {
    var k := Least(|chunks|, MAX_BODY_EVENTS);
    ReceivedIsFlat(receive, chunks, k);
    if |Received(receive, k)| > limit {
      var stop := TooLargeStops(receive, chunks, limit, k);
      OutcomeIsUnique(receive, limit, r, taken, Err(BodyTooLarge), stop);
    } else if |chunks| > MAX_BODY_EVENTS {
      StreamRunsOut(receive, chunks, limit);
      OutcomeIsUnique(receive, limit, r, taken, Err(StreamLimitExceeded), k);
    } else {
      assert chunks[..k] == chunks;
      StreamEnds(receive, chunks, limit);
      OutcomeIsUnique(receive, limit, r, taken, Ok(Received(receive, k)), k);
    }
  }

  lemma StreamRunsOut(receive: Stream, chunks: seq<Bytes>, limit: nat)
    requires Delivers(receive, chunks) && |chunks| > MAX_BODY_EVENTS && |Received(receive, MAX_BODY_EVENTS)| <= limit
    ensures Outcome(receive, limit, Err(StreamLimitExceeded), MAX_BODY_EVENTS)
  {
  }

  lemma StreamEnds(receive: Stream, chunks: seq<Bytes>, limit: nat)
    requires Delivers(receive, chunks) && |chunks| <= MAX_BODY_EVENTS && |Received(receive, |chunks|)| <= limit
    ensures Outcome(receive, limit, Ok(Received(receive, |chunks|)), |chunks|)
  {
    var k := |chunks|;
    ReceivedGrows(receive, k - 1, k);
    forall i: nat | i < k ensures receive(i) == Request(chunks[i], i < k - 1) {
    }
  }

  /** Two deliveries of the same bytes in at most 128 chunks each have the same result. */
  lemma ChunkingDoesNotMatter(receive1: Stream, chunks1: seq<Bytes>, r1: Result<Bytes, Error>, taken1: nat,
                              receive2: Stream, chunks2: seq<Bytes>, r2: Result<Bytes, Error>, taken2: nat, limit: nat)
    requires Delivers(receive1, chunks1) && Outcome(receive1, limit, r1, taken1)
    requires Delivers(receive2, chunks2) && Outcome(receive2, limit, r2, taken2)
    requires Flatten(chunks1) == Flatten(chunks2) && |chunks1| <= MAX_BODY_EVENTS && |chunks2| <= MAX_BODY_EVENTS
    ensures r1 == r2
  {
    ChunkedBody(receive1, chunks1, limit, r1, taken1);
    ChunkedBody(receive2, chunks2, limit, r2, taken2);
    assert chunks1[..|chunks1|] == chunks1 && chunks2[..|chunks2|] == chunks2;
  }
}
