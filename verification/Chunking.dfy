/** agentclass.cpp: a response leaves in numbered packets of one chunk each. */
module Chunking {
  import opened BitStrings

  const UINT16_RANGE := 0x1_0000
  const MAX_CHUNKS := 255

  /** Of the header only the two fields that tell a chunk from another. */
  datatype Packet = Packet(chunkId: nat, chunks: nat, payload: seq<Octet>)

  // ---------- what is promised ----------

  /** s in pieces of the given size, the last one possibly shorter. */
  function Split<T>(s: seq<T>, size: nat): (r: seq<seq<T>>)
    requires size > 0
    decreases |s|
  {
    if |s| <= size then (if s == [] then [] else [s]) else [s[..size]] + Split(s[size..], size)
  }

  function Glued<T>(pieces: seq<seq<T>>): seq<T>
  {
    if pieces == [] then [] else pieces[0] + Glued(pieces[1..])
  }

  lemma {:induction false} SplitGlued<T>(s: seq<T>, size: nat)
    requires size > 0
    ensures Glued(Split(s, size)) == s
    decreases |s|
  {
    if |s| > size {
      SplitGlued(s[size..], size);
      assert Split(s, size)[1..] == Split(s[size..], size);
    } else if s != [] {
      assert Split(s, size)[1..] == [];
    }
  }

  /** Every piece but the last is full, and none is empty. */
  lemma {:induction false} PiecesAreFull<T>(s: seq<T>, size: nat)
    requires size > 0
    ensures forall k | 0 <= k < |Split(s, size)| :: 0 < |Split(s, size)[k]| <= size
    ensures forall k | 0 <= k < |Split(s, size)| - 1 :: |Split(s, size)[k]| == size
    decreases |s|
  {
    if |s| > size {
      PiecesAreFull(s[size..], size);
    }
  }

  /** size_t division. */
  function Quotient(n: nat, size: nat): nat
    requires size > 0
  {
    n / size
  }

  /** header.chunk_id * chunk_size */
  function Offset(k: nat, size: nat): (r: nat)
  {
    k * size
  }

  lemma {:induction false} OffsetNext(k: nat, size: nat)
    ensures Offset(k + 1, size) == Offset(k, size) + size && Offset(0, size) == 0
  {
  }

  lemma {:induction false} PieceAt<T>(s: seq<T>, size: nat, k: nat)
    requires size > 0 && Offset(k, size) < |s|
    ensures k < |Split(s, size)|
    ensures var begin := Offset(k, size);
      Split(s, size)[k] == s[begin..if begin + size < |s| then begin + size else |s|]
    decreases k
  {
    hide Offset;
    OffsetNext(k, size);
    if k > 0 {
      OffsetNext(k - 1, size);
      PieceAt(s[size..], size, k - 1);
    }
  }

  lemma {:induction false} PieceCount<T>(s: seq<T>, size: nat)
    requires size > 0 && s != []
    ensures |Split(s, size)| == Quotient(|s| - 1, size) + 1
    decreases |s|
  {
    hide Quotient;
    if |s| > size {
      PieceCount(s[size..], size);
      DivideNext(|s| - 1 - size, size);
    } else {
      DivideSmall(|s| - 1, size);
    }
  }

  lemma {:induction false} Grows(k: nat, j: nat, size: nat)
    requires k <= j
    ensures Offset(k, size) <= Offset(j, size)
  {
  }

  lemma {:induction false} QuotientFits(n: nat, size: nat)
    requires size > 0
    ensures Offset(Quotient(n, size), size) <= n < Offset(Quotient(n, size), size) + size
  {
  }

  lemma {:induction false} QuotientIs(n: nat, size: nat, quotient: nat)
    requires size > 0 && Offset(quotient, size) <= n < Offset(quotient, size) + size
    ensures Quotient(n, size) == quotient
  {
    hide Quotient, Offset;
    var q := Quotient(n, size);
    QuotientFits(n, size);
    if q < quotient {
      OffsetNext(q, size);
      Grows(q + 1, quotient, size);
    } else if quotient < q {
      OffsetNext(quotient, size);
      Grows(quotient + 1, q, size);
    }
  }

  lemma {:induction false} DivideNext(n: nat, size: nat)
    requires size > 0
    ensures Quotient(n + size, size) == Quotient(n, size) + 1
  {
    hide Quotient, Offset;
    var q := Quotient(n, size);
    QuotientFits(n, size);
    OffsetNext(q, size);
    QuotientIs(n + size, size, q + 1);
  }

  lemma {:induction false} DivideSmall(n: nat, size: nat)
    requires n < size
    ensures Quotient(n, size) == 0
  {
    OffsetNext(0, size);
    QuotientIs(n, size, 0);
  }

  // ---------- what the code computes ----------

  /** header.chunks */
  function ChunkCount(length: nat, size: nat): nat
    requires length > 0 && size > 0
  {
    if Quotient(length, size) > 254 then MAX_CHUNKS else Quotient(length - 1, size) + 1
  }

  /** As much of the response as 255 chunks can hold. */
  function Sendable(response: seq<Octet>, size: nat): seq<Octet>
  {
    if |response| <= MAX_CHUNKS * size then response else response[..MAX_CHUNKS * size]
  }

  function Numbered(pieces: seq<seq<Octet>>): (r: seq<Packet>)
  {
    seq(|pieces|, k requires 0 <= k < |pieces| => Packet(k, |pieces|, pieces[k]))
  }

  lemma {:induction false} PieceStarts<T>(s: seq<T>, size: nat, k: nat)
    requires size > 0 && k < |Split(s, size)|
    ensures Offset(k, size) < |s|
    decreases k
  {
    hide Offset;
    OffsetNext(k, size);
    if k > 0 {
      OffsetNext(k - 1, size);
      PieceStarts(s[size..], size, k - 1);
    }
  }

  lemma {:induction false} ManyChunks(n: nat, size: nat)
    requires size > 0
    ensures Quotient(n, size) > 254 <==> n >= MAX_CHUNKS * size
  {
    var q := Quotient(n, size);
    QuotientFits(n, size);
    assert Offset(MAX_CHUNKS, size) == MAX_CHUNKS * size;
    hide Quotient;
    if q > 254 {
      Grows(MAX_CHUNKS, q, size);
    } else {
      OffsetNext(q, size);
      Grows(q + 1, MAX_CHUNKS, size);
    }
  }

  /** The number in the header is the number of pieces of what can be sent. */
  lemma {:induction false} CountIsPieceCount(response: seq<Octet>, size: nat)
    requires response != [] && size > 0
    ensures |Split(Sendable(response, size), size)| == ChunkCount(|response|, size)
  {
    hide Split, Quotient;
    ManyChunks(|response|, size);
    PieceCount(Sendable(response, size), size);
    if |response| >= MAX_CHUNKS * size {
      assert Offset(254, size) == 254 * size;
      QuotientIs(MAX_CHUNKS * size - 1, size, 254);
    }
  }

  // ---------- the code ----------

  /** The two uint16 offsets of a chunk. They are right as long as the end of a full chunk fits 16 bits;
      if it does not, the end wraps to before the begin. */
  method ChunkRange(chunkId: nat, size: nat, length: nat) returns (chunkBegin: nat, chunkEnd: nat)
    requires size < UINT16_RANGE && Offset(chunkId, size) < UINT16_RANGE && Offset(chunkId, size) < length
    ensures chunkBegin == Offset(chunkId, size) && chunkEnd <= length
    ensures chunkBegin + size < UINT16_RANGE ==>
      chunkEnd == if chunkBegin + size < length then chunkBegin + size else length
    ensures chunkBegin + size >= UINT16_RANGE ==> chunkEnd < chunkBegin
  {
    hide Offset;
    chunkBegin := Offset(chunkId, size) % UINT16_RANGE;
    chunkEnd := (chunkBegin + size) % UINT16_RANGE;
    if chunkEnd > length {
      chunkEnd := length % UINT16_RANGE;
    }
  }

  lemma {:induction false} ChunkIsPiece(sent: seq<Octet>, size: nat, k: nat)
    requires size > 0 && k < |Split(sent, size)|
    ensures Offset(k, size) < |sent| && Offset(k + 1, size) == Offset(k, size) + size
    ensures Offset(k + 1, size) <= Offset(|Split(sent, size)|, size)
    ensures var begin := Offset(k, size);
      Split(sent, size)[k] == sent[begin..if begin + size < |sent| then begin + size else |sent|]
  {
    PieceStarts(sent, size, k);
    PieceAt(sent, size, k);
    OffsetNext(k, size);
    Grows(k + 1, |Split(sent, size)|, size);
  }

  lemma {:induction false} SentIsCut(response: seq<Octet>, size: nat, k: nat)
    requires size > 0 && Offset(k + 1, size) == Offset(k, size) + size && k < MAX_CHUNKS
    requires Offset(k, size) < |Sendable(response, size)|
    ensures var begin := Offset(k, size); var sent := Sendable(response, size);
      sent[begin..if begin + size < |sent| then begin + size else |sent|]
        == response[begin..if begin + size < |response| then begin + size else |response|]
  {
    Grows(k + 1, MAX_CHUNKS, size);
  }

  /** The end of the last chunk, were it full, fits a uint16. */
  predicate Fits(length: nat, size: nat)
    requires length > 0 && size > 0
  {
    ChunkCount(length, size) * size < UINT16_RANGE
  }

  /** push_response and push_hardware_response. When a wrapped end lies before its begin, the insertion of
      the range is undefined: complete says that this did not happen. */
  method PushResponse(response: seq<Octet>, size: nat) returns (packets: seq<Packet>, complete: bool)
    requires 0 < size < UINT16_RANGE
    ensures response == [] ==> complete && packets == []
    ensures response != [] ==> complete == Fits(|response|, size)
    ensures complete ==> packets == Numbered(Split(Sendable(response, size), size))
    ensures complete ==> forall k | 0 <= k < |packets| :: packets[k].chunkId == k && packets[k].chunks == |packets|
    ensures complete && response != [] ==> 1 <= |packets| <= 255
  {
    packets, complete := [], true;
    if response == [] {
      return;
    }
    ghost var sent := Sendable(response, size);
    ghost var pieces := Split(sent, size);
    var chunks := CountChunks(response, size);
    hide Split, ChunkCount, Sendable, Offset, Fits;
    FitsByOffset(|response|, size, 0);
    var chunkId := 0;
    while chunkId < chunks
      invariant 0 <= chunkId <= chunks && Offset(chunkId, size) < UINT16_RANGE
      invariant |packets| == chunkId && forall k | 0 <= k < chunkId :: packets[k] == Packet(k, chunks, pieces[k])
    {
      ChunkIsPiece(sent, size, chunkId);
      SentIsCut(response, size, chunkId);
      FitsByOffset(|response|, size, chunkId);
      var chunkBegin, chunkEnd := ChunkRange(chunkId, size, |response|);
      if chunkEnd < chunkBegin {
        return packets, false;
      }
      packets := packets + [Packet(chunkId, chunks, response[chunkBegin..chunkEnd])];
      chunkId := chunkId + 1;
    }
  }

  method CountChunks(response: seq<Octet>, size: nat) returns (chunks: nat)
    requires response != [] && size > 0
    ensures chunks == ChunkCount(|response|, size) == |Split(Sendable(response, size), size)| <= MAX_CHUNKS
  {
    hide Quotient, Split, Sendable;
    CountIsPieceCount(response, size);
    CountIsSmall(|response|, size);
    if Quotient(|response|, size) > 254 {
      chunks := 255;
    } else {
      chunks := Quotient(|response| - 1, size) + 1;
    }
  }

  lemma {:induction false} FitsByOffset(length: nat, size: nat, k: nat)
    requires length > 0 && size > 0
    ensures Fits(length, size) <==> Offset(ChunkCount(length, size), size) < UINT16_RANGE
    ensures Offset(k, size) == k * size && Offset(0, size) == 0
  {
  }

  /** All goes well for every response as long as a chunk holds at most 257 bytes; for each larger size
      some response of 255 chunks is not sent. */
  lemma {:induction false} SafeChunkSizes(size: nat)
    requires 0 < size < UINT16_RANGE
    ensures (forall length: nat | length > 0 :: Fits(length, size)) <==> size <= 257
  {
    hide ChunkCount;
    if size <= 257 {
      forall length: nat | length > 0 ensures Fits(length, size) {
        CountIsSmall(length, size);
        Grows(ChunkCount(length, size), MAX_CHUNKS, size);
      }
    } else {
      FullCount(size);
      assert !Fits(MAX_CHUNKS * size, size);
    }
  }

  lemma {:induction false} FullCount(size: nat)
    requires size > 0
    ensures ChunkCount(MAX_CHUNKS * size, size) == MAX_CHUNKS
  {
    hide Quotient;
    ManyChunks(MAX_CHUNKS * size, size);
  }

  lemma {:induction false} CountIsSmall(length: nat, size: nat)
    requires length > 0 && size > 0
    ensures ChunkCount(length, size) <= MAX_CHUNKS
  {
    hide Quotient;
    ManyChunks(length, size);
    ManyChunks(length - 1, size);
  }

  /** The receiver gets the response back by gluing the payloads: all of it, or what 255 chunks hold. */
  lemma {:induction false} PayloadsAreTheResponse(response: seq<Octet>, size: nat)
    requires response != [] && size > 0
    ensures var pieces := Split(Sendable(response, size), size);
      && Glued(pieces) == (if |response| <= 255 * size then response else response[..255 * size])
      && |pieces| == ChunkCount(|response|, size) <= 255
      && (forall k | 0 <= k < |pieces| :: 0 < |pieces[k]| <= size)
      && (forall k | 0 <= k < |pieces| - 1 :: |pieces[k]| == size)
  {
    SplitGlued(Sendable(response, size), size);
    PiecesAreFull(Sendable(response, size), size);
    CountIsPieceCount(response, size);
    CountIsSmall(|response|, size);
  }
}
