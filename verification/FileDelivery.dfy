// A file from end to end: which files, cut into chunks of which size, a receiver ends up with.
module FileDelivery {
  import opened Common
  import opened Reassembly
  import opened ChunkOrder
  import opened FileChunks
  import opened FileTransfer
  import Framing
  import StreamReader

  /** The body is within the limit of the file stream. */
  predicate Fits(body: seq<Byte>) {
    |body| <= 1_048_576
  }

  predicate AllFit(cs: seq<Chunk>, codec: Codec) {
    forall k :: 0 <= k < |cs| ==> Fits(codec.encodeChunk(cs[k]))
  }

  // ---------------------------------------------------------------------
  // Reading back what was written
  // ---------------------------------------------------------------------

  lemma {:induction false} WireRead(
    typeRaw: nat, body: seq<Byte>, rest: seq<Byte>, end: StreamReader.StreamEnd, codec: Codec)
    requires typeRaw <= U16_MAX && Writable(body)
    ensures if Fits(body) then MessageOn(Wire(typeRaw, body) + rest, end, codec)
                               == (MessageOf(Framing.Envelope(typeRaw, body), codec), rest)
            else MessageOn(Wire(typeRaw, body) + rest, end, codec).0.Unreadable?
  {
    var head := Wire(typeRaw, body);
    Framing.EnvelopeRoundTrip(Framing.Envelope(typeRaw, body), rest, LIMIT);
    assert (head + rest)[|head|..] == rest;
  }

  lemma {:induction false} ChunkRead(c: Chunk, rest: seq<Byte>, end: StreamReader.StreamEnd, codec: Codec)
    requires Sound(codec) && Writable(codec.encodeChunk(c))
    ensures var bytes := Wire(FILE_CHUNK, codec.encodeChunk(c)) + rest;
            if Fits(codec.encodeChunk(c)) then MessageOn(bytes, end, codec) == (ChunkMessage(c), rest)
            else MessageOn(bytes, end, codec).0.Unreadable?
  {
    WireRead(FILE_CHUNK, codec.encodeChunk(c), rest, end, codec);
    assert codec.decodeChunk(codec.encodeChunk(c)) == Some(c);
  }

  lemma {:induction false} CompleteRead(
    checksum: seq<Byte>, rest: seq<Byte>, end: StreamReader.StreamEnd, codec: Codec)
    requires Sound(codec) && Writable(codec.encodeComplete(checksum))
    ensures var bytes := Wire(FILE_TRANSFER_COMPLETE, codec.encodeComplete(checksum)) + rest;
            if Fits(codec.encodeComplete(checksum))
            then MessageOn(bytes, end, codec) == (CompleteMessage(checksum), rest)
            else MessageOn(bytes, end, codec).0.Unreadable?
  {
    WireRead(FILE_TRANSFER_COMPLETE, codec.encodeComplete(checksum), rest, end, codec);
    assert codec.decodeComplete(codec.encodeComplete(checksum)) == Some(checksum);
  }

  /** Chunks that fit are read back one by one. */
  lemma {:induction false} LeadingOfWire(
    cs: seq<Chunk>, k: nat, n: nat, tail: seq<Byte>, end: StreamReader.StreamEnd, codec: Codec)
    requires Sound(codec) && AllWritable(cs, codec) && k <= n <= |cs|
    requires forall i :: k <= i < n ==> Fits(codec.encodeChunk(cs[i]))
    ensures Leading(ChunksWire(cs, k, codec, tail), end, codec, cs[..k])
         == Leading(ChunksWire(cs, n, codec, tail), end, codec, cs[..n])
    decreases n - k
  {
    if k < n {
      ChunkRead(cs[k], ChunksWire(cs, k + 1, codec, tail), end, codec);
      assert cs[..k] + [cs[k]] == cs[..k + 1];
      LeadingOfWire(cs, k + 1, n, tail, end, codec);
    }
  }

  lemma {:induction false} AllRead(cs: seq<Chunk>, tail: seq<Byte>, end: StreamReader.StreamEnd, codec: Codec)
    requires Sound(codec) && AllWritable(cs, codec) && AllFit(cs, codec)
    ensures Leading(ChunksWire(cs, 0, codec, tail), end, codec, []) == Leading(tail, end, codec, cs)
  {
    LeadingOfWire(cs, 0, |cs|, tail, end, codec);
    assert cs[..0] == [] && cs[..|cs|] == cs;
  }

  /** Reading gets stuck at the first chunk that does not fit. */
  lemma {:induction false} StuckAt(
    cs: seq<Chunk>, n: nat, tail: seq<Byte>, end: StreamReader.StreamEnd, codec: Codec)
    requires Sound(codec) && AllWritable(cs, codec) && n < |cs| && !Fits(codec.encodeChunk(cs[n]))
    requires forall i :: 0 <= i < n ==> Fits(codec.encodeChunk(cs[i]))
    ensures MessageOn(Leading(ChunksWire(cs, 0, codec, tail), end, codec, []).1, end, codec).0.Unreadable?
  {
    LeadingOfWire(cs, 0, n, tail, end, codec);
    assert cs[..0] == [];
    ChunkRead(cs[n], ChunksWire(cs, n + 1, codec, tail), end, codec);
  }

  lemma {:induction false} FirstUnfit(cs: seq<Chunk>, codec: Codec) returns (n: nat)
    requires !AllFit(cs, codec)
    ensures n < |cs| && !Fits(codec.encodeChunk(cs[n]))
    ensures forall i :: 0 <= i < n ==> Fits(codec.encodeChunk(cs[i]))
  {
    n := 0;
    while Fits(codec.encodeChunk(cs[n]))
      invariant n < |cs| && forall i :: 0 <= i < n ==> Fits(codec.encodeChunk(cs[i]))
      decreases |cs| - n
    {
      assert n == |cs| - 1 ==> AllFit(cs, codec);
      n := n + 1;
    }
  }

  /** Chunks and a completion, as read by the receiver. */
  lemma {:induction false} WrittenIsConcluded(
    size: nat, cs: seq<Chunk>, checksum: seq<Byte>, more: seq<Byte>, end: StreamReader.StreamEnd, codec: Codec,
    data: seq<Byte>, hash: Hash)
    requires Sound(codec) && AllWritable(cs, codec) && Writable(codec.encodeComplete(checksum))
    ensures var bytes := ChunksWire(cs, 0, codec, Wire(FILE_TRANSFER_COMPLETE, codec.encodeComplete(checksum)) + more);
            Conclusion(Fresh(size), bytes, end, codec, hash) == Complete(data)
            <==> && AllFit(cs, codec) && Fits(codec.encodeComplete(checksum))
                 && checksum == hash(data) && Rebuilds(size, cs, data)
  {
    var tail := Wire(FILE_TRANSFER_COMPLETE, codec.encodeComplete(checksum)) + more;
    CompletesIffDelivered(size, ChunksWire(cs, 0, codec, tail), end, codec, data, hash);
    CompleteRead(checksum, more, end, codec);
    if AllFit(cs, codec) {
      AllRead(cs, tail, end, codec);
    } else {
      var n := FirstUnfit(cs, codec);
      StuckAt(cs, n, tail, end, codec);
    }
  }

  // ---------------------------------------------------------------------
  // End to end
  // ---------------------------------------------------------------------

  lemma {:induction false} PermutedBodies(cs: seq<Chunk>, p: seq<nat>, codec: Codec)
    requires IsPermutation(p, |cs|)
    ensures AllFit(cs, codec) <==> AllFit(Permuted(cs, p), codec)
    ensures AllWritable(cs, codec) ==> AllWritable(Permuted(cs, p), codec)
  {
    var ds := Permuted(cs, p);
    if AllFit(ds, codec) {
      forall k | 0 <= k < |cs|
        ensures Fits(codec.encodeChunk(cs[k]))
      {
        assert ds[Position(p, |cs|, k)] == cs[k];
      }
    }
  }

  /** The bytes of the chunks in another order. */
  function PermutedWire(cs: seq<Chunk>, p: seq<nat>, codec: Codec, tail: seq<Byte>): seq<Byte>
    requires IsPermutation(p, |cs|) && AllWritable(cs, codec)
  {
    PermutedBodies(cs, p, codec);
    ChunksWire(Permuted(cs, p), 0, codec, tail)
  }

  /** What one side sends, in whatever order its chunks go out, is what the other side ends with if and only if it
      expects the right size, the chunk size can carry it, and every message is within the limit of the stream. */
  lemma {:induction false} SentIsReceived(
    data: seq<Byte>, chunkSize: nat, cs: seq<Chunk>, p: seq<nat>, size: nat, more: seq<Byte>,
    end: StreamReader.StreamEnd, codec: Codec, hash: Hash)
    requires |data| <= U64_MAX && size <= U64_MAX && IsSplit(data, chunkSize, cs) && IsPermutation(p, |cs|)
    requires Sound(codec) && AllWritable(cs, codec) && Writable(codec.encodeComplete(hash(data)))
    ensures var complete := Wire(FILE_TRANSFER_COMPLETE, codec.encodeComplete(hash(data)));
            var bytes := PermutedWire(cs, p, codec, complete + more);
            Conclusion(Fresh(size), bytes, end, codec, hash) == Complete(data)
            <==> && size == |data| && Carries(chunkSize, |data|)
                 && AllFit(cs, codec) && Fits(codec.encodeComplete(hash(data)))
  {
    RoundTripInAnyOrder(data, chunkSize, cs, p, size);
    PermutedBodies(cs, p, codec);
    WrittenIsConcluded(size, Permuted(cs, p), hash(data), more, end, codec, data, hash);
  }

  /** An encoding that holds the chunk's bytes as they are, and something more. */
  ghost predicate Verbatim(codec: Codec) {
    forall c :: |codec.encodeChunk(c)| > |c.data|
  }

  /** With such an encoding, chunks that fit are shorter than the limit, so their lengths are never cut; a file of one
      mebibyte or more never arrives in chunks of that size. */
  lemma {:induction false} FittingChunksAreShort(data: seq<Byte>, chunkSize: nat, cs: seq<Chunk>, codec: Codec)
    requires |data| <= U64_MAX && IsSplit(data, chunkSize, cs) && Verbatim(codec) && AllFit(cs, codec)
    ensures chunkSize < 1_048_576 || |data| < 1_048_576
    ensures Carries(chunkSize, |data|) <==> chunkSize >= 1 || |data| <= 1
  {
    if |data| > 0 {
      Positive(|cs|, Piece(chunkSize));
      assert cs[0] == ChunkAt(data, chunkSize, 0);
      assert |codec.encodeChunk(cs[0])| > |cs[0].data|;
    }
  }

  ghost function Identity(n: nat): (p: seq<nat>)
    ensures IsPermutation(p, n)
  {
    var p := seq(n, k => k);
    assert forall v: nat :: v < n ==> v in p by {
      forall v: nat | v < n
        ensures v in p
      {
        assert p[v] == v;
      }
    }
    p
  }

  lemma {:induction false} InOrder(cs: seq<Chunk>)
    ensures Permuted(cs, Identity(|cs|)) == cs
  {
  }

  /** One side sends, the network delivers in pieces of its choice, the other side receives. */
  method Transfer(data: seq<Byte>, chunkSize: U64, size: U64, codec: Codec, hash: Hash)
    returns (outcome: Outcome)
    requires |data| <= U64_MAX && Sound(codec) && Writable(codec.encodeComplete(hash(data)))
    requires forall index: nat {:trigger ChunkWritable(data, chunkSize, codec, index)} ::
               ChunkWritable(data, chunkSize, codec, index)
    ensures outcome == Complete(data)
       <==> && size == |data| && Carries(chunkSize, |data|)
            && AllFit(SplitOf(data, chunkSize), codec) && Fits(codec.encodeComplete(hash(data)))
  {
    ghost var cs := SplitOf(data, chunkSize);
    var sent := SendFileData(data, chunkSize, codec, hash);
    var stream := new StreamReader.RecvStream(sent, StreamReader.Finished);
    var reader := new StreamReader.EnvelopeReader(stream);
    outcome := ReceiveFile(reader, size, codec, hash, false);
    InOrder(cs);
    var complete := Wire(FILE_TRANSFER_COMPLETE, codec.encodeComplete(hash(data)));
    assert complete + [] == complete && [] + sent == sent;
    SentIsReceived(data, chunkSize, cs, Identity(|cs|), size, [], StreamReader.Finished, codec, hash);
  }
}
