// Sending a file over its stream and receiving it (src/file_transfer_session.rs): chunks and a
// completion, each in an envelope no longer than the file stream allows.
module FileTransfer {
  import opened Common
  import opened Reassembly
  import opened ChunkOrder
  import opened FileChunks
  import Framing
  import StreamReader
  import Varint

  const FILE_CHUNK: nat := 0x0018
  const FILE_TRANSFER_COMPLETE: nat := 0x0019

  /** The longest envelope a file stream may carry. */
  const LIMIT: nat := Framing.StreamKind.File.MaxEnvelopeLength()

  type Hash = seq<Byte> -> seq<Byte>

  /** The encoding of message bodies, of which only `Sound` is assumed. */
  datatype Codec = Codec(
    encodeChunk: Chunk -> seq<Byte>,
    decodeChunk: seq<Byte> -> Option<Chunk>,
    encodeComplete: seq<Byte> -> seq<Byte>,
    decodeComplete: seq<Byte> -> Option<seq<Byte>>)

  /** Decoding undoes encoding. */
  ghost predicate Sound(codec: Codec) {
    && (forall c :: codec.decodeChunk(codec.encodeChunk(c)) == Some(c))
    && forall checksum :: codec.decodeComplete(codec.encodeComplete(checksum)) == Some(checksum)
  }

  // ---------------------------------------------------------------------
  // The sender
  // ---------------------------------------------------------------------

  /** The body is short enough for an envelope's length field. */
  predicate Writable(body: seq<Byte>) {
    |body| <= Varint.MAX
  }

  function Wire(typeRaw: nat, body: seq<Byte>): seq<Byte>
    requires typeRaw <= U16_MAX && Writable(body)
  {
    Framing.EnvelopeBytes(Framing.Envelope(typeRaw, body))
  }

  predicate AllWritable(cs: seq<Chunk>, codec: Codec) {
    forall k :: 0 <= k < |cs| ==> Writable(codec.encodeChunk(cs[k]))
  }

  /** The bytes of the chunks from index `k` on, and then `tail`. */
  function ChunksWire(cs: seq<Chunk>, k: nat, codec: Codec, tail: seq<Byte>): seq<Byte>
    requires k <= |cs| && AllWritable(cs, codec)
    decreases |cs| - k
  {
    if k == |cs| then tail else Wire(FILE_CHUNK, codec.encodeChunk(cs[k])) + ChunksWire(cs, k + 1, codec, tail)
  }

  lemma {:induction false} ChunksWireExtends(cs: seq<Chunk>, c: Chunk, k: nat, codec: Codec, tail: seq<Byte>)
    requires k <= |cs| && AllWritable(cs, codec) && Writable(codec.encodeChunk(c))
    ensures AllWritable(cs + [c], codec)
    ensures ChunksWire(cs + [c], k, codec, tail)
         == ChunksWire(cs, k, codec, Wire(FILE_CHUNK, codec.encodeChunk(c)) + tail)
    decreases |cs| - k
  {
    if k < |cs| {
      ChunksWireExtends(cs, c, k + 1, codec, tail);
    } else {
      assert (cs + [c])[k] == c;
    }
  }

  lemma {:induction false} ChunksWireTail(cs: seq<Chunk>, k: nat, codec: Codec, a: seq<Byte>, b: seq<Byte>)
    requires k <= |cs| && AllWritable(cs, codec)
    ensures ChunksWire(cs, k, codec, a + b) == ChunksWire(cs, k, codec, a) + b
    decreases |cs| - k
  {
    if k < |cs| {
      ChunksWireTail(cs, k + 1, codec, a, b);
      Regroup(Wire(FILE_CHUNK, codec.encodeChunk(cs[k])), ChunksWire(cs, k + 1, codec, a), b);
    }
  }

  lemma {:induction false} Regroup(a: seq<Byte>, b: seq<Byte>, c: seq<Byte>)
    ensures a + (b + c) == a + b + c
  {
  }

  lemma {:induction false} AppendChunk(cs: seq<Chunk>, c: Chunk, codec: Codec)
    requires AllWritable(cs, codec) && Writable(codec.encodeChunk(c))
    ensures AllWritable(cs + [c], codec)
    ensures ChunksWire(cs + [c], 0, codec, [])
         == ChunksWire(cs, 0, codec, []) + Wire(FILE_CHUNK, codec.encodeChunk(c))
  {
    var last := Wire(FILE_CHUNK, codec.encodeChunk(c));
    ChunksWireExtends(cs, c, 0, codec, []);
    ChunksWireTail(cs, 0, codec, [], last);
    assert last + [] == last == [] + last;
  }

  /** Chunk `index` of the data, if there is one, can be written. */
  predicate ChunkWritable(data: seq<Byte>, chunkSize: nat, codec: Codec, index: nat)
    requires |data| <= U64_MAX
  {
    index * Piece(chunkSize) < |data| ==> Writable(codec.encodeChunk(ChunkAt(data, chunkSize, index)))
  }

  /** The first chunks of the data have been sent. */
  ghost predicate Underway(data: seq<Byte>, chunkSize: nat, codec: Codec, chunks: seq<Chunk>, sent: seq<Byte>)
    requires |data| <= U64_MAX
  {
    && FirstChunks(data, chunkSize, chunks) && AllWritable(chunks, codec)
    && sent == ChunksWire(chunks, 0, codec, [])
  }

  lemma {:induction false} UnderwayNext(
    data: seq<Byte>, chunkSize: nat, codec: Codec, chunks: seq<Chunk>, sent: seq<Byte>, c: Chunk)
    requires |data| <= U64_MAX && Underway(data, chunkSize, codec, chunks, sent)
    requires |chunks| * Piece(chunkSize) < |data| && c == ChunkAt(data, chunkSize, |chunks|)
    requires Writable(codec.encodeChunk(c))
    ensures Underway(data, chunkSize, codec, chunks + [c], sent + Wire(FILE_CHUNK, codec.encodeChunk(c)))
  {
    AppendChunk(chunks, c, codec);
  }

  lemma {:induction false} UnderwayEnds(
    data: seq<Byte>, chunkSize: nat, codec: Codec, chunks: seq<Chunk>, sent: seq<Byte>, tail: seq<Byte>)
    requires |data| <= U64_MAX && Underway(data, chunkSize, codec, chunks, sent)
    ensures sent + tail == ChunksWire(chunks, 0, codec, tail)
  {
    ChunksWireTail(chunks, 0, codec, [], tail);
    assert [] + tail == tail;
  }

  /** Sends all chunks of the data in order, and then the checksum of the whole. */
  method SendFileData(data: seq<Byte>, chunkSize: U64, codec: Codec, hash: Hash)
    returns (sent: seq<Byte>)
    requires |data| <= U64_MAX && Writable(codec.encodeComplete(hash(data)))
    requires forall index: nat {:trigger ChunkWritable(data, chunkSize, codec, index)} ::
               ChunkWritable(data, chunkSize, codec, index)
    ensures AllWritable(SplitOf(data, chunkSize), codec)
    ensures sent == ChunksWire(SplitOf(data, chunkSize), 0, codec,
                               Wire(FILE_TRANSFER_COMPLETE, codec.encodeComplete(hash(data))))
  {
    sent := [];
    ghost var chunks: seq<Chunk> := [];
    var index: nat, start: nat := 0, 0;
    while start < |data|
      invariant start == index * Piece(chunkSize) && |chunks| == index
      invariant Underway(data, chunkSize, codec, chunks, sent)
      decreases |data| - start
    {
      OffsetFits(chunkSize, index);
      var chunk := Cut(data, Piece(chunkSize), start, index * chunkSize);
      assert ChunkWritable(data, chunkSize, codec, index);
      UnderwayNext(data, chunkSize, codec, chunks, sent, chunk);
      sent := Framing.EncodeEnvelope(Framing.Envelope(FILE_CHUNK, codec.encodeChunk(chunk)), sent);
      chunks := chunks + [chunk];
      NextMultiple(Piece(chunkSize), index);
      index := index + 1;
      start := start + Piece(chunkSize);
    }
    var complete := Framing.Envelope(FILE_TRANSFER_COMPLETE, codec.encodeComplete(hash(data)));
    UnderwayEnds(data, chunkSize, codec, chunks, sent, Framing.EnvelopeBytes(complete));
    sent := Framing.EncodeEnvelope(complete, sent);
    SplitUnique(data, chunkSize, chunks);
  }

  // ---------------------------------------------------------------------
  // The receiver
  // ---------------------------------------------------------------------

  /** One message read off the stream, or why there is none. */
  datatype Message =
    | ChunkMessage(chunk: Chunk)
    | CompleteMessage(checksum: seq<Byte>)
    | OtherMessage(typeRaw: nat)
    | Undecodable
    | Unreadable(error: StreamReader.ReadError)

  function MessageOf(env: Framing.Envelope, codec: Codec): Message {
    if env.typeRaw == FILE_CHUNK then
      match codec.decodeChunk(env.payload)
      case Some(c) => ChunkMessage(c)
      case None => Undecodable
    else if env.typeRaw == FILE_TRANSFER_COMPLETE then
      match codec.decodeComplete(env.payload)
      case Some(checksum) => CompleteMessage(checksum)
      case None => Undecodable
    else OtherMessage(env.typeRaw)
  }

  /** The message at the front of the unread bytes, and what then is left. */
  function MessageOn(bytes: seq<Byte>, end: StreamReader.StreamEnd, codec: Codec): (r: (Message, seq<Byte>))
    ensures !r.0.Unreadable? ==> |r.1| < |bytes|
  {
    StreamReader.ParsedWithin(bytes, LIMIT);
    match StreamReader.EnvelopeOn(bytes, end, LIMIT)
    case (Ok(env), rest) => (MessageOf(env, codec), rest)
    case (Err(e), rest) => (Unreadable(e), rest)
  }

  datatype Failure = DecodeFailure | ReadFailure(error: StreamReader.ReadError) | UnexpectedType(typeRaw: nat)

  /** The verified file, a reason the caller must report on the control stream, or a broken stream. */
  datatype Outcome = Complete(data: seq<Byte>) | Report(reason: Reason) | Failed(failure: Failure)

  /** What the receiver concludes from the state it has built and the bytes still unread. */
  ghost function Conclusion(
    s: State, bytes: seq<Byte>, end: StreamReader.StreamEnd, codec: Codec, hash: Hash): Outcome
    requires |s.data| == s.size
    decreases |bytes|
  {
    match MessageOn(bytes, end, codec)
    case (ChunkMessage(c), rest) =>
      (match Refusal(s, c)
       case Some(reason) => Report(reason)
       case None => Conclusion(Accept(s, c), rest, end, codec, hash))
    case (CompleteMessage(checksum), _) =>
      if !Covers(s.ranges, s.size) then Report(IncompleteTransfer)
      else if hash(s.data) != checksum then Report(ChecksumMismatch)
      else Complete(s.data)
    case (OtherMessage(typeRaw), _) => Failed(UnexpectedType(typeRaw))
    case (Undecodable, _) => Failed(DecodeFailure)
    case (Unreadable(e), _) => Failed(ReadFailure(e))
  }

  /** The outcome is the one the bytes call for, however they arrive, unless the stall timer fires while the receiver
      waits for more of them. */
  method ReceiveFile(reader: StreamReader.EnvelopeReader, resolvedSize: U64, codec: Codec, hash: Hash, mayStall: bool)
    returns (outcome: Outcome)
    requires reader.peak >= |reader.buf|
    modifies reader, reader.recv
    ensures || outcome == Conclusion(Fresh(resolvedSize), old(reader.Unread()), reader.recv.end, codec, hash)
            || (mayStall && outcome == Report(StallTimeout))
  {
    ghost var conclusion := Conclusion(Fresh(resolvedSize), reader.Unread(), reader.recv.end, codec, hash);
    var reassembly := new FileReassembly(resolvedSize);
    while true
      invariant fresh(reassembly) && fresh(reassembly.data) && Valid(reassembly.Value())
      invariant reader.peak >= |reader.buf|
      invariant Conclusion(reassembly.Value(), reader.Unread(), reader.recv.end, codec, hash) == conclusion
      decreases |reader.Unread()|
    {
      ghost var before := reader.Unread();
      StreamReader.ParsedWithin(before, LIMIT);
      var read := reader.ReadEnvelope(Framing.StreamKind.File.MaxEnvelopeLength(), mayStall);
      if read.None? {
        return Report(StallTimeout);
      }
      if read.value.Err? {
        return Failed(ReadFailure(read.value.error));
      }
      var env := read.value.value;
      assert MessageOn(before, reader.recv.end, codec) == (MessageOf(env, codec), reader.Unread());
      if env.typeRaw == FILE_CHUNK {
        var chunk := codec.decodeChunk(env.payload);
        if chunk.None? {
          return Failed(DecodeFailure);
        }
        var applied := reassembly.ApplyChunk(chunk.value);
        if applied.Err? {
          return Report(applied.error);
        }
      } else if env.typeRaw == FILE_TRANSFER_COMPLETE {
        var checksum := codec.decodeComplete(env.payload);
        if checksum.None? {
          return Failed(DecodeFailure);
        }
        var complete := reassembly.IsComplete();
        if !complete {
          return Report(IncompleteTransfer);
        }
        var matches := reassembly.VerifyChecksum(hash, checksum.value);
        if !matches {
          return Report(ChecksumMismatch);
        }
        return Complete(reassembly.data[..]);
      } else {
        return Failed(UnexpectedType(env.typeRaw));
      }
    }
  }

  // ---------------------------------------------------------------------
  // When a file is delivered
  // ---------------------------------------------------------------------

  /** `acc` and the chunks that open the stream, and the bytes after them. */
  function Leading(bytes: seq<Byte>, end: StreamReader.StreamEnd, codec: Codec, acc: seq<Chunk>)
    : (seq<Chunk>, seq<Byte>)
    decreases |bytes|
  {
    match MessageOn(bytes, end, codec)
    case (ChunkMessage(c), rest) => Leading(rest, end, codec, acc + [c])
    case _ => (acc, bytes)
  }

  /** The chunks `cs` rebuild the data, and the bytes go on with a completion that carries its checksum. */
  ghost predicate Delivers(
    size: nat, cs: seq<Chunk>, rest: seq<Byte>, end: StreamReader.StreamEnd, codec: Codec, data: seq<Byte>, hash: Hash)
  {
    MessageOn(rest, end, codec).0 == CompleteMessage(hash(data)) && Rebuilds(size, cs, data)
  }

  lemma {:induction false} AfterExtends(size: nat, cs: seq<Chunk>, c: Chunk, n: nat)
    requires n <= |cs|
    ensures After(size, cs + [c], n) == After(size, cs, n)
  {
    for i := 0 to n
      invariant After(size, cs + [c], i) == After(size, cs, i)
    {
      assert (cs + [c])[i] == cs[i];
    }
  }

  /** A refused chunk among those read so far is never made good. */
  lemma {:induction false} RefusedForGood(
    size: nat, bytes: seq<Byte>, end: StreamReader.StreamEnd, codec: Codec, acc: seq<Chunk>)
    requires After(size, acc, |acc|).None?
    ensures var cs := Leading(bytes, end, codec, acc).0; After(size, cs, |cs|).None?
    decreases |bytes|
  {
    var (m, rest) := MessageOn(bytes, end, codec);
    if m.ChunkMessage? {
      AfterExtends(size, acc, m.chunk, |acc|);
      RefusedForGood(size, rest, end, codec, acc + [m.chunk]);
    }
  }

  lemma {:induction false} CompletesFrom(
    size: nat, bytes: seq<Byte>, end: StreamReader.StreamEnd, codec: Codec, acc: seq<Chunk>, data: seq<Byte>,
    hash: Hash)
    requires After(size, acc, |acc|).Some?
    ensures var (cs, rest) := Leading(bytes, end, codec, acc);
            Conclusion(After(size, acc, |acc|).value, bytes, end, codec, hash) == Complete(data)
            <==> Delivers(size, cs, rest, end, codec, data, hash)
    decreases |bytes|
  {
    var (m, rest) := MessageOn(bytes, end, codec);
    if m.ChunkMessage? {
      AfterExtends(size, acc, m.chunk, |acc|);
      if Refusal(After(size, acc, |acc|).value, m.chunk).None? {
        CompletesFrom(size, rest, end, codec, acc + [m.chunk], data, hash);
      } else {
        RefusedForGood(size, rest, end, codec, acc + [m.chunk]);
      }
    }
  }

  /** The receiver ends with `data` if and only if the chunks that open the stream rebuild it without a gap and a
      completion with its checksum comes next. */
  lemma {:induction false} CompletesIffDelivered(
    size: nat, bytes: seq<Byte>, end: StreamReader.StreamEnd, codec: Codec, data: seq<Byte>, hash: Hash)
    ensures var (cs, rest) := Leading(bytes, end, codec, []);
            Conclusion(Fresh(size), bytes, end, codec, hash) == Complete(data)
            <==> Delivers(size, cs, rest, end, codec, data, hash)
  {
    CompletesFrom(size, bytes, end, codec, [], data, hash);
  }

  /** The conclusion once all chunks that open the stream were accepted: the message behind them decides. */
  ghost function Closing(s: State, m: Message, hash: Hash): Outcome
    requires !m.ChunkMessage?
  {
    match m
    case CompleteMessage(checksum) =>
      if exists i: nat :: i < s.size && !Covered(s.ranges, i) then Report(IncompleteTransfer)
      else if checksum != hash(s.data) then Report(ChecksumMismatch)
      else Complete(s.data)
    case OtherMessage(typeRaw) => Failed(UnexpectedType(typeRaw))
    case Undecodable => Failed(DecodeFailure)
    case Unreadable(e) => Failed(ReadFailure(e))
  }

  lemma {:induction false} LeadingStopsAtOther(
    bytes: seq<Byte>, end: StreamReader.StreamEnd, codec: Codec, acc: seq<Chunk>)
    ensures !MessageOn(Leading(bytes, end, codec, acc).1, end, codec).0.ChunkMessage?
    decreases |bytes|
  {
    var (m, rest) := MessageOn(bytes, end, codec);
    if m.ChunkMessage? {
      LeadingStopsAtOther(rest, end, codec, acc + [m.chunk]);
    }
  }

  lemma {:induction false} LeadingExtends(
    bytes: seq<Byte>, end: StreamReader.StreamEnd, codec: Codec, acc: seq<Chunk>)
    ensures acc <= Leading(bytes, end, codec, acc).0
    decreases |bytes|
  {
    var (m, rest) := MessageOn(bytes, end, codec);
    if m.ChunkMessage? {
      LeadingExtends(rest, end, codec, acc + [m.chunk]);
    }
  }

  lemma {:induction false} AfterPrefix(size: nat, a: seq<Chunk>, b: seq<Chunk>, n: nat)
    requires n <= |a| && a <= b
    ensures After(size, b, n) == After(size, a, n)
  {
    for i := 0 to n
      invariant After(size, b, i) == After(size, a, i)
    {
      assert a[i] == b[i];
    }
  }

  /** Chunk `k` is the first to be refused, for this reason. */
  ghost predicate RefusedFirst(size: nat, cs: seq<Chunk>, k: nat, reason: Reason) {
    k < |cs| && After(size, cs, k).Some? && Refusal(After(size, cs, k).value, cs[k]) == Some(reason)
  }

  /** A chunk refused right behind `acc` is the first refused one of the stream. */
  lemma {:induction false} RefusedBehind(
    size: nat, rest: seq<Byte>, end: StreamReader.StreamEnd, codec: Codec, acc: seq<Chunk>, c: Chunk)
    requires After(size, acc, |acc|).Some? && Refusal(After(size, acc, |acc|).value, c).Some?
    ensures var cs := Leading(rest, end, codec, acc + [c]).0;
            && After(size, cs, |cs|).None?
            && RefusedFirst(size, cs, |acc|, Refusal(After(size, acc, |acc|).value, c).value)
  {
    var cs := Leading(rest, end, codec, acc + [c]).0;
    AfterExtends(size, acc, c, |acc|);
    RefusedForGood(size, rest, end, codec, acc + [c]);
    LeadingExtends(rest, end, codec, acc + [c]);
    assert cs[|acc|] == c;
    AfterPrefix(size, acc + [c], cs, |acc|);
  }

  /** An accepted chunk behind `acc`. */
  lemma {:induction false} AcceptedBehind(size: nat, acc: seq<Chunk>, c: Chunk)
    requires After(size, acc, |acc|).Some? && Refusal(After(size, acc, |acc|).value, c).None?
    ensures After(size, acc + [c], |acc| + 1) == Some(Accept(After(size, acc, |acc|).value, c))
  {
    AfterExtends(size, acc, c, |acc|);
  }

  /** The message that comes after the chunks decides. */
  lemma {:induction false} ConcludesHere(
    s: State, bytes: seq<Byte>, end: StreamReader.StreamEnd, codec: Codec, acc: seq<Chunk>, hash: Hash)
    requires |s.data| == s.size && !MessageOn(bytes, end, codec).0.ChunkMessage?
    ensures Leading(bytes, end, codec, acc) == (acc, bytes)
    ensures Conclusion(s, bytes, end, codec, hash) == Closing(s, MessageOn(bytes, end, codec).0, hash)
  {
  }

  /** What the receiver ends with, chunk `k` being the first refused one if there is any. */
  ghost predicate ConcludesWith(
    size: nat, cs: seq<Chunk>, m: Message, hash: Hash, outcome: Outcome, k: nat)
  {
    && !m.ChunkMessage?
    && match After(size, cs, |cs|)
       case Some(s) => outcome == Closing(s, m, hash)
       case None => outcome.Report? && RefusedFirst(size, cs, k, outcome.reason)
  }

  lemma {:induction false} ConcludesFrom(
    size: nat, bytes: seq<Byte>, end: StreamReader.StreamEnd, codec: Codec, acc: seq<Chunk>, s: State, hash: Hash)
    returns (k: nat)
    requires After(size, acc, |acc|) == Some(s)
    ensures var (cs, rest) := Leading(bytes, end, codec, acc);
            ConcludesWith(
              size, cs, MessageOn(rest, end, codec).0, hash, Conclusion(s, bytes, end, codec, hash), k)
    decreases |bytes|
  {
    k := |acc|;
    var (m, rest) := MessageOn(bytes, end, codec);
    if !m.ChunkMessage? {
      ConcludesHere(s, bytes, end, codec, acc, hash);
    } else if Refusal(s, m.chunk).None? {
      AcceptedBehind(size, acc, m.chunk);
      k := ConcludesFrom(size, rest, end, codec, acc + [m.chunk], Accept(s, m.chunk), hash);
    } else {
      LeadingStopsAtOther(bytes, end, codec, acc);
      RefusedBehind(size, rest, end, codec, acc, m.chunk);
    }
  }

  /** What the receiver ends with in every case. If all chunks that open the stream are accepted, the message behind
      them decides: a completion over a gap, a completion with the wrong checksum, the file, an unexpected type, an
      undecodable body, or a read that fails. Otherwise the reason the first refused chunk was refused for. */
  lemma {:induction false} ConcludesAs(
    size: nat, bytes: seq<Byte>, end: StreamReader.StreamEnd, codec: Codec, hash: Hash) returns (k: nat)
    ensures var (cs, rest) := Leading(bytes, end, codec, []);
            ConcludesWith(
              size, cs, MessageOn(rest, end, codec).0, hash, Conclusion(Fresh(size), bytes, end, codec, hash), k)
  {
    k := ConcludesFrom(size, bytes, end, codec, [], Fresh(size), hash);
  }

  /** What a written message is read as: chunks are type 0x0018, completions 0x0019. */
  lemma {:induction false} TypeDecides(typeRaw: nat, body: seq<Byte>, codec: Codec)
    ensures MessageOf(Framing.Envelope(typeRaw, body), codec)
         == if typeRaw == 0x0018 then
              (match codec.decodeChunk(body) case Some(c) => ChunkMessage(c) case None => Undecodable)
            else if typeRaw == 0x0019 then
              (match codec.decodeComplete(body) case Some(sum) => CompleteMessage(sum) case None => Undecodable)
            else OtherMessage(typeRaw)
  {
  }
}
