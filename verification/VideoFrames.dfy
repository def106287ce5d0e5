// Reading an instance's frames (VideoFrameReader in src/video_session.rs): a
// header envelope, then its payload, by a future that may be dropped at any
// point where it waits.
module VideoFrames {
  import opened Common
  import opened Framing
  import opened StreamReader

  const VIDEO_FRAME_HEADER: nat := 0x0007
  const VIDEO_FRAME_PAYLOAD: nat := 0x0008
  const MAX_LEN: nat := StreamKind.Video.MaxEnvelopeLength()

  datatype FrameHeader = FrameHeader(
    generation: nat, frameId: nat, configId: nat, flags: Byte, captureTs: nat, encodeDoneTs: nat,
    width: nat, height: nat, payloadLen: nat)

  /** The CBOR decoder of frame headers, of which nothing is assumed. */
  type HeaderDecoder = seq<Byte> -> Option<FrameHeader>

  datatype Outcome =
    | Frame(header: FrameHeader, payload: seq<Byte>)
    | UnexpectedMessage
    | Undecodable
    | LengthMismatch
    | Failed(error: ReadError)

  /** Where the reader stands: a header already read, if any, and the bytes still unread. */
  datatype Position = Position(header: Option<FrameHeader>, unread: seq<Byte>)

  // ---------------------------------------------------------------------
  // The uninterrupted read
  // ---------------------------------------------------------------------

  function PayloadFor(h: FrameHeader, bytes: seq<Byte>, end: StreamEnd): (Outcome, Position) {
    match EnvelopeOn(bytes, end, MAX_LEN)
    case (Err(e), rest) => (Failed(e), Position(Some(h), rest))
    case (Ok(env), rest) =>
      if env.typeRaw != VIDEO_FRAME_PAYLOAD then (UnexpectedMessage, Position(None, rest))
      else if |env.payload| != h.payloadLen then (LengthMismatch, Position(None, rest))
      else (Frame(h, env.payload), Position(None, rest))
  }

  function NextFrame(p: Position, end: StreamEnd, decode: HeaderDecoder): (Outcome, Position) {
    match p.header
    case Some(h) => PayloadFor(h, p.unread, end)
    case None =>
      match EnvelopeOn(p.unread, end, MAX_LEN)
      case (Err(e), rest) => (Failed(e), Position(None, rest))
      case (Ok(env), rest) =>
        if env.typeRaw != VIDEO_FRAME_HEADER then (UnexpectedMessage, Position(None, rest))
        else
          match decode(env.payload)
          case None => (Undecodable, Position(None, rest))
          case Some(h) => PayloadFor(h, rest, end)
  }

  /** One read after another. */
  type Reads = Position -> (Outcome, Position)

  function Next(end: StreamEnd, decode: HeaderDecoder): Reads {
    p => NextFrame(p, end, decode)
  }

  /** The first `n` outcomes of the uninterrupted run, and where it then stands. */
  function Uninterrupted(p: Position, next: Reads, n: nat): (seq<Outcome>, Position) {
    if n == 0 then ([], p)
    else
      var (outcomes, at) := Uninterrupted(p, next, n - 1);
      var (o, after) := next(at);
      (outcomes + [o], after)
  }

  /** From either position the next read gives the same outcome and ends in the same place. */
  predicate SameFuture(p: Position, q: Position, end: StreamEnd, decode: HeaderDecoder) {
    NextFrame(p, end, decode) == NextFrame(q, end, decode)
  }

  class VideoFrameReader {
    const reader: EnvelopeReader
    const decode: HeaderDecoder
    var pendingHeader: Option<FrameHeader>

    ghost predicate Valid()
      reads this, reader
    {
      |reader.buf| <= reader.peak
    }

    ghost function Where(): Position
      reads this, reader, reader.recv
    {
      Position(pendingHeader, reader.Unread())
    }

    constructor (reader: EnvelopeReader, decode: HeaderDecoder)
      requires |reader.buf| <= reader.peak
      ensures Valid() && this.reader == reader && this.decode == decode
      ensures Where() == Position(None, reader.Unread())
    {
      this.reader := reader;
      this.decode := decode;
      pendingHeader := None;
    }

    /** `None` when the future was dropped while it waited, which only happens with `mayBeDropped`. Then the reader
        stands where an uninterrupted read would still give the same outcome and end in the same place. */
    method ReadNextFrame(mayBeDropped: bool) returns (r: Option<Outcome>)
      requires Valid()
      modifies this, reader, reader.recv
      ensures Valid()
      ensures r.Some? ==> (r.value, Where()) == NextFrame(old(Where()), reader.recv.end, decode)
      ensures r.None? ==> mayBeDropped && SameFuture(Where(), old(Where()), reader.recv.end, decode)
    {
      var header: FrameHeader;
      var taken := pendingHeader;
      pendingHeader := None;
      match taken {
        case Some(h) => header := h;
        case None =>
          var first := reader.ReadEnvelope(MAX_LEN, mayBeDropped);
          if first.None? { return None; }
          match first.value {
            case Err(e) => return Some(Failed(e));
            case Ok(env) =>
              if env.typeRaw != VIDEO_FRAME_HEADER { return Some(UnexpectedMessage); }
              var decoded := decode(env.payload);
              if decoded.None? { return Some(Undecodable); }
              header := decoded.value;
          }
      }
      pendingHeader := Some(header);
      var second := reader.ReadEnvelope(MAX_LEN, mayBeDropped);
      if second.None? { return None; }
      match second.value {
        case Err(e) => return Some(Failed(e));
        case Ok(env) =>
          pendingHeader := None;
          if env.typeRaw != VIDEO_FRAME_PAYLOAD { return Some(UnexpectedMessage); }
          if |env.payload| != header.payloadLen { return Some(LengthMismatch); }
          r := Some(Frame(header, env.payload));
      }
    }
  }

  /** The outcomes are those of the uninterrupted run, and what comes next from `p` is what comes next in it. */
  ghost predicate StandsAfter(start: Position, next: Reads, outcomes: seq<Outcome>, p: Position) {
    var (run, at) := Uninterrupted(start, next, |outcomes|);
    run == outcomes && next(p) == next(at)
  }

  lemma {:induction false} StandsAfterNext(
    start: Position, next: Reads, outcomes: seq<Outcome>, p: Position, o: Outcome, q: Position)
    requires StandsAfter(start, next, outcomes, p) && (o, q) == next(p)
    ensures StandsAfter(start, next, outcomes + [o], q)
  {
  }

  /** A read that comes back takes the run one outcome on; a dropped one leaves it where it was. */
  lemma {:induction false} OnePoll(
    start: Position, end: StreamEnd, decode: HeaderDecoder, outcomes: seq<Outcome>, p: Position, o: Option<Outcome>,
    q: Position)
    requires StandsAfter(start, Next(end, decode), outcomes, p)
    requires o.Some? ==> (o.value, q) == NextFrame(p, end, decode)
    requires o.None? ==> SameFuture(q, p, end, decode)
    ensures StandsAfter(start, Next(end, decode), if o.Some? then outcomes + [o.value] else outcomes, q)
  {
    var next := Next(end, decode);
    assert next(p) == NextFrame(p, end, decode) && next(q) == NextFrame(q, end, decode);
    if o.Some? {
      StandsAfterNext(start, next, outcomes, p, o.value, q);
    }
  }

  /** How many of the first `n` polls are run to their end. */
  function Undropped(mayBeDropped: seq<bool>, n: nat): nat
    requires n <= |mayBeDropped|
  {
    if n == 0 then 0 else Undropped(mayBeDropped, n - 1) + if mayBeDropped[n - 1] then 0 else 1
  }

  /** Cancellation safety: however often, and wherever, the future is dropped, the outcomes that do come back are
      those of the uninterrupted run, in order, none missing and none twice; every poll run to its end brings one. */
  method PollRepeatedly(r: VideoFrameReader, mayBeDropped: seq<bool>) returns (outcomes: seq<Outcome>)
    requires r.Valid()
    modifies r, r.reader, r.reader.recv
    ensures Undropped(mayBeDropped, |mayBeDropped|) <= |outcomes| <= |mayBeDropped|
    ensures outcomes == Uninterrupted(old(r.Where()), Next(r.reader.recv.end, r.decode), |outcomes|).0
  {
    ghost var start, end := r.Where(), r.reader.recv.end;
    outcomes := [];
    for k := 0 to |mayBeDropped|
      invariant r.Valid() && Undropped(mayBeDropped, k) <= |outcomes| <= k
      invariant StandsAfter(start, Next(end, r.decode), outcomes, r.Where())
    {
      ghost var before := r.Where();
      var o := r.ReadNextFrame(mayBeDropped[k]);
      OnePoll(start, end, r.decode, outcomes, before, o, r.Where());
      if o.Some? {
        outcomes := outcomes + [o.value];
      }
    }
  }

  // ---------------------------------------------------------------------
  // Written and read back
  // ---------------------------------------------------------------------

  /** A frame as sent: the header's encoding, which decodes to a header announcing the payload's length. */
  datatype Sent = Sent(headerBytes: seq<Byte>, payload: seq<Byte>)

  predicate WellSent(f: Sent, decode: HeaderDecoder) {
    && |f.headerBytes| <= MAX_LEN && |f.payload| <= MAX_LEN
    && decode(f.headerBytes).Some? && decode(f.headerBytes).value.payloadLen == |f.payload|
  }

  lemma {:induction false} MessageRead(env: Envelope, rest: seq<Byte>, end: StreamEnd)
    requires Encodable(env)
    ensures EnvelopeOn(EnvelopeBytes(env) + rest, end, MAX_LEN)
         == if |env.payload| <= 8_388_608 then (Ok(env), rest)
            else (Err(BadEnvelope(LengthExceedsLimit(|env.payload|, 8_388_608))), EnvelopeBytes(env) + rest)
  {
    var head := EnvelopeBytes(env);
    EnvelopeRoundTrip(env, rest, MAX_LEN);
    assert (head + rest)[|head|..] == rest;
  }

  /** What any two messages in front are read as: the first must be a header (type 7) that decodes, the second its
      payload (type 8) of the announced length; a message refused for its type or length is consumed. */
  lemma {:induction false} TwoMessages(
    a: Envelope, b: Envelope, rest: seq<Byte>, end: StreamEnd, decode: HeaderDecoder)
    requires Encodable(a) && Encodable(b) && |a.payload| <= 8_388_608 && |b.payload| <= 8_388_608
    ensures NextFrame(Position(None, EnvelopeBytes(a) + (EnvelopeBytes(b) + rest)), end, decode)
         == if a.typeRaw != 7 then (UnexpectedMessage, Position(None, EnvelopeBytes(b) + rest))
            else
              match decode(a.payload)
              case None => (Undecodable, Position(None, EnvelopeBytes(b) + rest))
              case Some(h) =>
                if b.typeRaw != 8 then (UnexpectedMessage, Position(None, rest))
                else if |b.payload| != h.payloadLen then (LengthMismatch, Position(None, rest))
                else (Frame(h, b.payload), Position(None, rest))
  {
    MessageRead(a, EnvelopeBytes(b) + rest, end);
    MessageRead(b, rest, end);
  }

  /** A message over the limit breaks the read; a header already read is kept. */
  lemma {:induction false} TooLongMessage(
    p: Position, env: Envelope, rest: seq<Byte>, end: StreamEnd, decode: HeaderDecoder)
    requires Encodable(env) && |env.payload| > 8_388_608 && p.unread == EnvelopeBytes(env) + rest
    ensures NextFrame(p, end, decode) == (Failed(BadEnvelope(LengthExceedsLimit(|env.payload|, 8_388_608))), p)
  {
    MessageRead(env, rest, end);
  }

  predicate AllWellSent(fs: seq<Sent>, decode: HeaderDecoder) {
    forall i {:trigger WellSent(fs[i], decode)} :: 0 <= i < |fs| ==> WellSent(fs[i], decode)
  }

  function SentBytes(f: Sent): seq<Byte>
    requires |f.headerBytes| <= MAX_LEN && |f.payload| <= MAX_LEN
  {
    EnvelopeBytes(Envelope(VIDEO_FRAME_HEADER, f.headerBytes)) + EnvelopeBytes(Envelope(VIDEO_FRAME_PAYLOAD, f.payload))
  }

  /** The bytes of the frames from index `n` on, and then `tail`. */
  function SentStream(fs: seq<Sent>, n: nat, decode: HeaderDecoder, tail: seq<Byte>): seq<Byte>
    requires n <= |fs| && AllWellSent(fs, decode)
    decreases |fs| - n
  {
    if n == |fs| then tail
    else
      assert WellSent(fs[n], decode);
      SentBytes(fs[n]) + SentStream(fs, n + 1, decode, tail)
  }

  lemma {:induction false} OneFrame(f: Sent, rest: seq<Byte>, end: StreamEnd, decode: HeaderDecoder)
    requires WellSent(f, decode)
    ensures NextFrame(Position(None, SentBytes(f) + rest), end, decode)
         == (Frame(decode(f.headerBytes).value, f.payload), Position(None, rest))
  {
    var h, p := Envelope(VIDEO_FRAME_HEADER, f.headerBytes), Envelope(VIDEO_FRAME_PAYLOAD, f.payload);
    var hb, pb := EnvelopeBytes(h), EnvelopeBytes(p);
    assert SentBytes(f) + rest == hb + (pb + rest);
    EnvelopeRoundTrip(h, pb + rest, MAX_LEN);
    assert (hb + (pb + rest))[|hb|..] == pb + rest;
    EnvelopeRoundTrip(p, rest, MAX_LEN);
    assert (pb + rest)[|pb|..] == rest;
  }

  function Expected(fs: seq<Sent>, decode: HeaderDecoder, n: nat): seq<Outcome>
    requires n <= |fs| && AllWellSent(fs, decode)
  {
    if n == 0 then []
    else
      assert WellSent(fs[n - 1], decode);
      Expected(fs, decode, n - 1) + [Frame(decode(fs[n - 1].headerBytes).value, fs[n - 1].payload)]
  }

  lemma {:induction false} NextArrives(
    fs: seq<Sent>, tail: seq<Byte>, end: StreamEnd, decode: HeaderDecoder, n: nat, start: Position)
    requires n < |fs| && AllWellSent(fs, decode)
    requires Uninterrupted(start, Next(end, decode), n)
          == (Expected(fs, decode, n), Position(None, SentStream(fs, n, decode, tail)))
    ensures Uninterrupted(start, Next(end, decode), n + 1)
         == (Expected(fs, decode, n + 1), Position(None, SentStream(fs, n + 1, decode, tail)))
  {
    assert WellSent(fs[n], decode);
    OneFrame(fs[n], SentStream(fs, n + 1, decode, tail), end, decode);
  }

  /** The frames come out as they were sent, in order. */
  lemma {:induction false} FramesArrive(fs: seq<Sent>, tail: seq<Byte>, end: StreamEnd, decode: HeaderDecoder, n: nat)
    requires n <= |fs| && AllWellSent(fs, decode)
    ensures Uninterrupted(Position(None, SentStream(fs, 0, decode, tail)), Next(end, decode), n)
         == (Expected(fs, decode, n), Position(None, SentStream(fs, n, decode, tail)))
  {
    var start := Position(None, SentStream(fs, 0, decode, tail));
    for i := 0 to n
      invariant Uninterrupted(start, Next(end, decode), i)
             == (Expected(fs, decode, i), Position(None, SentStream(fs, i, decode, tail)))
    {
      NextArrives(fs, tail, end, decode, i, start);
    }
  }
}
