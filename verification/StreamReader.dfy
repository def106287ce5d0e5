// Reading a stream piece by piece (src/stream_reader.rs): a buffer that keeps
// bytes across partial reads, and a parser that is retried until it succeeds.
module StreamReader {
  import opened Common
  import opened Framing
  import Varint

  const CHUNK_SIZE: nat := 4096

  /** How a receive stream ends once all its bytes have been delivered. */
  datatype StreamEnd = Finished | Broken

  datatype ReadError = ClosedEarly | Transport | BadPrologue(p: PrologueError) | BadEnvelope(e: EnvelopeError)

  function EndError(end: StreamEnd): ReadError {
    if end.Finished? then ClosedEarly else Transport
  }

  // ---------------------------------------------------------------------
  // What a read returns, as a function of the unread bytes alone
  // ---------------------------------------------------------------------

  function PrologueOn(bytes: seq<Byte>, end: StreamEnd): (Result<Prologue, ReadError>, seq<Byte>) {
    match ParsePrologue(bytes)
    case Parsed(p, n) => if n <= |bytes| then (Ok(p), bytes[n..]) else (Err(EndError(end)), bytes)
    case Rejected(e) => (Err(BadPrologue(e)), bytes)
    case NeedMore => (Err(EndError(end)), bytes)
  }

  function EnvelopeOn(bytes: seq<Byte>, end: StreamEnd, maxLength: nat): (Result<Envelope, ReadError>, seq<Byte>) {
    match ParseEnvelope(bytes, maxLength)
    case Parsed(e, n) => if n <= |bytes| then (Ok(e), bytes[n..]) else (Err(EndError(end)), bytes)
    case Rejected(e) => (Err(BadEnvelope(e)), bytes)
    case NeedMore => (Err(EndError(end)), bytes)
  }

  /** A parse that succeeds consumes at least three bytes, and no more than there are. */
  lemma {:induction false} ParsedWithin(bytes: seq<Byte>, maxLength: nat)
    ensures ParsePrologue(bytes).Parsed? ==> 0 < ParsePrologue(bytes).consumed <= |bytes|
    ensures ParseEnvelope(bytes, maxLength).Parsed? ==> 0 < ParseEnvelope(bytes, maxLength).consumed <= |bytes|
  {
  }

  // ---------------------------------------------------------------------
  // The reader
  // ---------------------------------------------------------------------

  /** The receive side of a QUIC stream. How many bytes a read returns is up to the network. */
  class RecvStream {
    var pending: seq<Byte>
    const end: StreamEnd

    constructor (bytes: seq<Byte>, end: StreamEnd)
      ensures pending == bytes && this.end == end
    {
      pending := bytes;
      this.end := end;
    }

    /** One to CHUNK_SIZE bytes from the front, or nothing at the end. */
    method Read() returns (chunk: seq<Byte>)
      modifies this
      ensures chunk + pending == old(pending) && |chunk| <= CHUNK_SIZE
      ensures chunk == [] <==> old(pending) == []
    {
      if pending == [] {
        return [];
      }
      var n: nat :| 1 <= n <= CHUNK_SIZE && n <= |pending|;
      chunk := pending[..n];
      pending := pending[n..];
    }
  }

  class EnvelopeReader {
    const recv: RecvStream
    var buf: seq<Byte>
    /** The most bytes ever buffered at once. */
    ghost var peak: nat

    /** The bytes not yet handed out, buffered or not. */
    ghost function Unread(): seq<Byte>
      reads this, recv
    {
      buf + recv.pending
    }

    constructor (recv: RecvStream)
      ensures this.recv == recv && Unread() == recv.pending && buf == [] && peak == 0
    {
      this.recv := recv;
      buf := [];
      peak := 0;
    }

    method FillMore() returns (ok: bool)
      modifies this, recv
      ensures Unread() == old(Unread())
      ensures ok ==> |recv.pending| < old(|recv.pending|) && |buf| <= old(|buf|) + CHUNK_SIZE
      ensures !ok ==> recv.pending == [] && buf == old(buf)
      ensures peak == if |buf| > old(peak) then |buf| else old(peak)
    {
      var chunk := recv.Read();
      if chunk != [] {
        buf := buf + chunk;
      }
      peak := if |buf| > peak then |buf| else peak;
      ok := chunk != [];
    }

    /** The result and the bytes left over depend on the unread bytes only, not on how they arrive. With
        `mayBeDropped`, the caller may abandon the read wherever it waits; the result is then `None` and no byte is
        lost. */
    method ReadPrologue(mayBeDropped: bool) returns (r: Option<Result<Prologue, ReadError>>)
      requires peak >= |buf|
      modifies this, recv
      ensures r.None? ==> mayBeDropped && Unread() == old(Unread())
      ensures r.Some? ==> (r.value, Unread()) == PrologueOn(old(Unread()), recv.end)
      ensures |buf| <= peak && (peak == old(peak) || peak <= CHUNK_SIZE + 13)
    {
      ghost var all := Unread();
      while true
        invariant Unread() == all && |buf| <= peak && (peak == old(peak) || peak <= CHUNK_SIZE + 13)
        decreases |recv.pending|
      {
        match ParsePrologue(buf) {
          case Parsed(p, consumed) =>
            PrologueStable(buf, recv.pending);
            ParsedWithin(buf, 0);
            assert all[consumed..] == buf[consumed..] + recv.pending;
            buf := buf[consumed..];
            return Some(Ok(p));
          case Rejected(e) =>
            PrologueStable(buf, recv.pending);
            return Some(Err(BadPrologue(e)));
          case NeedMore =>
            PrologueWaitingBound(buf);
            if mayBeDropped {
              if * { return None; }
            }
            var ok := FillMore();
            if !ok {
              assert buf == all;
              return Some(Err(EndError(recv.end)));
            }
        }
      }
    }

    method ReadEnvelope(maxLength: nat, mayBeDropped: bool) returns (r: Option<Result<Envelope, ReadError>>)
      requires peak >= |buf|
      modifies this, recv
      ensures r.None? ==> mayBeDropped && Unread() == old(Unread())
      ensures r.Some? ==> (r.value, Unread()) == EnvelopeOn(old(Unread()), recv.end, maxLength)
      ensures |buf| <= peak && (peak == old(peak) || peak <= maxLength + CHUNK_SIZE + 9)
    {
      ghost var all := Unread();
      while true
        invariant Unread() == all && |buf| <= peak && (peak == old(peak) || peak <= maxLength + CHUNK_SIZE + 9)
        decreases |recv.pending|
      {
        match ParseEnvelope(buf, maxLength) {
          case Parsed(e, consumed) =>
            EnvelopeStable(buf, recv.pending, maxLength);
            ParsedWithin(buf, maxLength);
            assert all[consumed..] == buf[consumed..] + recv.pending;
            buf := buf[consumed..];
            return Some(Ok(e));
          case Rejected(e) =>
            EnvelopeStable(buf, recv.pending, maxLength);
            return Some(Err(BadEnvelope(e)));
          case NeedMore =>
            EnvelopeWaitingBound(buf, maxLength);
            if mayBeDropped {
              if * { return None; }
            }
            var ok := FillMore();
            if !ok {
              assert buf == all;
              return Some(Err(EndError(recv.end)));
            }
        }
      }
    }
  }

  // ---------------------------------------------------------------------
  // Sequences of reads
  // ---------------------------------------------------------------------

  datatype Request = WantPrologue | WantEnvelope(maxLength: nat)

  datatype Reply = APrologue(p: Result<Prologue, ReadError>) | AnEnvelope(e: Result<Envelope, ReadError>)

  function ReplyOn(bytes: seq<Byte>, end: StreamEnd, q: Request): (Reply, seq<Byte>) {
    match q
    case WantPrologue => var (r, rest) := PrologueOn(bytes, end); (APrologue(r), rest)
    case WantEnvelope(maxLength) => var (r, rest) := EnvelopeOn(bytes, end, maxLength); (AnEnvelope(r), rest)
  }

  /** The replies to the first `n` requests, and the bytes then left. */
  function Answered(bytes: seq<Byte>, end: StreamEnd, qs: seq<Request>, n: nat): (seq<Reply>, seq<Byte>)
    requires n <= |qs|
  {
    if n == 0 then ([], bytes)
    else
      var (replies, rest) := Answered(bytes, end, qs, n - 1);
      var (reply, rest') := ReplyOn(rest, end, qs[n - 1]);
      (replies + [reply], rest')
  }

  lemma {:induction false} AnsweredExtends(
    bytes: seq<Byte>, end: StreamEnd, qs: seq<Request>, n: nat,
    replies: seq<Reply>, rest: seq<Byte>, reply: Reply, rest': seq<Byte>)
    requires n < |qs| && (replies, rest) == Answered(bytes, end, qs, n) && (reply, rest') == ReplyOn(rest, end, qs[n])
    ensures (replies + [reply], rest') == Answered(bytes, end, qs, n + 1)
  {
  }

  /** Chunking independence: the replies to any sequence of requests are a function of the bytes and the requests,
      and on a stream with one limit the buffer never outgrows it by more than 4105 bytes. */
  method Answer(reader: EnvelopeReader, qs: seq<Request>, limit: nat) returns (replies: seq<Reply>)
    requires reader.buf == [] && reader.peak == 0
    requires limit >= 4 && forall i :: 0 <= i < |qs| && qs[i].WantEnvelope? ==> qs[i].maxLength == limit
    modifies reader, reader.recv
    ensures (replies, reader.Unread()) == Answered(old(reader.Unread()), reader.recv.end, qs, |qs|)
    ensures reader.peak <= limit + 4105
  {
    ghost var all, end := reader.Unread(), reader.recv.end;
    replies := [];
    for i := 0 to |qs|
      invariant |reader.buf| <= reader.peak <= limit + 4105
      invariant (replies, reader.Unread()) == Answered(all, end, qs, i)
    {
      ghost var rest := reader.Unread();
      var reply: Reply;
      match qs[i] {
        case WantPrologue =>
          var p := reader.ReadPrologue(false);
          reply := APrologue(p.value);
        case WantEnvelope(maxLength) =>
          var e := reader.ReadEnvelope(maxLength, false);
          reply := AnEnvelope(e.value);
      }
      AnsweredExtends(all, end, qs, i, replies, rest, reply, reader.Unread());
      replies := replies + [reply];
    }
  }

  /** A stream that ends inside an envelope or a prologue: closed too early, or broken, and nothing is consumed. */
  lemma {:induction false} EndsInside(e: Envelope, p: Prologue, k: nat, end: StreamEnd, limit: nat)
    requires Encodable(e) && |e.payload| <= limit && p.contextId <= Varint.MAX
    ensures k < |EnvelopeBytes(e)| ==>
              EnvelopeOn(EnvelopeBytes(e)[..k], end, limit)
              == (Err(match end case Finished => ClosedEarly case Broken => Transport), EnvelopeBytes(e)[..k])
    ensures k < |PrologueBytes(p)| ==>
              PrologueOn(PrologueBytes(p)[..k], end)
              == (Err(match end case Finished => ClosedEarly case Broken => Transport), PrologueBytes(p)[..k])
  {
    if k < |EnvelopeBytes(e)| {
      EnvelopePrefixWaits(e, k, limit);
    }
    if k < |PrologueBytes(p)| {
      ProloguePrefixWaits(p, k);
    }
  }

  /** An envelope that can be written and is within the reader's limit. */
  predicate Fits(e: Envelope, limit: nat) {
    Encodable(e) && |e.payload| <= limit
  }

  predicate AllFit(es: seq<Envelope>, limit: nat) {
    forall i :: 0 <= i < |es| ==> Fits(es[i], limit)
  }

  function Wire(e: Envelope, limit: nat): seq<Byte>
    requires Fits(e, limit)
  {
    EnvelopeBytes(e)
  }

  /** The bytes of a stream that carries the envelopes from index `n` on, and then `tail`. */
  function StreamOf(es: seq<Envelope>, limit: nat, tail: seq<Byte>, n: nat): seq<Byte>
    requires n <= |es| && AllFit(es, limit)
    decreases |es| - n
  {
    if n == |es| then tail else Wire(es[n], limit) + StreamOf(es, limit, tail, n + 1)
  }

  function InOrder(es: seq<Envelope>, n: nat): seq<Reply>
    requires n <= |es|
  {
    if n == 0 then [] else InOrder(es, n - 1) + [AnEnvelope(Ok(es[n - 1]))]
  }

  lemma {:induction false} OneEnvelope(e: Envelope, rest: seq<Byte>, end: StreamEnd, limit: nat)
    requires Fits(e, limit)
    ensures ReplyOn(Wire(e, limit) + rest, end, WantEnvelope(limit)) == (AnEnvelope(Ok(e)), rest)
  {
    var head := EnvelopeBytes(e);
    EnvelopeRoundTrip(e, rest, limit);
    assert (head + rest)[|head|..] == rest;
  }

  /** Written and read back: as many requests get the envelopes in order, and what follows is untouched. */
  lemma {:induction false} WrittenIsRead(
    es: seq<Envelope>, tail: seq<Byte>, end: StreamEnd, limit: nat, qs: seq<Request>, n: nat)
    requires n <= |es| == |qs| && forall i :: 0 <= i < |qs| ==> qs[i] == WantEnvelope(limit)
    requires AllFit(es, limit)
    ensures Answered(StreamOf(es, limit, tail, 0), end, qs, n) == (InOrder(es, n), StreamOf(es, limit, tail, n))
  {
    var bytes := StreamOf(es, limit, tail, 0);
    for i := 0 to n
      invariant Answered(bytes, end, qs, i) == (InOrder(es, i), StreamOf(es, limit, tail, i))
    {
      ReadNext(es, tail, end, limit, qs, i, bytes);
    }
  }

  lemma {:induction false} ReadNext(
    es: seq<Envelope>, tail: seq<Byte>, end: StreamEnd, limit: nat, qs: seq<Request>, n: nat, bytes: seq<Byte>)
    requires n < |es| == |qs| && qs[n] == WantEnvelope(limit)
    requires AllFit(es, limit)
    requires Answered(bytes, end, qs, n) == (InOrder(es, n), StreamOf(es, limit, tail, n))
    ensures Answered(bytes, end, qs, n + 1) == (InOrder(es, n + 1), StreamOf(es, limit, tail, n + 1))
  {
    OneEnvelope(es[n], StreamOf(es, limit, tail, n + 1), end, limit);
  }

  /** The replies behind the first are those of the rest of the requests on the rest of the bytes. */
  lemma {:induction false} AnsweredBehind(
    bytes: seq<Byte>, end: StreamEnd, qs: seq<Request>, n: nat, first: Reply, rest: seq<Byte>)
    requires n < |qs| && ReplyOn(bytes, end, qs[0]) == (first, rest)
    ensures var (replies, left) := Answered(rest, end, qs[1..], n);
            Answered(bytes, end, qs, n + 1) == ([first] + replies, left)
  {
    if n == 0 {
      assert Answered(bytes, end, qs, 0) == ([], bytes);
      assert [] + [first] == [first] + [];
    } else {
      AnsweredBehind(bytes, end, qs, n - 1, first, rest);
      var (replies, left) := Answered(rest, end, qs[1..], n - 1);
      var (reply, left') := ReplyOn(left, end, qs[n]);
      assert [first] + replies + [reply] == [first] + (replies + [reply]);
    }
  }

  /** An accepted stream: its prologue is read off, and the envelopes behind it follow in order. */
  lemma {:induction false} PrologueThenEnvelopes(
    p: Prologue, es: seq<Envelope>, tail: seq<Byte>, end: StreamEnd, limit: nat, qs: seq<Request>, n: nat)
    requires p.contextId <= Varint.MAX && n <= |es| && |qs| == |es| + 1 && qs[0] == WantPrologue
    requires forall i :: 1 <= i < |qs| ==> qs[i] == WantEnvelope(limit)
    requires AllFit(es, limit)
    ensures Answered(PrologueBytes(p) + StreamOf(es, limit, tail, 0), end, qs, n + 1)
         == ([APrologue(Ok(p))] + InOrder(es, n), StreamOf(es, limit, tail, n))
  {
    var rest := StreamOf(es, limit, tail, 0);
    OnePrologue(p, rest, end);
    AnsweredBehind(PrologueBytes(p) + rest, end, qs, n, APrologue(Ok(p)), rest);
    WrittenIsRead(es, tail, end, limit, qs[1..], n);
  }

  lemma {:induction false} OnePrologue(p: Prologue, rest: seq<Byte>, end: StreamEnd)
    requires p.contextId <= Varint.MAX
    ensures ReplyOn(PrologueBytes(p) + rest, end, WantPrologue) == (APrologue(Ok(p)), rest)
  {
    var head := PrologueBytes(p);
    PrologueRoundTrip(p, rest);
    assert (head + rest)[|head|..] == rest;
  }
}
