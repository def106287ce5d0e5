// The framing of every stream: the StreamPrologue that opens it (src/prologue.rs)
// and the Envelope that carries each message (src/envelope.rs).
module Framing {
  import opened Common
  import Varint

  datatype ParseResult<+T, +E> = NeedMore | Parsed(value: T, consumed: nat) | Rejected(error: E)

  // ---------------------------------------------------------------------
  // Envelopes
  // ---------------------------------------------------------------------

  datatype Envelope = Envelope(typeRaw: nat, payload: seq<Byte>)

  datatype EnvelopeError = LengthExceedsLimit(length: nat, limit: nat)

  predicate Encodable(e: Envelope) {
    e.typeRaw <= U16_MAX && |e.payload| <= Varint.MAX
  }

  function EnvelopeBytes(e: Envelope): seq<Byte>
    requires Encodable(e)
  {
    Varint.Enc(|e.payload|) + [e.typeRaw % 256, e.typeRaw / 256] + e.payload
  }

  function ParseEnvelope(buf: seq<Byte>, maxLength: nat): ParseResult<Envelope, EnvelopeError> {
    match Varint.Dec(buf)
    case None => NeedMore
    case Some((length, lengthLen)) =>
      if length > maxLength then Rejected(LengthExceedsLimit(length, maxLength))
      else if |buf| < lengthLen + 2 then NeedMore
      else if |buf| < lengthLen + 2 + length then NeedMore
      else
        var lo: nat, hi: nat := buf[lengthLen], buf[lengthLen + 1];
        Parsed(Envelope(lo + 256 * hi, buf[lengthLen + 2..lengthLen + 2 + length]), lengthLen + 2 + length)
  }

  method EncodeEnvelope(e: Envelope, out: seq<Byte>) returns (out': seq<Byte>)
    requires Encodable(e)
    ensures out' == out + EnvelopeBytes(e)
  {
    out' := Varint.Encode(|e.payload|, out);
    out' := out' + [e.typeRaw % 256, e.typeRaw / 256];
    out' := out' + e.payload;
  }

  lemma {:induction false} DecOfEnvelope(e: Envelope, rest: seq<Byte>)
    requires Encodable(e)
    ensures Varint.Dec(EnvelopeBytes(e) + rest) == Some((|e.payload|, |Varint.Enc(|e.payload|)|))
  {
    var tail := [e.typeRaw % 256, e.typeRaw / 256] + e.payload + rest;
    Varint.RoundTrip(|e.payload|, tail);
    assert EnvelopeBytes(e) + rest == Varint.Enc(|e.payload|) + tail;
  }

  /** Parsing undoes encoding within the limit, and refuses exactly what is over it, whatever follows. */
  lemma {:induction false} EnvelopeRoundTrip(e: Envelope, rest: seq<Byte>, maxLength: nat)
    requires Encodable(e)
    ensures ParseEnvelope(EnvelopeBytes(e) + rest, maxLength)
         == if |e.payload| <= maxLength then Parsed(e, |EnvelopeBytes(e)|)
            else Rejected(LengthExceedsLimit(|e.payload|, maxLength))
  {
    DecOfEnvelope(e, rest);
    var buf, l := EnvelopeBytes(e) + rest, |Varint.Enc(|e.payload|)|;
    assert buf[l] == e.typeRaw % 256 && buf[l + 1] == e.typeRaw / 256;
    assert buf[l + 2..l + 2 + |e.payload|] == e.payload;
  }

  /** Every strict prefix of an encoding within the limit waits for more. */
  lemma {:induction false} EnvelopePrefixWaits(e: Envelope, k: nat, maxLength: nat)
    requires Encodable(e) && k < |EnvelopeBytes(e)| && |e.payload| <= maxLength
    ensures ParseEnvelope(EnvelopeBytes(e)[..k], maxLength) == NeedMore
  {
    var enc := Varint.Enc(|e.payload|);
    var prefix := EnvelopeBytes(e)[..k];
    if k < |enc| {
      assert prefix == enc[..k];
      Varint.PrefixIncomplete(|e.payload|, k);
    } else {
      assert prefix == enc + EnvelopeBytes(e)[|enc|..k];
      Varint.RoundTrip(|e.payload|, EnvelopeBytes(e)[|enc|..k]);
    }
  }

  /** Once a parse has succeeded or failed, more bytes change nothing. */
  lemma {:induction false} EnvelopeStable(buf: seq<Byte>, more: seq<Byte>, maxLength: nat)
    requires !ParseEnvelope(buf, maxLength).NeedMore?
    ensures ParseEnvelope(buf + more, maxLength) == ParseEnvelope(buf, maxLength)
  {
    Varint.Stable(buf, more);
    var (length, l) := Varint.Dec(buf).value;
    if length <= maxLength {
      assert (buf + more)[l + 2..l + 2 + length] == buf[l + 2..l + 2 + length];
    }
  }

  /** A buffer that waits for more is at most nine bytes longer than the limit. */
  lemma {:induction false} EnvelopeWaitingBound(buf: seq<Byte>, maxLength: nat)
    requires ParseEnvelope(buf, maxLength).NeedMore?
    ensures |buf| <= maxLength + 9
  {
  }

  /** On the wire: the length, then the type with its low byte first, then the payload. */
  lemma {:induction false} EnvelopeLayout(lo: Byte, hi: Byte, payload: seq<Byte>)
    requires |payload| <= Varint.MAX
    ensures EnvelopeBytes(Envelope(lo + 256 * hi, payload)) == Varint.Enc(|payload|) + [lo, hi] + payload
  {
  }

  /** The length may come in any form that decodes to it, and is refused as soon as it is over the limit, whatever
      follows. */
  lemma {:induction false} AnyLengthForm(
    length: seq<Byte>, lo: Byte, hi: Byte, payload: seq<Byte>, rest: seq<Byte>, maxLength: nat)
    requires Varint.Dec(length).Some? && Varint.Dec(length).value.1 == |length|
    ensures |payload| == Varint.Dec(length).value.0 <= maxLength ==>
              ParseEnvelope(length + [lo, hi] + payload + rest, maxLength)
              == Parsed(Envelope(lo + 256 * hi, payload), |length| + 2 + |payload|)
    ensures Varint.Dec(length).value.0 > maxLength ==>
              ParseEnvelope(length + rest, maxLength)
              == Rejected(LengthExceedsLimit(Varint.Dec(length).value.0, maxLength))
  {
    Varint.Stable(length, rest);
    var buf := length + [lo, hi] + payload + rest;
    Varint.Stable(length, [lo, hi] + payload + rest);
    assert buf == length + ([lo, hi] + payload + rest);
    if |payload| == Varint.Dec(length).value.0 {
      assert buf[|length| + 2..|length| + 2 + |payload|] == payload;
    }
  }

  // ---------------------------------------------------------------------
  // Prologues
  // ---------------------------------------------------------------------

  datatype StreamKind = Control | Input | Video | Feedback | Clipboard | File | AudioPlayback | AudioCapture {
    function ToByte(): Byte {
      match this
      case Control => 0x01
      case Input => 0x02
      case Video => 0x03
      case Feedback => 0x04
      case Clipboard => 0x05
      case File => 0x06
      case AudioPlayback => 0x07
      case AudioCapture => 0x08
    }

    function MaxEnvelopeLength(): nat {
      match this
      case Control => 64 * 1024
      case Input => 1024
      case Video => 8 * 1024 * 1024
      case Feedback => 4 * 1024
      case AudioPlayback | AudioCapture => 64 * 1024
      case Clipboard => 16 * 1024 * 1024
      case File => 1024 * 1024
    }
  }

  function KindFromByte(b: Byte): Option<StreamKind> {
    match b
    case 0x01 => Some(Control)
    case 0x02 => Some(Input)
    case 0x03 => Some(Video)
    case 0x04 => Some(Feedback)
    case 0x05 => Some(Clipboard)
    case 0x06 => Some(File)
    case 0x07 => Some(AudioPlayback)
    case 0x08 => Some(AudioCapture)
    case _ => None
  }

  /** "SARD". */
  const MAGIC: seq<Byte> := [0x53, 0x41, 0x52, 0x44]

  datatype Prologue = Prologue(kind: StreamKind, version: Byte, contextId: nat)

  datatype PrologueError = MagicMismatch | UnknownKind(kind: Byte)

  function PrologueBytes(p: Prologue): seq<Byte>
    requires p.contextId <= Varint.MAX
  {
    MAGIC + [p.kind.ToByte(), p.version] + Varint.Enc(p.contextId)
  }

  function ParsePrologue(buf: seq<Byte>): ParseResult<Prologue, PrologueError> {
    if |buf| < 4 then NeedMore
    else if buf[0..4] != MAGIC then Rejected(MagicMismatch)
    else if |buf| < 6 then NeedMore
    else
      match KindFromByte(buf[4])
      case None => Rejected(UnknownKind(buf[4]))
      case Some(kind) =>
        match Varint.Dec(buf[6..])
        case None => NeedMore
        case Some((contextId, len)) => Parsed(Prologue(kind, buf[5], contextId), 6 + len)
  }

  method EncodePrologue(p: Prologue, out: seq<Byte>) returns (out': seq<Byte>)
    requires p.contextId <= Varint.MAX
    ensures out' == out + PrologueBytes(p)
  {
    out' := out + MAGIC;
    out' := out' + [p.kind.ToByte()];
    out' := out' + [p.version];
    out' := Varint.Encode(p.contextId, out');
  }

  lemma {:induction false} KindRoundTrip(k: StreamKind, b: Byte)
    ensures KindFromByte(k.ToByte()) == Some(k)
    ensures KindFromByte(b).Some? ==> KindFromByte(b).value.ToByte() == b
  {
    match k
    case _ =>
  }

  /** The codes of the stream kinds. */
  lemma {:induction false} KindCodes()
    ensures Control.ToByte() == 1 && Input.ToByte() == 2 && Video.ToByte() == 3 && Feedback.ToByte() == 4
    ensures Clipboard.ToByte() == 5 && File.ToByte() == 6 && AudioPlayback.ToByte() == 7 && AudioCapture.ToByte() == 8
  {
  }

  /** The longest envelope of each kind of stream, in bytes. */
  lemma {:induction false} EnvelopeLimits()
    ensures Control.MaxEnvelopeLength() == 65_536 && Input.MaxEnvelopeLength() == 1_024
    ensures Video.MaxEnvelopeLength() == 8_388_608 && Feedback.MaxEnvelopeLength() == 4_096
    ensures AudioPlayback.MaxEnvelopeLength() == 65_536 && AudioCapture.MaxEnvelopeLength() == 65_536
    ensures Clipboard.MaxEnvelopeLength() == 16_777_216 && File.MaxEnvelopeLength() == 1_048_576
  {
  }

  /** On the wire: "SARD", the kind's code, the version, the context id. */
  lemma {:induction false} PrologueLayout(p: Prologue)
    requires p.contextId <= Varint.MAX
    ensures PrologueBytes(p) == [0x53, 0x41, 0x52, 0x44, p.kind.ToByte(), p.version] + Varint.Enc(p.contextId)
  {
  }

  /** What any bytes at all parse to. */
  lemma {:induction false} PrologueParsesTo(buf: seq<Byte>)
    ensures |buf| >= 4 && buf[..4] != [0x53, 0x41, 0x52, 0x44] ==> ParsePrologue(buf) == Rejected(MagicMismatch)
    ensures |buf| >= 6 && buf[..4] == [0x53, 0x41, 0x52, 0x44] && !(1 <= buf[4] <= 8) ==>
              ParsePrologue(buf) == Rejected(UnknownKind(buf[4]))
    ensures ParsePrologue(buf).Parsed? <==>
              && |buf| >= 6 && buf[..4] == [0x53, 0x41, 0x52, 0x44] && 1 <= buf[4] <= 8 && Varint.Dec(buf[6..]).Some?
    ensures match ParsePrologue(buf)
            case Parsed(p, n) =>
              && p.kind.ToByte() == buf[4] && p.version == buf[5]
              && p.contextId == Varint.Dec(buf[6..]).value.0 && n == 6 + Varint.Dec(buf[6..]).value.1
            case _ => true
  {
    assert |buf| >= 4 ==> buf[0..4] == buf[..4];
  }

  lemma {:induction false} PrologueHead(p: Prologue, rest: seq<Byte>)
    requires p.contextId <= Varint.MAX
    ensures var buf := PrologueBytes(p) + rest;
            && buf[0..4] == MAGIC && buf[4] == p.kind.ToByte() && buf[5] == p.version
            && buf[6..] == Varint.Enc(p.contextId) + rest
  {
  }

  lemma {:induction false} PrologueRoundTrip(p: Prologue, rest: seq<Byte>)
    requires p.contextId <= Varint.MAX
    ensures ParsePrologue(PrologueBytes(p) + rest) == Parsed(p, |PrologueBytes(p)|)
  {
    PrologueHead(p, rest);
    KindRoundTrip(p.kind, 0);
    Varint.RoundTrip(p.contextId, rest);
  }

  lemma {:induction false} ProloguePrefixWaits(p: Prologue, k: nat)
    requires p.contextId <= Varint.MAX && k < |PrologueBytes(p)|
    ensures ParsePrologue(PrologueBytes(p)[..k]) == NeedMore
  {
    PrologueHead(p, []);
    KindRoundTrip(p.kind, 0);
    var all, prefix := PrologueBytes(p), PrologueBytes(p)[..k];
    assert all + [] == all && Varint.Enc(p.contextId) + [] == Varint.Enc(p.contextId);
    if k >= 4 {
      assert prefix[0..4] == all[0..4];
    }
    if k >= 6 {
      assert prefix[6..] == all[6..][..k - 6];
      Varint.PrefixIncomplete(p.contextId, k - 6);
    }
  }

  lemma {:induction false} PrologueStable(buf: seq<Byte>, more: seq<Byte>)
    requires !ParsePrologue(buf).NeedMore?
    ensures ParsePrologue(buf + more) == ParsePrologue(buf)
  {
    assert (buf + more)[0..4] == buf[0..4];
    if ParsePrologue(buf).Parsed? {
      assert (buf + more)[6..] == buf[6..] + more;
      Varint.Stable(buf[6..], more);
    }
  }

  lemma {:induction false} PrologueWaitingBound(buf: seq<Byte>)
    requires ParsePrologue(buf).NeedMore?
    ensures |buf| <= 13
  {
  }
}
