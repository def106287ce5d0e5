// Annex-B NAL unit handling (src/h264.rs): what the NAL units of a stream are.
//
// The specification is written in terms of the three-byte pattern 00 00 01
// alone: a NAL unit starts right after each occurrence, and the unit before it
// gives up the zero byte (if it has one to give) of a four-byte start code.
// The scanning loops are then proved to compute exactly that.
module AnnexB {
  import opened Common
  import opened Lists

  const NAL_TYPE_SLICE_IDR: nat := 5
  const NAL_TYPE_SPS: nat := 7
  const NAL_TYPE_PPS: nat := 8

  type Stream = seq<Byte>

  /** The bytes of a NAL unit, header byte included; never empty. */
  type Nal = u: seq<Byte> | |u| > 0 witness [0]

  // ---------------------------------------------------------------------
  // Specification
  // ---------------------------------------------------------------------

  predicate CodeAt(s: Stream, i: nat) {
    i + 3 <= |s| && s[i] == 0 && s[i + 1] == 0 && s[i + 2] == 1
  }

  /** The position of the first 00 00 01 at or after `from`; |s| if there is none. */
  function FirstCode(s: Stream, from: nat): (p: nat)
    requires from <= |s|
    ensures from <= p && (p + 3 <= |s| || p == |s|)
    decreases |s| - from
  {
    if from == |s| then |s|
    else if CodeAt(s, from) then from
    else FirstCode(s, from + 1)
  }

  lemma {:induction false} FirstCodeFacts(s: Stream, from: nat)
    requires from <= |s|
    ensures FirstCode(s, from) < |s| ==> CodeAt(s, FirstCode(s, from))
    ensures forall j :: from <= j < FirstCode(s, from) ==> !CodeAt(s, j)
    decreases |s| - from
  {
    if from < |s| && !CodeAt(s, from) {
      FirstCodeFacts(s, from + 1);
    }
  }

  lemma {:induction false} FirstCodeUnique(s: Stream, from: nat, p: nat)
    requires from <= p < |s| && CodeAt(s, p) && forall j :: from <= j < p ==> !CodeAt(s, j)
    ensures FirstCode(s, from) == p
  {
    FirstCodeFacts(s, from);
  }

  /** Where the start code whose last three bytes are at `p` begins, for a scan begun at `from`. */
  function CodeStart(s: Stream, from: nat, p: nat): (start: nat)
    requires from <= p <= |s|
    ensures from <= start <= p
  {
    if from < p < |s| && s[p - 1] == 0 then p - 1 else p
  }

  /** The NAL units of `s` from the one starting at `start` on. */
  function UnitsFrom(s: Stream, start: nat): List<Nal>
    requires start <= |s|
    decreases |s| - start
  {
    var p := FirstCode(s, start);
    var end := CodeStart(s, start, p);
    var rest := if p < |s| then UnitsFrom(s, p + 3) else Nil;
    if start < end then Cons(s[start..end], rest) else rest
  }

  /** All NAL units of an Annex-B stream; bytes before the first start code are ignored. */
  function Units(s: Stream): List<Nal> {
    var p := FirstCode(s, 0);
    if p < |s| then UnitsFrom(s, p + 3) else Nil
  }

  function NalType(u: Nal): nat {
    u[0] % 32
  }

  function Types(us: List<Nal>): List<nat> {
    match us
    case Nil => Nil
    case Cons(u, rest) => Cons(NalType(u), Types(rest))
  }

  /** The type is the low five bits of the header byte, behind one bit and the two of the reference idc. */
  lemma {:induction false} NalTypeIsLowBits(high: nat, t: nat, rest: seq<Byte>)
    requires high < 8 && t < 32
    ensures NalType([32 * high + t] + rest) == t
  {
  }

  /** SPS (7) and PPS (8) both precede the first IDR slice (5), and there is one. */
  ghost predicate SelfContained(ts: List<nat>) {
    exists pre: List<nat>, post: List<nat> :: ts == Append(pre, Cons(5, post)) && ReadyForIdr(pre)
  }

  predicate ReadyForIdr(pre: List<nat>) {
    Has(pre, 7) && Has(pre, 8) && !Has(pre, 5)
  }

  predicate IsParameterSet(t: nat) {
    t == NAL_TYPE_SPS || t == NAL_TYPE_PPS
  }

  function ParameterSetUnits(us: List<Nal>): List<Nal> {
    match us
    case Nil => Nil
    case Cons(u, rest) =>
      if IsParameterSet(NalType(u)) then Cons(u, ParameterSetUnits(rest)) else ParameterSetUnits(rest)
  }

  // ---------------------------------------------------------------------
  // Spans: where the units lie
  // ---------------------------------------------------------------------

  /** A unit with its start code: `code` is the start code's offset, `start..end` the unit's bytes. */
  datatype Span = Span(code: nat, start: nat, end: nat)

  function SpansFrom(s: Stream, code: nat, start: nat): List<Span>
    requires start <= |s|
    decreases |s| - start
  {
    var p := FirstCode(s, start);
    var end := CodeStart(s, start, p);
    var rest := if p < |s| then SpansFrom(s, end, p + 3) else Nil;
    if start < end then Cons(Span(code, start, end), rest) else rest
  }

  function Spans(s: Stream): List<Span> {
    var p := FirstCode(s, 0);
    if p < |s| then SpansFrom(s, CodeStart(s, 0, p), p + 3) else Nil
  }

  /** Where the start code in front of `start` begins: it is four bytes long exactly if a further zero comes first. */
  function WholeCode(s: Stream, start: nat): nat
    requires 3 <= start <= |s|
  {
    if start >= 4 && s[start - 4] == 0 then start - 4 else start - 3
  }

  predicate SpanIn(s: Stream, sp: Span) {
    && 3 <= sp.start < sp.end <= |s|
    && CodeAt(s, sp.start - 3) && sp.code == WholeCode(s, sp.start)
    && FirstCode(s, sp.start) >= sp.end
  }

  /** The spans, one by one, hold exactly the given units, each beginning no earlier than the last ended. */
  predicate Carves(s: Stream, lo: nat, sps: List<Span>, us: List<Nal>)
    decreases sps
  {
    match sps
    case Nil => us == Nil
    case Cons(sp, rest) =>
      us.Cons? && SpanIn(s, sp) && lo <= sp.code && s[sp.start..sp.end] == us.head && Carves(s, sp.end, rest, us.tail)
  }

  /** The unit that starts at `start`, if it is not empty, lies in its span. */
  lemma {:induction false} HeadSpanIn(s: Stream, code: nat, start: nat)
    requires 3 <= start <= |s| && CodeAt(s, start - 3) && code == WholeCode(s, start)
    ensures var end := CodeStart(s, start, FirstCode(s, start)); start < end ==> SpanIn(s, Span(code, start, end))
  {
  }

  /** Where the next span begins: at its start code, no earlier than this one ends. */
  lemma {:induction false} NextCode(s: Stream, start: nat)
    requires start <= |s| && FirstCode(s, start) < |s| && (start == 0 || s[start - 1] != 0)
    ensures var p := FirstCode(s, start);
            CodeAt(s, p) && p + 3 <= |s| && CodeStart(s, start, p) == WholeCode(s, p + 3)
  {
    FirstCodeFacts(s, start);
  }

  lemma {:induction false} SpansFromCarve(s: Stream, lo: nat, code: nat, start: nat)
    requires 3 <= start <= |s| && CodeAt(s, start - 3) && lo <= code == WholeCode(s, start)
    ensures Carves(s, lo, SpansFrom(s, code, start), UnitsFrom(s, start))
    decreases |s| - start
  {
    var p := FirstCode(s, start);
    var end := CodeStart(s, start, p);
    HeadSpanIn(s, code, start);
    if p < |s| {
      NextCode(s, start);
      SpansFromCarve(s, if start < end then end else lo, end, p + 3);
    }
  }

  /** Spans are in bounds, in order and disjoint, and carve out exactly the NAL units. */
  lemma {:induction false} SpansCarveUnits(s: Stream)
    ensures Carves(s, 0, Spans(s), Units(s))
  {
    var p := FirstCode(s, 0);
    if p < |s| {
      NextCode(s, 0);
      SpansFromCarve(s, 0, CodeStart(s, 0, p), p + 3);
    }
  }

  /** What `Carves` says about any two spans. */
  lemma {:induction false} CarvedAt(s: Stream, lo: nat, sps: List<Span>, us: List<Nal>, i: nat, j: nat)
    requires Carves(s, lo, sps, us)
    ensures Length(sps) == Length(us)
    ensures i < Length(sps) ==> var sp := At(sps, i); SpanIn(s, sp) && lo <= sp.code && s[sp.start..sp.end] == At(us, i)
    ensures i < j < Length(sps) ==> At(sps, i).end <= At(sps, j).code
    decreases sps
  {
    if sps.Cons? {
      CarvedAt(s, sps.head.end, sps.tail, us.tail, if i > 0 then i - 1 else 0, if j > 0 then j - 1 else 0);
      if i == 0 < j {
        CarvedAt(s, sps.head.end, sps.tail, us.tail, j - 1, 0);
      }
    }
  }

  // ---------------------------------------------------------------------
  // The scanning loops
  // ---------------------------------------------------------------------

  /** Scans for the next start code, three or four bytes long. */
  method FindStartCode(buf: Stream, from: nat) returns (r: Option<(nat, nat)>)
    ensures r == if from <= |buf| && FirstCode(buf, from) < |buf|
                 then Some((CodeStart(buf, from, FirstCode(buf, from)), FirstCode(buf, from) + 3))
                 else None
  {
    var i := from;
    while i + 3 <= |buf|
      invariant from <= i
      invariant forall j :: from <= j < i ==> !CodeAt(buf, j)
      invariant i > from && i < |buf| && CodeAt(buf, i) ==> buf[i - 1] != 0
    {
      if buf[i] == 0 && buf[i + 1] == 0 {
        if buf[i + 2] == 1 {
          FirstCodeUnique(buf, from, i);
          return Some((i, i + 3));
        }
        if i + 4 <= |buf| && buf[i + 2] == 0 && buf[i + 3] == 1 {
          FirstCodeUnique(buf, from, i + 1);
          return Some((i, i + 4));
        }
      }
      i := i + 1;
    }
    if from <= |buf| {
      FirstCodeFacts(buf, from);
    }
    r := None;
  }

  /** Every unit's span, start code included. */
  method NalSpans(buf: Stream) returns (spans: seq<Span>)
    ensures spans == Seq(Spans(buf))
  {
    spans := [];
    var first := FindStartCode(buf, 0);
    if first.None? {
      return;
    }
    var scStart: nat, nalStart: nat := first.value.0, first.value.1;
    while true
      invariant 3 <= nalStart <= |buf|
      invariant Seq(Spans(buf)) == Onto(spans, SpansFrom(buf, scStart, nalStart))
      decreases |buf| - nalStart
    {
      var next := FindStartCode(buf, nalStart);
      var end: nat := if next.Some? then next.value.0 else |buf|;
      if end > nalStart {
        spans := spans + [Span(scStart, nalStart, end)];
      }
      if next.None? {
        break;
      }
      scStart, nalStart := next.value.0, next.value.1;
    }
  }

  lemma {:induction false} SpansAndUnits(s: Stream)
    ensures |Seq(Spans(s))| == |Seq(Units(s))|
    ensures forall i :: 0 <= i < |Seq(Spans(s))| ==>
              var sp := Seq(Spans(s))[i]; SpanIn(s, sp) && s[sp.start..sp.end] == Seq(Units(s))[i]
  {
    SpansCarveUnits(s);
    OntoAt([], Spans(s), 0);
    OntoAt([], Units(s), 0);
    CarvedAt(s, 0, Spans(s), Units(s), 0, 0);
    forall i | 0 <= i < |Seq(Spans(s))|
      ensures var sp := Seq(Spans(s))[i]; SpanIn(s, sp) && s[sp.start..sp.end] == Seq(Units(s))[i]
    {
      OntoAt([], Spans(s), i);
      OntoAt([], Units(s), i);
      CarvedAt(s, 0, Spans(s), Units(s), i, 0);
    }
  }

  method SplitAnnexB(buf: Stream) returns (units: seq<Nal>)
    ensures units == Seq(Units(buf))
  {
    var spans := NalSpans(buf);
    SpansAndUnits(buf);
    units := seq(|spans|, i requires 0 <= i < |spans| => buf[spans[i].start..spans[i].end]);
  }
}
