// Parameter-set extraction, the self-containment test and the cache that makes
// every IDR self-contained (src/h264.rs).
module ParameterSets {
  import opened Common
  import opened Lists
  import opened AnnexB
  import opened AnnexBJoin
  import opened AnnexBRoundTrip

  predicate SpansIn(s: Stream, sps: List<Span>) {
    match sps
    case Nil => true
    case Cons(sp, rest) => SpanIn(s, sp) && SpansIn(s, rest)
  }

  /** The SPS and PPS units, start codes included, concatenated in stream order. */
  function ParameterSetBytes(s: Stream, sps: List<Span>): Stream
    requires SpansIn(s, sps)
  {
    match sps
    case Nil => []
    case Cons(sp, rest) =>
      (if IsParameterSet(s[sp.start] % 32) then s[sp.code..sp.end] else []) + ParameterSetBytes(s, rest)
  }

  lemma {:induction false} CarvesSpansIn(s: Stream, lo: nat, sps: List<Span>, us: List<Nal>)
    requires Carves(s, lo, sps, us)
    ensures SpansIn(s, sps)
    decreases sps
  {
    if sps.Cons? {
      CarvesSpansIn(s, sps.head.end, sps.tail, us.tail);
    }
  }

  predicate HasBoth(ts: List<nat>) {
    Has(ts, NAL_TYPE_SPS) && Has(ts, NAL_TYPE_PPS)
  }

  function Extracted(s: Stream): Option<Stream> {
    SpansCarveUnits(s);
    CarvesSpansIn(s, 0, Spans(s), Units(s));
    if HasBoth(Types(Units(s))) then Some(ParameterSetBytes(s, Spans(s))) else None
  }

  // ---------------------------------------------------------------------
  // Extraction keeps exactly the SPS and PPS units
  // ---------------------------------------------------------------------

  /** Unit by unit the same, except that a trailing zero byte may be gone. */
  predicate SameButTrailingZero(xs: List<Nal>, ys: List<Nal>) {
    match xs
    case Nil => ys == Nil
    case Cons(x, rest) => ys.Cons? && (x == ys.head || x + [0] == ys.head) && SameButTrailingZero(rest, ys.tail)
  }

  lemma {:induction false} SameTypes(xs: List<Nal>, ys: List<Nal>)
    requires SameButTrailingZero(xs, ys)
    ensures Types(xs) == Types(ys)
  {
    if xs.Cons? {
      SameTypes(xs.tail, ys.tail);
    }
  }

  lemma {:induction false} SpanIsPiece(s: Stream, sp: Span)
    requires SpanIn(s, sp)
    ensures var u := s[sp.start..sp.end];
            && NoCodeIn(u)
            && s[sp.code..sp.end] == StartCode(sp.code + 4 == sp.start) + u
  {
    SliceClean(s, sp.start, sp.end);
    assert s[sp.code..sp.start] == StartCode(sp.code + 4 == sp.start);
    assert s[sp.code..sp.end] == s[sp.code..sp.start] + s[sp.start..sp.end];
  }

  /** A unit that may lose its trailing zero, in front of others. */
  lemma {:induction false} TrimmedInFront(u: Nal, trim: bool, xs: List<Nal>, us: List<Nal>)
    requires u[0] != 0 && SameButTrailingZero(xs, us)
    ensures SameButTrailingZero(Append(TrimIf(trim, Cons(u, Nil)), xs), Cons(u, us))
  {
    assert u[|u| - 1] == 0 ==> |u| > 1 && u[..|u| - 1] + [0] == u;
  }

  lemma {:induction false} PieceInFront(fourByte: bool, u: Nal, more: Stream, us: List<Nal>)
    requires NoCodeIn(u) && u[0] != 0 && (more == [] || BeginsWithCode(more))
    requires SameButTrailingZero(Units(more), us)
    ensures SameButTrailingZero(Units(StartCode(fourByte) + u + more), Cons(u, us))
    ensures BeginsWithCode(StartCode(fourByte) + u + more)
  {
    StartCodeBegins(fourByte, u + more);
    AppendBytes(StartCode(fourByte), u, more);
    var piece := StartCode(fourByte) + u;
    UnitsOfPiece(fourByte, u);
    if more == [] {
      assert piece + more == piece;
      assert FirstCode([], 0) == 0;
    } else {
      var trim := CodeAt(more, 0) && !EndsWithCode(piece);
      UnitsOfJoin(piece, more);
      TrimmedInFront(u, trim, Units(more), us);
    }
  }

  lemma {:induction false} ExtractionKeeps(s: Stream, lo: nat, sps: List<Span>, us: List<Nal>)
    requires Carves(s, lo, sps, us) && SpansIn(s, sps)
    ensures var out := ParameterSetBytes(s, sps);
            && (out == [] || BeginsWithCode(out))
            && SameButTrailingZero(Units(out), ParameterSetUnits(us))
    decreases sps
  {
    match sps
    case Nil => assert FirstCode([], 0) == 0;
    case Cons(sp, rest) =>
      ExtractionKeeps(s, sp.end, rest, us.tail);
      var more := ParameterSetBytes(s, rest);
      if IsParameterSet(s[sp.start] % 32) {
        var fourByte := sp.code + 4 == sp.start;
        SpanIsPiece(s, sp);
        PieceInFront(fourByte, us.head, more, ParameterSetUnits(us.tail));
      } else {
        assert [] + more == more;
      }
  }

  function ParameterSetTypes(ts: List<nat>): List<nat> {
    match ts
    case Nil => Nil
    case Cons(t, rest) => if IsParameterSet(t) then Cons(t, ParameterSetTypes(rest)) else ParameterSetTypes(rest)
  }

  lemma {:induction false} TypesOfParameterSetUnits(us: List<Nal>)
    ensures Types(ParameterSetUnits(us)) == ParameterSetTypes(Types(us))
  {
    if us.Cons? {
      TypesOfParameterSetUnits(us.tail);
    }
  }

  /** The extracted bytes, read back, are the SPS and PPS units of the original and nothing else. */
  lemma {:induction false} ExtractedUnits(s: Stream)
    requires Extracted(s).Some?
    ensures SameButTrailingZero(Units(Extracted(s).value), ParameterSetUnits(Units(s)))
    ensures Types(Units(Extracted(s).value)) == ParameterSetTypes(Types(Units(s)))
  {
    SpansCarveUnits(s);
    CarvesSpansIn(s, 0, Spans(s), Units(s));
    ExtractionKeeps(s, 0, Spans(s), Units(s));
    SameTypes(Units(Extracted(s).value), ParameterSetUnits(Units(s)));
    TypesOfParameterSetUnits(Units(s));
  }

  // ---------------------------------------------------------------------
  // Self-containment
  // ---------------------------------------------------------------------

  /** What the scan finds, given what it has already seen. */
  function Scan(ts: List<nat>, sps: bool, pps: bool): bool {
    match ts
    case Nil => false
    case Cons(t, rest) =>
      if t == NAL_TYPE_SPS then Scan(rest, true, pps)
      else if t == NAL_TYPE_PPS then Scan(rest, sps, true)
      else if t == NAL_TYPE_SLICE_IDR then sps && pps
      else Scan(rest, sps, pps)
  }

  /** An IDR is found, with each parameter set either already seen or ahead of it. */
  ghost predicate ScanMeaning(ts: List<nat>, sps: bool, pps: bool) {
    exists pre, post ::
      && ts == Append(pre, Cons(NAL_TYPE_SLICE_IDR, post)) && !Has(pre, NAL_TYPE_SLICE_IDR)
      && (sps || Has(pre, NAL_TYPE_SPS)) && (pps || Has(pre, NAL_TYPE_PPS))
  }

  lemma {:induction false} ScanFinds(ts: List<nat>, sps: bool, pps: bool)
    requires Scan(ts, sps, pps)
    ensures ScanMeaning(ts, sps, pps)
  {
    var t, rest := ts.head, ts.tail;
    if t == NAL_TYPE_SLICE_IDR {
      var pre: List<nat> := Nil;
      assert ts == Append(pre, Cons(NAL_TYPE_SLICE_IDR, rest)) && !Has(pre, NAL_TYPE_SLICE_IDR);
    } else {
      var sps', pps' := sps || t == NAL_TYPE_SPS, pps || t == NAL_TYPE_PPS;
      ScanFinds(rest, sps', pps');
      var pre, post :| && rest == Append(pre, Cons(NAL_TYPE_SLICE_IDR, post)) && !Has(pre, NAL_TYPE_SLICE_IDR)
                       && (sps' || Has(pre, NAL_TYPE_SPS)) && (pps' || Has(pre, NAL_TYPE_PPS));
      var longer := Cons(t, pre);
      assert ts == Append(longer, Cons(NAL_TYPE_SLICE_IDR, post)) && !Has(longer, NAL_TYPE_SLICE_IDR);
      assert (sps || Has(longer, NAL_TYPE_SPS)) && (pps || Has(longer, NAL_TYPE_PPS));
    }
  }

  lemma {:induction false} ScanMisses(ts: List<nat>, sps: bool, pps: bool, pre: List<nat>, post: List<nat>)
    requires ts == Append(pre, Cons(NAL_TYPE_SLICE_IDR, post)) && !Has(pre, NAL_TYPE_SLICE_IDR)
    requires (sps || Has(pre, NAL_TYPE_SPS)) && (pps || Has(pre, NAL_TYPE_PPS))
    ensures Scan(ts, sps, pps)
    decreases pre
  {
    if pre.Cons? {
      ScanMisses(ts.tail, sps || ts.head == NAL_TYPE_SPS, pps || ts.head == NAL_TYPE_PPS, pre.tail, post);
    }
  }

  lemma {:induction false} ScanIsSelfContained(ts: List<nat>)
    ensures Scan(ts, false, false) <==> SelfContained(ts)
  {
    if Scan(ts, false, false) {
      ScanFinds(ts, false, false);
      var pre, post :| && ts == Append(pre, Cons(NAL_TYPE_SLICE_IDR, post)) && !Has(pre, NAL_TYPE_SLICE_IDR)
                       && Has(pre, NAL_TYPE_SPS) && Has(pre, NAL_TYPE_PPS);
      assert ReadyForIdr(pre);
    } else if SelfContained(ts) {
      var pre, post :| ts == Append(pre, Cons(NAL_TYPE_SLICE_IDR, post)) && ReadyForIdr(pre);
      ScanMisses(ts, false, false, pre, post);
    }
  }

  // ---------------------------------------------------------------------
  // The loops of extract_parameter_sets and is_self_contained_idr
  // ---------------------------------------------------------------------

  /** The rest of the extraction loop, from the given loop state. */
  ghost function ExtractRest(s: Stream, rest: List<Span>, sps: bool, pps: bool, out: Stream): Option<Stream>
    requires SpansIn(s, rest)
    decreases rest
  {
    match rest
    case Nil => if sps && pps then Some(out) else None
    case Cons(sp, tail) =>
      var t := s[sp.start] % 32;
      if t == NAL_TYPE_SPS then ExtractRest(s, tail, true, pps, out + s[sp.code..sp.end])
      else if t == NAL_TYPE_PPS then ExtractRest(s, tail, sps, true, out + s[sp.code..sp.end])
      else ExtractRest(s, tail, sps, pps, out)
  }

  lemma {:induction false} AppendBytes(a: Stream, b: Stream, c: Stream)
    ensures (a + b) + c == a + (b + c)
    ensures b == [] ==> a + (b + c) == a + c
  {
  }

  lemma {:induction false} ExtractRestIs(
    s: Stream, lo: nat, rest: List<Span>, us: List<Nal>, sps: bool, pps: bool, out: Stream)
    requires Carves(s, lo, rest, us) && SpansIn(s, rest)
    ensures ExtractRest(s, rest, sps, pps, out)
         == if (sps || Has(Types(us), NAL_TYPE_SPS)) && (pps || Has(Types(us), NAL_TYPE_PPS))
            then Some(out + ParameterSetBytes(s, rest)) else None
    decreases rest
  {
    match rest
    case Nil => assert out + [] == out;
    case Cons(sp, tail) =>
      var t := s[sp.start] % 32;
      assert t == NalType(us.head);
      var piece := if IsParameterSet(t) then s[sp.code..sp.end] else [];
      AppendBytes(out, piece, ParameterSetBytes(s, tail));
      ExtractRestIs(s, sp.end, tail, us.tail, sps || t == NAL_TYPE_SPS, pps || t == NAL_TYPE_PPS,
                    if IsParameterSet(t) then out + piece else out);
  }

  method ExtractParameterSets(buf: Stream) returns (r: Option<Stream>)
    ensures r == Extracted(buf)
  {
    var spans := NalSpans(buf);
    var out: Stream := [];
    var sps, pps := false, false;
    ghost var rest := Spans(buf);
    SpansCarveUnits(buf);
    CarvesSpansIn(buf, 0, rest, Units(buf));
    ExtractRestIs(buf, 0, rest, Units(buf), false, false, []);
    assert [] + ParameterSetBytes(buf, rest) == ParameterSetBytes(buf, rest);
    PendingOnto([], rest);
    for i := 0 to |spans|
      invariant Pending(spans, i, rest) && SpansIn(buf, rest)
      invariant ExtractRest(buf, rest, sps, pps, out) == Extracted(buf)
    {
      var span := spans[i];
      var nalType := buf[span.start] % 32;
      if nalType == NAL_TYPE_SPS {
        sps := true;
        out := out + buf[span.code..span.end];
      } else if nalType == NAL_TYPE_PPS {
        pps := true;
        out := out + buf[span.code..span.end];
      }
      rest := rest.tail;
    }
    r := if sps && pps then Some(out) else None;
  }

  method IsSelfContainedIdr(buf: Stream) returns (r: bool)
    ensures r <==> SelfContained(Types(Units(buf)))
  {
    var units := SplitAnnexB(buf);
    var seenSps, seenPps := false, false;
    ScanIsSelfContained(Types(Units(buf)));
    ghost var rest := Units(buf);
    PendingOnto([], rest);
    for i := 0 to |units|
      invariant Pending(units, i, rest)
      invariant Scan(Types(rest), seenSps, seenPps) == SelfContained(Types(Units(buf)))
    {
      var nalType := NalType(units[i]);
      if nalType == NAL_TYPE_SPS {
        seenSps := true;
      } else if nalType == NAL_TYPE_PPS {
        seenPps := true;
      } else if nalType == NAL_TYPE_SLICE_IDR {
        return seenSps && seenPps;
      }
      rest := rest.tail;
    }
    r := false;
  }

  // ---------------------------------------------------------------------
  // Completing an IDR
  // ---------------------------------------------------------------------

  /** Parameter sets that can be put in front of an IDR: an SPS, a PPS, no IDR of their own, and a last unit
      the seam cannot destroy. */
  predicate Usable(sets: Stream) {
    && HasBoth(Types(Units(sets)))
    && !Has(Types(Units(sets)), NAL_TYPE_SLICE_IDR)
    && LastTypeByteNonzero(Units(sets))
  }

  lemma {:induction false} ParameterSetTypesOnly(ts: List<nat>, t: nat)
    ensures Has(ParameterSetTypes(ts), t) <==> Has(ts, t) && IsParameterSet(t)
  {
    if ts.Cons? {
      ParameterSetTypesOnly(ts.tail, t);
    }
  }

  lemma {:induction false} NonzeroTypes(us: List<Nal>)
    requires !Has(Types(us), 0)
    ensures LastTypeByteNonzero(us)
  {
    if us.Cons? {
      NonzeroTypes(us.tail);
    }
  }

  /** Whatever is extracted is usable. */
  lemma {:induction false} ExtractedUsable(s: Stream)
    requires Extracted(s).Some?
    ensures Usable(Extracted(s).value)
  {
    ExtractedUnits(s);
    var ts := Types(Units(s));
    ParameterSetTypesOnly(ts, NAL_TYPE_SPS);
    ParameterSetTypesOnly(ts, NAL_TYPE_PPS);
    ParameterSetTypesOnly(ts, NAL_TYPE_SLICE_IDR);
    ParameterSetTypesOnly(ts, 0);
    NonzeroTypes(Units(Extracted(s).value));
  }

  /** Extracted sets in front of an access unit that begins with a start code: the types are the two lists appended. */
  lemma {:induction false} SetsThenUnit(s: Stream, au: Stream)
    requires Extracted(s).Some? && BeginsWithCode(au)
    ensures Types(Units(Extracted(s).value + au)) == Append(ParameterSetTypes(Types(Units(s))), Types(Units(au)))
  {
    ExtractedUsable(s);
    ExtractedUnits(s);
    TypesOfCodedJoin(Extracted(s).value, au);
  }

  /** What `complete_idr` returns. */
  function Completed(sets: Option<Stream>, au: Stream): Stream {
    if sets.Some? && !Has(Types(Units(au)), NAL_TYPE_SPS) then sets.value + au else au
  }

  lemma {:induction false} SplitAtFirst(ts: List<nat>, t: nat) returns (pre: List<nat>, post: List<nat>)
    requires Has(ts, t)
    ensures ts == Append(pre, Cons(t, post)) && !Has(pre, t)
  {
    if ts.head == t {
      pre, post := Nil, ts.tail;
    } else {
      pre, post := SplitAtFirst(ts.tail, t);
      pre := Cons(ts.head, pre);
    }
  }

  /** Usable sets in front of any bytes that hold an IDR slice, start code first or not, make a self-contained
      access unit, and one that already has an SPS. */
  lemma {:induction false} PrependedIsSelfContained(sets: Stream, au: Stream)
    requires Usable(sets) && Has(Types(Units(au)), NAL_TYPE_SLICE_IDR)
    ensures SelfContained(Types(Units(sets + au)))
    ensures Has(Types(Units(sets + au)), NAL_TYPE_SPS)
  {
    var x := TypesOfJoin(sets, au);
    var setTypes, tail := Types(Units(sets)), Append(x, Types(Units(au)));
    HasAppend(x, Types(Units(au)), NAL_TYPE_SLICE_IDR);
    HasAppend(setTypes, tail, NAL_TYPE_SPS);
    var pre, post := SplitAtFirst(tail, NAL_TYPE_SLICE_IDR);
    AppendAssoc(setTypes, pre, Cons(NAL_TYPE_SLICE_IDR, post));
    HasAppend(setTypes, pre, NAL_TYPE_SPS);
    HasAppend(setTypes, pre, NAL_TYPE_PPS);
    HasAppend(setTypes, pre, NAL_TYPE_SLICE_IDR);
    assert ReadyForIdr(Append(setTypes, pre));
  }

  predicate UsableIfAny(sets: Option<Stream>) {
    sets.Some? ==> Usable(sets.value)
  }

  /** When an IDR access unit comes out self-contained: it was to begin with, or there is something to put in front of
      it and it has no SPS that would prevent that. */
  ghost predicate ComesOutSelfContained(sets: Option<Stream>, au: Stream) {
    SelfContained(Types(Units(au))) || (sets.Some? && !Has(Types(Units(au)), NAL_TYPE_SPS))
  }

  /** With usable sets cached, or none, an IDR access unit comes out self-contained exactly in those cases; it stays an
      exact suffix; completing twice changes nothing more. */
  lemma {:induction false} CompletionIsExact(sets: Option<Stream>, au: Stream)
    requires UsableIfAny(sets) && Has(Types(Units(au)), NAL_TYPE_SLICE_IDR)
    ensures var out := Completed(sets, au);
            && (SelfContained(Types(Units(out))) <==> ComesOutSelfContained(sets, au))
            && |out| >= |au| && out[|out| - |au|..] == au
            && Completed(sets, out) == out
  {
    if sets.Some? {
      PrependedIsSelfContained(sets.value, au);
      if SelfContained(Types(Units(au))) {
        SelfContainedHasSps(Types(Units(au)));
      }
    }
  }

  lemma {:induction false} SelfContainedHasSps(ts: List<nat>)
    requires SelfContained(ts)
    ensures Has(ts, NAL_TYPE_SPS)
  {
    var pre, post :| ts == Append(pre, Cons(NAL_TYPE_SLICE_IDR, post)) && ReadyForIdr(pre);
    HasAppend(pre, Cons(NAL_TYPE_SLICE_IDR, post), NAL_TYPE_SPS);
  }

  lemma {:induction false} ScanAppend(a: List<nat>, b: List<nat>, sps: bool, pps: bool)
    requires !Has(a, NAL_TYPE_SLICE_IDR)
    ensures Scan(Append(a, b), sps, pps) == Scan(b, sps || Has(a, NAL_TYPE_SPS), pps || Has(a, NAL_TYPE_PPS))
  {
    if a.Cons? {
      ScanAppend(a.tail, b, sps || a.head == NAL_TYPE_SPS, pps || a.head == NAL_TYPE_PPS);
    }
  }

  lemma {:induction false} ScanIs(ts: List<nat>, sps: bool, pps: bool)
    ensures Scan(ts, sps, pps) <==> ScanMeaning(ts, sps, pps)
  {
    if Scan(ts, sps, pps) {
      ScanFinds(ts, sps, pps);
    }
    if ScanMeaning(ts, sps, pps) {
      var pre, post :|
        && ts == Append(pre, Cons(NAL_TYPE_SLICE_IDR, post)) && !Has(pre, NAL_TYPE_SLICE_IDR)
        && (sps || Has(pre, NAL_TYPE_SPS)) && (pps || Has(pre, NAL_TYPE_PPS));
      ScanMisses(ts, sps, pps, pre, post);
    }
  }

  /** What out-of-band bytes of any kind do, usable or not, in front of an access unit that begins with a start code: it
      comes out self-contained exactly if each parameter set is in those bytes or ahead of the first IDR slice. */
  lemma {:induction false} AnyFallbackIsExact(sets: Stream, au: Stream)
    requires BeginsWithCode(au) && LastTypeByteNonzero(Units(sets)) && !Has(Types(Units(sets)), NAL_TYPE_SLICE_IDR)
    ensures SelfContained(Types(Units(sets + au)))
       <==> ScanMeaning(Types(Units(au)), Has(Types(Units(sets)), NAL_TYPE_SPS), Has(Types(Units(sets)), NAL_TYPE_PPS))
  {
    var given, ts := Types(Units(sets)), Types(Units(au));
    TypesOfCodedJoin(sets, au);
    ScanIsSelfContained(Types(Units(sets + au)));
    ScanAppend(given, ts, false, false);
    ScanIs(ts, Has(given, NAL_TYPE_SPS), Has(given, NAL_TYPE_PPS));
  }

  /** An access unit with an SPS but no PPS is taken for complete and left undecodable on its own. */
  lemma {:induction false} SpsWithoutPpsIsNotCompleted()
    ensures var au := [0, 0, 1, 7, 0, 0, 1, 5];
            && Has(Types(Units(au)), NAL_TYPE_SLICE_IDR)
            && forall sets :: !SelfContained(Types(Units(Completed(sets, au))))
  {
    var cs := Cons(Coded([7], false), Cons(Coded([5], false), Nil));
    assert Join(cs.tail) == [0, 0, 1, 5];
    assert Join(cs) == [0, 0, 1, 7, 0, 0, 1, 5];
    SplitUndoesJoin(cs);
    var ts := Types(Nals(cs));
    assert ts == Cons(7, Cons(5, Nil));
    ScanIsSelfContained(ts);
  }

  // ---------------------------------------------------------------------
  // The cache
  // ---------------------------------------------------------------------

  function Observed(sets: Option<Stream>, au: Stream): Option<Stream> {
    if sets.None? then Extracted(au) else sets
  }

  function WithFallback(sets: Option<Stream>, fallback: Stream): Option<Stream> {
    if sets.None? && fallback != [] then Some(fallback) else sets
  }

  class ParameterSetCache {
    var sets: Option<Stream>

    constructor ()
      ensures sets == None
    {
      sets := None;
    }

    method Observe(accessUnit: Stream) returns (filled: bool)
      modifies this
      ensures sets == Observed(old(sets), accessUnit)
      ensures filled == sets.Some?
    {
      if sets.None? {
        sets := ExtractParameterSets(accessUnit);
      }
      filled := sets.Some?;
    }

    method SetFallback(fallback: Stream)
      modifies this
      ensures sets == WithFallback(old(sets), fallback)
    {
      if sets.None? && fallback != [] {
        sets := Some(fallback);
      }
    }

    method CompleteIdr(accessUnit: Stream) returns (out: Stream)
      ensures out == Completed(sets, accessUnit)
    {
      match sets {
        case Some(cached) =>
          var units := SplitAnnexB(accessUnit);
          var containsSps := exists i :: 0 <= i < |units| && NalType(units[i]) == NAL_TYPE_SPS;
          PendingOnto([], Units(accessUnit));
          HasPending(units, 0, Units(accessUnit), NAL_TYPE_SPS);
          out := if containsSps then accessUnit else cached + accessUnit;
        case None =>
          out := accessUnit;
      }
    }
  }

  lemma {:induction false} HasPending(units: seq<Nal>, i: nat, rest: List<Nal>, t: nat)
    requires Pending(units, i, rest)
    ensures Has(Types(rest), t) <==> exists k :: i <= k < |units| && NalType(units[k]) == t
    decreases rest
  {
    if rest.Cons? {
      HasPending(units, i + 1, rest.tail, t);
      assert NalType(rest.head) == NalType(units[i]);
    }
  }

  // ---------------------------------------------------------------------
  // Whole runs
  // ---------------------------------------------------------------------

  /** One call on the cache; completing does not change it. */
  datatype CacheCall = Observe(au: Stream) | SetFallback(sets: Stream) | CompleteIdr(au: Stream)

  /** The cache after the first `n` calls. */
  function CacheAfter(calls: seq<CacheCall>, n: nat): Option<Stream>
    requires n <= |calls|
  {
    if n == 0 then None
    else
      var before := CacheAfter(calls, n - 1);
      match calls[n - 1]
      case Observe(au) => Observed(before, au)
      case SetFallback(sets) => WithFallback(before, sets)
      case CompleteIdr(_) => before
  }

  /** Out-of-band sets given in the first `n` calls are a usable pair too, or are ignored for being empty. */
  predicate FallbacksUsable(calls: seq<CacheCall>, n: nat)
    requires n <= |calls|
  {
    forall i :: 0 <= i < n && calls[i].SetFallback? ==> calls[i].sets == [] || Usable(calls[i].sets)
  }

  lemma {:induction false} CacheStaysUsable(calls: seq<CacheCall>, n: nat)
    requires n <= |calls| && FallbacksUsable(calls, n)
    ensures CacheAfter(calls, n).Some? ==> Usable(CacheAfter(calls, n).value)
  {
    for i := 0 to n
      invariant CacheAfter(calls, i).Some? ==> Usable(CacheAfter(calls, i).value)
    {
      var call := calls[i];
      if call.Observe? && Extracted(call.au).Some? {
        ExtractedUsable(call.au);
      }
    }
  }

  /** A call that fills an empty cache: an access unit with both sets is observed, or a fallback is given that is not
      empty. */
  predicate Fills(call: CacheCall) {
    match call
    case Observe(au) => Has(Types(Units(au)), 7) && Has(Types(Units(au)), 8)
    case SetFallback(sets) => |sets| > 0
    case CompleteIdr(_) => false
  }

  /** What it fills it with: the fallback as it is, or the extracted sets. */
  function Filling(call: CacheCall): Stream
    requires Fills(call)
  {
    match call
    case Observe(au) => Extracted(au).value
    case SetFallback(sets) => sets
  }

  /** After any run the cache is filled exactly if some call filled it, and the first such call fixes its value. */
  lemma {:induction false} CacheIsFirstFilling(calls: seq<CacheCall>, n: nat)
    requires n <= |calls|
    ensures CacheAfter(calls, n).Some? <==> exists i :: 0 <= i < n && Fills(calls[i])
    ensures forall i :: 0 <= i < n && Fills(calls[i]) && (forall k :: 0 <= k < i ==> !Fills(calls[k])) ==>
              CacheAfter(calls, n) == Some(Filling(calls[i]))
  {
    if n > 0 {
      CacheIsFirstFilling(calls, n - 1);
    }
  }

  /** Out-of-band sets that come first are what every later IDR without an SPS gets in front of it, as they are; if they
      are usable it leaves self-contained. */
  lemma {:induction false} FallbackIsPrepended(calls: seq<CacheCall>, i: nat, j: nat)
    requires i < j < |calls| && calls[i].SetFallback? && |calls[i].sets| > 0
    requires forall k :: 0 <= k < i ==> !Fills(calls[k])
    requires calls[j].CompleteIdr? && !Has(Types(Units(calls[j].au)), 7)
    ensures Completed(CacheAfter(calls, j), calls[j].au) == calls[i].sets + calls[j].au
    ensures Usable(calls[i].sets) && Has(Types(Units(calls[j].au)), 5) ==>
              SelfContained(Types(Units(calls[i].sets + calls[j].au)))
  {
    CacheIsFirstFilling(calls, j);
    assert Fills(calls[i]);
    if Usable(calls[i].sets) && Has(Types(Units(calls[j].au)), 5) {
      PrependedIsSelfContained(calls[i].sets, calls[j].au);
    }
  }

  lemma {:induction false} CacheStaysFilled(calls: seq<CacheCall>, m: nat, n: nat)
    requires m <= n <= |calls| && CacheAfter(calls, m).Some?
    ensures CacheAfter(calls, n) == CacheAfter(calls, m)
  {
    if m < n {
      CacheStaysFilled(calls, m, n - 1);
    }
  }

  /** Every IDR of any run leaves self-contained exactly if it was, or something had been cached and it has no SPS. */
  lemma {:induction false} EveryIdrIsExact(calls: seq<CacheCall>, j: nat)
    requires j < |calls| && FallbacksUsable(calls, j)
    requires calls[j].CompleteIdr? && Has(Types(Units(calls[j].au)), NAL_TYPE_SLICE_IDR)
    ensures var sets, au := CacheAfter(calls, j), calls[j].au;
            SelfContained(Types(Units(Completed(sets, au)))) <==> ComesOutSelfContained(sets, au)
  {
    CacheStaysUsable(calls, j);
    CompletionIsExact(CacheAfter(calls, j), calls[j].au);
  }

  /** After the first access unit that carries both parameter sets, every IDR that comes without an SPS leaves
      self-contained, whatever else the cache was asked to do; only fallbacks given before that unit can matter. */
  lemma {:induction false} EveryLaterIdrIsSelfContained(calls: seq<CacheCall>, i: nat, j: nat)
    requires i < j < |calls| && FallbacksUsable(calls, i)
    requires calls[i].Observe? && HasBoth(Types(Units(calls[i].au)))
    requires calls[j].CompleteIdr? && Has(Types(Units(calls[j].au)), NAL_TYPE_SLICE_IDR)
    ensures var au := calls[j].au; var out := Completed(CacheAfter(calls, j), au);
            && (SelfContained(Types(Units(out))) <==>
                !Has(Types(Units(au)), NAL_TYPE_SPS) || SelfContained(Types(Units(au))))
            && |out| >= |au| && out[|out| - |au|..] == au
  {
    CacheStaysUsable(calls, i + 1);
    CacheStaysFilled(calls, i + 1, j);
    CompletionIsExact(CacheAfter(calls, j), calls[j].au);
  }
}
