// The backpressure core (src/backpressure.rs): the sliding-window baseline kept
// in a monotonic deque, and the Streaming/Congested/Reset decision automaton.
module Backpressure {
  import opened Common

  const VIDEO_QUEUE_BASELINE_WINDOW_US: nat := 10_000_000
  const VIDEO_RATE_REDUCE_THRESHOLD_DELTA_US: nat := 100_000
  const MAX_VIDEO_QUEUE_DURATION_DELTA_US: nat := 300_000
  const CONGESTED_TO_STREAMING_HYSTERESIS_US: nat := 500_000
  const MAX_VIDEO_QUEUE_BYTES: nat := 4 * 1024 * 1024
  const HARD_THRESHOLD_CONSECUTIVE_COUNT: nat := 3

  // ---------------------------------------------------------------------
  // The baseline: a sliding-window minimum
  // ---------------------------------------------------------------------

  datatype Sample = Sample(ts: nat, value: nat)

  /** `m` is the least value recorded at or after `cutoff`. */
  ghost predicate IsWindowMin(history: seq<Sample>, cutoff: nat, m: nat) {
    && (exists i :: 0 <= i < |history| && history[i].ts >= cutoff && history[i].value == m)
    && (forall i :: 0 <= i < |history| && history[i].ts >= cutoff ==> m <= history[i].value)
  }

  /** The deque without the back samples that a new `value` makes irrelevant. */
  function DropDominated(d: seq<Sample>, value: nat): seq<Sample> {
    if |d| > 0 && d[|d| - 1].value >= value then DropDominated(d[..|d| - 1], value) else d
  }

  function DropExpired(d: seq<Sample>, cutoff: nat): seq<Sample> {
    if |d| > 0 && d[0].ts < cutoff then DropExpired(d[1..], cutoff) else d
  }

  function Recorded(d: seq<Sample>, window: nat, now: nat, value: nat): seq<Sample> {
    DropExpired(DropDominated(d, value) + [Sample(now, value)], SaturatingSub(now, window))
  }

  ghost predicate Increasing(d: seq<Sample>) {
    forall i, j :: 0 <= i < j < |d| ==> d[i].value < d[j].value && d[i].ts <= d[j].ts
  }

  /** Some sample of the deque is as recent and as small as `h`. */
  ghost predicate Covered(d: seq<Sample>, h: Sample) {
    exists i :: 0 <= i < |d| && d[i].ts >= h.ts && d[i].value <= h.value
  }

  ghost predicate AllRecorded(d: seq<Sample>, history: seq<Sample>, cutoff: nat) {
    forall i :: 0 <= i < |d| ==> d[i] in history && d[i].ts >= cutoff
  }

  ghost predicate AllCovered(d: seq<Sample>, history: seq<Sample>, cutoff: nat) {
    forall j {:trigger Covered(d, history[j])} ::
      0 <= j < |history| && history[j].ts >= cutoff ==> Covered(d, history[j])
  }

  /** The deque holds samples of the window only, and covers every sample of the window. */
  ghost predicate Tracks(d: seq<Sample>, history: seq<Sample>, cutoff: nat) {
    Increasing(d) && AllRecorded(d, history, cutoff) && AllCovered(d, history, cutoff)
  }

  lemma {:induction false} DropDominatedKeeps(d: seq<Sample>, value: nat)
    requires Increasing(d)
    ensures DropDominated(d, value) <= d
    ensures forall i :: 0 <= i < |DropDominated(d, value)| ==> d[i].value < value
    ensures forall i :: |DropDominated(d, value)| <= i < |d| ==> d[i].value >= value
  {
    if |d| > 0 && d[|d| - 1].value >= value {
      DropDominatedKeeps(d[..|d| - 1], value);
    }
  }

  lemma {:induction false} DropExpiredKeeps(d: seq<Sample>, cutoff: nat)
    requires Increasing(d)
    ensures |DropExpired(d, cutoff)| <= |d|
    ensures DropExpired(d, cutoff) == d[|d| - |DropExpired(d, cutoff)|..]
    ensures forall i :: 0 <= i < |d| - |DropExpired(d, cutoff)| ==> d[i].ts < cutoff
    ensures forall i :: |d| - |DropExpired(d, cutoff)| <= i < |d| ==> d[i].ts >= cutoff
  {
    if |d| > 0 && d[0].ts < cutoff {
      DropExpiredKeeps(d[1..], cutoff);
      var k := |d| - |DropExpired(d, cutoff)|;
      forall i | 0 <= i < k ensures d[i].ts < cutoff {
        assert i > 0 ==> d[i] == d[1..][i - 1];
      }
      forall i | k <= i < |d| ensures d[i].ts >= cutoff {
        assert d[i] == d[1..][i - 1];
      }
    }
  }

  lemma {:induction false} CoveredPush(d: seq<Sample>, s: Sample, h: Sample)
    requires Increasing(d) && h.ts <= s.ts && (h == s || Covered(d, h))
    ensures Covered(DropDominated(d, s.value) + [s], h)
  {
    var kept := DropDominated(d, s.value);
    DropDominatedKeeps(d, s.value);
    var pushed := kept + [s];
    assert pushed[|kept|] == s;
    if h != s {
      var i :| 0 <= i < |d| && d[i].ts >= h.ts && d[i].value <= h.value;
      assert i < |kept| ==> pushed[i] == d[i];
    }
  }

  lemma {:induction false} CoveredExpire(d: seq<Sample>, cutoff: nat, h: Sample)
    requires Increasing(d) && Covered(d, h) && h.ts >= cutoff
    ensures Covered(DropExpired(d, cutoff), h)
  {
    var i: nat :| i < |d| && d[i].ts >= h.ts && d[i].value <= h.value;
    CoveredBy(d, cutoff, h, i);
  }

  lemma {:induction false} CoveredBy(d: seq<Sample>, cutoff: nat, h: Sample, i: nat)
    requires Increasing(d) && i < |d| && d[i].ts >= h.ts >= cutoff && d[i].value <= h.value
    ensures Covered(DropExpired(d, cutoff), h)
  {
    var kept := DropExpired(d, cutoff);
    DropExpiredKeeps(d, cutoff);
    var k := |d| - |kept|;
    assert d[k..][i - k] == d[i];
  }

  lemma {:induction false} PushTracks(d: seq<Sample>, history: seq<Sample>, cutoff: nat, s: Sample)
    requires Tracks(d, history, cutoff) && s.ts >= cutoff
    requires forall j :: 0 <= j < |history| ==> history[j].ts <= s.ts
    ensures Tracks(DropDominated(d, s.value) + [s], history + [s], cutoff)
  {
    PushRecorded(d, history, cutoff, s);
    forall j | 0 <= j < |history + [s]| && (history + [s])[j].ts >= cutoff
      ensures Covered(DropDominated(d, s.value) + [s], (history + [s])[j])
    {
      if j < |history| {
        assert (history + [s])[j] == history[j];
      }
      CoveredPush(d, s, (history + [s])[j]);
    }
  }

  lemma {:induction false} PushRecorded(d: seq<Sample>, history: seq<Sample>, cutoff: nat, s: Sample)
    requires Increasing(d) && AllRecorded(d, history, cutoff) && s.ts >= cutoff
    requires forall j :: 0 <= j < |history| ==> history[j].ts <= s.ts
    ensures Increasing(DropDominated(d, s.value) + [s])
    ensures AllRecorded(DropDominated(d, s.value) + [s], history + [s], cutoff)
  {
    var kept := DropDominated(d, s.value);
    DropDominatedKeeps(d, s.value);
    forall i | 0 <= i < |kept|
      ensures kept[i] in history && cutoff <= kept[i].ts <= s.ts && kept[i].value < s.value
    {
      assert kept[i] == d[i];
    }
  }

  lemma {:induction false} TailRecorded(d: seq<Sample>, history: seq<Sample>, cutoff: nat)
    requires |d| > 0 && Increasing(d) && AllRecorded(d, history, cutoff)
    ensures Increasing(d[1..]) && AllRecorded(d[1..], history, cutoff)
  {
    forall i | 0 <= i < |d[1..]|
      ensures d[1..][i] in history && d[1..][i].ts >= cutoff
    {
      assert d[1..][i] == d[i + 1];
    }
  }

  lemma {:induction false} ExpireRecorded(d: seq<Sample>, history: seq<Sample>, cutoff: nat, later: nat)
    requires Increasing(d) && AllRecorded(d, history, cutoff)
    ensures Increasing(DropExpired(d, later)) && AllRecorded(DropExpired(d, later), history, later)
  {
    if |d| > 0 && d[0].ts < later {
      TailRecorded(d, history, cutoff);
      ExpireRecorded(d[1..], history, cutoff, later);
    }
  }

  lemma {:induction false} ExpireCovered(d: seq<Sample>, history: seq<Sample>, cutoff: nat, later: nat)
    requires Increasing(d) && AllCovered(d, history, cutoff) && cutoff <= later
    ensures AllCovered(DropExpired(d, later), history, later)
  {
    for n := 0 to |history|
      invariant forall j {:trigger Covered(DropExpired(d, later), history[j])} ::
                  0 <= j < n && history[j].ts >= later ==> Covered(DropExpired(d, later), history[j])
    {
      if history[n].ts >= later {
        assert Covered(d, history[n]);
        CoveredExpire(d, later, history[n]);
      }
    }
  }

  lemma {:induction false} ExpireTracks(d: seq<Sample>, history: seq<Sample>, cutoff: nat, later: nat)
    requires Tracks(d, history, cutoff) && cutoff <= later
    ensures Tracks(DropExpired(d, later), history, later)
  {
    ExpireRecorded(d, history, cutoff, later);
    ExpireCovered(d, history, cutoff, later);
  }

  /** One `record` carries the deque from one window to the next. */
  lemma {:induction false} RecordTracks(
    d: seq<Sample>, history: seq<Sample>, cutoff: nat, window: nat, now: nat, value: nat)
    requires Tracks(d, history, cutoff) && cutoff <= SaturatingSub(now, window)
    requires forall j :: 0 <= j < |history| ==> history[j].ts <= now
    ensures Tracks(Recorded(d, window, now, value), history + [Sample(now, value)], SaturatingSub(now, window))
    ensures |Recorded(d, window, now, value)| > 0
  {
    PushTracks(d, history, cutoff, Sample(now, value));
    var pushed := DropDominated(d, value) + [Sample(now, value)];
    ExpireTracks(pushed, history + [Sample(now, value)], cutoff, SaturatingSub(now, window));
    DropExpiredKeeps(pushed, SaturatingSub(now, window));
    assert pushed[|pushed| - 1].ts == now;
  }

  /** The front of the deque is the window's minimum. */
  lemma {:induction false} FrontIsWindowMin(d: seq<Sample>, history: seq<Sample>, cutoff: nat)
    requires Tracks(d, history, cutoff) && |d| > 0
    ensures IsWindowMin(history, cutoff, d[0].value)
  {
    assert d[0] in history;
    var f :| 0 <= f < |history| && history[f] == d[0];
    forall i | 0 <= i < |history| && history[i].ts >= cutoff ensures d[0].value <= history[i].value {
      assert Covered(d, history[i]);
    }
  }

  ghost predicate NoLaterThan(history: seq<Sample>, latest: nat) {
    forall i :: 0 <= i < |history| ==> history[i].ts <= latest
  }

  /** The deque answers for the window that ends at `latest`. */
  ghost predicate Consistent(d: seq<Sample>, history: seq<Sample>, window: nat, latest: nat) {
    && Tracks(d, history, SaturatingSub(latest, window))
    && NoLaterThan(history, latest)
    && (history != [] ==> d != [])
  }

  lemma {:induction false} RecordConsistent(
    d: seq<Sample>, history: seq<Sample>, window: nat, latest: nat, now: nat, value: nat)
    requires Consistent(d, history, window, latest) && latest <= now
    ensures Consistent(Recorded(d, window, now, value), history + [Sample(now, value)], window, now)
    ensures |Recorded(d, window, now, value)| > 0
    ensures IsWindowMin(history + [Sample(now, value)], SaturatingSub(now, window),
                        Recorded(d, window, now, value)[0].value)
  {
    RecordTracks(d, history, SaturatingSub(latest, window), window, now, value);
    FrontIsWindowMin(Recorded(d, window, now, value), history + [Sample(now, value)], SaturatingSub(now, window));
  }

  class BaselineTracker {
    const windowUs: nat
    var samples: seq<Sample>
    /** Every sample ever recorded, oldest first. */
    ghost var history: seq<Sample>
    /** When the newest was recorded. */
    ghost var latest: nat
    /** How many samples have been removed, at either end. */
    ghost var pops: nat

    ghost predicate Valid()
      reads this
    {
      Consistent(samples, history, windowUs, latest) && pops + |samples| == |history|
    }

    constructor (windowUs: nat)
      ensures Valid() && history == [] && samples == [] && latest == 0 && this.windowUs == windowUs
    {
      this.windowUs := windowUs;
      samples := [];
      history := [];
      latest := 0;
      pops := 0;
    }

    /** `Valid` after the call bounds all removals so far by all insertions: O(1) amortised. */
    method Record(nowUs: nat, valueUs: nat)
      requires Valid()
      requires latest <= nowUs
      modifies this
      ensures Valid() && latest == nowUs
      ensures history == old(history) + [Sample(nowUs, valueUs)]
      ensures samples == Recorded(old(samples), windowUs, nowUs, valueUs)
      ensures |samples| > 0 && IsWindowMin(history, SaturatingSub(nowUs, windowUs), samples[0].value)
    {
      ghost var before, past := samples, history;
      RecordConsistent(before, past, windowUs, latest, nowUs, valueUs);
      while |samples| > 0 && samples[|samples| - 1].value >= valueUs
        modifies this`samples, this`pops
        invariant DropDominated(samples, valueUs) == DropDominated(before, valueUs)
        invariant pops + |samples| == |past|
        decreases |samples|
      {
        samples := samples[..|samples| - 1];
        pops := pops + 1;
      }
      samples := samples + [Sample(nowUs, valueUs)];
      history := history + [Sample(nowUs, valueUs)];
      latest := nowUs;
      EvictExpired(nowUs);
    }

    method EvictExpired(nowUs: nat)
      requires pops + |samples| == |history|
      modifies this`samples, this`pops
      ensures samples == DropExpired(old(samples), SaturatingSub(nowUs, windowUs))
      ensures pops + |samples| == |history|
    {
      var cutoff := SaturatingSub(nowUs, windowUs);
      while |samples| > 0 && samples[0].ts < cutoff
        invariant DropExpired(samples, cutoff) == DropExpired(old(samples), cutoff)
        invariant pops + |samples| == |history|
        decreases |samples|
      {
        samples := samples[1..];
        pops := pops + 1;
      }
    }

    method BaselineUs() returns (r: Option<nat>)
      requires Valid()
      ensures r.None? <==> history == []
      ensures r.Some? ==> IsWindowMin(history, SaturatingSub(latest, windowUs), r.value)
      ensures r == if samples == [] then None else Some(samples[0].value)
    {
      if |samples| > 0 {
        FrontIsWindowMin(samples, history, SaturatingSub(latest, windowUs));
        r := Some(samples[0].value);
      } else {
        assert history == [];
        r := None;
      }
    }
  }

  // ---------------------------------------------------------------------
  // The congestion automaton
  // ---------------------------------------------------------------------

  datatype Decision = Continue | EnterCongested | ExitCongested | ResetStream

  datatype Tracker = Tracker(congested: bool, hardViolationCount: nat, belowSoftSinceUs: Option<nat>)

  const FRESH_TRACKER: Tracker := Tracker(false, 0, None)

  function Evaluate(t: Tracker, now: nat, delta: nat, bytes: nat): (Tracker, Decision) {
    if !t.congested then
      if delta > VIDEO_RATE_REDUCE_THRESHOLD_DELTA_US
      then (Tracker(true, 0, None), EnterCongested)
      else (t, Continue)
    else
      var hard := if delta > MAX_VIDEO_QUEUE_DURATION_DELTA_US then t.hardViolationCount + 1 else 0;
      var counted := t.(hardViolationCount := hard);
      if hard >= HARD_THRESHOLD_CONSECUTIVE_COUNT || bytes > MAX_VIDEO_QUEUE_BYTES then (counted, ResetStream)
      else if delta < VIDEO_RATE_REDUCE_THRESHOLD_DELTA_US then
        match t.belowSoftSinceUs
        case None => (counted.(belowSoftSinceUs := Some(now)), Continue)
        case Some(since) =>
          if SaturatingSub(now, since) >= CONGESTED_TO_STREAMING_HYSTERESIS_US
          then (Tracker(false, hard, None), ExitCongested)
          else (counted, Continue)
      else (counted.(belowSoftSinceUs := None), Continue)
  }

  /** More than 100 ms above the baseline. */
  predicate OverSoft(delta: nat) {
    delta > 100_000
  }

  /** More than 300 ms. */
  predicate OverHard(delta: nat) {
    delta > 300_000
  }

  predicate UnderSoft(delta: nat) {
    delta < 100_000
  }

  /** More than 4 MiB. */
  predicate TooManyBytes(bytes: nat) {
    bytes > 4_194_304
  }

  /** The guards of the automaton do not tell two excess delays apart: outside Congested, both or neither pass the soft
      threshold; within it, both or neither pass the hard one, and either the stream is reset in any case or both or
      neither lie below the soft one. */
  predicate Indifferent(t: Tracker, d: nat, d': nat, bytes: nat) {
    if !t.congested then OverSoft(d) == OverSoft(d')
    else
      && OverHard(d) == OverHard(d')
      && (|| TooManyBytes(bytes)
          || (OverHard(d) && t.hardViolationCount + 1 >= 3)
          || UnderSoft(d) == UnderSoft(d'))
  }

  /** Two excess delays lead to the same fields if and only if the guards do not tell them apart, and then to the same
      decision. */
  lemma {:induction false} IndifferentIff(t: Tracker, now: nat, d: nat, d': nat, bytes: nat)
    ensures Indifferent(t, d, d', bytes) <==> Evaluate(t, now, d, bytes).0 == Evaluate(t, now, d', bytes).0
    ensures Indifferent(t, d, d', bytes) <==> Evaluate(t, now, d, bytes) == Evaluate(t, now, d', bytes)
  {
  }

  class CongestionTracker {
    var congested: bool
    var hardViolationCount: nat
    var belowSoftSinceUs: Option<nat>

    ghost function State(): Tracker
      reads this
    {
      Tracker(congested, hardViolationCount, belowSoftSinceUs)
    }

    constructor ()
      ensures State() == FRESH_TRACKER
    {
      congested, hardViolationCount, belowSoftSinceUs := false, 0, None;
    }

    method EvaluateSample(nowUs: nat, deltaUs: nat, appSendQueueBytes: nat) returns (d: Decision)
      modifies this
      ensures (State(), d) == Evaluate(old(State()), nowUs, deltaUs, appSendQueueBytes)
    {
      if !congested {
        if deltaUs > VIDEO_RATE_REDUCE_THRESHOLD_DELTA_US {
          congested := true;
          hardViolationCount := 0;
          belowSoftSinceUs := None;
          return EnterCongested;
        }
        return Continue;
      }
      if deltaUs > MAX_VIDEO_QUEUE_DURATION_DELTA_US {
        hardViolationCount := hardViolationCount + 1;
      } else {
        hardViolationCount := 0;
      }
      if hardViolationCount >= HARD_THRESHOLD_CONSECUTIVE_COUNT || appSendQueueBytes > MAX_VIDEO_QUEUE_BYTES {
        return ResetStream;
      }
      if deltaUs < VIDEO_RATE_REDUCE_THRESHOLD_DELTA_US {
        match belowSoftSinceUs {
          case None => belowSoftSinceUs := Some(nowUs);
          case Some(since) =>
            if SaturatingSub(nowUs, since) >= CONGESTED_TO_STREAMING_HYSTERESIS_US {
              congested := false;
              belowSoftSinceUs := None;
              return ExitCongested;
            }
        }
      } else {
        belowSoftSinceUs := None;
      }
      d := Continue;
    }
  }

  // ---------------------------------------------------------------------
  // The automaton as a predicate over history
  // ---------------------------------------------------------------------

  datatype Feedback = Feedback(now: nat, delta: nat, bytes: nat)

  predicate AboveHard(f: Feedback) {
    OverHard(f.delta)
  }

  predicate BelowSoft(f: Feedback) {
    UnderSoft(f.delta)
  }

  /** The newest sample carries too many bytes, or the last three are all above the hard threshold. */
  predicate MustReset(h: seq<Feedback>)
    requires |h| > 0
  {
    || TooManyBytes(h[|h| - 1].bytes)
    || (|h| >= 3 && AboveHard(h[|h| - 3]) && AboveHard(h[|h| - 2]) && AboveHard(h[|h| - 1]))
  }

  /** The longest run of samples below the soft threshold, up to the newest, begins at `k`. */
  ghost predicate SoftRunFrom(h: seq<Feedback>, k: nat) {
    k < |h| && (forall j :: k <= j < |h| ==> BelowSoft(h[j])) && (k > 0 ==> !BelowSoft(h[k - 1]))
  }

  /** That run began at least half a second ago. */
  ghost predicate HasRecovered(h: seq<Feedback>)
    requires |h| > 0
  {
    exists k: nat ::
      SoftRunFrom(h, k) && h[|h| - 1].now >= h[k].now + 500_000
  }

  function TrailingHard(h: seq<Feedback>): nat {
    if |h| > 0 && AboveHard(h[|h| - 1]) then 1 + TrailingHard(h[..|h| - 1]) else 0
  }

  /** A congested tracker's fields say this about the samples since it entered Congested. */
  ghost predicate Represents(t: Tracker, h: seq<Feedback>) {
    && t.congested && t.hardViolationCount == TrailingHard(h)
    && (t.belowSoftSinceUs.None? ==> |h| == 0 || !BelowSoft(h[|h| - 1]))
    && (t.belowSoftSinceUs.Some? ==> exists k: nat :: SoftRunFrom(h, k) && h[k].now == t.belowSoftSinceUs.value)
  }

  lemma {:induction false} TrailingHardThree(h: seq<Feedback>)
    requires |h| > 0
    ensures TrailingHard(h) >= 3 <==>
            |h| >= 3 && AboveHard(h[|h| - 3]) && AboveHard(h[|h| - 2]) && AboveHard(h[|h| - 1])
  {
    var h1 := h[..|h| - 1];
    if |h1| > 0 {
      var h2 := h1[..|h1| - 1];
      assert TrailingHard(h2) >= 1 <==> |h2| > 0 && AboveHard(h2[|h2| - 1]);
    }
  }

  lemma {:induction false} SoftRunExtends(h: seq<Feedback>, k: nat, x: Feedback)
    requires SoftRunFrom(h, k) && BelowSoft(x)
    ensures SoftRunFrom(h + [x], k)
  {
  }

  lemma {:induction false} SoftRunUnique(h: seq<Feedback>, k: nat, l: nat)
    requires SoftRunFrom(h, k) && SoftRunFrom(h, l)
    ensures k == l
  {
  }

  /** One sample while congested: the decision is the history predicate, and the fields stay true to the
      history. */
  lemma {:induction false} CongestedStep(t: Tracker, h: seq<Feedback>, x: Feedback)
    requires Represents(t, h)
    ensures var (t', d) := Evaluate(t, x.now, x.delta, x.bytes);
            && (d == ResetStream <==> MustReset(h + [x]))
            && (d == ExitCongested <==> !MustReset(h + [x]) && HasRecovered(h + [x]))
            && (d == Continue ==> Represents(t', h + [x]))
            && (d == ExitCongested ==> !t'.congested)
            && d != EnterCongested
  {
    var hx := h + [x];
    assert hx[..|hx| - 1] == h;
    TrailingHardThree(hx);
    var (t', d) := Evaluate(t, x.now, x.delta, x.bytes);
    if BelowSoft(x) {
      match t.belowSoftSinceUs {
        case None =>
          assert |h| > 0 ==> hx[|h| - 1] == h[|h| - 1];
          assert SoftRunFrom(hx, |h|);
          forall k: nat | SoftRunFrom(hx, k) ensures k == |h| {
            SoftRunUnique(hx, k, |h|);
          }
        case Some(since) =>
          var k: nat :| SoftRunFrom(h, k) && h[k].now == since;
          SoftRunExtends(h, k, x);
          assert hx[k] == h[k];
          forall l: nat | SoftRunFrom(hx, l) ensures l == k {
            SoftRunUnique(hx, l, k);
          }
      }
    } else {
      assert hx[|h|] == x;
    }
  }

  /** The tracker after the first `n` samples of a run begun afresh, and the n-th decision. */
  function TrackerAfter(xs: seq<Feedback>, n: nat): Tracker
    requires n <= |xs|
  {
    if n == 0 then FRESH_TRACKER
    else Evaluate(TrackerAfter(xs, n - 1), xs[n - 1].now, xs[n - 1].delta, xs[n - 1].bytes).0
  }

  function DecisionAt(xs: seq<Feedback>, n: nat): Decision
    requires n < |xs|
  {
    Evaluate(TrackerAfter(xs, n), xs[n].now, xs[n].delta, xs[n].bytes).1
  }

  /** The sample at which the Congested episode still open after `n` decisions was entered. */
  function OpenEpisode(xs: seq<Feedback>, n: nat): (e: Option<nat>)
    requires n <= |xs|
    ensures e.Some? ==> e.value < n
  {
    if n == 0 then None else OpenAfter(OpenEpisode(xs, n - 1), DecisionAt(xs, n - 1), n - 1)
  }

  ghost predicate NoResetBefore(xs: seq<Feedback>, n: nat)
    requires n <= |xs|
  {
    forall i :: 0 <= i < n ==> DecisionAt(xs, i) != ResetStream
  }

  /** What the fields say after `n` samples. */
  ghost predicate FieldsFit(t: Tracker, open: Option<nat>, xs: seq<Feedback>, n: nat)
    requires n <= |xs|
  {
    match open
    case None => !t.congested
    case Some(e) => e < n && Represents(t, xs[e + 1..n])
  }

  lemma {:induction false} FieldsFollowHistory(xs: seq<Feedback>, n: nat)
    requires n <= |xs| && NoResetBefore(xs, n)
    ensures FieldsFit(TrackerAfter(xs, n), OpenEpisode(xs, n), xs, n)
  {
    for i := 0 to n
      invariant FieldsFit(TrackerAfter(xs, i), OpenEpisode(xs, i), xs, i)
    {
      assert DecisionAt(xs, i) != ResetStream;
      FieldsFollowStep(xs, i, TrackerAfter(xs, i), OpenEpisode(xs, i));
    }
  }

  function OpenAfter(open: Option<nat>, d: Decision, n: nat): Option<nat> {
    match d
    case EnterCongested => Some(n)
    case ExitCongested => None
    case _ => open
  }

  lemma {:induction false} FieldsFollowStep(xs: seq<Feedback>, n: nat, t: Tracker, open: Option<nat>)
    requires n < |xs| && FieldsFit(t, open, xs, n)
    ensures var (t', d) := Evaluate(t, xs[n].now, xs[n].delta, xs[n].bytes);
            d != ResetStream ==> FieldsFit(t', OpenAfter(open, d, n), xs, n + 1)
  {
    match open
    case None => assert xs[n + 1..n + 1] == [];
    case Some(e) =>
      CongestedKeeps(t, xs[e + 1..n], xs[n], xs[e + 1..n + 1]);
  }

  /** What `CongestedStep` says about the fields alone. */
  lemma {:induction false} CongestedKeeps(t: Tracker, h: seq<Feedback>, x: Feedback, hx: seq<Feedback>)
    requires Represents(t, h) && hx == h + [x]
    ensures var (t', d) := Evaluate(t, x.now, x.delta, x.bytes);
            && (d == Continue ==> Represents(t', hx))
            && (d == ExitCongested ==> !t'.congested)
            && d != EnterCongested
  {
    CongestedStep(t, h, x);
  }

  /** The decision that the first `n` samples and sample `n` call for. Outside a congested episode: congestion begins
      when the delay passes the soft threshold, and no number of bytes does anything. Within one: reset on too many
      bytes or three hard violations in a row, else recovery once the delay has stayed below the soft threshold for
      half a second. */
  ghost function CalledFor(xs: seq<Feedback>, n: nat): Decision
    requires n < |xs|
  {
    match OpenEpisode(xs, n)
    case None => if OverSoft(xs[n].delta) then EnterCongested else Continue
    case Some(e) =>
      var episode := xs[e + 1..n + 1];
      if MustReset(episode) then ResetStream else if HasRecovered(episode) then ExitCongested else Continue
  }

  /** What `CongestedStep` says about the decision alone. */
  lemma {:induction false} CongestedDecides(t: Tracker, h: seq<Feedback>, x: Feedback, hx: seq<Feedback>)
    requires Represents(t, h) && hx == h + [x]
    ensures Evaluate(t, x.now, x.delta, x.bytes).1
         == if MustReset(hx) then ResetStream else if HasRecovered(hx) then ExitCongested else Continue
  {
    CongestedStep(t, h, x);
  }

  /** Every decision of a run, up to and including its first reset, is the one the history calls for. */
  lemma {:induction false} DecisionsFollowHistory(xs: seq<Feedback>, n: nat)
    requires n < |xs| && NoResetBefore(xs, n)
    ensures DecisionAt(xs, n) == CalledFor(xs, n)
  {
    FieldsFollowHistory(xs, n);
    match OpenEpisode(xs, n)
    case None =>
    case Some(e) =>
      assert xs[e + 1..n] + [xs[n]] == xs[e + 1..n + 1];
      CongestedDecides(TrackerAfter(xs, n), xs[e + 1..n], xs[n], xs[e + 1..n + 1]);
  }
}
