// The parts of a video channel together: through any protocol-abiding run, across reopens, the
// channel's decisions are a function of the delays and byte counts it was told about.
module ChannelDecisions {
  import opened Common
  import opened Backpressure
  import opened VideoStates
  import opened VideoChannels
  import opened VideoChannelRuns

  // ---------------------------------------------------------------------
  // What the history says, with no deque and no automaton
  // ---------------------------------------------------------------------

  /** The least value recorded at or after `cutoff`. */
  function LeastSince(history: seq<Sample>, cutoff: nat): Option<nat> {
    if history == [] then None
    else
      var last := history[|history| - 1];
      match LeastSince(history[..|history| - 1], cutoff)
      case None => if last.ts >= cutoff then Some(last.value) else None
      case Some(m) => if last.ts >= cutoff && last.value < m then Some(last.value) else Some(m)
  }

  /** Every delay reported in the first `n` calls, on this instance or an earlier one. */
  function Delays(calls: seq<Call>, n: nat): seq<Sample>
    requires n <= |calls|
  {
    if n == 0 then []
    else
      match calls[n - 1]
      case OnFeedback(now, delay, _) => Delays(calls, n - 1) + [Sample(now, delay)]
      case _ => Delays(calls, n - 1)
  }

  /** How far a delay exceeds the least one of the last ten seconds. */
  function Excess(history: seq<Sample>, now: nat, delay: nat): nat {
    match LeastSince(history, SaturatingSub(now, 10_000_000))
    case None => 0
    case Some(m) => SaturatingSub(delay, m)
  }

  /** What the instance that is up after `n` calls has been told: excess delays and byte counts. */
  function Told(calls: seq<Call>, n: nat): seq<Feedback>
    requires n <= |calls|
  {
    if n == 0 then []
    else
      match calls[n - 1]
      case OnFeedback(now, delay, bytes) =>
        Told(calls, n - 1) + [Feedback(now, Excess(Delays(calls, n), now, delay), bytes)]
      case PrepareReopen => []
      case _ => Told(calls, n - 1)
  }

  /** When feedback was last given. */
  function Latest(calls: seq<Call>, n: nat): nat
    requires n <= |calls|
  {
    if n == 0 then 0 else if calls[n - 1].OnFeedback? then calls[n - 1].now else Latest(calls, n - 1)
  }

  /** Feedback times never run back. */
  predicate FeedbackInOrder(calls: seq<Call>, n: nat)
    requires n <= |calls|
  {
    n > 0 ==> FeedbackInOrder(calls, n - 1) && (calls[n - 1].OnFeedback? ==> Latest(calls, n - 1) <= calls[n - 1].now)
  }

  lemma {:induction false} LeastSinceFacts(history: seq<Sample>, cutoff: nat)
    ensures match LeastSince(history, cutoff)
            case None => forall i :: 0 <= i < |history| ==> history[i].ts < cutoff
            case Some(m) => IsWindowMin(history, cutoff, m)
  {
    if history != [] {
      var n := |history| - 1;
      var shorter := history[..n];
      LeastSinceFacts(shorter, cutoff);
      assert forall i :: 0 <= i < n ==> shorter[i] == history[i];
    }
  }

  lemma {:induction false} LeastSinceIs(history: seq<Sample>, cutoff: nat, m: nat)
    requires IsWindowMin(history, cutoff, m)
    ensures LeastSince(history, cutoff) == Some(m)
  {
    LeastSinceFacts(history, cutoff);
  }

  /** The deque's delta is the excess over the history. */
  lemma {:induction false} DeltaIsExcess(d: seq<Sample>, history: seq<Sample>, latest: nat, now: nat, delay: nat)
    requires Consistent(d, history, VIDEO_QUEUE_BASELINE_WINDOW_US, latest) && latest <= now
    ensures var d' := Recorded(d, VIDEO_QUEUE_BASELINE_WINDOW_US, now, delay);
            var history' := history + [Sample(now, delay)];
            && Consistent(d', history', VIDEO_QUEUE_BASELINE_WINDOW_US, now)
            && Delta(d', delay) == Excess(history', now, delay)
  {
    RecordConsistent(d, history, VIDEO_QUEUE_BASELINE_WINDOW_US, latest, now, delay);
    var d' := Recorded(d, VIDEO_QUEUE_BASELINE_WINDOW_US, now, delay);
    LeastSinceIs(history + [Sample(now, delay)], SaturatingSub(now, VIDEO_QUEUE_BASELINE_WINDOW_US), d'[0].value);
  }

  lemma {:induction false} TrackerPrefix(xs: seq<Feedback>, x: Feedback, n: nat)
    requires n <= |xs|
    ensures TrackerAfter(xs + [x], n) == TrackerAfter(xs, n)
  {
    for i := 0 to n
      invariant TrackerAfter(xs + [x], i) == TrackerAfter(xs, i)
    {
      assert (xs + [x])[i] == xs[i];
    }
  }

  lemma {:induction false} NoResetExtends(xs: seq<Feedback>, x: Feedback)
    requires NoResetBefore(xs, |xs|) && DecisionAt(xs + [x], |xs|) != ResetStream
    ensures NoResetBefore(xs + [x], |xs| + 1)
  {
    forall i | 0 <= i < |xs|
      ensures DecisionAt(xs + [x], i) != ResetStream
    {
      TrackerPrefix(xs, x, i);
      assert DecisionAt(xs, i) != ResetStream;
    }
  }

  // ---------------------------------------------------------------------
  // Whole runs
  // ---------------------------------------------------------------------

  /** The channel's deque stands for all delays so far, its tracker for what the current instance was told. */
  ghost predicate Remembers(s: VideoState, p: Phase, calls: seq<Call>, n: nat)
    requires n <= |calls|
  {
    && Consistent(s.deque, Delays(calls, n), VIDEO_QUEUE_BASELINE_WINDOW_US, Latest(calls, n))
    && (p.Opening? ==> Told(calls, n) == [])
    && (!p.Abandoned? ==> Follows(s.tracker, Told(calls, n)))
  }

  ghost predicate Follows(t: Tracker, xs: seq<Feedback>) {
    t == TrackerAfter(xs, |xs|) && NoResetBefore(xs, |xs|)
  }

  /** One feedback: the tracker moves on, and the decision is the one the run of this instance calls for. */
  lemma {:induction false} FollowsStep(t: Tracker, xs: seq<Feedback>, x: Feedback)
    requires Follows(t, xs)
    ensures var (t', d) := Evaluate(t, x.now, x.delta, x.bytes);
            && d == DecisionAt(xs + [x], |xs|) && NoResetBefore(xs + [x], |xs|)
            && (d != ResetStream ==> Follows(t', xs + [x]))
  {
    TrackerPrefix(xs, x, |xs|);
    forall i | 0 <= i < |xs|
      ensures DecisionAt(xs + [x], i) != ResetStream
    {
      TrackerPrefix(xs, x, i);
      assert DecisionAt(xs, i) != ResetStream;
    }
    if DecisionAt(xs + [x], |xs|) != ResetStream {
      NoResetExtends(xs, x);
    }
  }

  /** A running instance refuses no feedback, and only a reset ends its run. */
  lemma {:induction false} RunningAnswers(s: VideoState, now: nat, delay: nat, bytes: nat)
    requires Lockstep(s, Running)
    ensures var c := OnFeedback(now, delay, bytes);
            var deque := Recorded(s.deque, VIDEO_QUEUE_BASELINE_WINDOW_US, now, delay);
            var (tracker, d) := Evaluate(s.tracker, now, Delta(deque, delay), bytes);
            var (s', r) := Step(s, c);
            && r == Decided(d) && s'.deque == deque && s'.tracker == tracker
            && NextPhase(Running, c, r) == if d == ResetStream then Abandoned else Running
  {
    LockstepKept(s, Running, OnFeedback(now, delay, bytes));
  }

  lemma {:induction false} RemembersFeedback(s: VideoState, calls: seq<Call>, n: nat)
    requires n < |calls| && calls[n].OnFeedback? && Latest(calls, n) <= calls[n].now
    requires Lockstep(s, Running) && Remembers(s, Running, calls, n)
    ensures var (s', r) := Step(s, calls[n]);
            && Remembers(s', NextPhase(Running, calls[n], r), calls, n + 1)
            && r == Decided(DecisionAt(Told(calls, n + 1), |Told(calls, n)|))
            && NoResetBefore(Told(calls, n + 1), |Told(calls, n)|)
  {
    var OnFeedback(now, delay, bytes) := calls[n];
    RunningAnswers(s, now, delay, bytes);
    DeltaIsExcess(s.deque, Delays(calls, n), Latest(calls, n), now, delay);
    var x := Feedback(now, Excess(Delays(calls, n + 1), now, delay), bytes);
    assert Told(calls, n + 1) == Told(calls, n) + [x];
    FollowsStep(s.tracker, Told(calls, n), x);
  }

  lemma {:induction false} RemembersStep(s: VideoState, p: Phase, calls: seq<Call>, n: nat)
    requires n < |calls| && Permitted(p, calls[n]) && (calls[n].OnFeedback? ==> Latest(calls, n) <= calls[n].now)
    requires Lockstep(s, p) && Remembers(s, p, calls, n)
    ensures var (s', r) := Step(s, calls[n]); Remembers(s', NextPhase(p, calls[n], r), calls, n + 1)
  {
    if calls[n].OnFeedback? {
      RemembersFeedback(s, calls, n);
    }
  }

  lemma {:induction false} AlwaysRemembers(g: nat, calls: seq<Call>, n: nat)
    requires n <= |calls| && FollowsProtocol(Fresh(g), calls, n) && FeedbackInOrder(calls, n)
    ensures Remembers(StateAfter(Fresh(g), calls, n), PhaseAfter(Fresh(g), calls, n), calls, n)
  {
    if n > 0 {
      AlwaysRemembers(g, calls, n - 1);
      AlwaysInLockstep(g, calls, n - 1);
      RemembersStep(StateAfter(Fresh(g), calls, n - 1), PhaseAfter(Fresh(g), calls, n - 1), calls, n - 1);
    }
  }

  lemma {:induction false} FeedbackIsAnswered(g: nat, calls: seq<Call>, n: nat)
    requires n < |calls| && calls[n].OnFeedback?
    requires FollowsProtocol(Fresh(g), calls, n + 1) && FeedbackInOrder(calls, n + 1)
    ensures |Told(calls, n + 1)| == |Told(calls, n)| + 1
    ensures ReplyAt(Fresh(g), calls, n) == Decided(DecisionAt(Told(calls, n + 1), |Told(calls, n)|))
    ensures NoResetBefore(Told(calls, n + 1), |Told(calls, n)|)
  {
    AlwaysRemembers(g, calls, n);
    AlwaysInLockstep(g, calls, n);
    RemembersFeedback(StateAfter(Fresh(g), calls, n), calls, n);
  }

  /** Every feedback of every run is answered as the reported delays and byte counts alone call for: the excess over
      the least delay of the last ten seconds, remembered across reopens, drives a congestion automaton that is not. */
  lemma {:induction false} ChannelFollowsHistory(g: nat, calls: seq<Call>, n: nat)
    requires n < |calls| && calls[n].OnFeedback?
    requires FollowsProtocol(Fresh(g), calls, n + 1) && FeedbackInOrder(calls, n + 1)
    ensures |Told(calls, n + 1)| == |Told(calls, n)| + 1
    ensures ReplyAt(Fresh(g), calls, n) == Decided(CalledFor(Told(calls, n + 1), |Told(calls, n)|))
  {
    FeedbackIsAnswered(g, calls, n);
    DecisionsFollowHistory(Told(calls, n + 1), |Told(calls, n)|);
  }

  // ---------------------------------------------------------------------
  // Nothing else about the delays matters
  // ---------------------------------------------------------------------

  /** The same calls, except for the delays reported. */
  ghost predicate SameButDelays(calls: seq<Call>, calls': seq<Call>) {
    && |calls| == |calls'|
    && forall i {:trigger AlikeCalls(calls, calls', i)} :: 0 <= i < |calls| ==> AlikeCalls(calls, calls', i)
  }

  ghost predicate AlikeCalls(calls: seq<Call>, calls': seq<Call>, i: nat)
    requires i < |calls| == |calls'|
  {
    if calls[i].OnFeedback? then calls'[i].OnFeedback? && calls'[i] == calls[i].(delay := calls'[i].delay)
    else calls'[i] == calls[i]
  }

  /** How far the delay reported in call `i` exceeds the least one of the last ten seconds. */
  function ExcessAt(calls: seq<Call>, i: nat): nat
    requires i < |calls| && calls[i].OnFeedback?
  {
    Excess(Delays(calls, i + 1), calls[i].now, calls[i].delay)
  }

  ghost predicate SameExcessAt(calls: seq<Call>, calls': seq<Call>, i: nat)
    requires i < |calls| == |calls'|
  {
    calls[i].OnFeedback? && calls'[i].OnFeedback? ==> ExcessAt(calls, i) == ExcessAt(calls', i)
  }

  ghost predicate SameExcesses(calls: seq<Call>, calls': seq<Call>, n: nat)
    requires n <= |calls| == |calls'|
  {
    forall i {:trigger SameExcessAt(calls, calls', i)} :: 0 <= i < n ==> SameExcessAt(calls, calls', i)
  }

  /** The deque stands for all delays so far in any run at all, protocol or not. */
  lemma {:induction false} DequeRemembers(g: nat, calls: seq<Call>, n: nat)
    requires n <= |calls| && FeedbackInOrder(calls, n)
    ensures Consistent(StateAfter(Fresh(g), calls, n).deque, Delays(calls, n), VIDEO_QUEUE_BASELINE_WINDOW_US,
                       Latest(calls, n))
  {
    if n > 0 {
      DequeRemembers(g, calls, n - 1);
      var s, c := StateAfter(Fresh(g), calls, n - 1), calls[n - 1];
      DequeStep(s, c);
      if c.OnFeedback? {
        DeltaIsExcess(s.deque, Delays(calls, n - 1), Latest(calls, n - 1), c.now, c.delay);
      }
    }
  }

  lemma {:induction false} DequeStep(s: VideoState, c: Call)
    ensures Step(s, c).0.deque
         == if c.OnFeedback? then Recorded(s.deque, VIDEO_QUEUE_BASELINE_WINDOW_US, c.now, c.delay) else s.deque
  {
  }

  /** Equal but for the deque. */
  predicate Alike(s: VideoState, s': VideoState) {
    s.(deque := []) == s'.(deque := [])
  }

  lemma {:induction false} AlikeFeedback(s: VideoState, s': VideoState, now: nat, delay: nat, delay': nat, bytes: nat)
    requires Alike(s, s')
    ensures var d := Delta(Recorded(s.deque, VIDEO_QUEUE_BASELINE_WINDOW_US, now, delay), delay);
            var d' := Delta(Recorded(s'.deque, VIDEO_QUEUE_BASELINE_WINDOW_US, now, delay'), delay');
            var (next, reply) := Step(s, OnFeedback(now, delay, bytes));
            var (next', reply') := Step(s', OnFeedback(now, delay', bytes));
            && (Indifferent(s.tracker, d, d', bytes) <==> Alike(next, next'))
            && (Indifferent(s.tracker, d, d', bytes) ==> reply == reply')
  {
    var d := Delta(Recorded(s.deque, VIDEO_QUEUE_BASELINE_WINDOW_US, now, delay), delay);
    var d' := Delta(Recorded(s'.deque, VIDEO_QUEUE_BASELINE_WINDOW_US, now, delay'), delay');
    IndifferentIff(s.tracker, now, d, d', bytes);
    FeedbackParts(s, now, delay, bytes);
    FeedbackParts(s', now, delay', bytes);
  }

  /** A feedback's tracker and reply, and all but the deque of its state, follow from the automaton's answer. */
  lemma {:induction false} FeedbackParts(s: VideoState, now: nat, delay: nat, bytes: nat)
    ensures var deque := Recorded(s.deque, VIDEO_QUEUE_BASELINE_WINDOW_US, now, delay);
            var (tracker, d) := Evaluate(s.tracker, now, Delta(deque, delay), bytes);
            var (next, reply) := Step(s, OnFeedback(now, delay, bytes));
            && next.tracker == tracker
            && next.(deque := []) == Answered(s.(deque := []), tracker, d, now).0
            && reply == Answered(s.(deque := []), tracker, d, now).1
  {
  }

  /** What a channel makes of the automaton's answer. */
  function Answered(s: VideoState, tracker: Tracker, d: Decision, now: nat): (VideoState, Reply) {
    match InstanceAfter(s.instance, d)
    case None => (s.(tracker := tracker), Violation)
    case Some(i) =>
      if d == ResetStream
      then (s.(tracker := tracker, instance := i, channel := Recovering, lastReopenUs := Some(now)), Decided(d))
      else (s.(tracker := tracker, instance := i), Decided(d))
  }

  lemma {:induction false} AlikeOther(s: VideoState, s': VideoState, c: Call)
    requires Alike(s, s') && !c.OnFeedback?
    ensures Alike(Step(s, c).0, Step(s', c).0) && Step(s, c).1 == Step(s', c).1
  {
  }

  lemma {:induction false} SameTimes(calls: seq<Call>, calls': seq<Call>, n: nat)
    requires SameButDelays(calls, calls') && n <= |calls|
    ensures Latest(calls, n) == Latest(calls', n)
    ensures FeedbackInOrder(calls, n) <==> FeedbackInOrder(calls', n)
  {
    for i := 0 to n
      invariant Latest(calls, i) == Latest(calls', i) && (FeedbackInOrder(calls, i) <==> FeedbackInOrder(calls', i))
    {
      assert AlikeCalls(calls, calls', i);
    }
  }

  lemma {:induction false} InOrderBefore(calls: seq<Call>, i: nat, n: nat)
    requires i <= n <= |calls| && FeedbackInOrder(calls, n)
    ensures FeedbackInOrder(calls, i)
    decreases n
  {
    if i < n {
      InOrderBefore(calls, i, n - 1);
    }
  }

  /** The tracker of the first run does not tell apart the excess delays of feedback `i` in the two runs. */
  ghost predicate IndifferentAt(g: nat, calls: seq<Call>, calls': seq<Call>, i: nat)
    requires i < |calls| == |calls'|
  {
    calls[i].OnFeedback? && calls'[i].OnFeedback? ==>
      Indifferent(StateAfter(Fresh(g), calls, i).tracker, ExcessAt(calls, i), ExcessAt(calls', i), calls[i].bytes)
  }

  /** After call `i` the states are equal but for the baseline, and its replies are equal. */
  ghost predicate AgreeAt(g: nat, calls: seq<Call>, calls': seq<Call>, i: nat)
    requires i < |calls| == |calls'|
  {
    && Alike(StateAfter(Fresh(g), calls, i + 1), StateAfter(Fresh(g), calls', i + 1))
    && ReplyAt(Fresh(g), calls, i) == ReplyAt(Fresh(g), calls', i)
  }

  lemma {:induction false} AgreeStep(g: nat, calls: seq<Call>, calls': seq<Call>, i: nat)
    requires SameButDelays(calls, calls') && i < |calls| && FeedbackInOrder(calls, i + 1)
    requires Alike(StateAfter(Fresh(g), calls, i), StateAfter(Fresh(g), calls', i))
    ensures AgreeAt(g, calls, calls', i) <==> IndifferentAt(g, calls, calls', i)
  {
    assert AlikeCalls(calls, calls', i);
    var s, s' := StateAfter(Fresh(g), calls, i), StateAfter(Fresh(g), calls', i);
    var c, c' := calls[i], calls'[i];
    if c.OnFeedback? {
      SameTimes(calls, calls', i + 1);
      DequeRemembers(g, calls, i);
      DequeRemembers(g, calls', i);
      DeltaIsExcess(s.deque, Delays(calls, i), Latest(calls, i), c.now, c.delay);
      DeltaIsExcess(s'.deque, Delays(calls', i), Latest(calls', i), c'.now, c'.delay);
      AlikeFeedback(s, s', c.now, c.delay, c'.delay, c.bytes);
    } else {
      AlikeOther(s, s', c);
    }
  }

  ghost predicate AllAgree(g: nat, calls: seq<Call>, calls': seq<Call>, n: nat)
    requires n <= |calls| == |calls'|
  {
    forall i {:trigger AgreeAt(g, calls, calls', i)} :: 0 <= i < n ==> AgreeAt(g, calls, calls', i)
  }

  ghost predicate AllIndifferent(g: nat, calls: seq<Call>, calls': seq<Call>, n: nat)
    requires n <= |calls| == |calls'|
  {
    forall i {:trigger IndifferentAt(g, calls, calls', i)} :: 0 <= i < n ==> IndifferentAt(g, calls, calls', i)
  }

  /** Two runs that differ in the delays reported get the same replies and pass through the same states, but for the
      baseline, if and only if no excess delay of the one is told apart from that of the other. */
  lemma {:induction false} RunsAgreeIff(g: nat, calls: seq<Call>, calls': seq<Call>, n: nat)
    requires SameButDelays(calls, calls') && n <= |calls| && FeedbackInOrder(calls, n)
    ensures AllAgree(g, calls, calls', n) <==> AllIndifferent(g, calls, calls', n)
  {
    for i := 0 to n
      invariant AllAgree(g, calls, calls', i) <==> AllIndifferent(g, calls, calls', i)
      invariant AllAgree(g, calls, calls', i) ==> Alike(StateAfter(Fresh(g), calls, i), StateAfter(Fresh(g), calls', i))
    {
      InOrderBefore(calls, i + 1, n);
      if AllAgree(g, calls, calls', i) {
        AgreeStep(g, calls, calls', i);
        AgreeExtends(g, calls, calls', i);
      } else {
        Disagree(g, calls, calls', i);
      }
    }
  }

  lemma {:induction false} AgreeExtends(g: nat, calls: seq<Call>, calls': seq<Call>, i: nat)
    requires i < |calls| == |calls'|
    requires AllAgree(g, calls, calls', i) && AllIndifferent(g, calls, calls', i)
    requires AgreeAt(g, calls, calls', i) <==> IndifferentAt(g, calls, calls', i)
    ensures AllAgree(g, calls, calls', i + 1) <==> AgreeAt(g, calls, calls', i)
    ensures AllIndifferent(g, calls, calls', i + 1) <==> AgreeAt(g, calls, calls', i)
  {
    if !AgreeAt(g, calls, calls', i) {
      assert !IndifferentAt(g, calls, calls', i);
    }
  }

  lemma {:induction false} Disagree(g: nat, calls: seq<Call>, calls': seq<Call>, i: nat)
    requires i < |calls| == |calls'|
    requires !AllAgree(g, calls, calls', i) && !AllIndifferent(g, calls, calls', i)
    ensures !AllAgree(g, calls, calls', i + 1) && !AllIndifferent(g, calls, calls', i + 1)
  {
    var j: nat :| j < i && !AgreeAt(g, calls, calls', j);
    var k: nat :| k < i && !IndifferentAt(g, calls, calls', k);
  }

  /** In particular, equal excess delays are never told apart. */
  lemma {:induction false} SameExcessesSameRun(g: nat, calls: seq<Call>, calls': seq<Call>, n: nat)
    requires SameButDelays(calls, calls') && n <= |calls| && FeedbackInOrder(calls, n)
    requires SameExcesses(calls, calls', n)
    ensures AllAgree(g, calls, calls', n)
  {
    forall i | 0 <= i < n
      ensures IndifferentAt(g, calls, calls', i)
    {
      assert SameExcessAt(calls, calls', i);
    }
    RunsAgreeIff(g, calls, calls', n);
  }
}
