// DR-029 end to end: what the server decides does not depend on the session's
// TimeSync offset, as long as the reported delays are not clamped.
module OffsetInvariance {
  import opened Common
  import opened Backpressure
  import opened VideoChannels
  import opened VideoChannelRuns
  import opened TimeSync

  /** What drives a channel: a displayed frame whose delay the client reports, or any other call. */
  datatype Input =
    | Frame(now: nat, displayTs: U64, captureTs: U64, bytes: nat)
    | Other(call: Call)

  function CallOf(i: Input, offsetUs: int): Call {
    match i
    case Frame(now, displayTs, captureTs, bytes) => OnFeedback(now, QueueDelay(displayTs, captureTs, offsetUs), bytes)
    case Other(call) => call
  }

  function CallsOf(inputs: seq<Input>, offsetUs: int): seq<Call> {
    seq(|inputs|, i requires 0 <= i < |inputs| => CallOf(inputs[i], offsetUs))
  }

  /** Every frame among the first `n` inputs is unclamped under this offset, and all feedback comes from frames. */
  ghost predicate AllUnclamped(inputs: seq<Input>, offsetUs: int, n: nat)
    requires n <= |inputs|
  {
    forall i :: 0 <= i < n ==>
      match inputs[i]
      case Frame(_, displayTs, captureTs, _) => Unclamped(displayTs, captureTs, offsetUs)
      case Other(call) => !call.OnFeedback?
  }

  lemma {:induction false} LargerOffsetShifts(inputs: seq<Input>, o: int, o': int, n: nat)
    requires n <= |inputs| && o <= o' && AllUnclamped(inputs, o, n) && AllUnclamped(inputs, o', n)
    ensures CallsOf(inputs, o')[..n] == ShiftCalls(CallsOf(inputs, o)[..n], o' - o)
  {
    forall i | 0 <= i < n
      ensures CallOf(inputs[i], o') == ShiftCall(CallOf(inputs[i], o), o' - o)
    {
      if inputs[i].Frame? {
        UnclampedDelay(inputs[i].displayTs, inputs[i].captureTs, o);
        UnclampedDelay(inputs[i].displayTs, inputs[i].captureTs, o');
      }
    }
  }

  /** A run depends only on the calls made so far. */
  lemma {:induction false} RunOfPrefix(start: VideoState, calls: seq<Call>, k: nat, n: nat)
    requires n < k <= |calls|
    ensures StateAfter(start, calls[..k], n) == StateAfter(start, calls, n)
    ensures ReplyAt(start, calls[..k], n) == ReplyAt(start, calls, n)
  {
    for i := 0 to n
      invariant StateAfter(start, calls[..k], i) == StateAfter(start, calls, i)
    {
    }
  }

  predicate SameMachines(s: VideoState, s': VideoState) {
    s'.instance == s.instance && s'.channel == s.channel && s'.tracker == s.tracker
  }

  lemma {:induction false} ShiftedPrefix(g: nat, calls: seq<Call>, calls': seq<Call>, c: nat, n: nat)
    requires n < |calls| == |calls'| && calls'[..n + 1] == ShiftCalls(calls[..n + 1], c)
    ensures ReplyAt(Fresh(g), calls, n) == ReplyAt(Fresh(g), calls', n)
    ensures SameMachines(StateAfter(Fresh(g), calls, n), StateAfter(Fresh(g), calls', n))
  {
    RunOfPrefix(Fresh(g), calls, n + 1, n);
    RunOfPrefix(Fresh(g), calls', n + 1, n);
    ShiftedRun(g, calls[..n + 1], c, n);
  }

  lemma {:induction false} ShiftedRun(g: nat, calls: seq<Call>, c: nat, n: nat)
    requires n < |calls|
    ensures ReplyAt(Fresh(g), ShiftCalls(calls, c), n) == ReplyAt(Fresh(g), calls, n)
    ensures SameMachines(StateAfter(Fresh(g), calls, n), StateAfter(Fresh(g), ShiftCalls(calls, c), n))
  {
    assert ShiftState(Fresh(g), c) == Fresh(g);
    DelayShiftInvariance(Fresh(g), calls, c, n);
  }

  lemma {:induction false} SameRepliesOrdered(g: nat, inputs: seq<Input>, o: int, o': int, n: nat)
    requires n < |inputs| && o <= o' && AllUnclamped(inputs, o, n + 1) && AllUnclamped(inputs, o', n + 1)
    ensures ReplyAt(Fresh(g), CallsOf(inputs, o), n) == ReplyAt(Fresh(g), CallsOf(inputs, o'), n)
    ensures SameMachines(StateAfter(Fresh(g), CallsOf(inputs, o), n), StateAfter(Fresh(g), CallsOf(inputs, o'), n))
  {
    LargerOffsetShifts(inputs, o, o', n + 1);
    ShiftedPrefix(g, CallsOf(inputs, o), CallsOf(inputs, o'), o' - o, n);
  }

  /** Two sessions that differ only in their TimeSync offset make the same decisions and pass through the same
      channel and instance states, as long as no delay is clamped. */
  lemma {:induction false} OffsetDoesNotMatter(g: nat, inputs: seq<Input>, o: int, o': int, n: nat)
    requires n < |inputs| && AllUnclamped(inputs, o, n + 1) && AllUnclamped(inputs, o', n + 1)
    ensures ReplyAt(Fresh(g), CallsOf(inputs, o), n) == ReplyAt(Fresh(g), CallsOf(inputs, o'), n)
    ensures SameMachines(StateAfter(Fresh(g), CallsOf(inputs, o), n), StateAfter(Fresh(g), CallsOf(inputs, o'), n))
  {
    if o <= o' {
      SameRepliesOrdered(g, inputs, o, o', n);
    } else {
      SameRepliesOrdered(g, inputs, o', o, n);
    }
  }

  // ---------------------------------------------------------------------
  // A session in which the clamp bites
  // ---------------------------------------------------------------------

  /** A frame with no lag, and a tenth of a second later one that lags by 150 ms. */
  const TWO_FRAMES: seq<Input> :=
    [Other(MarkStreaming), Frame(0, 1_000_000, 1_000_000, 0), Frame(100_000, 1_250_000, 1_100_000, 0)]

  lemma {:induction false} Opened()
    ensures var s := Step(Fresh(0), MarkStreaming).0;
            s.deque == [] && s.tracker == FRESH_TRACKER && s.instance.state.Streaming?
  {
  }

  lemma {:induction false} FirstFrame(s: VideoState)
    requires s.deque == [] && s.tracker == FRESH_TRACKER
    ensures Step(s, OnFeedback(0, 0, 0)).0 == s.(deque := [Sample(0, 0)])
  {
    var first := [Sample(0, 0)];
    assert DropDominated([], 0) + [Sample(0, 0)] == first;
    assert Recorded([], VIDEO_QUEUE_BASELINE_WINDOW_US, 0, 0) == first;
  }

  lemma {:induction false} SecondFrame(s: VideoState, delay: nat)
    requires s.deque == [Sample(0, 0)] && s.tracker == FRESH_TRACKER && s.instance.state.Streaming?
    ensures Step(s, OnFeedback(100_000, delay, 0)).1
         == Decided(if delay > VIDEO_RATE_REDUCE_THRESHOLD_DELTA_US then EnterCongested else Continue)
  {
    var first := [Sample(0, 0)];
    assert first[..0] == [];
    assert DropDominated(first, delay) == if delay == 0 then [] else first;
    assert Recorded(first, VIDEO_QUEUE_BASELINE_WINDOW_US, 100_000, delay)[0].value == 0;
  }

  lemma {:induction false} TwoFrames(o: int, second: nat)
    requires QueueDelay(1_000_000, 1_000_000, o) == 0 && QueueDelay(1_250_000, 1_100_000, o) == second
    ensures ReplyAt(Fresh(0), CallsOf(TWO_FRAMES, o), 2)
         == Decided(if second > VIDEO_RATE_REDUCE_THRESHOLD_DELTA_US then EnterCongested else Continue)
  {
    var calls := CallsOf(TWO_FRAMES, o);
    assert calls == [MarkStreaming, OnFeedback(0, 0, 0), OnFeedback(100_000, second, 0)];
    ThirdReply(calls, MarkStreaming, OnFeedback(0, 0, 0), OnFeedback(100_000, second, 0));
    var s := Step(Fresh(0), MarkStreaming).0;
    Opened();
    FirstFrame(s);
    SecondFrame(s.(deque := [Sample(0, 0)]), second);
  }

  lemma {:induction false} ThirdReply(calls: seq<Call>, a: Call, b: Call, c: Call)
    requires calls == [a, b, c]
    ensures ReplyAt(Fresh(0), calls, 2) == Step(Step(Step(Fresh(0), a).0, b).0, c).1
  {
    assert StateAfter(Fresh(0), calls, 1) == Step(Fresh(0), a).0;
  }

  /** The condition is needed: an offset so far off that delays are clamped to zero hides a congestion that the true
      offset shows. */
  lemma {:induction false} ClampHidesCongestion()
    ensures ReplyAt(Fresh(0), CallsOf(TWO_FRAMES, 0), 2) == Decided(EnterCongested)
    ensures ReplyAt(Fresh(0), CallsOf(TWO_FRAMES, -200_000), 2) == Decided(Continue)
  {
    UnclampedDelay(1_000_000, 1_000_000, 0);
    UnclampedDelay(1_250_000, 1_100_000, 0);
    TwoFrames(0, 150_000);
    TwoFrames(-200_000, 0);
  }
}
