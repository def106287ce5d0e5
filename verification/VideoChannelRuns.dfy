// Whole runs of a video channel under its caller protocol: the four machines
// stay in step, keyframe reopens are rate-limited, and decisions do not depend
// on a constant delay.
module VideoChannelRuns {
  import opened Common
  import opened Backpressure
  import opened VideoStates
  import opened VideoChannels

  datatype Call =
    | MarkStreaming
    | OnFeedback(now: nat, delay: nat, bytes: nat)
    | OnKeyframeRequest(now: nat)
    | PrepareReopen
    | Activate
    | Deactivate

  datatype Reply =
    | Done
    | Decided(decision: Decision)
    | Answered(answer: KeyframeDecision)
    | NewGeneration(generation: nat)
    | Violation

  function Step(s: VideoState, c: Call): (VideoState, Reply) {
    match c
    case MarkStreaming =>
      var (s', ok) := MarkedStreaming(s);
      (s', if ok then Done else Violation)
    case OnFeedback(now, delay, bytes) =>
      var (s', r) := FedBack(s, now, delay, bytes);
      (s', if r.Some? then Decided(r.value) else Violation)
    case OnKeyframeRequest(now) =>
      var (s', d) := Requested(s, now);
      (s', Answered(d))
    case PrepareReopen => (Reopened(s), NewGeneration(Reopened(s).generation))
    case Activate => (Activated(s), Done)
    case Deactivate => (Deactivated(s), Done)
  }

  function StateAfter(start: VideoState, calls: seq<Call>, n: nat): VideoState
    requires n <= |calls|
  {
    if n == 0 then start else Step(StateAfter(start, calls, n - 1), calls[n - 1]).0
  }

  function ReplyAt(start: VideoState, calls: seq<Call>, n: nat): Reply
    requires n < |calls|
  {
    Step(StateAfter(start, calls, n), calls[n]).1
  }

  // ---------------------------------------------------------------------
  // The caller protocol, in terms of what the caller has seen
  // ---------------------------------------------------------------------

  /** The instance is being opened, is up, or has been abandoned on a reset or reopen decision. */
  datatype Phase = Opening | Running | Abandoned

  predicate ReopenReply(r: Reply) {
    r == Decided(ResetStream) || r == Answered(Reopen)
  }

  function NextPhase(p: Phase, c: Call, r: Reply): Phase {
    if c.MarkStreaming? then Running
    else if c.PrepareReopen? then Opening
    else if ReopenReply(r) then Abandoned
    else p
  }

  predicate Permitted(p: Phase, c: Call) {
    match c
    case MarkStreaming => p == Opening
    case OnFeedback(_, _, _) => p == Running
    case PrepareReopen => p == Abandoned
    case _ => true
  }

  function PhaseAfter(start: VideoState, calls: seq<Call>, n: nat): Phase
    requires n <= |calls|
  {
    if n == 0 then Opening
    else NextPhase(PhaseAfter(start, calls, n - 1), calls[n - 1], ReplyAt(start, calls, n - 1))
  }

  /** Each of the first `n` calls is permitted when it is made. */
  predicate FollowsProtocol(start: VideoState, calls: seq<Call>, n: nat)
    requires n <= |calls|
  {
    n > 0 ==> FollowsProtocol(start, calls, n - 1) && Permitted(PhaseAfter(start, calls, n - 1), calls[n - 1])
  }

  // ---------------------------------------------------------------------
  // The machines stay in step
  // ---------------------------------------------------------------------

  predicate Lockstep(s: VideoState, p: Phase) {
    match p
    case Opening =>
      s.instance == FRESH_INSTANCE && s.tracker == FRESH_TRACKER && (s.channel.Initializing? || s.channel.Recovering?)
    case Running =>
      && (s.instance.state.Streaming? || s.instance.state.Congested?)
      && (s.instance.state.Congested? <==> s.tracker.congested)
      && (s.channel.Live? || s.channel.Paused?)
    case Abandoned => s.instance.state == Closed(Reset) && s.channel.Recovering?
  }

  function ReopensIn(calls: seq<Call>, n: nat): nat
    requires n <= |calls|
  {
    if n == 0 then 0 else ReopensIn(calls, n - 1) + if calls[n - 1].PrepareReopen? then 1 else 0
  }

  lemma {:induction false} LockstepKept(s: VideoState, p: Phase, c: Call)
    requires Lockstep(s, p) && Permitted(p, c)
    ensures var (s', r) := Step(s, c); Lockstep(s', NextPhase(p, c, r)) && !r.Violation?
  {
    match c
    case OnFeedback(now, delay, bytes) =>
      var deque := Recorded(s.deque, VIDEO_QUEUE_BASELINE_WINDOW_US, now, delay);
      var (tracker, d) := Evaluate(s.tracker, now, Delta(deque, delay), bytes);
      assert d == EnterCongested ==> !s.tracker.congested && tracker.congested;
      assert d == ExitCongested ==> s.tracker.congested && !tracker.congested;
      assert d == Continue ==> s.tracker.congested == tracker.congested;
    case _ =>
  }

  /** In every state a protocol-abiding caller can reach, tracker, instance and channel agree, the call that led
      there was not refused, and the generation counts the reopens. */
  lemma {:induction false} AlwaysInLockstep(g: nat, calls: seq<Call>, n: nat)
    requires n <= |calls| && FollowsProtocol(Fresh(g), calls, n)
    ensures Lockstep(StateAfter(Fresh(g), calls, n), PhaseAfter(Fresh(g), calls, n))
    ensures StateAfter(Fresh(g), calls, n).generation == g + ReopensIn(calls, n)
    ensures n > 0 ==> !ReplyAt(Fresh(g), calls, n - 1).Violation?
  {
    if n > 0 {
      AlwaysInLockstep(g, calls, n - 1);
      LockstepKept(StateAfter(Fresh(g), calls, n - 1), PhaseAfter(Fresh(g), calls, n - 1), calls[n - 1]);
      GenerationStep(StateAfter(Fresh(g), calls, n - 1), calls[n - 1]);
    }
  }

  lemma {:induction false} GenerationStep(s: VideoState, c: Call)
    ensures Step(s, c).0.generation == s.generation + if c.PrepareReopen? then 1 else 0
  {
  }

  // ---------------------------------------------------------------------
  // Reopens on request are rate-limited
  // ---------------------------------------------------------------------

  predicate Timed(c: Call) {
    c.OnFeedback? || c.OnKeyframeRequest?
  }

  /** Among the first `n` calls the clock never runs back, and stays clear of the end of u64. */
  ghost predicate Monotonic(calls: seq<Call>, n: nat)
    requires n <= |calls|
  {
    && (forall i, j :: 0 <= i < j < n && Timed(calls[i]) && Timed(calls[j]) ==> calls[i].now <= calls[j].now)
    && (forall i :: 0 <= i < n && Timed(calls[i]) ==> calls[i].now + 1_000_000 <= U64_MAX)
  }

  lemma {:induction false} ReopenStep(s: VideoState, c: Call)
    ensures var (s', r) := Step(s, c);
            s'.lastReopenUs == if ReopenReply(r) then Some(c.now) else s.lastReopenUs
    ensures ReopenReply(Step(s, c).1) ==> Timed(c)
  {
  }

  lemma {:induction false} LastReopenIsLatest(start: VideoState, calls: seq<Call>, j: nat, n: nat)
    requires j < n <= |calls| && Monotonic(calls, n) && ReopenReply(ReplyAt(start, calls, j))
    ensures var last := StateAfter(start, calls, n).lastReopenUs;
            && Timed(calls[j]) && last.Some? && calls[j].now <= last.value
            && last.value + 1_000_000 <= U64_MAX
  {
    ReopenStep(StateAfter(start, calls, n - 1), calls[n - 1]);
    ReopenStep(StateAfter(start, calls, j), calls[j]);
    if j < n - 1 {
      LastReopenIsLatest(start, calls, j, n - 1);
    }
  }

  /** Between any earlier reopen, of either kind, and an honoured request lies at least a second. */
  lemma {:induction false} ReopensAreSpaced(start: VideoState, calls: seq<Call>, j: nat, k: nat)
    requires j < k < |calls| && Monotonic(calls, k)
    requires ReopenReply(ReplyAt(start, calls, j)) && ReplyAt(start, calls, k) == Answered(Reopen)
    ensures Timed(calls[j]) && Timed(calls[k]) && calls[j].now + 1_000_000 <= calls[k].now
  {
    LastReopenIsLatest(start, calls, j, k);
  }

  /** When the caller was last told to reopen, by either kind of reply, among the first `n` calls. */
  function LastReopen(start: VideoState, calls: seq<Call>, n: nat): Option<nat>
    requires n <= |calls|
  {
    if n == 0 then None
    else if ReopenReply(ReplyAt(start, calls, n - 1)) && Timed(calls[n - 1]) then Some(calls[n - 1].now)
    else LastReopen(start, calls, n - 1)
  }

  lemma {:induction false} LastReopenIsKept(g: nat, calls: seq<Call>, n: nat)
    requires n <= |calls|
    ensures StateAfter(Fresh(g), calls, n).lastReopenUs == LastReopen(Fresh(g), calls, n)
  {
    for i := 0 to n
      invariant StateAfter(Fresh(g), calls, i).lastReopenUs == LastReopen(Fresh(g), calls, i)
    {
      ReopenStep(StateAfter(Fresh(g), calls, i), calls[i]);
    }
  }

  /** No reopen of either kind among the first `n` calls lies less than a second before `now`. */
  ghost predicate NoneWithinASecond(start: VideoState, calls: seq<Call>, n: nat, now: nat)
    requires n <= |calls|
  {
    forall j {:trigger ReplyAt(start, calls, j)} ::
      0 <= j < n && ReopenReply(ReplyAt(start, calls, j)) && Timed(calls[j]) ==> calls[j].now + 1_000_000 <= now
  }

  lemma {:induction false} LastReopenDecides(start: VideoState, calls: seq<Call>, n: nat, now: nat)
    requires n <= |calls| && Monotonic(calls, n)
    ensures NoneWithinASecond(start, calls, n, now) <==>
              match LastReopen(start, calls, n) case None => true case Some(t) => t + 1_000_000 <= now
    ensures match LastReopen(start, calls, n)
            case None => true
            case Some(t) => exists j :: 0 <= j < n && Timed(calls[j]) && calls[j].now == t
  {
    if n > 0 {
      LastReopenDecides(start, calls, n - 1, now);
      if ReopenReply(ReplyAt(start, calls, n - 1)) && Timed(calls[n - 1]) {
        forall j | 0 <= j < n && Timed(calls[j])
          ensures calls[j].now <= calls[n - 1].now
        {
        }
      }
    }
  }

  /** A second after a reopen, or the end of time. */
  function Soonest(reopen: nat): nat {
    if reopen + 1_000_000 <= 0xFFFF_FFFF_FFFF_FFFF then reopen + 1_000_000 else 0xFFFF_FFFF_FFFF_FFFF
  }

  /** What a keyframe request is answered, from the phase and the earlier replies: a request within a second of the last
      reopen of either kind is told when to come back, any other reopens a running instance and only that. */
  lemma {:induction false} KeyframeAnswered(g: nat, calls: seq<Call>, n: nat)
    requires n < |calls| && calls[n].OnKeyframeRequest? && FollowsProtocol(Fresh(g), calls, n)
    ensures var last, now := LastReopen(Fresh(g), calls, n), calls[n].now;
            ReplyAt(Fresh(g), calls, n) == Answered(
              if last.Some? && now < Soonest(last.value) then RateLimited(Soonest(last.value))
              else if PhaseAfter(Fresh(g), calls, n) == Running then Reopen else NotStreaming)
    ensures Monotonic(calls, n + 1) ==>
              (ReplyAt(Fresh(g), calls, n) == Answered(Reopen) <==>
                PhaseAfter(Fresh(g), calls, n) == Running && NoneWithinASecond(Fresh(g), calls, n, calls[n].now))
  {
    AlwaysInLockstep(g, calls, n);
    LastReopenIsKept(g, calls, n);
    if Monotonic(calls, n + 1) {
      LastReopenDecides(Fresh(g), calls, n, calls[n].now);
    }
  }

  // ---------------------------------------------------------------------
  // The channel's own state
  // ---------------------------------------------------------------------

  /** The monitor lost focus after the instance went up, and has not regained it. */
  function Unfocused(calls: seq<Call>, n: nat): bool
    requires n <= |calls|
  {
    if n == 0 then false
    else
      match calls[n - 1]
      case MarkStreaming => false
      case Activate => false
      case Deactivate => true
      case _ => Unfocused(calls, n - 1)
  }

  function ChannelFor(p: Phase, reopens: nat, unfocused: bool): ChannelState {
    match p
    case Opening => if reopens == 0 then Initializing else Recovering
    case Running => if unfocused then Paused else Live
    case Abandoned => Recovering
  }

  lemma {:induction false} ChannelStep(s: VideoState, p: Phase, c: Call, reopens: nat, unfocused: bool)
    requires Lockstep(s, p) && Permitted(p, c) && s.channel == ChannelFor(p, reopens, unfocused)
    ensures var (s', r) := Step(s, c);
            s'.channel == ChannelFor(NextPhase(p, c, r), reopens + if c.PrepareReopen? then 1 else 0,
              match c case MarkStreaming => false case Activate => false case Deactivate => true case _ => unfocused)
  {
    LockstepKept(s, p, c);
    if c.OnFeedback? {
      var deque := Recorded(s.deque, VIDEO_QUEUE_BASELINE_WINDOW_US, c.now, c.delay);
      var (tracker, d) := Evaluate(s.tracker, c.now, Delta(deque, c.delay), c.bytes);
    }
  }

  /** In every run the channel's state follows from the phase, whether there was a reopen, and the focus. */
  lemma {:induction false} ChannelFollowsCalls(g: nat, calls: seq<Call>, n: nat)
    requires n <= |calls| && FollowsProtocol(Fresh(g), calls, n)
    ensures StateAfter(Fresh(g), calls, n).channel
         == ChannelFor(PhaseAfter(Fresh(g), calls, n), ReopensIn(calls, n), Unfocused(calls, n))
  {
    if n > 0 {
      ChannelFollowsCalls(g, calls, n - 1);
      AlwaysInLockstep(g, calls, n - 1);
      ChannelStep(StateAfter(Fresh(g), calls, n - 1), PhaseAfter(Fresh(g), calls, n - 1), calls[n - 1],
                  ReopensIn(calls, n - 1), Unfocused(calls, n - 1));
    }
  }

  // ---------------------------------------------------------------------
  // Decisions do not depend on a constant delay
  // ---------------------------------------------------------------------

  function ShiftDeque(d: seq<Sample>, c: nat): seq<Sample> {
    seq(|d|, i requires 0 <= i < |d| => Sample(d[i].ts, d[i].value + c))
  }

  function ShiftState(s: VideoState, c: nat): VideoState {
    s.(deque := ShiftDeque(s.deque, c))
  }

  function ShiftCall(call: Call, c: nat): Call {
    if call.OnFeedback? then call.(delay := call.delay + c) else call
  }

  function ShiftCalls(calls: seq<Call>, c: nat): seq<Call> {
    seq(|calls|, i requires 0 <= i < |calls| => ShiftCall(calls[i], c))
  }

  lemma {:induction false} ShiftDominated(d: seq<Sample>, v: nat, c: nat)
    ensures DropDominated(ShiftDeque(d, c), v + c) == ShiftDeque(DropDominated(d, v), c)
  {
    if |d| > 0 && d[|d| - 1].value >= v {
      ShiftDominated(d[..|d| - 1], v, c);
      assert ShiftDeque(d, c)[..|d| - 1] == ShiftDeque(d[..|d| - 1], c);
    }
  }

  lemma {:induction false} ShiftExpired(d: seq<Sample>, cutoff: nat, c: nat)
    ensures DropExpired(ShiftDeque(d, c), cutoff) == ShiftDeque(DropExpired(d, cutoff), c)
  {
    if |d| > 0 && d[0].ts < cutoff {
      ShiftExpired(d[1..], cutoff, c);
      assert ShiftDeque(d, c)[1..] == ShiftDeque(d[1..], c);
    }
  }

  lemma {:induction false} ShiftRecorded(d: seq<Sample>, window: nat, now: nat, v: nat, c: nat)
    ensures Recorded(ShiftDeque(d, c), window, now, v + c) == ShiftDeque(Recorded(d, window, now, v), c)
  {
    ShiftDominated(d, v, c);
    var kept := DropDominated(d, v);
    assert ShiftDeque(kept, c) + [Sample(now, v + c)] == ShiftDeque(kept + [Sample(now, v)], c);
    ShiftExpired(kept + [Sample(now, v)], SaturatingSub(now, window), c);
  }

  lemma {:induction false} ShiftStep(s: VideoState, call: Call, c: nat)
    ensures var (s', r) := Step(s, call);
            Step(ShiftState(s, c), ShiftCall(call, c)) == (ShiftState(s', c), r)
  {
    match call
    case OnFeedback(now, delay, bytes) =>
      ShiftRecorded(s.deque, VIDEO_QUEUE_BASELINE_WINDOW_US, now, delay, c);
      var deque := Recorded(s.deque, VIDEO_QUEUE_BASELINE_WINDOW_US, now, delay);
      assert Delta(ShiftDeque(deque, c), delay + c) == Delta(deque, delay);
    case _ =>
  }

  /** DR-029: the same constant added to every delay sample changes no reply and no state but the baseline. */
  lemma {:induction false} DelayShiftInvariance(start: VideoState, calls: seq<Call>, c: nat, n: nat)
    requires n <= |calls|
    ensures StateAfter(ShiftState(start, c), ShiftCalls(calls, c), n) == ShiftState(StateAfter(start, calls, n), c)
    ensures n < |calls| ==>
              ReplyAt(ShiftState(start, c), ShiftCalls(calls, c), n) == ReplyAt(start, calls, n)
  {
    if n > 0 {
      DelayShiftInvariance(start, calls, c, n - 1);
      ShiftStep(StateAfter(start, calls, n - 1), calls[n - 1], c);
    }
    if n < |calls| {
      ShiftStep(StateAfter(start, calls, n), calls[n], c);
    }
  }
}
