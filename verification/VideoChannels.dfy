// One video channel across the lifetimes of its instances (src/video_channel.rs).
module VideoChannels {
  import opened Common
  import opened Backpressure
  import opened VideoStates

  /** The client circuit breaker's trip threshold: three hard thresholds and one feedback interval. */
  const KEYFRAME_REQUEST_MIN_INTERVAL_US: nat :=
    MAX_VIDEO_QUEUE_DURATION_DELTA_US * HARD_THRESHOLD_CONSECUTIVE_COUNT + 100_000

  datatype KeyframeDecision = Reopen | RateLimited(nextAllowedAtUs: nat) | NotStreaming

  datatype VideoState = VideoState(
    channel: ChannelState,
    deque: seq<Sample>,
    tracker: Tracker,
    instance: Instance,
    generation: nat,
    lastReopenUs: Option<nat>)

  function Fresh(generation: nat): VideoState {
    VideoState(Initializing, [], FRESH_TRACKER, FRESH_INSTANCE, generation, None)
  }

  // ---------------------------------------------------------------------
  // One call, as a function of the state
  // ---------------------------------------------------------------------

  /** The instance's setup sequence, stopping at the first refusal. */
  function Configured(i: Instance): (Instance, bool) {
    match i.PrologueSent()
    case None => (i, false)
    case Some(i1) =>
      match i1.GenerationSent()
      case None => (i1, false)
      case Some(i2) =>
        match i2.EncoderConfigSent()
        case None => (i2, false)
        case Some(i3) =>
          match i3.FirstIdrSent()
          case None => (i3, false)
          case Some(i4) => (i4, true)
  }

  function MarkedStreaming(s: VideoState): (VideoState, bool) {
    var (i, ok) := Configured(s.instance);
    (s.(instance := i, channel := if ok then Live else s.channel), ok)
  }

  /** The delay in excess of the window's minimum, the new sample included. */
  function Delta(deque: seq<Sample>, delay: nat): nat {
    SaturatingSub(delay, if deque == [] then delay else deque[0].value)
  }

  function InstanceAfter(i: Instance, d: Decision): Option<Instance> {
    match d
    case Continue => Some(i)
    case EnterCongested => i.OnCongested()
    case ExitCongested => i.OnRecovered()
    case ResetStream => i.OnReset()
  }

  function FedBack(s: VideoState, now: nat, delay: nat, bytes: nat): (VideoState, Option<Decision>) {
    var deque := Recorded(s.deque, VIDEO_QUEUE_BASELINE_WINDOW_US, now, delay);
    var (tracker, d) := Evaluate(s.tracker, now, Delta(deque, delay), bytes);
    var measured := s.(deque := deque, tracker := tracker);
    match InstanceAfter(s.instance, d)
    case None => (measured, None)
    case Some(i) =>
      if d == ResetStream
      then (measured.(instance := i, channel := Recovering, lastReopenUs := Some(now)), Some(d))
      else (measured.(instance := i), Some(d))
  }

  /** `saturating_add` on u64. */
  function NextAllowed(last: nat): nat {
    if last + KEYFRAME_REQUEST_MIN_INTERVAL_US > U64_MAX then U64_MAX else last + KEYFRAME_REQUEST_MIN_INTERVAL_US
  }

  function Requested(s: VideoState, now: nat): (VideoState, KeyframeDecision) {
    if s.lastReopenUs.Some? && now < NextAllowed(s.lastReopenUs.value) then
      (s, RateLimited(NextAllowed(s.lastReopenUs.value)))
    else
      match s.instance.OnClientRequestedReset()
      case None => (s, NotStreaming)
      case Some(i) => (s.(instance := i, channel := Recovering, lastReopenUs := Some(now)), Reopen)
  }

  function Reopened(s: VideoState): VideoState {
    s.(generation := s.generation + 1, tracker := FRESH_TRACKER, instance := FRESH_INSTANCE)
  }

  function Deactivated(s: VideoState): VideoState {
    if s.channel.Live? then s.(channel := Paused) else s
  }

  function Activated(s: VideoState): VideoState {
    if s.channel.Paused? then s.(channel := Live) else s
  }

  class VideoChannel {
    var channelSm: ChannelSm
    var baseline: BaselineTracker
    var congestion: CongestionTracker
    var instanceSm: VideoInstanceSm
    var generation: nat
    var lastReopenUs: Option<nat>

    ghost function Parts(): set<object>
      reads this
    {
      {channelSm, baseline, congestion, instanceSm}
    }

    ghost predicate Valid()
      reads this, Parts()
    {
      baseline.Valid() && baseline.windowUs == VIDEO_QUEUE_BASELINE_WINDOW_US
    }

    ghost function State(): VideoState
      reads this, Parts()
    {
      VideoState(channelSm.state, baseline.samples, congestion.State(), instanceSm.Value(), generation, lastReopenUs)
    }

    constructor (generation: nat)
      ensures Valid() && fresh(Parts())
      ensures State() == Fresh(generation) && baseline.history == [] && baseline.latest == 0
    {
      channelSm := new ChannelSm();
      baseline := new BaselineTracker(VIDEO_QUEUE_BASELINE_WINDOW_US);
      congestion := new CongestionTracker();
      instanceSm := new VideoInstanceSm();
      this.generation := generation;
      lastReopenUs := None;
    }

    method Deactivate()
      requires Valid()
      modifies channelSm
      ensures Valid() && State() == Deactivated(old(State()))
    {
      channelSm.Deactivate();
    }

    method Activate()
      requires Valid()
      modifies channelSm
      ensures Valid() && State() == Activated(old(State()))
    {
      channelSm.Activate();
    }

    method MarkInstanceStreaming() returns (ok: bool)
      requires Valid()
      modifies channelSm, instanceSm
      ensures Valid() && (State(), ok) == MarkedStreaming(old(State()))
    {
      ok := instanceSm.PrologueSent();
      if !ok { return; }
      ok := instanceSm.GenerationSent();
      if !ok { return; }
      ok := instanceSm.EncoderConfigSent();
      if !ok { return; }
      ok := instanceSm.FirstIdrSent();
      if !ok { return; }
      channelSm.OnInstanceStreaming();
    }

    /** `None` stands for the protocol violation an instance that is not up would report. */
    method OnFeedback(nowUs: nat, clientQueueDelayUs: nat, appSendQueueBytes: nat) returns (r: Option<Decision>)
      requires Valid() && baseline.latest <= nowUs
      modifies this`lastReopenUs, Parts()
      ensures Valid() && baseline.latest == nowUs
      ensures (State(), r) == FedBack(old(State()), nowUs, clientQueueDelayUs, appSendQueueBytes)
      ensures baseline.history == old(baseline.history) + [Sample(nowUs, clientQueueDelayUs)]
    {
      baseline.Record(nowUs, clientQueueDelayUs);
      var b := baseline.BaselineUs();
      var base := match b case Some(v) => v case None => clientQueueDelayUs;
      var delta := SaturatingSub(clientQueueDelayUs, base);
      var decision := congestion.EvaluateSample(nowUs, delta, appSendQueueBytes);
      var ok := true;
      match decision {
        case Continue =>
        case EnterCongested => ok := instanceSm.OnCongested();
        case ExitCongested => ok := instanceSm.OnRecovered();
        case ResetStream =>
          ok := instanceSm.OnReset();
          if ok {
            channelSm.OnReset();
            lastReopenUs := Some(nowUs);
          }
      }
      r := if ok then Some(decision) else None;
    }

    method OnKeyframeRequest(nowUs: nat) returns (d: KeyframeDecision)
      requires Valid()
      modifies this`lastReopenUs, channelSm, instanceSm
      ensures Valid() && (State(), d) == Requested(old(State()), nowUs)
      ensures d != Reopen ==> State() == old(State())
    {
      if lastReopenUs.Some? {
        var nextAllowedAtUs := NextAllowed(lastReopenUs.value);
        if nowUs < nextAllowedAtUs {
          return RateLimited(nextAllowedAtUs);
        }
      }
      var ok := instanceSm.OnClientRequestedReset();
      if !ok {
        return NotStreaming;
      }
      channelSm.OnReset();
      lastReopenUs := Some(nowUs);
      d := Reopen;
    }

    /** The baseline deliberately survives. */
    method PrepareReopen() returns (g: nat)
      requires Valid()
      modifies this`generation, this`congestion, this`instanceSm
      ensures Valid() && fresh(congestion) && fresh(instanceSm)
      ensures State() == Reopened(old(State())) && g == generation
    {
      generation := generation + 1;
      congestion := new CongestionTracker();
      instanceSm := new VideoInstanceSm();
      g := generation;
    }
  }
}
