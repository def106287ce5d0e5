// The two small state machines a video channel drives: the Channel's
// (src/channel_sm.rs) and the Instance's (src/video_sm.rs).
module VideoStates {
  import opened Common

  datatype ChannelState = Initializing | Live | Recovering | Paused

  datatype CloseReason = Reset | Failed | Normal

  datatype InstanceState = Created | Configuring | Streaming | Congested | Closed(reason: CloseReason)

  datatype Instance = Instance(state: InstanceState, sentGeneration: bool, sentEncoderConfig: bool) {
    // A transition that is illegal in the current state is refused and changes nothing.

    function PrologueSent(): Option<Instance> {
      if state.Created? then Some(this.(state := Configuring)) else None
    }

    function GenerationSent(): Option<Instance> {
      if state.Configuring? && !sentGeneration then Some(this.(sentGeneration := true)) else None
    }

    function EncoderConfigSent(): Option<Instance> {
      if state.Configuring? && sentGeneration && !sentEncoderConfig
      then Some(this.(sentEncoderConfig := true)) else None
    }

    function FirstIdrSent(): Option<Instance> {
      if state.Configuring? && sentGeneration && sentEncoderConfig then Some(this.(state := Streaming)) else None
    }

    function OnCongested(): Option<Instance> {
      if state.Streaming? then Some(this.(state := Congested)) else None
    }

    function OnRecovered(): Option<Instance> {
      if state.Congested? then Some(this.(state := Streaming)) else None
    }

    function OnReset(): Option<Instance> {
      if state.Congested? then Some(this.(state := Closed(Reset))) else None
    }

    function OnClientRequestedReset(): Option<Instance> {
      if state.Streaming? || state.Congested? then Some(this.(state := Closed(Reset))) else None
    }
  }

  const FRESH_INSTANCE: Instance := Instance(Created, false, false)

  function After(i: Instance, next: Option<Instance>): Instance {
    if next.Some? then next.value else i
  }

  // ---------------------------------------------------------------------
  // Every run of an instance
  // ---------------------------------------------------------------------

  datatype Op =
    | SendPrologue | SendGeneration | SendEncoderConfig | SendFirstIdr | Congest | Recover | AbandonCongested
    | AbandonOnRequest

  function Try(i: Instance, op: Op): Option<Instance> {
    match op
    case SendPrologue => i.PrologueSent()
    case SendGeneration => i.GenerationSent()
    case SendEncoderConfig => i.EncoderConfigSent()
    case SendFirstIdr => i.FirstIdrSent()
    case Congest => i.OnCongested()
    case Recover => i.OnRecovered()
    case AbandonCongested => i.OnReset()
    case AbandonOnRequest => i.OnClientRequestedReset()
  }

  function Run(ops: seq<Op>, n: nat): Instance
    requires n <= |ops|
  {
    if n == 0 then FRESH_INSTANCE else After(Run(ops, n - 1), Try(Run(ops, n - 1), ops[n - 1]))
  }

  function LastAccepted(ops: seq<Op>, n: nat): Option<Op>
    requires n <= |ops|
  {
    if n == 0 then None
    else if Try(Run(ops, n - 1), ops[n - 1]).Some? then Some(ops[n - 1]) else LastAccepted(ops, n - 1)
  }

  /** Which operation may come after the last one that was accepted. */
  predicate MayFollow(last: Option<Op>, op: Op) {
    match op
    case SendPrologue => last == None
    case SendGeneration => last == Some(SendPrologue)
    case SendEncoderConfig => last == Some(SendGeneration)
    case SendFirstIdr => last == Some(SendEncoderConfig)
    case Congest => last == Some(SendFirstIdr) || last == Some(Recover)
    case Recover => last == Some(Congest)
    case AbandonCongested => last == Some(Congest)
    case AbandonOnRequest => last == Some(SendFirstIdr) || last == Some(Recover) || last == Some(Congest)
  }

  /** The state the last accepted operation leads to. */
  function StateFor(last: Option<Op>): InstanceState {
    match last
    case None => Created
    case Some(SendPrologue) => Configuring
    case Some(SendGeneration) => Configuring
    case Some(SendEncoderConfig) => Configuring
    case Some(SendFirstIdr) => Streaming
    case Some(Recover) => Streaming
    case Some(Congest) => Congested
    case Some(AbandonCongested) => Closed(Reset)
    case Some(AbandonOnRequest) => Closed(Reset)
  }

  ghost predicate FitsLast(i: Instance, last: Option<Op>) {
    && i.state == StateFor(last)
    && (i.state.Configuring? ==>
          && (i.sentGeneration <==> last != Some(SendPrologue))
          && (i.sentEncoderConfig <==> last == Some(SendEncoderConfig)))
    && (i.state.Created? ==> !i.sentGeneration && !i.sentEncoderConfig)
  }

  /** In every run an operation is accepted exactly if it may follow the last accepted one, which also fixes the
      state: prologue, generation, configuration and first IDR frame in this order and once each, then congestion and
      recovery in turn, and nothing after the instance was abandoned. */
  lemma {:induction false} InstanceFollowsOrder(ops: seq<Op>, n: nat, op: Op)
    requires n <= |ops|
    ensures Run(ops, n).state == StateFor(LastAccepted(ops, n))
    ensures Try(Run(ops, n), op).Some? <==> MayFollow(LastAccepted(ops, n), op)
  {
    for i := 0 to n
      invariant FitsLast(Run(ops, i), LastAccepted(ops, i))
    {
    }
  }

  class VideoInstanceSm {
    var state: InstanceState
    var sentGeneration: bool
    var sentEncoderConfig: bool

    ghost function Value(): Instance
      reads this
    {
      Instance(state, sentGeneration, sentEncoderConfig)
    }

    constructor ()
      ensures Value() == FRESH_INSTANCE
    {
      state, sentGeneration, sentEncoderConfig := Created, false, false;
    }

    method PrologueSent() returns (ok: bool)
      modifies this
      ensures ok == old(Value()).PrologueSent().Some?
      ensures Value() == After(old(Value()), old(Value()).PrologueSent())
    {
      ok := state.Created?;
      if ok { state := Configuring; }
    }

    method GenerationSent() returns (ok: bool)
      modifies this
      ensures ok == old(Value()).GenerationSent().Some?
      ensures Value() == After(old(Value()), old(Value()).GenerationSent())
    {
      ok := state.Configuring? && !sentGeneration;
      if ok { sentGeneration := true; }
    }

    method EncoderConfigSent() returns (ok: bool)
      modifies this
      ensures ok == old(Value()).EncoderConfigSent().Some?
      ensures Value() == After(old(Value()), old(Value()).EncoderConfigSent())
    {
      ok := state.Configuring? && sentGeneration && !sentEncoderConfig;
      if ok { sentEncoderConfig := true; }
    }

    method FirstIdrSent() returns (ok: bool)
      modifies this
      ensures ok == old(Value()).FirstIdrSent().Some?
      ensures Value() == After(old(Value()), old(Value()).FirstIdrSent())
    {
      ok := state.Configuring? && sentGeneration && sentEncoderConfig;
      if ok { state := Streaming; }
    }

    method OnCongested() returns (ok: bool)
      modifies this
      ensures ok == old(Value()).OnCongested().Some?
      ensures Value() == After(old(Value()), old(Value()).OnCongested())
    {
      ok := state.Streaming?;
      if ok { state := Congested; }
    }

    method OnRecovered() returns (ok: bool)
      modifies this
      ensures ok == old(Value()).OnRecovered().Some?
      ensures Value() == After(old(Value()), old(Value()).OnRecovered())
    {
      ok := state.Congested?;
      if ok { state := Streaming; }
    }

    method OnReset() returns (ok: bool)
      modifies this
      ensures ok == old(Value()).OnReset().Some?
      ensures Value() == After(old(Value()), old(Value()).OnReset())
    {
      ok := state.Congested?;
      if ok { state := Closed(Reset); }
    }

    method OnClientRequestedReset() returns (ok: bool)
      modifies this
      ensures ok == old(Value()).OnClientRequestedReset().Some?
      ensures Value() == After(old(Value()), old(Value()).OnClientRequestedReset())
    {
      ok := state.Streaming? || state.Congested?;
      if ok { state := Closed(Reset); }
    }
  }

  class ChannelSm {
    var state: ChannelState

    constructor ()
      ensures state == Initializing
    {
      state := Initializing;
    }

    method OnInstanceStreaming()
      modifies this
      ensures state == Live
    {
      state := Live;
    }

    method OnReset()
      modifies this
      ensures state == Recovering
    {
      state := Recovering;
    }

    method Deactivate()
      modifies this
      ensures state == if old(state).Live? then Paused else old(state)
    {
      if state.Live? { state := Paused; }
    }

    method Activate()
      modifies this
      ensures state == if old(state).Paused? then Live else old(state)
    {
      if state.Paused? { state := Live; }
    }
  }
}
