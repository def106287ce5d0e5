// DR-029 where reported delays are clamped at zero: exactly which TimeSync offsets the server
// cannot tell apart.
module ClampedDelays {
  import opened Common
  import opened Backpressure
  import opened VideoChannels
  import opened VideoChannelRuns
  import opened ChannelDecisions
  import opened TimeSync
  import opened OffsetInvariance

  function Clamp(x: int): nat {
    if x < 0 then 0 else x
  }

  /** Neither the 64-bit clock nor the cast of the delay to u32 wraps; the clamp at zero may bite. */
  predicate Uncut(displayTs: U64, captureTs: U64, offsetUs: int) {
    && displayTs < TWO_63 && -TWO_63 <= displayTs + offsetUs < TWO_63
    && displayTs + offsetUs <= captureTs + U32_MAX
  }

  lemma {:induction false} UncutDelay(displayTs: U64, captureTs: U64, offsetUs: int)
    requires Uncut(displayTs, captureTs, offsetUs)
    ensures QueueDelay(displayTs, captureTs, offsetUs) == Clamp(displayTs - captureTs + offsetUs)
  {
    assert WrapI64(WrapI64(displayTs) + offsetUs) == displayTs + offsetUs;
  }

  // ---------------------------------------------------------------------
  // Lags: what the delays would be without an offset and without a clamp
  // ---------------------------------------------------------------------

  /** From capture to display, each on its own clock; any sign. */
  datatype Lag = Lag(ts: nat, lag: int)

  function LagOf(i: Input): Lag
    requires i.Frame?
  {
    Lag(i.now, i.displayTs - i.captureTs)
  }

  function Lags(inputs: seq<Input>, n: nat): seq<Lag>
    requires n <= |inputs|
  {
    if n == 0 then []
    else if inputs[n - 1].Frame? then Lags(inputs, n - 1) + [LagOf(inputs[n - 1])]
    else Lags(inputs, n - 1)
  }

  function LeastLag(history: seq<Lag>, cutoff: nat): Option<int> {
    if history == [] then None
    else
      var last := history[|history| - 1];
      match LeastLag(history[..|history| - 1], cutoff)
      case None => if last.ts >= cutoff then Some(last.lag) else None
      case Some(m) => if last.ts >= cutoff && last.lag < m then Some(last.lag) else Some(m)
  }

  lemma {:induction false} LeastLagFacts(history: seq<Lag>, cutoff: nat)
    ensures match LeastLag(history, cutoff)
            case None => forall k :: 0 <= k < |history| ==> history[k].ts < cutoff
            case Some(m) =>
              && (exists k :: 0 <= k < |history| && history[k].ts >= cutoff && history[k].lag == m)
              && forall k :: 0 <= k < |history| && history[k].ts >= cutoff ==> m <= history[k].lag
  {
    if history != [] {
      var n := |history| - 1;
      var shorter := history[..n];
      LeastLagFacts(shorter, cutoff);
      assert forall k :: 0 <= k < n ==> shorter[k] == history[k];
    }
  }

  /** What the lags become as reported delays under an offset. */
  function Shown(history: seq<Lag>, offsetUs: int): seq<Sample> {
    seq(|history|, k requires 0 <= k < |history| => Sample(history[k].ts, Clamp(history[k].lag + offsetUs)))
  }

  /** Clamping commutes with taking the least. */
  lemma {:induction false} LeastShown(history: seq<Lag>, offsetUs: int, cutoff: nat)
    ensures LeastSince(Shown(history, offsetUs), cutoff)
         == match LeastLag(history, cutoff) case None => None case Some(m) => Some(Clamp(m + offsetUs))
  {
    if history != [] {
      var shorter := history[..|history| - 1];
      assert Shown(history, offsetUs)[..|history| - 1] == Shown(shorter, offsetUs);
      LeastShown(shorter, offsetUs, cutoff);
    }
  }

  /** Every frame among the first `n` inputs is uncut under the offset, and all feedback comes from frames. */
  ghost predicate AllUncut(inputs: seq<Input>, offsetUs: int, n: nat)
    requires n <= |inputs|
  {
    forall i {:trigger UncutInput(inputs[i], offsetUs)} :: 0 <= i < n ==> UncutInput(inputs[i], offsetUs)
  }

  predicate UncutInput(i: Input, offsetUs: int) {
    match i
    case Frame(_, displayTs, captureTs, _) => Uncut(displayTs, captureTs, offsetUs)
    case Other(call) => !call.OnFeedback?
  }

  lemma {:induction false} DelaysAreShown(inputs: seq<Input>, offsetUs: int, n: nat)
    requires n <= |inputs| && AllUncut(inputs, offsetUs, n)
    ensures Delays(CallsOf(inputs, offsetUs), n) == Shown(Lags(inputs, n), offsetUs)
  {
    for i := 0 to n
      invariant Delays(CallsOf(inputs, offsetUs), i) == Shown(Lags(inputs, i), offsetUs)
    {
      assert UncutInput(inputs[i], offsetUs);
      if inputs[i].Frame? {
        UncutDelay(inputs[i].displayTs, inputs[i].captureTs, offsetUs);
        ShownExtends(Lags(inputs, i), LagOf(inputs[i]), offsetUs);
      }
    }
  }

  lemma {:induction false} ShownExtends(history: seq<Lag>, x: Lag, offsetUs: int)
    ensures Shown(history + [x], offsetUs) == Shown(history, offsetUs) + [Sample(x.ts, Clamp(x.lag + offsetUs))]
  {
  }

  // ---------------------------------------------------------------------
  // One frame under two offsets
  // ---------------------------------------------------------------------

  /** The least lag of the last ten seconds when frame `i` is reported, itself included. */
  function WindowLag(inputs: seq<Input>, i: nat): (m: int)
    requires i < |inputs| && inputs[i].Frame?
    ensures m <= LagOf(inputs[i]).lag
  {
    var history := Lags(inputs, i + 1);
    assert history[..|history| - 1] == Lags(inputs, i);
    LeastLag(history, SaturatingSub(inputs[i].now, 10_000_000)).value
  }

  /** The excess delay that the server computes for frame `i` under an offset. */
  function ShownExcess(inputs: seq<Input>, i: nat, offsetUs: int): (e: nat)
    requires i < |inputs| && inputs[i].Frame?
  {
    var own, least := LagOf(inputs[i]).lag + offsetUs, WindowLag(inputs, i) + offsetUs;
    Clamp(own) - Clamp(least)
  }

  lemma {:induction false} ExcessShown(inputs: seq<Input>, i: nat, offsetUs: int)
    requires i < |inputs| && inputs[i].Frame? && AllUncut(inputs, offsetUs, i + 1)
    ensures ExcessAt(CallsOf(inputs, offsetUs), i) == ShownExcess(inputs, i, offsetUs)
  {
    assert UncutInput(inputs[i], offsetUs);
    UncutDelay(inputs[i].displayTs, inputs[i].captureTs, offsetUs);
    DelaysAreShown(inputs, offsetUs, i + 1);
    LeastShown(Lags(inputs, i + 1), offsetUs, SaturatingSub(inputs[i].now, 10_000_000));
  }

  /** The least delay is unclamped under the smaller offset, or it is the frame's own, or the frame's own delay is
      clamped under the larger offset too. */
  predicate CannotTell(least: int, own: int, o: int, o': int) {
    || o == o'
    || least + (if o < o' then o else o') >= 0
    || own == least
    || own + (if o < o' then o' else o) <= 0
  }

  /** The excess delay of a frame is the same under two offsets if and only if `CannotTell`. */
  lemma {:induction false} SameExcessIff(inputs: seq<Input>, i: nat, o: int, o': int)
    requires i < |inputs| && inputs[i].Frame? && AllUncut(inputs, o, i + 1) && AllUncut(inputs, o', i + 1)
    ensures SameExcessAt(CallsOf(inputs, o), CallsOf(inputs, o'), i)
       <==> CannotTell(WindowLag(inputs, i), LagOf(inputs[i]).lag, o, o')
  {
    ExcessShown(inputs, i, o);
    ExcessShown(inputs, i, o');
  }

  /** A smaller offset can only lower an excess: clamping hides delay and never invents any. */
  lemma {:induction false} ClampingLowers(inputs: seq<Input>, i: nat, o: int, o': int)
    requires i < |inputs| && inputs[i].Frame? && o <= o' && AllUncut(inputs, o, i + 1) && AllUncut(inputs, o', i + 1)
    ensures ExcessAt(CallsOf(inputs, o), i) <= ExcessAt(CallsOf(inputs, o'), i)
    ensures ExcessAt(CallsOf(inputs, o'), i) <= LagOf(inputs[i]).lag - WindowLag(inputs, i)
  {
    ExcessShown(inputs, i, o);
    ExcessShown(inputs, i, o');
  }

  // ---------------------------------------------------------------------
  // Whole runs under two offsets
  // ---------------------------------------------------------------------

  /** No frame reported to the instance that is up after `n` inputs tells the offsets apart. */
  predicate InstanceCannotTell(inputs: seq<Input>, n: nat, o: int, o': int)
    requires n <= |inputs|
  {
    if n == 0 then true
    else
      match inputs[n - 1]
      case Frame(_, _, _, _) =>
        && InstanceCannotTell(inputs, n - 1, o, o')
        && CannotTell(WindowLag(inputs, n - 1), LagOf(inputs[n - 1]).lag, o, o')
      case Other(call) => call.PrepareReopen? || InstanceCannotTell(inputs, n - 1, o, o')
  }

  lemma {:induction false} ToldStep(inputs: seq<Input>, n: nat, o: int, o': int)
    requires n < |inputs| && AllUncut(inputs, o, n + 1) && AllUncut(inputs, o', n + 1)
    requires Told(CallsOf(inputs, o), n) == Told(CallsOf(inputs, o'), n) <==> InstanceCannotTell(inputs, n, o, o')
    requires |Told(CallsOf(inputs, o), n)| == |Told(CallsOf(inputs, o'), n)|
    ensures Told(CallsOf(inputs, o), n + 1) == Told(CallsOf(inputs, o'), n + 1)
       <==> InstanceCannotTell(inputs, n + 1, o, o')
    ensures |Told(CallsOf(inputs, o), n + 1)| == |Told(CallsOf(inputs, o'), n + 1)|
  {
    var calls, calls' := CallsOf(inputs, o), CallsOf(inputs, o');
    if inputs[n].Frame? {
      SameExcessIff(inputs, n, o, o');
      var x := Feedback(inputs[n].now, ExcessAt(calls, n), inputs[n].bytes);
      var x' := Feedback(inputs[n].now, ExcessAt(calls', n), inputs[n].bytes);
      assert Told(calls, n + 1) == Told(calls, n) + [x] && Told(calls', n + 1) == Told(calls', n) + [x'];
      SameAppend(Told(calls, n), x, Told(calls', n), x');
    } else {
      assert UncutInput(inputs[n], o);
    }
  }

  lemma {:induction false} SameAppend(a: seq<Feedback>, x: Feedback, b: seq<Feedback>, y: Feedback)
    requires |a| == |b|
    ensures a + [x] == b + [y] <==> a == b && x == y
  {
    if a + [x] == b + [y] {
      assert a == (a + [x])[..|a|] && b == (b + [y])[..|b|];
      assert (a + [x])[|a|] == x && (b + [y])[|b|] == y;
    }
  }

  /** What the instance that is up was told, which is all that its decisions depend on, is the same under two offsets
      if and only if none of its frames tells them apart. */
  lemma {:induction false} ToldAlikeIff(inputs: seq<Input>, n: nat, o: int, o': int)
    requires n <= |inputs| && AllUncut(inputs, o, n) && AllUncut(inputs, o', n)
    ensures Told(CallsOf(inputs, o), n) == Told(CallsOf(inputs, o'), n) <==> InstanceCannotTell(inputs, n, o, o')
    ensures |Told(CallsOf(inputs, o), n)| == |Told(CallsOf(inputs, o'), n)|
  {
    for i := 0 to n
      invariant Told(CallsOf(inputs, o), i) == Told(CallsOf(inputs, o'), i) <==> InstanceCannotTell(inputs, i, o, o')
      invariant |Told(CallsOf(inputs, o), i)| == |Told(CallsOf(inputs, o'), i)|
    {
      ToldStep(inputs, i, o, o');
    }
  }

  ghost predicate NoFrameTells(inputs: seq<Input>, n: nat, o: int, o': int)
    requires n <= |inputs|
  {
    forall i {:trigger SameExcessAt(CallsOf(inputs, o), CallsOf(inputs, o'), i)} :: 0 <= i < n && inputs[i].Frame? ==>
      CannotTell(WindowLag(inputs, i), LagOf(inputs[i]).lag, o, o')
  }

  lemma {:induction false} OffsetsChangeDelaysOnly(inputs: seq<Input>, o: int, o': int)
    ensures SameButDelays(CallsOf(inputs, o), CallsOf(inputs, o'))
  {
    var calls, calls' := CallsOf(inputs, o), CallsOf(inputs, o');
    forall i | 0 <= i < |inputs|
      ensures AlikeCalls(calls, calls', i)
    {
      assert calls[i] == CallOf(inputs[i], o) && calls'[i] == CallOf(inputs[i], o');
    }
  }

  /** Every excess of the run is the same if and only if no frame tells the offsets apart. */
  lemma {:induction false} SameExcessesIff(inputs: seq<Input>, n: nat, o: int, o': int)
    requires n <= |inputs| && AllUncut(inputs, o, n) && AllUncut(inputs, o', n)
    ensures SameExcesses(CallsOf(inputs, o), CallsOf(inputs, o'), n) <==> NoFrameTells(inputs, n, o, o')
  {
    var calls, calls' := CallsOf(inputs, o), CallsOf(inputs, o');
    forall i | 0 <= i < n
      ensures SameExcessAt(calls, calls', i)
         <==> (inputs[i].Frame? ==> CannotTell(WindowLag(inputs, i), LagOf(inputs[i]).lag, o, o'))
    {
      assert UncutInput(inputs[i], o);
      if inputs[i].Frame? {
        SameExcessIff(inputs, i, o, o');
      }
    }
  }

  /** The tracker of the session under `o` does not tell apart the excess delays of frame `i` under the two offsets. */
  ghost predicate IndifferentFrame(g: nat, inputs: seq<Input>, o: int, o': int, i: nat)
    requires i < |inputs|
  {
    inputs[i].Frame? ==>
      Indifferent(StateAfter(Fresh(g), CallsOf(inputs, o), i).tracker,
                  ShownExcess(inputs, i, o), ShownExcess(inputs, i, o'), inputs[i].bytes)
  }

  lemma {:induction false} IndifferentFrameIff(g: nat, inputs: seq<Input>, o: int, o': int, i: nat)
    requires i < |inputs| && AllUncut(inputs, o, i + 1) && AllUncut(inputs, o', i + 1)
    ensures IndifferentAt(g, CallsOf(inputs, o), CallsOf(inputs, o'), i) <==> IndifferentFrame(g, inputs, o, o', i)
  {
    assert UncutInput(inputs[i], o);
    if inputs[i].Frame? {
      ExcessShown(inputs, i, o);
      ExcessShown(inputs, i, o');
    }
  }

  ghost predicate AllFramesIndifferent(g: nat, inputs: seq<Input>, o: int, o': int, n: nat)
    requires n <= |inputs|
  {
    forall i {:trigger IndifferentFrame(g, inputs, o, o', i)} :: 0 <= i < n ==> IndifferentFrame(g, inputs, o, o', i)
  }

  /** Two sessions that differ only in their TimeSync offset, clamped or not, make the same decisions and pass through
      the same states, but for the baseline, if and only if no frame's excess delay falls on different sides of a
      threshold that its tracker asks about. */
  lemma {:induction false} OffsetsAgreeIff(g: nat, inputs: seq<Input>, o: int, o': int, n: nat)
    requires n <= |inputs| && AllUncut(inputs, o, n) && AllUncut(inputs, o', n)
    requires FeedbackInOrder(CallsOf(inputs, o), n)
    ensures AllAgree(g, CallsOf(inputs, o), CallsOf(inputs, o'), n) <==> AllFramesIndifferent(g, inputs, o, o', n)
  {
    var calls, calls' := CallsOf(inputs, o), CallsOf(inputs, o');
    OffsetsChangeDelaysOnly(inputs, o, o');
    RunsAgreeIff(g, calls, calls', n);
    forall i | 0 <= i < n
      ensures IndifferentAt(g, calls, calls', i) <==> IndifferentFrame(g, inputs, o, o', i)
    {
      IndifferentFrameIff(g, inputs, o, o', i);
    }
  }

  /** In particular when no frame tells the offsets apart at all. */
  lemma {:induction false} ClampedOffsetsDecideAlike(g: nat, inputs: seq<Input>, o: int, o': int, n: nat)
    requires n <= |inputs| && AllUncut(inputs, o, n) && AllUncut(inputs, o', n)
    requires FeedbackInOrder(CallsOf(inputs, o), n) && NoFrameTells(inputs, n, o, o')
    ensures AllAgree(g, CallsOf(inputs, o), CallsOf(inputs, o'), n)
  {
    OffsetsChangeDelaysOnly(inputs, o, o');
    SameExcessesIff(inputs, n, o, o');
    SameExcessesSameRun(g, CallsOf(inputs, o), CallsOf(inputs, o'), n);
  }
}
