// Clock synchronisation (src/timesync.rs) and the queue delay a client reports
// from it (build_transport_feedback in src/feedback_session.rs).
module TimeSync {
  import opened Common

  const TWO_63: int := 0x8000_0000_0000_0000
  const TWO_64: int := 0x1_0000_0000_0000_0000

  /** `as i64` on a u64, and two's-complement wrap-around of an i64 sum or difference. */
  function WrapI64(x: int): int {
    if -TWO_63 <= x < TWO_63 then x else (x + TWO_63) % TWO_64 - TWO_63
  }

  /** Rust's `/ 2` on i64: toward zero. */
  function HalfTowardZero(x: int): int {
    if x >= 0 then x / 2 else -((-x) / 2)
  }

  datatype Round = Round(offsetUs: int, rttUs: nat)

  function Compute(t1: U64, t2: U64, t3: U64, t4: U64): Round {
    var offset := HalfTowardZero(WrapI64(Minus(t2, t1) + Minus(t3, t4)));
    var rtt := WrapI64(Minus(t4, t1) - Minus(t3, t2));
    Round(offset, if rtt < 0 then 0 else rtt)
  }

  /** `a as i64 - b as i64`. */
  function Minus(a: U64, b: U64): int {
    WrapI64(WrapI64(a) - WrapI64(b))
  }

  predicate FitsI64(x: int) {
    -TWO_63 <= x < TWO_63
  }

  /** A difference of u64 clock readings comes out right as long as it fits, wherever the readings lie. */
  lemma {:induction false} WrapDifference(a: U64, b: U64)
    requires FitsI64(a - b)
    ensures Minus(a, b) == a - b
  {
    WrapHigh(a);
    WrapHigh(b);
    WrapTurn(a - b);
  }

  lemma {:induction false} WrapHigh(a: U64)
    ensures WrapI64(a) == if a < TWO_63 then a else a - TWO_64
  {
  }

  lemma {:induction false} WrapTurn(x: int)
    requires FitsI64(x)
    ensures WrapI64(x) == x && WrapI64(x + TWO_64) == x && WrapI64(x - TWO_64) == x
  {
  }

  /** The four timestamps of one exchange: the responder's clock runs `theta` ahead, the paths take `d1` and `d2`,
      the responder holds the message for `hold`. Readings may lie anywhere, but their differences fit an i64. */
  ghost predicate Exchange(t1: U64, t2: U64, t3: U64, t4: U64, theta: int, d1: nat, d2: nat, hold: nat) {
    && t2 == t1 + theta + d1 && t3 == t2 + hold && t4 == t3 - theta + d2
    && FitsI64(theta + d1) && FitsI64(theta - d2) && FitsI64(2 * theta + d1 - d2) && FitsI64(d1 + d2 + hold)
  }

  function Distance(a: int, b: int): nat {
    if a < b then b - a else a - b
  }

  /** The round-trip time is exact, and the offset is off by no more than half of it, rounded up. */
  lemma {:induction false} ErrorBound(
    t1: U64, t2: U64, t3: U64, t4: U64, theta: int, d1: nat, d2: nat, hold: nat)
    requires Exchange(t1, t2, t3, t4, theta, d1, d2, hold)
    ensures Compute(t1, t2, t3, t4).rttUs == d1 + d2
    ensures Distance(Compute(t1, t2, t3, t4).offsetUs, theta) <= (d1 + d2 + 1) / 2
  {
    ComputeIs(t1, t2, t3, t4, theta, d1, d2, hold);
  }

  lemma {:induction false} ComputeIs(
    t1: U64, t2: U64, t3: U64, t4: U64, theta: int, d1: nat, d2: nat, hold: nat)
    requires Exchange(t1, t2, t3, t4, theta, d1, d2, hold)
    ensures Compute(t1, t2, t3, t4) == Round(HalfTowardZero(2 * theta + d1 - d2), d1 + d2)
  {
    OffsetIs(t1, t2, t3, t4, theta + d1, theta - d2);
    RttIs(t1, t2, t3, t4, d1 + d2, hold);
  }

  lemma {:induction false} OffsetIs(t1: U64, t2: U64, t3: U64, t4: U64, there: int, back: int)
    requires t2 - t1 == there && t3 - t4 == back && FitsI64(there) && FitsI64(back) && FitsI64(there + back)
    ensures WrapI64(Minus(t2, t1) + Minus(t3, t4)) == there + back
  {
    WrapDifference(t2, t1);
    WrapDifference(t3, t4);
  }

  lemma {:induction false} RttIs(t1: U64, t2: U64, t3: U64, t4: U64, rtt: nat, hold: nat)
    requires t3 - t2 == hold && t4 - t1 == rtt + hold && FitsI64(rtt + hold)
    ensures WrapI64(Minus(t4, t1) - Minus(t3, t2)) == rtt
  {
    WrapDifference(t4, t1);
    WrapDifference(t3, t2);
  }

  /** Where the responder claims to have held the message longer than the whole exchange took, the round-trip time is
      zero, not negative. */
  lemma {:induction false} NoNegativeRtt(t1: U64, t2: U64, t3: U64, t4: U64)
    requires FitsI64(t4 - t1) && FitsI64(t3 - t2) && FitsI64((t4 - t1) - (t3 - t2))
    ensures t4 - t1 < t3 - t2 ==> Compute(t1, t2, t3, t4).rttUs == 0
    ensures t4 - t1 >= t3 - t2 ==> Compute(t1, t2, t3, t4).rttUs == (t4 - t1) - (t3 - t2)
  {
    WrapDifference(t4, t1);
    WrapDifference(t3, t2);
  }

  /** For every round-trip time some exchange really is off by that much: the bound cannot be improved. */
  lemma {:induction false} BoundIsTight(rtt: nat) returns (t1: U64, t2: U64, t3: U64, t4: U64, theta: int)
    requires rtt < TWO_63
    ensures Exchange(t1, t2, t3, t4, theta, rtt, 0, 0)
    ensures Distance(Compute(t1, t2, t3, t4).offsetUs, theta) == (rtt + 1) / 2
  {
    theta := 0 - rtt;
    t1, t2, t3, t4 := rtt, rtt, rtt, rtt + rtt;
    ComputeIs(t1, t2, t3, t4, theta, rtt, 0, 0);
  }

  // ---------------------------------------------------------------------
  // The round to trust
  // ---------------------------------------------------------------------

  function Better(best: Option<Round>, r: Round): Option<Round> {
    if best.Some? && best.value.rttUs < r.rttUs then best else Some(r)
  }

  /** The left fold over the first `n` rounds. */
  function BestOfFirst(rounds: seq<Round>, n: nat): Option<Round>
    requires n <= |rounds|
  {
    if n == 0 then None else Better(BestOfFirst(rounds, n - 1), rounds[n - 1])
  }

  function BestOf(rounds: seq<Round>): Option<Round> {
    BestOfFirst(rounds, |rounds|)
  }

  lemma {:induction false} BestOfNone(rounds: seq<Round>)
    ensures BestOf(rounds) == None <==> rounds == []
  {
    if rounds != [] {
      var k := BestOfFirstIs(rounds, |rounds|);
    }
  }

  lemma {:induction false} BestOfFirstIs(rounds: seq<Round>, n: nat) returns (k: nat)
    requires 0 < n <= |rounds|
    ensures k < n && BestOfFirst(rounds, n) == Some(rounds[k])
    ensures forall j :: 0 <= j < n ==> rounds[k].rttUs <= rounds[j].rttUs
    ensures forall j :: k < j < n ==> rounds[k].rttUs < rounds[j].rttUs
  {
    if n == 1 {
      k := 0;
    } else {
      k := BestOfFirstIs(rounds, n - 1);
      if rounds[k].rttUs >= rounds[n - 1].rttUs {
        k := n - 1;
      }
    }
  }

  /** Of any number of rounds against one clock, the chosen one is the latest with the least round-trip time, and
      no round comes with a better guarantee on its offset. */
  lemma {:induction false} BestOfGuarantee(
    rounds: seq<Round>, stamps: seq<(U64, U64, U64, U64)>, paths: seq<(nat, nat, nat)>, theta: int)
    returns (k: nat)
    requires |rounds| == |stamps| == |paths| > 0
    requires forall i :: 0 <= i < |rounds| ==>
               && var (t1, t2, t3, t4) := stamps[i];
                  var (d1, d2, hold) := paths[i];
                  Exchange(t1, t2, t3, t4, theta, d1, d2, hold) && rounds[i] == Compute(t1, t2, t3, t4)
    ensures k < |rounds| && BestOf(rounds) == Some(rounds[k])
    ensures forall j :: k < j < |rounds| ==> rounds[k].rttUs < rounds[j].rttUs
    ensures forall j :: 0 <= j < |rounds| ==>
              Distance(rounds[k].offsetUs, theta) <= (paths[j].0 + paths[j].1 + 1) / 2
  {
    k := BestOfFirstIs(rounds, |rounds|);
    RoundError(rounds, stamps, paths, theta, k);
    forall j | 0 <= j < |rounds|
      ensures Distance(rounds[k].offsetUs, theta) <= (paths[j].0 + paths[j].1 + 1) / 2
    {
      RoundError(rounds, stamps, paths, theta, j);
    }
  }

  lemma {:induction false} RoundError(
    rounds: seq<Round>, stamps: seq<(U64, U64, U64, U64)>, paths: seq<(nat, nat, nat)>, theta: int, i: nat)
    requires i < |rounds| == |stamps| == |paths|
    requires var (t1, t2, t3, t4) := stamps[i];
             var (d1, d2, hold) := paths[i];
             Exchange(t1, t2, t3, t4, theta, d1, d2, hold) && rounds[i] == Compute(t1, t2, t3, t4)
    ensures rounds[i].rttUs == paths[i].0 + paths[i].1
    ensures Distance(rounds[i].offsetUs, theta) <= (rounds[i].rttUs + 1) / 2
  {
    var (t1, t2, t3, t4) := stamps[i];
    var (d1, d2, hold) := paths[i];
    ErrorBound(t1, t2, t3, t4, theta, d1, d2, hold);
  }

  // ---------------------------------------------------------------------
  // The reported queue delay
  // ---------------------------------------------------------------------

  function ToResponderClock(localTs: U64, offsetUs: int): nat {
    var t := WrapI64(WrapI64(localTs) + offsetUs);
    if t < 0 then 0 else t
  }

  /** `client_queue_delay_us`: how long after capture, on the server's clock, the frame was displayed; cut to u32. */
  function QueueDelay(displayTs: U64, captureTs: U64, offsetUs: int): U32 {
    SaturatingSub(ToResponderClock(displayTs, offsetUs), captureTs) % (U32_MAX + 1)
  }

  /** Neither the clamp at zero nor the cast to u32 bites. */
  predicate Unclamped(displayTs: U64, captureTs: U64, offsetUs: int) {
    && displayTs < TWO_63 && displayTs + offsetUs < TWO_63
    && captureTs <= displayTs + offsetUs <= captureTs + U32_MAX
  }

  lemma {:induction false} UnclampedDelay(displayTs: U64, captureTs: U64, offsetUs: int)
    requires Unclamped(displayTs, captureTs, offsetUs)
    ensures QueueDelay(displayTs, captureTs, offsetUs) == displayTs + offsetUs - captureTs
  {
    assert ToResponderClock(displayTs, offsetUs) == displayTs + offsetUs;
  }

  /** Every reported delay, wherever the 64-bit clock does not wrap: zero if the frame was displayed before it was
      captured, and otherwise the delay less whole multiples of 2^32 microseconds. */
  lemma {:induction false} DelayKeepsLow32(displayTs: U64, captureTs: U64, offsetUs: int) returns (turns: nat)
    requires displayTs < TWO_63 && -TWO_63 <= displayTs + offsetUs < TWO_63
    ensures displayTs + offsetUs <= captureTs ==> QueueDelay(displayTs, captureTs, offsetUs) == 0
    ensures displayTs + offsetUs >= captureTs ==>
              QueueDelay(displayTs, captureTs, offsetUs) == displayTs + offsetUs - captureTs - turns * 0x1_0000_0000
  {
    assert WrapI64(WrapI64(displayTs) + offsetUs) == displayTs + offsetUs;
    var late: nat := SaturatingSub(ToResponderClock(displayTs, offsetUs), captureTs);
    turns := late / 0x1_0000_0000;
    assert late % 0x1_0000_0000 == late - turns * 0x1_0000_0000;
  }
}
