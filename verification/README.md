# SARDP decision logic, verified

SARDP is a remote-desktop protocol over QUIC. Its OS-independent crate keeps the decision logic free of sockets and
clocks: time is a parameter, buffers are byte vectors. This project models that logic in Dafny and proves what it is
relied on for.

| area | files | what is proved |
|---|---|---|
| Annex-B video | `AnnexB`, `AnnexBJoin`, `AnnexBRoundTrip`, `ParameterSets` | The scanning loops compute the NAL units of the byte stream format (Annex B, section B.1 of ITU-T H.264). Concatenation: exactly what a seam does to the units. Split undoes join, exactly when. Every IDR after the first parameter-set pair leaves self-contained, exactly when. |
| Backpressure | `Backpressure`, `VideoStates`, `VideoChannels`, `VideoChannelRuns`, `ChannelDecisions`, `TimeSync`, `OffsetInvariance`, `ClampedDelays` | The monotonic deque is a sliding-window minimum and the automaton a predicate over history; together, every decision of a channel is a function of the reported delays alone. The coupled machines stay in lockstep. Reopens are spaced. Two runs that differ by a constant delay, or by the TimeSync offset, decide alike; where delays are clamped, exactly which offsets the server cannot tell apart. |
| Framing | `Varint`, `Framing`, `StreamReader`, `VideoFrames` | Round trips, prefixes and extensions for varints (section 16 of RFC 9000), envelopes and prologues. Replies do not depend on how bytes arrive. Dropping the frame future anywhere loses and repeats nothing. |
| File transfer | `Reassembly`, `ChunkOrder`, `FileChunks`, `FileTransfer`, `FileDelivery`, `FileHandles` | Reassembly is complete exactly when no byte is missing. Order does not matter. What is sent, as bytes on the stream, is received, exactly when. The handle reaper is invisible to every valid handle, and a handle is accepted exactly if it was issued. |
| Sessions | `ConnectionStates`, `Sessions`, `ReconnectionRuns` | Over all interleavings of handshakes, losses, attempts and timers: a token matches once, an episode ends only by its own token or timer, the owner gets the session back exactly when neither came first, generations only grow. |
| Timecode frames | `Timecodes` | The pixel round trip, and exactly which distortions it survives. |

Code that updates state in place is modelled by classes and loops. Each method is proved equal to a function of its
inputs or of the old state, and the properties are proved about those functions, over all inputs and all runs. The
streams of async code become byte sequences delivered in arbitrary pieces (`StreamReader.RecvStream`); futures that may be
dropped return `None` at any point where they wait; a mutex-guarded method is one atomic step.

## Where the code does less than its comments say

- `complete_idr` calls an access unit with an SPS complete. One with an SPS but no PPS is returned as it is and cannot be
  decoded on its own: `ParameterSets.SpsWithoutPpsIsNotCompleted`. With usable sets cached, or nothing cached, an IDR leaves
  self-contained if and only if it was self-contained already, or something is cached and it came without an SPS:
  `ParameterSets.CompletionIsExact`, and for every IDR of every run `ParameterSets.EveryIdrIsExact`. `set_fallback` checks
  nothing; `ParameterSets.AnyFallbackIsExact` says what any bytes without an IDR slice do in front of an access unit.
- `send_file_data` accepts any chunk size and guards the split against 0, but the offset uses the raw value and a length is
  cut to 32 bits: `FileChunks.RoundTripInAnyOrder` gives the exact condition for the chunks themselves. On the stream each
  message must also fit the 1 MiB envelope limit of `file` streams, which the sender does not check:
  `FileDelivery.SentIsReceived` gives the exact condition end to end. With an encoding that contains the chunk's bytes, a file
  of 1 MiB or more never arrives in chunks of 1 MiB or more, and the cut to 32 bits cannot be reached:
  `FileDelivery.FittingChunksAreShort`.
- Annex-B reading undoes writing if and only if no unit holds a start code and no unit that ends in a zero byte is followed
  by a three-byte start code: `AnnexBRoundTrip.RoundTripExactly`.
- DR-029 asks that decisions not depend on the TimeSync offset. Delays are clamped at zero, and an offset far enough off does
  change decisions: `OffsetInvariance.ClampHidesCongestion`. Two sessions that differ only in their offset get the same
  replies and pass through the same states, but for the baseline, if and only if no frame's excess delay falls on different
  sides of a threshold that its tracker asks about: `ClampedDelays.OffsetsAgreeIff`, from the same statement for any two runs
  that differ in their delays, `ChannelDecisions.RunsAgreeIff`. The excess itself is the same under two offsets if and only if
  the window's least delay is unclamped under the smaller, or is the frame's own, or the frame's own delay is clamped under
  the larger too: `ClampedDelays.SameExcessIff`. Clamping only ever lowers an excess: `ClampedDelays.ClampingLowers`.

## Model

| member | source | states |
|---|---|---|
| AnnexB.FindStartCode | src/h264.rs:36-52 | finds the first start code at or after an index, three or four bytes long, and says where the next unit begins |
| AnnexB.NalSpans | src/h264.rs:57-79 | terminates and yields exactly the spans that the start codes of the stream define |
| AnnexB.SplitAnnexB | src/h264.rs:82-93 | yields exactly the NAL units of the stream |
| AnnexB.FirstCodeFacts | src/h264.rs:36-52 | the first start code is one, and there is none before it |
| AnnexB.SpansCarveUnits | src/h264.rs:57-93 | spans are in bounds, in order and disjoint, each begins with its whole start code, four bytes exactly if a further zero comes first, holds no other, and they carve out exactly the units |
| AnnexB.CarvedAt | src/h264.rs:57-79 | any two spans of a carving are ordered and disjoint, and each holds its unit |
| AnnexB.SpansAndUnits | src/h264.rs:82-93 | there are as many spans as units, and each span delimits its unit |
| AnnexB.NalTypeIsLowBits | src/h264.rs:82-93 | the type is the low five bits of the first byte, whatever the three above them |
| AnnexBJoin.UnitsOfJoin | src/h264.rs:36-93 | the units of two joined streams, the second opening with a start code, are the units of both, except that a three-byte code takes one trailing zero from the unit before it |
| AnnexBJoin.TypesOfCodedJoin | src/h264.rs:36-98 | joined in front of a start code, the unit types are the two lists appended |
| AnnexBJoin.TypesOfJoin | src/h264.rs:36-98 | whatever follows a stream whose last unit begins with a non-zero byte, all unit types of both parts survive in order; nothing comes between them if a start code follows, else at most one unit |
| AnnexBJoin.LeadingBytesIgnored | src/h264.rs:57-79 | bytes before the first start code belong to no unit |
| AnnexBRoundTrip.SplitUndoesJoin | src/h264.rs:57-93 | clean units joined with any safe mix of three- and four-byte start codes split back into exactly those units |
| AnnexBRoundTrip.UnitsFromClean | src/h264.rs:57-93 | no unit of any stream contains a start code |
| AnnexBRoundTrip.RoundTripExactly | src/h264.rs:57-93 | joining then splitting is the identity if and only if the units are clean and the seams safe |
| ParameterSets.ExtractParameterSets | src/h264.rs:126-142 | returns the SPS and PPS units with their start codes in stream order, or nothing if either is missing |
| ParameterSets.ExtractedUnits | src/h264.rs:126-142 | the extracted bytes split into exactly the SPS and PPS units of the input, up to one trailing zero each |
| ParameterSets.IsSelfContainedIdr | src/h264.rs:147-160 | true exactly if an SPS and a PPS both precede the first IDR slice |
| ParameterSets.ScanIsSelfContained | src/h264.rs:147-160 | the two-flag scan decides that declarative property |
| ParameterSets.ExtractedUsable | src/h264.rs:126-142 | whatever is extracted can be prepended to any bytes without losing a parameter set at the seam |
| ParameterSets.SetsThenUnit | src/h264.rs:126-221 | extracted sets in front of an access unit that begins with a start code: the types are the two lists appended |
| ParameterSets.PrependedIsSelfContained | src/h264.rs:211-221 | usable sets in front of any bytes with an IDR slice make a self-contained access unit |
| ParameterSets.CompletionIsExact | src/h264.rs:207-221 | with usable sets cached or none, a completed IDR is self-contained if and only if it was before, or something is cached and it came without an SPS; the original is an exact suffix; completing is idempotent |
| ParameterSets.AnyFallbackIsExact | src/h264.rs:202-221 | out-of-band bytes of any kind without an IDR slice: in front of an access unit that begins with a start code they make it self-contained if and only if each parameter set is in them or ahead of the first IDR slice |
| ParameterSets.EveryIdrIsExact | src/h264.rs:193-221 | in any run, filled or not, every IDR leaves self-contained exactly in the cases of CompletionIsExact |
| ParameterSets.SpsWithoutPpsIsNotCompleted | src/h264.rs:207-221 | an access unit with an SPS and no PPS is left undecodable whatever is cached |
| ParameterSets.ParameterSetCache.Observe | src/h264.rs:193-198 | fills an empty cache from an access unit with both sets, keeps a filled one, and says whether it is filled |
| ParameterSets.ParameterSetCache.SetFallback | src/h264.rs:202-206 | the new cache: unchanged if filled or given nothing, else exactly the bytes given; `CacheIsFirstFilling` says what that makes of a run |
| ParameterSets.ParameterSetCache.CompleteIdr | src/h264.rs:211-221 | prepends the cached sets exactly if there are some and the access unit has no SPS |
| ParameterSets.CacheStaysUsable | src/h264.rs:193-206 | in every run what is cached stays usable |
| ParameterSets.CacheStaysFilled | src/h264.rs:193-206 | once filled, the cache never changes |
| ParameterSets.CacheIsFirstFilling | src/h264.rs:193-206 | after any run something is cached exactly if some access unit with both sets was observed or some fallback was not empty, and the first such call alone fixes what: its extracted sets, or the bytes given |
| ParameterSets.FallbackIsPrepended | src/h264.rs:202-221 | a first non-empty fallback is put as it is in front of every later IDR without an SPS, which then leaves self-contained if the fallback is usable |
| ParameterSets.EveryLaterIdrIsSelfContained | src/h264.rs:193-221 | in any run of cache calls, every IDR after the first observed pair leaves self-contained, exactly when it came without an SPS or already was; only out-of-band sets given before that pair matter |
| Backpressure.BaselineTracker.Record | src/backpressure.rs:60-70 | the front of the deque is the minimum of all samples recorded in the window; the deque is never empty; all removals ever are bounded by all insertions |
| Backpressure.BaselineTracker.EvictExpired | src/backpressure.rs:72-82 | removes exactly the leading samples older than the window |
| Backpressure.BaselineTracker.BaselineUs | src/backpressure.rs:85-88 | the least of all recorded samples in the window, or nothing before the first |
| Backpressure.RecordTracks | src/backpressure.rs:60-82 | one record carries the strictly increasing, window-covering deque from one window to the next |
| Backpressure.FrontIsWindowMin | src/backpressure.rs:85-88 | the front of such a deque is the window minimum |
| Backpressure.CongestionTracker.EvaluateSample | src/backpressure.rs:140-188 | the new fields and the decision are those of the transition function |
| Backpressure.CongestedStep | src/backpressure.rs:153-188 | while congested the decision is the history predicate, and the fields stay a summary of the history |
| Backpressure.FieldsFollowHistory | src/backpressure.rs:140-188 | in any run the fields are determined by the samples since congestion was entered |
| Backpressure.DecisionsFollowHistory | src/backpressure.rs:140-188 | every decision of a run is the one its history calls for: congested above 100 ms; then reset on more than 4 MiB or three samples above 300 ms in a row, else recovery after half a second below 100 ms; outside congestion bytes do nothing |
| VideoStates.VideoInstanceSm.PrologueSent | src/video_sm.rs:90-100 | the transition, or refusal without change |
| VideoStates.VideoInstanceSm.GenerationSent | src/video_sm.rs:102-112 | only once while configuring, and refusal changes nothing |
| VideoStates.VideoInstanceSm.EncoderConfigSent | src/video_sm.rs:114-124 | only after the generation, and refusal changes nothing |
| VideoStates.VideoInstanceSm.FirstIdrSent | src/video_sm.rs:126-137 | Streaming only once generation and configuration were sent |
| VideoStates.VideoInstanceSm.OnCongested | src/video_sm.rs:139-149 | Streaming to Congested only |
| VideoStates.VideoInstanceSm.OnRecovered | src/video_sm.rs:151-161 | Congested to Streaming only |
| VideoStates.VideoInstanceSm.OnReset | src/video_sm.rs:165-175 | Congested to Closed(Reset) only |
| VideoStates.VideoInstanceSm.OnClientRequestedReset | src/video_sm.rs:184-192 | from Streaming or Congested to Closed(Reset), refused elsewhere without change |
| VideoStates.InstanceFollowsOrder | src/video_sm.rs:90-192 | in every run an operation is accepted exactly if it may follow the last accepted one: prologue, generation, configuration, first IDR frame, then congestion and recovery in turn, a reset while congested, a requested one at any time after the first IDR frame, and nothing after either; the last accepted operation fixes the state |
| VideoStates.ChannelSm.OnInstanceStreaming | src/channel_sm.rs:91-95 | always Live |
| VideoStates.ChannelSm.OnReset | src/channel_sm.rs:108-110 | always Recovering |
| VideoStates.ChannelSm.Deactivate | src/channel_sm.rs:155-159 | Live to Paused, else unchanged |
| VideoStates.ChannelSm.Activate | src/channel_sm.rs:163-167 | Paused to Live, else unchanged |
| VideoChannels.VideoChannel.MarkInstanceStreaming | src/video_channel.rs:125-132 | runs the setup sequence, stops at the first refusal, and goes Live only after it |
| VideoChannels.VideoChannel.OnFeedback | src/video_channel.rs:143-169 | records the sample, evaluates its excess over the window minimum and drives instance, channel and reopen time |
| VideoChannels.VideoChannel.OnKeyframeRequest | src/video_channel.rs:186-210 | rate limit first, then the instance; a request not honoured changes no part of the state; `KeyframeAnswered` says which are |
| VideoChannels.VideoChannel.PrepareReopen | src/video_channel.rs:216-221 | next generation, fresh tracker and instance, the baseline kept |
| VideoChannels.VideoChannel.Deactivate | src/video_channel.rs:108-110 | changes the channel machine only |
| VideoChannels.VideoChannel.Activate | src/video_channel.rs:114-116 | changes the channel machine only |
| VideoChannelRuns.LockstepKept | src/video_channel.rs:105-221 | every permitted call keeps tracker, instance and channel in agreement and is not refused |
| VideoChannelRuns.AlwaysInLockstep | src/video_channel.rs:105-221 | in every state a protocol-abiding caller can reach the machines agree, no call was refused, and the generation is its start plus the reopens |
| VideoChannelRuns.LastReopenIsLatest | src/video_channel.rs:161-208 | the remembered reopen time is no earlier than any reopen of the run |
| VideoChannelRuns.ReopensAreSpaced | src/video_channel.rs:179-209 | between any earlier reopen, of either kind, and an honoured request lies at least a second |
| VideoChannelRuns.KeyframeAnswered | src/video_channel.rs:186-210 | in every protocol-abiding run: Reopen if and only if the instance runs, congested or not, and no reopen of either kind is less than 1 000 000 us old; RateLimited until a second after the latest reopen if one is; NotStreaming in every other case |
| VideoChannelRuns.ChannelFollowsCalls | src/channel_sm.rs:91-167 | in every protocol-abiding run the channel is Initializing, Live, Recovering or Paused as the phase, whether there was a reopen, and the last focus change call for |
| VideoChannelRuns.ShiftStep | src/video_channel.rs:143-169 | one call answers a shifted delay from a shifted baseline with the same reply and otherwise the same state |
| VideoChannelRuns.DelayShiftInvariance | src/video_channel.rs:143-169 | DR-029: one constant added to every delay of a run changes no decision and no state but the baseline |
| ChannelDecisions.LeastSinceIs | src/backpressure.rs:85-88 | the window minimum is the recursive minimum over the recorded delays |
| ChannelDecisions.DeltaIsExcess | src/video_channel.rs:149-151 | the delta taken from the deque is the excess over the least delay of the last ten seconds |
| ChannelDecisions.AlwaysRemembers | src/video_channel.rs:143-221 | through every run, across reopens, the deque stands for all delays so far and the tracker for what the current instance was told |
| ChannelDecisions.ChannelFollowsHistory | src/video_channel.rs:143-169 | every feedback of every protocol-abiding run is answered as the reported delays and byte counts alone call for |
| Backpressure.IndifferentIff | src/backpressure.rs:140-188 | two excess delays lead to the same fields, and the same decision with them, if and only if the guards do not tell them apart |
| ChannelDecisions.RunsAgreeIff | src/video_channel.rs:143-221 | any two runs that differ in the delays reported get the same replies and pass through the same states, but for the baseline, if and only if no feedback's excess delays are told apart |
| ChannelDecisions.SameExcessesSameRun | src/video_channel.rs:143-221 | in particular when every excess delay is the same |
| TimeSync.ErrorBound | src/timesync.rs:206-218 | for clock readings anywhere in u64 whose differences fit, the round-trip time is exact and the offset is off by at most half of it rounded up, despite the casts wrapping and division truncating |
| TimeSync.NoNegativeRtt | src/timesync.rs:206-218 | the round-trip time is the whole exchange less the time held, and zero where more was held than the exchange took |
| TimeSync.BoundIsTight | src/timesync.rs:206-218 | for every round-trip time some exchange is off by exactly that much |
| TimeSync.BestOfFirstIs | src/timesync.rs:96-104 | the fold picks the latest round of least round-trip time |
| TimeSync.BestOfNone | src/timesync.rs:96-104 | nothing is chosen exactly if there was no round |
| TimeSync.BestOfGuarantee | src/timesync.rs:96-104 | the chosen round's error is within the least guarantee of any round |
| TimeSync.UnclampedDelay | src/feedback_session.rs:213-214 | where neither clamp nor cast bites, the reported delay is display time plus offset minus capture time |
| TimeSync.DelayKeepsLow32 | src/feedback_session.rs:213-214 | wherever the clock does not wrap the delay is zero for a display before the capture, else display time plus offset minus capture time less whole multiples of 2^32 us |
| OffsetInvariance.LargerOffsetShifts | src/timesync.rs:222-224 | a larger TimeSync offset shifts every reported delay by the difference |
| OffsetInvariance.OffsetDoesNotMatter | src/video_channel.rs:143-169 | two sessions that differ only in their offset, unclamped, get the same replies and pass through the same states |
| OffsetInvariance.ClampHidesCongestion | src/feedback_session.rs:213-214 | with clamped delays a congestion can go unseen |
| ClampedDelays.LeastShown | src/feedback_session.rs:213-214 | the clamp commutes with taking the window's least |
| ClampedDelays.LeastLagFacts | src/backpressure.rs:85-88 | the window's least lag is attained and a lower bound |
| ClampedDelays.ExcessShown | src/video_channel.rs:149-151 | the excess the server computes is the clamped own delay less the clamped least delay |
| ClampedDelays.SameExcessIff | src/feedback_session.rs:213-214 | exactly which pairs of offsets give a frame the same excess |
| ClampedDelays.ClampingLowers | src/feedback_session.rs:213-214 | a smaller offset can only lower an excess, and none exceeds the true one |
| ClampedDelays.ToldAlikeIff | src/video_channel.rs:143-169 | what an instance is told is the same under two offsets if and only if none of its frames tells them apart |
| ClampedDelays.SameExcessesIff | src/video_channel.rs:143-169 | the same for all frames of a run, across instances |
| ClampedDelays.OffsetsAgreeIff | src/video_channel.rs:143-169 | two sessions that differ only in their offset, clamped or not, get the same replies and states, but for the baseline, if and only if no frame's excess delay falls on different sides of a threshold its tracker asks about |
| ClampedDelays.ClampedOffsetsDecideAlike | src/video_channel.rs:143-169 | in particular when no frame's excess differs |
| Varint.Decode | src/varint.rs:19-31 | the loop computes the big-endian value of the announced length, or nothing while bytes are missing |
| Varint.Encode | src/varint.rs:40-53 | appends the encoding and leaves what was there |
| Varint.RoundTrip | src/varint.rs:19-53 | decoding undoes encoding for every value up to 2^62-1, whatever follows |
| Varint.PrefixIncomplete | src/varint.rs:19-31 | no strict prefix of an encoding decodes |
| Varint.Stable | src/varint.rs:19-31 | once decoded, more bytes change nothing |
| Varint.ShortestForm | src/varint.rs:40-53 | no other encoding of the value is shorter |
| Varint.DecodesTo | src/varint.rs:19-31 | what any bytes decode to, written out byte by byte for each of the four lengths, shortest form or not |
| Framing.EncodeEnvelope | src/envelope.rs:65-69 | appends length, little-endian type and payload |
| Framing.EnvelopeRoundTrip | src/envelope.rs:65-119 | parsing undoes encoding within the limit and refuses, with the right numbers, exactly what exceeds it |
| Framing.EnvelopePrefixWaits | src/envelope.rs:86-119 | every strict prefix of an encoding waits for more |
| Framing.EnvelopeStable | src/envelope.rs:86-119 | a result or error is the same on every extension of the buffer |
| Framing.EnvelopeWaitingBound | src/envelope.rs:86-119 | a buffer that waits is at most nine bytes longer than the limit |
| Framing.AnyLengthForm | src/envelope.rs:86-119 | a length may come in any form that decodes to it; two type bytes follow, the low one first, then the payload; over the limit it is refused on the length alone |
| Framing.EncodePrologue | src/prologue.rs:44-49 | appends magic, kind, version and context id |
| Framing.KindRoundTrip | src/stream_kind.rs:21-47 | stream kinds and their bytes are inverse to each other |
| Framing.KindCodes | src/stream_kind.rs:36-47 | the eight codes, 1 to 8 |
| Framing.EnvelopeLimits | src/stream_kind.rs:51-61 | the longest envelope of each kind, in bytes |
| Framing.PrologueRoundTrip | src/prologue.rs:44-90 | parsing undoes encoding, whatever follows |
| Framing.PrologueParsesTo | src/prologue.rs:62-90 | any four bytes but "SARD" are refused, so is any code but 1 to 8, and exactly the rest with a complete context id parses, to these fields |
| Framing.ProloguePrefixWaits | src/prologue.rs:62-90 | every strict prefix waits for more |
| Framing.PrologueStable | src/prologue.rs:62-90 | a result or error is the same on every extension of the buffer |
| Framing.PrologueWaitingBound | src/prologue.rs:62-90 | a buffer that waits holds at most thirteen bytes |
| StreamReader.EnvelopeReader.FillMore | src/stream_reader.rs:42-51 | moves one piece of the stream into the buffer, or changes nothing at its end |
| StreamReader.EnvelopeReader.ReadPrologue | src/stream_reader.rs:53-67 | result and leftover depend on the unread bytes only; dropped while waiting, it loses no byte; `PrologueThenEnvelopes` says what is left over |
| StreamReader.EnvelopeReader.ReadEnvelope | src/stream_reader.rs:69-84 | the same for envelopes, with a bound on the buffer |
| StreamReader.Answer | src/stream_reader.rs:34-84 | chunking independence: the replies to any sequence of reads are a function of the bytes; the buffer never exceeds the limit by more than 4105 bytes |
| StreamReader.WrittenIsRead | src/stream_reader.rs:69-106 | a stream of written envelopes is read back in order and nothing after it is touched |
| StreamReader.PrologueThenEnvelopes | src/stream_reader.rs:53-84 | a written prologue is read off an accepted stream entirely, so the envelopes behind it follow in order and nothing after them is touched |
| StreamReader.EndsInside | src/stream_reader.rs:42-84 | a stream that ends or breaks inside a prologue or an envelope is reported as closed early or as a transport error, and nothing is consumed |
| VideoFrames.VideoFrameReader.ReadNextFrame | src/video_session.rs:318-348 | a finished read is the uninterrupted one; only a read that may be dropped is, and it leaves the reader where the next gives the same outcome |
| VideoFrames.PollRepeatedly | src/video_session.rs:300-348 | for any schedule of drops the outcomes returned are those of the uninterrupted run, none missing and none twice, and every poll run to its end brings one |
| VideoFrames.FramesArrive | src/video_session.rs:311-348 | frames sent as header and payload envelopes arrive as sent, in order, for any header decoder |
| VideoFrames.TwoMessages | src/video_session.rs:318-348 | any two messages: refused for another type than 7 or 8, for a header that does not decode or for a length other than announced, and consumed; else the frame |
| VideoFrames.TooLongMessage | src/video_session.rs:318-348 | a message over 8 MiB breaks the read and consumes nothing; a header already read is kept |
| Reassembly.Sweep | src/file_transfer_session.rs:487-494 | over any ordering by offset, the sweep finds a gap exactly if some byte is in no range |
| Reassembly.SortByOffset | src/file_transfer_session.rs:485-486 | sorted by offset, the same ranges |
| Reassembly.CoversIffLengthsAddUp | src/file_transfer_session.rs:434-440 | ranges that are apart and in bounds leave no gap if and only if their lengths add up to the size |
| Reassembly.AcceptKeepsValid | src/file_transfer_session.rs:456-481 | accepted ranges stay in bounds and pairwise apart, empty ones included |
| Reassembly.ClashIsSharing | src/file_transfer_session.rs:469-474 | two ranges clash exactly if they share a byte, or one is empty and lies strictly inside the other |
| Reassembly.RefusalIs | src/file_transfer_session.rs:456-481 | a chunk is out of range exactly if its length is wrong or its end is beyond the file, an overlap exactly if it is neither and clashes with a received range |
| Reassembly.FileReassembly.constructor | src/file_transfer_session.rs:443-449 | nothing received, all bytes zero |
| Reassembly.FileReassembly.ApplyChunk | src/file_transfer_session.rs:456-481 | a refused chunk changes nothing and says why; an accepted one is recorded and written at its offset only |
| Reassembly.FileReassembly.IsComplete | src/file_transfer_session.rs:484-495 | true exactly if every byte was received, equivalently if the lengths add up |
| Reassembly.FileReassembly.VerifyChecksum | src/file_transfer_session.rs:499-503 | the hash of the reassembled bytes is the checksum |
| ChunkOrder.AcceptedIffCompatible | src/file_transfer_session.rs:456-481 | a sequence of chunks is accepted if and only if, as a set, all are well formed and no two clash; then every byte is the one of the chunk that holds it |
| ChunkOrder.OrderDoesNotMatter | src/file_transfer_session.rs:456-495 | acceptance, contents and completeness of a set of chunks are the same in every permutation |
| FileChunks.SplitUnique | src/file_transfer_session.rs:407-414 | there is exactly one way to cut the data into chunks of a size |
| FileChunks.SplitRebuilds | src/file_transfer_session.rs:402-495 | the chunks of a carried size rebuild the data without a gap |
| FileChunks.ZeroSizeClashes | src/file_transfer_session.rs:407-408 | with chunk size 0 and two bytes or more, the chunks clash |
| FileChunks.TooLongIsMalformed | src/file_transfer_session.rs:411-411 | a chunk longer than 32 bits is malformed by its cut length |
| FileChunks.RoundTripInAnyOrder | src/file_transfer_session.rs:407-507 | applied in any permutation the chunks rebuild exactly the data if and only if the receiver expects its size and the chunk size can carry it |
| FileTransfer.SendFileData | src/file_transfer_session.rs:402-426 | writes the envelopes of all chunks of the data, in order, and then that of the hash of the whole |
| FileTransfer.ReceiveFile | src/file_transfer_session.rs:549-600 | the outcome is the one the bytes of the stream call for, however they arrive, or a stall while waiting |
| FileTransfer.CompletesIffDelivered | src/file_transfer_session.rs:549-600 | the receiver ends with some data if and only if the chunks that open the stream rebuild it without a gap and a completion with its checksum comes next |
| FileTransfer.ConcludesAs | src/file_transfer_session.rs:549-600 | every outcome: if all chunks that open the stream are accepted the message behind them decides between a gap, a wrong checksum, the file and the three failures; else the first refused chunk gives the reason |
| FileTransfer.TypeDecides | src/file_transfer_session.rs:557-597 | type 0x0018 is a chunk, 0x0019 a completion, and every other type is neither |
| FileDelivery.ChunkRead | src/file_transfer_session.rs:557-573 | a written chunk is read back if it is within the file stream's limit, and breaks the stream otherwise |
| FileDelivery.StuckAt | src/file_transfer_session.rs:557-563 | reading gets no further than the first chunk over the limit |
| FileDelivery.WrittenIsConcluded | src/file_transfer_session.rs:549-600 | written chunks and a checksum end in some data if and only if all fit, the checksum is its hash and the chunks rebuild it |
| FileDelivery.SentIsReceived | src/file_transfer_session.rs:402-600 | end to end on the bytes, in any order of chunks: received as sent if and only if the size is expected, the chunk size can carry it and every message fits the stream's limit |
| FileDelivery.FittingChunksAreShort | src/stream_kind.rs:51-61 | with an encoding that contains the chunk's bytes, chunks that fit are shorter than the limit, and only chunk size 0 is left to go wrong |
| FileDelivery.Transfer | src/file_transfer_session.rs:402-600 | sender, network and receiver together, in pieces of the network's choice: the same if and only if |
| FileHandles.FileHandleStore.TryIssue | src/file_handle_store.rs:92-122 | refuses exactly at the cap; else binds the first vacant masked draw and nothing else |
| FileHandles.FileHandleStore.SweepExpired | src/file_handle_store.rs:130-136 | a handle is left exactly if it was there and has not expired, with the same record; returns how many are gone |
| FileHandles.FileHandleStore.Validate | src/file_handle_store.rs:166-188 | succeeds exactly for the session, user and direction of issue, up to expiry; errors in the order of the checks |
| FileHandles.FileHandleStore.Remove | src/file_handle_store.rs:193-195 | removes this handle only |
| FileHandles.HandleSurvivesPrologue | src/file_handle_store.rs:62-65 | every masked draw comes back from the context id of a prologue |
| FileHandles.MaskKeepsLowBits | src/file_handle_store.rs:62-65 | the mask keeps the low 62 bits of a draw as they are |
| FileHandles.ReaperRemovesOnlyExpired | src/file_handle_store.rs:124-158 | at every point of a run in which every issue finds room even without the reaper, the reaper has removed nothing but expired handles |
| FileHandles.ReaperIsTransparent | src/file_handle_store.rs:130-188 | sweeps never change which validations succeed nor what they return, and change errors only for expired handles |
| FileHandles.AcceptedIffIssued | src/file_handle_store.rs:160-195 | in every run, with the reaper or without, full or not, a handle is accepted with a record if and only if that record was issued under it, was not ended, names the presenter and has not expired |
| FileHandles.StoreIsHistory | src/file_handle_store.rs:92-195 | at every point of every run the store is the last unended issue of each handle, less swept ones that had expired |
| FileHandles.SweptHoldsUnexpired | src/file_handle_store.rs:130-136 | right after a sweep in any run a record is in the store if and only if it is the last unended issue and has not expired |
| FileHandles.SweepMakesRoom | src/file_handle_store.rs:92-136 | right after a sweep an issue finds room if and only if fewer handles than the cap have an unexpired owner |
| FileHandles.ToldWhatHistorySays | src/file_handle_store.rs:160-188 | in every run a presented handle gets the record or the error its last unended issue calls for, the checks in this order: unknown, session, user, direction, expiry; only once it has expired may it be unknown instead |
| FileHandles.CapIsKept | src/file_handle_store.rs:85-122 | with one cap the store never holds more |
| FileHandles.Registry.Request | src/file_handle_store.rs:92-122 | `try_issue` takes exactly the step the run theorems are about, with the first vacant draw |
| FileHandles.Registry.ReaperTicks | src/file_handle_store.rs:142-158 | a sweep takes exactly that step |
| FileHandles.Registry.StreamOpened | src/file_handle_store.rs:166-188 | after anything that has happened to the store, `validate` accepts with a record if and only if it is the handle's last unended issue, names the presenter and has not expired |
| FileHandles.Registry.TransferEnded | src/file_handle_store.rs:193-195 | `remove` takes exactly that step |
| ConnectionStates.ConnectionSm.CheckMessage | src/connection_sm.rs:114-136 | allows a message exactly in the states the table lists it for; `MessagesFollowHistory` says when that is |
| ConnectionStates.ConnectionSm.CompleteHandshake | src/connection_sm.rs:140-150 | the transition, or refusal without change |
| ConnectionStates.ConnectionSm.RecordAuthFailure | src/connection_sm.rs:156-175 | counts, closes at the third, always an error |
| ConnectionStates.ConnectionSm.CompleteAuthentication | src/connection_sm.rs:178-188 | the transition, or refusal without change |
| ConnectionStates.ConnectionSm.OnChannelLive | src/connection_sm.rs:194-204 | the transition, or refusal without change |
| ConnectionStates.ConnectionSm.Suspend | src/connection_sm.rs:211-221 | Active to Suspended, or refusal without change |
| ConnectionStates.ConnectionSm.Resume | src/connection_sm.rs:229-239 | Suspended to Active, or refusal without change |
| ConnectionStates.StateIsHistory | src/connection_sm.rs:138-239 | in every run the state is determined by what took effect: closed exactly at three failed authentications, Suspended exactly with one more suspension than resumption, Active only after the three set-up steps in order |
| ConnectionStates.MessagesFollowHistory | src/connection_sm.rs:93-136 | in every run, from what took effect: a Hello passes before the handshake or between authentication and the first live channel; `AuthPubkey` after the handshake unless three attempts failed or the session is suspended; any other message after authentication unless it is suspended |
| ConnectionStates.RepliesFollowHistory | src/connection_sm.rs:138-239 | in every run each operation is answered from what took effect before it: once each in order, the third failed attempt differently from the first two, suspension and resumption in turn |
| ConnectionStates.ClosedForGood | src/connection_sm.rs:114-239 | a closed connection stays closed and accepts no message |
| Sessions.SessionStore.Suspend | src/session_store.rs:62-64 | stores under this identifier, all others untouched |
| Sessions.SessionStore.TryReconnect | src/session_store.rs:79-95 | consumes the entry exactly if the token is its own; a failed attempt leaves the store as it was |
| Sessions.SessionStore.Expire | src/session_store.rs:109-111 | removes this entry only |
| Sessions.SessionStore.ExpireIfTokenMatches | src/session_store.rs:124-131 | removes the entry only if the token is its own |
| Sessions.SessionStore.SuspendAndScheduleExpiry | src/session_store.rs:152-180 | stores the session as Suspended and arms its timer, or, unless it was Active, changes nothing |
| Sessions.SessionStore.TimerFires | src/session_store.rs:174-178 | ends this episode only and is gone |
| Sessions.ServerCompleteReconnect | src/reconnection.rs:314-376 | the answer and the store after it, for every store, token and write result |
| ReconnectionRuns.AlwaysInv | src/session_store.rs:79-180 | in every reachable state a session is live or stored but not both, stored ones are Suspended with their timer armed, tokens are not shared, no timer threatens a live token |
| ReconnectionRuns.TokenMatchesOnce | src/session_store.rs:66-95 | over any interleaving a token that matched never matches again, even if the reply was lost |
| ReconnectionRuns.RefusedAttemptChangesNothing | src/reconnection.rs:314-376 | an attempt with any other token changes nothing at all; a matching one succeeds exactly if the reply is written; every other attempt is told no session, wrong token or failed write, and never a state error |
| ReconnectionRuns.EndedOnlyByItsOwn | src/session_store.rs:113-131 | a stored session is removed by its own token or its own timer, and otherwise stays exactly as it is |
| ReconnectionRuns.EpisodeRuns | src/session_store.rs:138-180 | after any interleaving an episode is intact exactly if neither its token nor its timer came up, and its token is dead for good otherwise |
| ReconnectionRuns.OwnerCanReconnect | src/reconnection.rs:314-356 | the client that lost its connection gets the same session back, one generation on, if and only if its token was not used and its timer had not fired |
| ReconnectionRuns.EveryEntryCanExpire | src/session_store.rs:138-180 | no entry outlives its timer |
| ReconnectionRuns.SessionContinues | src/reconnection.rs:344-355 | across any number of reconnections user and permissions stay and the generation counts every opening |
| ReconnectionRuns.ResumedGenerationIsNew | src/reconnection.rs:348-348 | a resumed generation exceeds every generation the session ever had |
| ReconnectionRuns.ActiveIffWentLive | src/connection_sm.rs:190-239 | in every run a live session is Active if a channel ever went live, however often it was suspended and resumed since, and Authenticated otherwise; only sessions that went live are stored, Suspended |
| ReconnectionRuns.ExistsUntilEnded | src/session_store.rs:66-180 | in every run an established session exists exactly until an orderly end, a loss before it went live, its timer, or a right token whose reply was lost |
| ReconnectionRuns.AsEstablished | src/reconnection.rs:344-355 | until then it has the user and permissions of its handshake and a generation that counts the openings since |
| ReconnectionRuns.Server.Established | src/reconnection.rs:152-175 | the machine's methods lead a fresh handshake to the world in which its session is live |
| ReconnectionRuns.Server.ChannelWentLive | src/connection_sm.rs:190-204 | takes exactly this step of the world |
| ReconnectionRuns.Server.ConnectionLost | sardp-cli/src/bin/sardp-server.rs:830-855 | `suspend_and_schedule_expiry` takes exactly the step the run theorems are about |
| ReconnectionRuns.Server.ReauthenticateReceived | src/reconnection.rs:176-191 | `server_complete_reconnect` takes exactly that step, and succeeds exactly when it does |
| ReconnectionRuns.Server.TimerFired | src/session_store.rs:174-178 | the expiry timer takes exactly that step |
| Timecodes.SyntheticFrame.SetPixel | src/timecode_frame.rs:35-38 | writes red, green and blue at the row-major place of this pixel and changes no other |
| Timecodes.SyntheticFrame.GetPixel | src/timecode_frame.rs:40-43 | the three bytes of the pixel |
| Timecodes.PixelsApart | src/timecode_frame.rs:35-43 | different pixels of a frame occupy different bytes |
| Timecodes.GenerateTimecodeFrame | src/timecode_frame.rs:52-88 | 64 blocks of 8 by 8 pixels at the top left, lowest bit first, are white or black for their bit, and every other pixel is the background |
| Timecodes.ExtractTimecode | src/timecode_frame.rs:93-105 | bit by bit, whether the three colours of the block centre, at (8k + 4, 4), add up to more than 384 |
| Timecodes.BitsDetermine | src/timecode_frame.rs:93-105 | a 64-bit value is determined by its bits |
| Timecodes.BitIsParity | src/timecode_frame.rs:93-105 | bit `k` is set exactly if the value divided by 2^k is odd |
| Timecodes.ExtractedIff | src/timecode_frame.rs:93-105 | extraction gives the timecode if and only if every block centre is on its bit's side of the threshold, however the frame was distorted |
| Timecodes.GenerateThenExtract | src/timecode_frame.rs:52-105 | the round trip, for every timecode, background and frame size that fits |

## Left out

- TimeSync.ErrorBound: the differences of the readings fit an `i64`, and arithmetic wraps as in a release build.
- ParameterSets.EveryLaterIdrIsSelfContained: out-of-band sets given before the first observed pair are usable; other bytes
  stay in the cache for good, and `ParameterSets.AnyFallbackIsExact` says what they do.
- ParameterSets.EveryIdrIsExact: the same of all out-of-band sets given before the IDR.
- VideoChannelRuns.ReopensAreSpaced: times stay a second clear of `u64::MAX`, where `saturating_add` shortens the interval.
- VideoChannelRuns.KeyframeAnswered: that no reopen is less than a second old is said of times that stay that clear too and do
  not run back; the answer from the latest reopen is said of all times, saturating ones included.
- VideoChannelRuns.AlwaysInLockstep: the generation is unbounded; the source's `u64` would overflow after 2^64 reopens.
- ReconnectionRuns.ResumedGenerationIsNew: the generation is unbounded here too.
- ReconnectionRuns.TokenMatchesOnce: tokens and session identifiers are drawn fresh, as the random generator is trusted to.
- FileHandles.FileHandleStore.TryIssue: some draw is vacant; the source retries until the random generator finds one.
- FileHandles.ReaperRemovesOnlyExpired: without the reaper too every issue finds room; `FileHandles.StoreIsHistory` covers
  every run.
- FileHandles.ReaperIsTransparent: without the reaper too every issue finds room and a vacant handle; a full store would be
  relieved by a sweep, and that is what sweeping is for.
- Backpressure.BaselineTracker.Record: times do not run back, as the monotonic clock ensures.
- VideoFrames.PollRepeatedly: the CBOR decoder of headers is an arbitrary function.
- FileTransfer.ReceiveFile: when the stall timer fires is left open; with `mayStall` it may fire at any wait. SHA-256 is an
  arbitrary function, and so is the encoding of message bodies, of which the end-to-end results assume that decoding undoes it.
- FileTransfer.SendFileData: every body is short enough for a length field, beyond which the source panics; write errors are
  not modelled.
- ClampedDelays.SameExcessIff: the 64-bit clock does not wrap and no delay exceeds `u32::MAX` us, over an hour.
- StreamReader.Answer: the network's choice of pieces is arbitrary, but a stream has finitely many bytes.
- QUIC, TLS, async scheduling and the I/O halves of the session modules; mutex-guarded methods are atomic steps.
- Signatures, constant-time comparison (equality here) and the random generators.
- The CBOR encoding itself.
- The retry backoff of the channel machine, the receive bitrate and the decode and display delays of a feedback message.
- `is_idr_access_unit`, `Envelope::is_core` and the other one-line accessors.
- Permission, input, monitor and clipboard state, the client's queue circuit breaker, encoders, decoders and OS shims.
