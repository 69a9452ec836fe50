# Sequence-number machinery of a selective forwarding unit, in Dafny

The project models the parts of the media server that live on wrap-around RTP sequence
numbers, and proves them against simple reference models.

* **Receive statistics** (`pkg/buffer/rtpstats.go`). `RtpStats.RTPStats` keeps a 16-bit head, a
  cycle counter, running counters and a ring of 2048 slots addressed from a write pointer, as the
  code does. `StreamModel` is the reference: a map from accepted extended numbers to what is known
  of each, a start and a head, with no ring, no 16-bit arithmetic and no loss counter. The class
  refines it, and the model is in turn shown to recover the true numbers the sender used from
  their 16-bit images alone. `IntervalModel` and `ReportRuns` do the same for interval reports.
* **Loss to NACK hand-off** (`pkg/buffer/buffer.go`). `ReceiveBuffer.Buffer` joins the statistics
  to the recorded calls on the NACK queue, from when it is bound until it is closed; `NackHistory`
  says what that history means.
* **Retransmission index** (`pkg/rtc/sequencer.go`). `SequencerRings.Sequencer` has the two rings
  of the code, with records recycled while pointers to them remain. `SequencerModel` never
  recycles anything: a log of pushes, and the last call about each number. `SequencerRuns` states
  lookups and pacing over whole runs, `SequencerTruth` in the true numbers behind the 16 bits. Nothing but a positive record ring and a non-negative padding
  allowance is assumed of the sizes.
* **Forwarding** (`pkg/rtc/downtrack.go`). `Forwarding.DownTrack` rewrites numbers, gates on
  keyframes and replays requested packets; `ForwardingModel` proves the gate, the offsets and the
  fidelity of retransmissions over every run of operations, and `ForwardingRuns` what is on the wire,
  from the operations alone.
* **Payload formats** (`pkg/buffer/helpers.go`). `Vp8` is the VP8 payload descriptor of
  section 4.2 of RFC 7741, parsed and printed in place, and its 64-bit packing; `Vp8Layout` builds
  descriptors from their fields and shows that these are what is read and written; `H264` is keyframe
  detection over the aggregates of section 5.7 and the fragments of section 5.8 of RFC 6184.
* **VP8 frame rates** (`pkg/buffer/fps.go`). `FrameRate` is the 64-slot window of frame numbers;
  `FrameRuns` tells from the packets which frames rates are measured between, and when.

Classes hold the code's fields and update them in place; every method is proved equal to a
function of the reference model, and the theorems are lemmas about that model over every run.

## What the proofs found

* The extended start is stored as a bare 16-bit number and expected packets as 32 bits. The
  balance "expected = lost + accepted" holds exactly while start and length can be represented
  (`RtpStats.RTPStats.BalanceExact`), and `StreamModel.StaysRepresentable` tells from the state
  before a packet whether they still can after it. `ReportRuns.CrossingZero` is a case
  where they cannot: number 5, then the late packet 65530. The primary packet count of that stream
  is 4294901762 instead of 2 (`ReportRuns.CrossingStream`); `RtpStats.RTPStats.PrimaryRight` says
  exactly when it is right, and `RtpStats.RTPStats.SenderCountRight` the same of a sender report.
* From then on, until 65536 numbers are spanned, the start no longer moves. After 0 and 65535 the packet 65534 makes the loss counter
  underflow: 4294967295 are reported lost and none is (`ReportRuns.UnderflowStream`).
  `RtpStats.RTPStats.LossStaysRight` says of every state with a right loss, crossed or not, exactly
  which packets keep it right; after a crossing it is those not below the start
  (`RtpStats.RTPStats.CrossedLoss`), but for one next to the start that is no longer remembered.
* A packet that arrives 2048 or more behind the head, and not below the start, is always counted as
  a duplicate, so the loss counter is too high by exactly the numbers of which no arrival was in
  time (`StreamModel.LossExact`). Numbers 0, 3000 and 500 are such a run (`StreamModel.LateIsLost`).
* The primary packet count is 1 before the first packet (`RtpStats.RTPStats.PrimaryBeforeStart`).
* A reception report's last sequence number is one past the highest number received, where
  section 6.4.1 of RFC 3550 asks for the highest one itself. The model follows the code.
* A report sees the last 2048 numbers of its span at most (`IntervalModel.SpanSeen`). The loss behind
  the fraction is that of the span exactly when every forgotten number was accepted
  (`IntervalModel.SpanLossExact`), and the packet count of the delta statistics is right exactly when
  nothing in the span was lost and no padding is forgotten (`IntervalModel.SpanPacketsExact`). With
  numbers 0 and 3000 alone, 2047 of 2999 losses and 3001 packets are reported
  (`IntervalModel.LongSpan`).
* Offsets after an effective `Mute` are computed from the first packet ever forwarded, not from the
  last one, so numbering restarts there (`ForwardingModel.ResyncRestarts`). If that first packet had
  number 0, there are never any offsets.
* The keyframe gate is on admission. When the admitted keyframe cannot be sent, because its header
  cannot be rewritten or because the write stream fails, a packet that is no keyframe can be the
  first to go out (`ForwardingModel.FailurePassesGate`). Packets resent for a NACK do not pass the
  gate at all: they go out while a resync is pending and while the track is muted
  (`ForwardingModel.ReplayPassesGate`). A keyframe is the first packet on the wire, whatever comes
  next, exactly when every NACK until then replays nothing and the first admitted packet is sent
  (`ForwardingModel.GateExact`, with `ForwardingModel.QuietExact`).
* A NACK time of 0 doubles as "never requested", so pacing fails exactly at time 0
  (`SequencerRuns.TwiceOnlyAtZero`, `SequencerRuns.HandedAgain`).
* A VP8 descriptor whose X bit is set but whose extension byte announces nothing is not printed
  back (`Vp8.IdleExtensionLost`); every other one is (`Vp8.RoundTrip`).
* In an MTAP the code takes the size field to cover the DOND and timestamp offset of a unit, where
  section 5.7.2 of RFC 6184 counts the unit only. From the second unit on the walk has lost its
  place: it misses a sequence parameter set (`H264.MtapMissed`) or takes a DOND for one
  (`H264.MtapInvented`). `H264.MtapRight` says exactly when the verdict is right; when the first unit
  is no sequence parameter set its condition is what the lost walk comes to, and `H264.MtapLost` and
  `H264.MtapTold` say how much of that can be told from the units themselves.
* The second frame of a layer is the one with the greatest picture ID as a plain number, and the
  picture IDs of VP8 wrap around at 7 or 15 bits, not at 16: after that every packet is ignored until
  the IDs have passed the base again (`FrameRuns.WrappedIgnored`).
* Printing a VP8 descriptor gives its octets back exactly when reserved bits, and TID, Y or KEYIDX
  that are not announced, were 0 (`Vp8Layout.PrintsLayout`).
* A buffer for redundant audio with NACK negotiated is never bound: it only queues packets.

## Model

| member | source | states |
|---|---|---|
| SeqNum.Extend | pkg/buffer/rtpstats.go:395-397 | the extended number recovered from a 16-bit one has that image and lies within half a cycle of the head, a distance of exactly 32768 counting as forward |
| SeqNum.ExtendInverts | pkg/buffer/rtpstats.go:395-397 | every true number less than half a cycle behind, or at most half a cycle ahead, is recovered exactly |
| SeqNum.WrapCarries | pkg/buffer/rtpstats.go:433-436 | stepping the cycle counter when the 16-bit head gets smaller is addition on the 32-bit extended head |
| StreamModel.TallyFill | pkg/buffer/rtpstats.go:409-411 | a late packet turns exactly one lost number of a range into its own traffic |
| StreamModel.TallyJump | pkg/buffer/rtpstats.go:424-431 | a packet ahead of the head adds the numbers it skips as lost, and its own traffic |
| StreamModel.TallyBelow | pkg/buffer/rtpstats.go:477-481 | a packet below the start does the same at the lower end |
| StreamModel.TallyCounts | pkg/buffer/rtpstats.go:1239-1267 | counting number by number is counting sets: accepted plus padding is the cardinality of the accepted part of a range, lost is the rest of it |
| StreamModel.TallyFields | pkg/buffer/rtpstats.go:1239-1267 | every counter of a range told from its accepted numbers: packets, padding and frames count those with payload, without, and with a marker; bytes and header bytes of each kind are their sums; lost is the rest |
| StreamModel.ReceiveKeepsInv | pkg/buffer/rtpstats.go:355-459 | every packet keeps: start and head are accepted, nothing outside them is, accepted sizes are non-zero, reported snapshots stand above the start |
| StreamModel.ReportKeepsInv | pkg/buffer/rtpstats.go:1328-1362 | reports keep it too |
| StreamModel.Accounting | pkg/buffer/rtpstats.go:499-512 | accepted and missing numbers partition the span from start to head, as in appendix A.3 of RFC 3550 |
| StreamModel.ReceiveTotals | pkg/buffer/rtpstats.go:395-439 | how the true counts move for each of the six things a packet can be |
| StreamModel.ReceivePayload | pkg/buffer/rtpstats.go:441-456 | an accepted packet is counted once as traffic, a duplicate not at all |
| StreamModel.StaysRepresentable | pkg/buffer/rtpstats.go:468-479 | a packet leaves a representable state if and only if it is a late one that moves the start below extended number 0, or one that makes the span reach 2^32 numbers |
| StreamModel.RunInv | pkg/buffer/rtpstats.go:355-459 | the invariant holds after every run of packets |
| StreamModel.RunConserves | pkg/buffer/rtpstats.go:355-459 | over every run, numbers accepted plus duplicates is the number of packets; no number is accepted twice |
| StreamModel.RunBytes | pkg/buffer/rtpstats.go:392-456 | over every run payload, padding and duplicate bytes add up to what arrived, and so do header bytes |
| StreamModel.RunLate | pkg/buffer/rtpstats.go:398-400 | packets out of order are exactly the arrivals behind the highest true number before them |
| StreamModel.ReceiveRecovers | pkg/buffer/rtpstats.go:395-439 | given the true number of a packet, one step moves head to the maximum, start to the minimum, and accepts the number exactly when it extends the stream or is less than 2048 behind |
| StreamModel.RunRecovers | pkg/buffer/rtpstats.go:355-459 | from 16-bit numbers alone, in any order and over any number of wrap-arounds, head and start are the true maximum and minimum and the accepted set is exactly the numbers of which some arrival was in time (appendix A.1 of RFC 3550) |
| StreamModel.RunStoresFirst | pkg/buffer/rtpstats.go:398-431 | what is remembered of a number is size, header size, padding flag and marker of its first arrival that was in time; no later packet overwrites it |
| StreamModel.RunExact | pkg/buffer/rtpstats.go:398-431 | when every arrival is in time, lost is the count of numbers never seen and duplicates the count of repetitions |
| StreamModel.LossExact | pkg/buffer/rtpstats.go:398-414 | in general lost is too high by the numbers of which no arrival was in time; it is exact if and only if there are none |
| StreamModel.LateIsLost | pkg/buffer/rtpstats.go:1188-1192 | the concrete run 0, 3000, 500, with 2999 lost instead of 2998 |
| IntervalModel.StepsSplit | pkg/buffer/rtpstats.go:1273-1277 | a walk of n + k numbers is a walk of n followed by one of k |
| IntervalModel.FullCycle | pkg/buffer/rtpstats.go:1268-1272 | a full cycle counts the same wherever it begins |
| IntervalModel.StepsForgotten | pkg/buffer/rtpstats.go:1188-1192 | numbers 2048 or more behind the head are only counted as not found |
| IntervalModel.StepsTally | pkg/buffer/rtpstats.go:1241-1267 | each of the last 2048 numbers is counted as the accepted set has it |
| IntervalModel.SpanExact | pkg/buffer/rtpstats.go:1239-1289 | over any span of 1 to 65536 numbers ending at the head, the full cycle included, the walk is exact on the last 2048 and reports the rest as not found |
| IntervalModel.SpanConserves | pkg/buffer/rtpstats.go:1239-1289 | packets, padding, lost and not found add up to the length of the span |
| IntervalModel.WalkMatchesTotals | pkg/buffer/rtpstats_test.go:124-126 | while the stream fits in the ring, the walk from start to head gives the running counters, loss included |
| IntervalModel.SpanSeen | pkg/buffer/rtpstats.go:1188-1192 | a report sees its whole span if and only if that has at most 2048 numbers |
| IntervalModel.SpanLossExact | pkg/buffer/rtpstats.go:853-856 | the loss behind the reported fraction is that of the span if and only if every number forgotten by the ring was accepted, and otherwise too low |
| IntervalModel.SpanPacketsExact | pkg/buffer/rtpstats.go:963 | the packets of the delta statistics are the accepted packets with payload of the span if and only if none of its numbers was lost and no padding is forgotten, and otherwise too many |
| IntervalModel.LongSpan | pkg/buffer/rtpstats.go:821-981 | the concrete stream of two packets whose report shows 2047 of 2999 losses and whose delta shows 3001 packets |
| IntervalModel.TallyPartition | pkg/buffer/rtpstats.go:1241-1267 | packets, padding and lost add up to the length of a range; none is lost, or padding, exactly when all were accepted, or none as padding |
| IntervalModel.FractionFits | pkg/buffer/rtpstats.go:845-860 | what a report counts as lost is less than the length of its span, so the fraction of section 6.4.1 of RFC 3550 fits its byte |
| IntervalModel.RoundingHarmless | pkg/buffer/rtpstats.go:856-857 | computing that fraction in single precision gives the same byte as exact arithmetic |
| RtpStats.RingAdvance | pkg/buffer/rtpstats.go:1197-1203 | writing under the write pointer and advancing it moves the window of remembered numbers up by one |
| RtpStats.RingFill | pkg/buffer/rtpstats.go:1203-1214 | writing behind the head changes what is remembered of one number only |
| RtpStats.RingClear | pkg/buffer/rtpstats.go:1217-1227 | clearing any gap, even many times round the ring, moves the window over numbers that were never accepted |
| RtpStats.RingJump | pkg/buffer/rtpstats.go:424-431 | clearing the gap and storing the packet keeps ring and accepted set in agreement |
| RtpStats.LostIffMissing | pkg/buffer/rtpstats.go:1229-1237 | a remembered number has size 0 in its slot exactly when it was not accepted |
| RtpStats.LateKeepsRing | pkg/buffer/rtpstats.go:409-411 | a late packet keeps ring and accepted set in agreement whether or not its number still has a slot |
| RtpStats.ClassificationExact | pkg/buffer/rtpstats.go:395-402 | the 16-bit and 32-bit branch conditions decide exactly whether the true number is ahead of the head, between start and head, or below the start |
| RtpStats.LateLoss | pkg/buffer/rtpstats.go:398-414 | what happens to the 32-bit loss counter is what happens to the number of missing numbers |
| RtpStats.MovedFollows | pkg/buffer/rtpstats.go:483-487 | moving the snapshots that stand at the old start moves exactly those that have not reported yet |
| RtpStats.HeadAdvances | pkg/buffer/rtpstats.go:433-436 | the cycle counter steps exactly when the true head enters a new cycle |
| RtpStats.JumpFacts | pkg/buffer/rtpstats.go:417-436 | after a packet ahead of the head, ring, loss counter, head and cycles agree with the model again |
| RtpStats.RTPStats.constructor | pkg/buffer/rtpstats.go:355-380 | a new object agrees with the empty stream |
| RtpStats.RTPStats.SetSnInfo | pkg/buffer/rtpstats.go:1197-1215 | which slot is written, and whether the write pointer moves, for numbers ahead, behind and too old |
| RtpStats.RTPStats.ClearSnInfos | pkg/buffer/rtpstats.go:1217-1227 | the modular loop clears exactly as many slots as the gap has numbers |
| RtpStats.RTPStats.MoveSnapshots | pkg/buffer/rtpstats.go:483-487 | the loop over the snapshot map moves those at the old start and no others |
| RtpStats.RTPStats.MaybeAdjustStartSN | pkg/buffer/rtpstats.go:468-490 | when the start moves, by how much loss grows, what is stored; and that nothing changes otherwise |
| RtpStats.RTPStats.LostExactly | pkg/buffer/rtpstats.go:407-411 | the duplicate test is exact for numbers less than 2048 behind the head, and calls every older one a duplicate |
| RtpStats.RTPStats.LateBranches | pkg/buffer/rtpstats.go:398-414 | start move, hole filled and duplicate are told apart exactly |
| RtpStats.RTPStats.LatePacket | pkg/buffer/rtpstats.go:398-414 | the late branch leaves ring, loss, start, snapshots and duplicate counters in agreement with the model |
| RtpStats.RTPStats.InOrderPacket | pkg/buffer/rtpstats.go:417-438 | the in-order branch: loss indication, gap, loss counter, head, cycles and ring afterwards |
| RtpStats.RTPStats.Update | pkg/buffer/rtpstats.go:355-459 | every packet moves the object as the model moves; the loss indication is the numbers strictly between old head and packet; all fields stay in agreement as long as start and length can be represented, and all but the positions for the packet that ends that; expected = lost + accepted if and only if they can; in every state ring and head stay in agreement, unless an accepted number is taken to be below the start and overwritten |
| RtpStats.RTPStats.Settle | pkg/buffer/rtpstats.go:398-414 | by what the fields say, in every state: start moved, hole filled or duplicate counted, with the loss counter, ring, start and snapshots afterwards |
| RtpStats.RTPStats.LossStaysRight | pkg/buffer/rtpstats.go:395-439 | in every state whose ring, head and loss are right, the loss is right after a packet if and only if the packet is ahead of the head or the code takes it for what it is, but for numbers next to the start where two errors agree |
| RtpStats.RTPStats.CrossedLoss | pkg/buffer/rtpstats.go:398-414 | once the start has crossed 0, and while fewer than 65536 numbers are spanned, the loss stays right if and only if no number below the start arrives, but one next to it that is no longer remembered |
| RtpStats.LossMoves | pkg/buffer/rtpstats.go:410-477 | in 32 bits, which of the moves of the loss counter are the move it ought to make |
| RtpStats.RTPStats.BalanceExact | pkg/buffer/rtpstats.go:499-512 | 32-bit expected equals lost plus accepted exactly when start and length can be represented |
| RtpStats.RTPStats.SlotReads | pkg/buffer/rtpstats.go:1182-1195 | the slot address computed for any 16-bit number is refused beyond 2048 behind the head, and otherwise holds what was accepted for it |
| RtpStats.RTPStats.GetIntervalStats | pkg/buffer/rtpstats.go:1239-1289 | both loops compute the model's walk over the accepted set |
| RtpStats.RTPStats.GetAndResetSnapshot | pkg/buffer/rtpstats.go:1328-1362 | the span handed out begins where the id's last one ended, or at the start, and ends one past the head |
| RtpStats.RTPStats.Stop | pkg/buffer/rtpstats.go:327-332 | the statistics are marked ended, and nothing else changes |
| RtpStats.RTPStats.PrimaryExact | pkg/buffer/rtpstats.go:499-512 | in a started stream both guards are unreachable and the count is the accepted packets with payload; the sender report counts every packet, accepted or duplicate |
| RtpStats.RTPStats.PrimaryBeforeStart | pkg/buffer/rtpstats.go:499-512 | before the first packet the primary count is 1 |
| RtpStats.RTPStats.PrimaryRight | pkg/buffer/rtpstats.go:499-512 | after any packet that finds the fields in agreement: the count is right if and only if the start is not below 0 and either the length fits 32 bits, or nothing but padding, or 2^32 padding packets, were accepted; with the start below 0 it is 2^32 - 2^16 too high |
| RtpStats.RTPStats.SenderCountRight | pkg/buffer/rtpstats.go:816 | the packet count of a sender report is right under the same condition, or with 2^32 payload packets |
| RtpStats.PrimaryArithmetic | pkg/buffer/rtpstats.go:499-512 | what the guarded 32-bit subtractions make of the true counts, in every range of start and length |
| RtpStats.RTPStats.TakeInterval | pkg/buffer/rtpstats.go:821-851 | span and its length, and the counts of its last 2048 numbers, in terms of the accepted set; nothing before the first packet or above 65536 numbers |
| RtpStats.RTPStats.SnapshotRtcpReceptionReport | pkg/buffer/rtpstats.go:821-888 | what was lost of the last 2048 numbers of the span as a fraction of the whole span, total lost as missing numbers from start to head, and one past the head; no report for empty or too long spans |
| RtpStats.RTPStats.DeltaInfo | pkg/buffer/rtpstats.go:890-981 | traffic of the last 2048 numbers of the span, with frames the accepted ones with a marker and bytes the sum of their sizes; as packets every number of the span but the padding among these, which is right if and only if nothing was lost and no padding is forgotten |
| ReportRuns.SpansContiguous | pkg/buffer/rtpstats.go:1328-1361 | whatever arrives between reports and however far the start moves, the spans of one id follow one another without gap or overlap, from the start the stream had at the first report |
| ReportRuns.Telescopes | pkg/buffer/rtpstats.go:833 | lengths of contiguous spans add up to the distance from the first to the last end |
| ReportRuns.SpansTelescope | pkg/buffer/rtpstats.go:833 | the expected counts reported to an id add up to last head + 1 minus the start at its first report |
| ReportRuns.RunConservesPackets | pkg/buffer/rtpstats.go:816 | over any mix of packets, reports and a stop, accepted plus duplicate is the number of packets that arrived before the stop, which is what a sender report counts |
| ReportRuns.CrossingZero | pkg/buffer/rtpstats.go:479 | the concrete stream whose start is -6, which the code cannot represent |
| ReportRuns.CrossingStream | pkg/buffer/rtpstats.go:468-512 | the statistics themselves, given that stream, count 4294901762 packets |
| ReportRuns.UnderflowStream | pkg/buffer/rtpstats.go:398-414 | the statistics given 0, 65535 and 65534 count 4294967295 lost packets, and none is |
| NackHistory.LastAfterPushes | pkg/buffer/buffer.go:464-468 | pushing a gap makes Push the last call about each of its numbers and about no other number within half a cycle |
| NackHistory.HearKeepsFaithful | pkg/buffer/buffer.go:459-470 | each packet keeps the history faithful |
| NackHistory.RunFaithful | pkg/buffer/buffer.go:459-470 | over every run, for every number from the first packet on and within half a cycle of the head, the last call about it is Push if it has not arrived and Remove if it has |
| NackHistory.CallsPerPacket | pkg/buffer/buffer.go:461-468 | a packet makes one Remove call and then, a gap ahead of the head, gap - 1 Push calls for the numbers skipped, in their order; nothing else is called |
| ReceiveBuffer.FlowIsGap | pkg/buffer/rtpstats.go:418-422 | the loss reported by the statistics is the gap the NACK history has to request |
| ReceiveBuffer.Buffer.constructor | pkg/buffer/buffer.go:99-110 | a new buffer is open and unbound, with nothing waiting and untouched statistics |
| ReceiveBuffer.Buffer.Bind | pkg/buffer/buffer.go:143-219 | binding a buffer hears the packets that waited, in order, in statistics and history; a second time, or for redundant audio with NACK, nothing happens |
| ReceiveBuffer.Buffer.HearPending | pkg/buffer/buffer.go:214-217 | the loop over waiting packets leaves statistics and history as one packet after the other would |
| ReceiveBuffer.Buffer.UpdateStreamState | pkg/buffer/buffer.go:459-470 | statistics and NACK calls of one packet together; the calls stay faithful whatever the loss counters do |
| ReceiveBuffer.Buffer.Write | pkg/buffer/buffer.go:222-242 | an open bound buffer takes every packet into statistics and history, an open unbound one queues it, and a closed one changes nothing |
| ReceiveBuffer.Buffer.Close | pkg/buffer/buffer.go:291-315 | closing stops the statistics of a bound buffer and leaves the history faithful |
| ReceiveBuffer.Buffer.PushLost | pkg/buffer/buffer.go:464-468 | the modular loop ends after exactly the numbers of the gap, in order |
| SequencerModel.PushKeepsInv | pkg/rtc/sequencer.go:130-154 | pushes keep: log entries carry the image of their number, each number's last push is its latest entry, no push is half a cycle behind an earlier one |
| SequencerModel.RequestsKeepInv | pkg/rtc/sequencer.go:206-233 | so does a batch of requests |
| SequencerModel.RequestsKeepLog | pkg/rtc/sequencer.go:225-229 | a batch changes nothing but NACK times and counts |
| SequencerModel.Find | pkg/rtc/sequencer.go:213-223 | a lookup returns the one push that satisfies the four conditions on window, last call and recycling |
| SequencerModel.FindsLatest | pkg/rtc/sequencer.go:213-223 | the record found carries the requested number and no later push carries it |
| SequencerModel.StaleDiffers | pkg/rtc/sequencer.go:221 | whatever was pushed after a number's last push has another 16-bit number, as long as the number is within half a cycle of the head |
| SequencerRings.Wrap | pkg/rtc/sequencer.go:235-245 | the result is in range, and within one ring size it is the slot itself or one ring size up |
| SequencerRings.SlotsAdvance | pkg/rtc/sequencer.go:192-195 | clearing the slot after the head's moves the pointer window up by a number nobody called about |
| SequencerRings.PushSlots | pkg/rtc/sequencer.go:139-151 | storing a push keeps every pointer to a record that was not overwritten right |
| SequencerRings.PaddingSlots | pkg/rtc/sequencer.go:160-165 | padding clears one pointer and touches no other |
| SequencerRings.PushRecords | pkg/rtc/sequencer.go:139-151 | the record ring holds the last maxTrack pushes |
| SequencerRings.StampRecords | pkg/rtc/sequencer.go:226-227 | stamping a record in place stamps the push it stands for and no other |
| SequencerRings.StalePointer | pkg/rtc/sequencer.go:220-223 | a pointer to a recycled record always meets another target number |
| SequencerRings.Sequencer.constructor | pkg/rtc/sequencer.go:107-117 | the empty index |
| SequencerRings.Sequencer.SetRTT | pkg/rtc/sequencer.go:119-128 | zero selects the default; nothing else changes |
| SequencerRings.Sequencer.WrapSlot | pkg/rtc/sequencer.go:235-245 | the two loops compute the reduction |
| SequencerRings.Sequencer.GetSlot | pkg/rtc/sequencer.go:168-204 | a slot is granted to the first call, to numbers up to half a cycle ahead of the head, and to those less than max behind it, not to the head; it is the number's own slot, and all others agree with the moved head |
| SequencerRings.Sequencer.Push | pkg/rtc/sequencer.go:130-154 | the rings after a push refine the log after it; the pointer returned reads the new record |
| SequencerRings.Sequencer.PushPadding | pkg/rtc/sequencer.go:156-166 | likewise for padding |
| SequencerRings.Sequencer.LookupExact | pkg/rtc/sequencer.go:213-223 | reading through both rings finds a record exactly when the model does, and the same one |
| SequencerRings.Sequencer.GetPacketsMeta | pkg/rtc/sequencer.go:206-233 | the pointers returned read the records of the pushes the model hands out, in order, and exactly those are stamped |
| SequencerRuns.StateInv | pkg/rtc/sequencer.go:130-233 | after every run: the invariant of the index, its sizes unchanged, no push forgotten |
| SequencerRuns.RunRemembers | pkg/rtc/sequencer.go:130-166 | what is remembered of a number is the last accepted call about it, with that push's source number, timestamp and layer |
| SequencerRuns.FindExact | pkg/rtc/sequencer.go:206-223 | over any run, a lookup finds a record if and only if the last accepted call about the number was a push, the number is in the window, and counting that push at most maxTrack followed; the record is that push's |
| SequencerRuns.BatchPaced | pkg/rtc/sequencer.go:212-230 | a batch stamps exactly the records it hands out, each was due, and at non-zero time none is handed out twice |
| SequencerRuns.StampSince | pkg/rtc/sequencer.go:225-227 | a record handed out carries the time of some batch since |
| SequencerRuns.Paced | pkg/rtc/sequencer.go:225 | with non-decreasing times, a record handed out at non-zero time is not handed out by a later batch until more than 100 milliseconds, or twice the round-trip time in 32 bits, have passed |
| SequencerRuns.TwiceOnlyAtZero | pkg/rtc/sequencer.go:225-229 | a number requested twice at one time is answered twice if and only if that time is 0 |
| SequencerRuns.HandedExact | pkg/rtc/sequencer.go:212-230 | a batch hands out exactly the records that are found for a requested number and are due |
| SequencerRuns.StampStays | pkg/rtc/sequencer.go:225-227 | until it is handed out again a record carries the time of the batch that handed it out |
| SequencerRuns.HandedAgain | pkg/rtc/sequencer.go:225 | over any run, a later batch hands a record out again if and only if a requested number finds it, and it was last handed out at time 0 or more than 100 milliseconds, or twice the round-trip time, ago |
| SequencerRuns.HandedFirst | pkg/rtc/sequencer.go:221-229 | a record that was never handed out is handed out by the first batch that finds it for a requested number, and by none before |
| SequencerRuns.HandedInOrder | pkg/rtc/sequencer.go:212-229 | records are handed out in the order they were requested |
| SequencerRuns.StateRtt | pkg/rtc/sequencer.go:119-128 | the round-trip time in force is the last one set, 70 in the beginning and after 0 was set |
| SequencerRuns.NackedCounts | pkg/rtc/sequencer.go:226 | the NACK count of a record is how often it was handed out, in 8 bits |
| SequencerTruth.KnowsTop | pkg/rtc/sequencer.go:168-204 | from 16 bits the index knows the highest true number, and takes exactly the calls that do not repeat it and are less than maxTrack + maxPadding behind it |
| SequencerTruth.FindTrue | pkg/rtc/sequencer.go:206-223 | over any run, in true numbers: a lookup finds a record if and only if the number is at most half a cycle and less than maxTrack + maxPadding behind the highest, the last call taken about it is a push, and counting that push at most maxTrack were taken since; the record is that push's |
| SequencerTruth.PushIsFound | pkg/rtc/sequencer.go:130-154 | a push ahead of the highest number, or behind it by less than maxTrack + maxPadding, is found at once under its own numbers; any other changes nothing |
| SequencerTruth.TruthOf | pkg/rtc/sequencer.go:168-204 | every run of calls stands for true numbers within half a cycle of the highest so far |
| ForwardingModel.ApplyKeepsInv | pkg/rtc/downtrack.go:240-279 | every operation keeps the index well formed and present exactly on video tracks |
| ForwardingModel.SyncStaysRequired | pkg/rtc/downtrack.go:240-254 | a pending resync lasts until a packet is admitted |
| ForwardingModel.GateOpensOnKeyFrame | pkg/rtc/downtrack.go:240-247 | on a video track the first packet admitted after binding, or after any Mute call that took effect, is a keyframe |
| ForwardingModel.FailurePassesGate | pkg/rtc/downtrack.go:266-275 | the concrete runs in which a failure to rewrite the header, or of the write stream, lets another packet out first |
| ForwardingModel.GateExact | pkg/rtc/downtrack.go:240-386 | after binding or an effective Mute, the first packet on the wire, forwarded or resent, is a forwarded keyframe, whatever comes next, if and only if every NACK until the first admitted packet replays nothing and that packet is sent |
| ForwardingModel.MediaExact | pkg/rtc/downtrack.go:240-386 | what is appended to the wire holds a packet exactly for an admitted packet that is sent and for a NACK that replays something, whatever the gate |
| ForwardingModel.QuietExact | pkg/rtc/downtrack.go:347-383 | a NACK replays nothing if and only if no record handed out can be read and sent before the publisher's buffer ends |
| ForwardingModel.ReplayPassesGate | pkg/rtc/downtrack.go:329-386 | the concrete runs in which a NACK is answered with a packet that is no keyframe while the track is muted, and while it waits for a keyframe |
| ForwardingModel.OffsetsStay | pkg/rtc/downtrack.go:249-257 | from an admitted packet until the next effective Mute both offsets stand |
| ForwardingModel.DistancesKept | pkg/rtc/downtrack.go:256-257 | between two resyncs forwarded numbers and timestamps keep the differences they have at the source, modulo 2^16 and 2^32 |
| ForwardingModel.FirstKept | pkg/rtc/downtrack.go:261-265 | the recorded last number and timestamp are those of the first packet admitted, for good |
| ForwardingModel.StateOffsets | pkg/rtc/downtrack.go:249-265 | over any run, both offsets are 0 until a first packet with another number than 0 was recorded |
| ForwardingModel.ResyncRestarts | pkg/rtc/downtrack.go:249-265 | after every effective Mute numbers and timestamps go on from those of the first packet ever admitted; if that had number 0, packets go out with their own |
| ForwardingModel.RecordsLogged | pkg/rtc/downtrack.go:258-260 | every recorded packet keeps a log entry with its own numbers |
| ForwardingModel.LogOrigin | pkg/rtc/downtrack.go:258-260 | every log entry comes from a recorded packet |
| ForwardingModel.HandedIsLatest | pkg/rtc/downtrack.go:347 | a record handed out for a NACK was requested and is the latest under its number |
| ForwardingModel.ReplaySound | pkg/rtc/downtrack.go:347-383 | every packet resent was fetched by the source number of a record handed out, was sent, and carries that record's number and timestamp |
| ForwardingModel.ReplayComplete | pkg/rtc/downtrack.go:347-383 | every record that can be read and sent is resent, unless the publisher's buffer ends earlier |
| ForwardingModel.ReplaySnoc | pkg/rtc/downtrack.go:347-383 | order and number of packets resent: each record adds its packet at the end, if it can be read and sent and none before met the end of the buffer |
| ForwardingModel.ResendFaithful | pkg/rtc/downtrack.go:329-386 | over any run, every packet resent carries the number and timestamp of the most recent recorded forwarding under that number, and was read back under the source number of that same forwarding |
| ForwardingModel.ResendComplete | pkg/rtc/downtrack.go:329-386 | a requested number whose record is found and due is resent with its source number and timestamp whenever it can be read and sent, unless the publisher's buffer ends at an earlier record |
| ForwardingModel.ResendAll | pkg/rtc/downtrack.go:329-386 | over any run: a requested number whose record is found and due was last recorded for some forwarding, and is resent with source number and timestamp of that forwarding whenever it can be read and sent before the publisher's buffer ends |
| ForwardingRuns.StateFollows | pkg/rtc/downtrack.go:158-279 | over any run, flags, recorded numbers and offsets are those the operations so far account for |
| ForwardingRuns.EveryOutput | pkg/rtc/downtrack.go:158-386 | every operation of every run: a packet that passes the gate and can be sent goes out once, under its source number and the number and timestamp its history gives it; one held back by the gate asks for a keyframe once; nothing else goes out but what a NACK replays |
| ForwardingRuns.EnabledExact | pkg/rtc/downtrack.go:170-177 | the track is enabled exactly when the last Mute call, if any, was Mute(false) |
| ForwardingRuns.WireDistances | pkg/rtc/downtrack.go:256-257 | packets on the wire between two changes of mute state keep the distances in number and timestamp they have at the source |
| ForwardingRuns.WireRestarts | pkg/rtc/downtrack.go:249-265 | the first packet on the wire has its own numbers; the first after each change of mute state follows the very first, unless that was number 0 |
| ForwardingRuns.SecondKeyFrame | pkg/rtc/downtrack.go:240-276 | the concrete run in which keyframes 1 and 50 go out as 1 and 2 |
| ForwardingRuns.IndexIsRun | pkg/rtc/downtrack.go:258-260 | the retransmission index is that of 2000 padding slots in the state left by pushing every packet that passes with the numbers it has on the wire, by the NACKs and by the round-trip times |
| ForwardingRuns.ResentWasForwarded | pkg/rtc/downtrack.go:329-386 | over any run, every packet resent carries source number, number and timestamp of an earlier packet that passed the gate, as that went on the wire |
| Forwarding.DownTrack.Bind | pkg/rtc/downtrack.go:92-119 | the state after binding: enabled, resync pending, an index on video tracks only |
| Forwarding.DownTrack.WriteRTP | pkg/rtc/downtrack.go:158-163 | nothing happens on a disabled or unbound track; the error is that of an admitted packet |
| Forwarding.DownTrack.WriteSimpleRTP | pkg/rtc/downtrack.go:240-279 | gate, offsets, index, first-packet record, output and error of one packet are the model's |
| Forwarding.DownTrack.Send | pkg/rtc/downtrack.go:266-275 | a packet goes out only if its header can be rewritten and the write stream takes it |
| Forwarding.DownTrack.Mute | pkg/rtc/downtrack.go:170-177 | only a call that changes the state requires a resync |
| Forwarding.DownTrack.Unbind | pkg/rtc/downtrack.go:123-126 | only the binding is dropped |
| Forwarding.DownTrack.SetRTT | pkg/rtc/downtrack.go:457-461 | the round-trip time reaches the index, if there is one |
| Forwarding.DownTrack.RetransmitPackets | pkg/rtc/downtrack.go:329-386 | a NACK replays the records handed out, as the model does |
| Forwarding.DownTrack.WriteReplay | pkg/rtc/downtrack.go:347-384 | the loop skips packets that cannot be read, rewritten or written, and stops where the publisher's buffer ends |
| Vp8.PrintSize | pkg/buffer/helpers.go:152 | the printed size is HeaderSize, 1 + X * (1 + I * (1 + M) + L + (T or K)), below the payload length |
| Vp8.RoundTrip | pkg/buffer/helpers.go:60-198 | printing a parsed descriptor in front of the original rest and parsing again gives the same value if and only if X is clear or some of I, L, T, K is set |
| Vp8.IdleExtensionLost | pkg/buffer/helpers.go:192-195 | the concrete payload that does not come back |
| Vp8.FlagsPrinted | pkg/buffer/helpers.go:163-167 | the printed flags are those that were read |
| Vp8.FieldsPrinted | pkg/buffer/helpers.go:168-191 | the printed fields agree with those that were read, bit for bit where a flag announces them |
| Vp8.ReadAlike | pkg/buffer/helpers.go:75-146 | payloads that agree on flags and announced fields parse to the same value |
| Vp8.Descriptor.Unmarshal | pkg/buffer/helpers.go:60-154 | which of the three errors or none is returned, for every payload; the fields are those of the layout of section 4.2 of RFC 7741, and absent ones keep their value |
| Vp8.Descriptor.UnmarshalExtension | pkg/buffer/helpers.go:75-137 | the extension: errors and fields, with every read in range |
| Vp8.Descriptor.MarshalTo | pkg/buffer/helpers.go:156-198 | the buffer begins with the printed descriptor and is unchanged after it; too short a buffer is refused untouched |
| Vp8.FieldsDisjoint | pkg/rtc/sequencer.go:58-72 | the thirteen bit fields of the packed word can each be read back |
| Vp8.PackingLossless | pkg/rtc/sequencer.go:58-90 | unpacking a packed descriptor gives it back if and only if every field fits its width |
| Vp8.ParsedHeadersPack | pkg/rtc/sequencer.go:58-90 | every descriptor the parser produces comes back from its packed form |
| Vp8Layout.ParsesLayout | pkg/buffer/helpers.go:60-154 | every descriptor built from its fields by section 4.2 of RFC 7741 is read back as these fields, with a keyframe if and only if S is set and P is not; fields not announced keep their value; L without T is refused |
| Vp8Layout.CutShort | pkg/buffer/helpers.go:67-150 | cut off anywhere before the octet with the P bit it is too short, or refused for L without T once that shows |
| Vp8Layout.LayoutExists | pkg/buffer/helpers.go:60-154 | every accepted payload is the octets of such fields |
| Vp8Layout.PrintsLayout | pkg/buffer/helpers.go:156-198 | the printer gives the octets back if and only if reserved bits, and TID, Y or KEYIDX that are not announced, were 0 |
| Vp8Layout.PrintsPlain | pkg/buffer/helpers.go:192-195 | without extension the single octet comes back |
| Vp8Layout.PackedNumber | pkg/rtc/sequencer.go:58-72 | the packed word is the sum of the fields, each at its own power of two |
| H264.IsH264Keyframe | pkg/buffer/helpers.go:215-277 | on arbitrary bytes the loop equals a recursive walk that stops at the first malformed unit, with every read in range |
| H264.SingleUnit | pkg/buffer/helpers.go:219-225 | a payload that is a single unit, or of no known kind, is a keyframe if and only if its type is 7 |
| H264.Fragment | pkg/buffer/helpers.go:265-276 | a fragment is a keyframe if and only if it starts a unit of type 7; one cut off before its header, and an empty payload, are none |
| H264.WalkUnit | pkg/buffer/helpers.go:233-260 | where a unit was encoded the walk reads its size and header back and goes on behind it |
| H264.AggregateExact | pkg/buffer/helpers.go:226-264 | an aggregate whose size fields cover what stands in front of each unit, as the code reads MTAPs and as all STAPs are, is a keyframe if and only if a sequence parameter set comes before any empty unit |
| H264.AggregateOfUnits | pkg/buffer/helpers.go:226-264 | in that same layout and with no empty units: if and only if some unit is a sequence parameter set |
| H264.StapExact | pkg/buffer/helpers.go:226-264 | every STAP-A and STAP-B of section 5.7.1 of RFC 6184 is a keyframe if and only if a sequence parameter set comes before any empty unit |
| H264.WireUnit | pkg/buffer/helpers.go:233-260 | at a unit of an MTAP of section 5.7.2 of RFC 6184 the walk finds the NAL header only if the unit is longer than DOND and offset together, and goes on that many bytes short of the next unit |
| H264.MtapStep | pkg/buffer/helpers.go:226-264 | so the verdict on such an MTAP is that on its first unit, or that of a walk from inside it |
| H264.MtapFirstSps | pkg/buffer/helpers.go:245-254 | an MTAP that begins with a sequence parameter set is a keyframe if and only if that unit is longer than DOND and offset, whatever follows |
| H264.MtapSingle | pkg/buffer/helpers.go:245-254 | an MTAP of one unit is a keyframe if and only if the unit is a sequence parameter set longer than DOND and offset |
| H264.MtapRight | pkg/buffer/helpers.go:226-264 | when the verdict on an MTAP is right: if the first unit is a sequence parameter set, when it is longer than DOND and offset; if not, when the walk that lost its place agrees with the other units |
| H264.MtapLost | pkg/buffer/helpers.go:233-260 | what that walk looks at: a size made of the last bytes of the first unit and, as a NAL header, the DOND of the second |
| H264.MtapTold | pkg/buffer/helpers.go:233-260 | so, from the units alone: if that size leaves nothing to look at, the verdict is no keyframe, right if and only if no parameter set follows; if it fits and the DOND reads as one, the verdict is a keyframe, right if and only if one follows |
| H264.MtapMissed | pkg/buffer/helpers.go:240-259 | the concrete MTAP whose sequence parameter set is missed |
| H264.MtapInvented | pkg/buffer/helpers.go:245-254 | the concrete MTAP without one that is taken for a keyframe |
| FrameRate.CountIsSize | pkg/buffer/fps.go:133-142 | the counting loop gives the number of frames of layers up to t in the unbroken run |
| FrameRate.LastIsFurthest | pkg/buffer/fps.go:134-141 | its last timestamp is that of the furthest of these frames |
| FrameRate.InsertKeepsInv | pkg/buffer/fps.go:92-109 | storing a frame keeps: each slot holds the frame number at its distance from the base, first and second frames are stored, the first strictly before the second |
| FrameRate.RunInv | pkg/buffer/fps.go:48-112 | so in every reachable state |
| FrameRate.WindowExact | pkg/buffer/fps.go:69-98 | while a base stands, the window holds a frame number if and only if a packet with it came after the base |
| FrameRate.RatesSound | pkg/buffer/fps.go:114-147 | a rate that appears counts the frames after the layer's first, without a gap, up to its second, and there are enough |
| FrameRate.SettledCounts | pkg/buffer/fps.go:115-147 | the counter of settled layers is full exactly when each layer is rated, or has no frames above a rated one |
| FrameRate.CompletesExactly | pkg/buffer/fps.go:149-161 | the calculator completes if and only if every layer is settled |
| FrameRate.CompletionPermanent | pkg/buffer/fps.go:49-51 | once complete nothing changes any more |
| FrameRate.DuplicateIgnored | pkg/buffer/fps.go:76-90 | a frame number seen since the base changes nothing |
| FrameRate.RatesStick | pkg/buffer/fps.go:117-120 | a measured rate is not measured again |
| FrameRuns.RunHolds | pkg/buffer/fps.go:69-109 | while a base stands: a layer's first frame is that of its first new packet, or of the base; its second is that of the later and further packet with the greatest picture ID, and there is none exactly when there is no such packet; each new packet's frame is in the window |
| FrameRuns.RatedWhenDue | pkg/buffer/fps.go:114-147 | in every reachable state a layer has its rate if 8, 15 or 40 frames of layers up to 0, 1 or 2 follow its first without a gap, up to its second |
| FrameRuns.NineComplete | pkg/buffer/fps.go:48-162 | nine packets with successive picture IDs in layer 0 measure it, from 8 frames, and complete the calculation |
| FrameRuns.RecvResets | pkg/buffer/fps.go:76-86 | 64 to 16384 ahead of the base a packet empties all stores but the rates; at the base's number, further ahead or behind it does nothing |
| FrameRuns.RecvIgnores | pkg/buffer/fps.go:49-62 | nothing is done after completion, without VP8, or for a temporal layer above 3 |
| FrameRuns.WrappedIgnored | pkg/buffer/fps.go:76-79 | a picture ID that is not above the base's, as after wrapping around in 7 or 15 bits, is ignored |
| FrameRate.FrameRateCalculatorVP8.constructor | pkg/buffer/fps.go:37-42 | the empty calculator |
| FrameRate.FrameRateCalculatorVP8.Clear | pkg/buffer/fps.go:164-174 | all stores but the rates are emptied |
| FrameRate.FrameRateCalculatorVP8.MeasureLayer | pkg/buffer/fps.go:133-143 | frame count and timestamps of one layer, every index within the 64 slots |
| FrameRate.FrameRateCalculatorVP8.RateLayer | pkg/buffer/fps.go:116-147 | one layer is settled by a known rate, by having no frames above a settled one, or by a measurement, as the model does |
| FrameRate.FrameRateCalculatorVP8.UpdateRates | pkg/buffer/fps.go:114-162 | the loop over the layers measures and completes as the model does |
| FrameRate.FrameRateCalculatorVP8.RecvPacket | pkg/buffer/fps.go:48-112 | every packet moves the stores as the model moves, and the invariant stays |

## Left out

- RtpStats.RTPStats.Update: packets of 65536 bytes or more are outside the packet type, since the code truncates sizes to 16 bits and takes size 0 to mean "lost"; a header has at least 12 bytes.
- RtpStats.RTPStats.NewSnapshotId: agreement with the model is kept only for an id that has not reported yet; reporting under an id never handed out, and then allocating it, resets that id's span.
- RtpStats.RTPStats.GetAndResetSnapshot: only the position of a snapshot is modelled; start time, maxima and the counters it copies are not, nor is the receiver-report-driven mode.
- RtpStats.RTPStats.SnapshotRtcpReceptionReport: the receiver-report-driven branch is not modelled; jitter, last sender report and delay are clock based and not part of the report here; the fraction is exact arithmetic, see IntervalModel.RoundingHarmless.
- RtpStats.RTPStats.DeltaInfo: the receiver-report-driven branch, times, jitter, round-trip time and the differences of duplicate, NACK, PLI and FIR counters are not modelled.
- FrameRate.RatesStick: does not cover layer 1 at completion, where the code may replace its rate by half that of layer 2.
- FrameRate.FrameRateCalculatorVP8.UpdateRates: a rate is a pair of frames and clock ticks; the floating-point quotient and its normalisation at completion are not modelled, and the clock rate is taken to be positive.
- Vp8.Descriptor.Unmarshal: which of the fields were already written when an error is returned is not specified.
- Vp8.Descriptor.UnmarshalExtension: likewise for the fields of the extension.
- Vp8.Descriptor.MarshalTo: a buffer that holds HeaderSize bytes but not the fields would be written out of range; such a call is excluded by the precondition.
- Vp8.Pack: presence fields, integers 0 or 1 in the code, are booleans.
- ReceiveBuffer.Buffer.Bind: of the parameters only whether NACK is negotiated and whether the codec is redundant audio; codec types, header extensions, snapshot ids and the packet bucket are not modelled, and packets are taken as parsed.
- Forwarding.DownTrack.Bind: codec matching and its error, binding a second time, and header extensions are not modelled.
- Forwarding.DownTrack.WriteSimpleRTP: the track's own statistics, which count every packet sent, are not modelled.
- Forwarding.DownTrack.RetransmitPackets: neither are those, nor the NACK hit, miss and repetition counters.
- Byte counters are unbounded where the code has 64 bits; snapshot ids do not wrap.
- Receiver-report-driven statistics, resynchronisation on the next packet and seeding from another object.
- Jitter, gap histogram, rates, bitrates, the running frame counter, sender-report times, wall-clock times and string or protocol-buffer output.
- Locks and goroutines: each locked method is one step, and so are the report functions, which release the lock in between, and one replay, during which records are not recycled.
- The NACK queue is the sequence of calls made on it; reading packets back from the publisher's buffer, rewriting header extensions and the write stream are parameters that say how it ends. Only 16-bit source numbers tell publisher packets apart. The bucket, the NACK queue itself, transport-wide feedback and the WebRTC library are not part of this model.
- Closing a down track beyond dropping the binding.
- Codec-specific data of a sequencer record other than the packed VP8 descriptor, which nothing in the modelled code stores.
- AV1 keyframe detection, codec and parameter conversion, audio levels, recording, signalling, routers, transports, rooms and configuration.
