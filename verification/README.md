# Verification of the bilateral teleoperation safety loop

A leader arm streams joint commands to a follower arm over UDP; the follower answers with feedback
packets, and on request the leader renders the follower's contact as force. Two questions decide
whether this is safe: may the follower's motors move, and may the leader's motors push. This project
models the code that answers them, and proves what it guarantees in every run:

- the datagrams: packed layout, checksum, encoding, validation (`Crc32*`, `LittleEndian`, `Packets`,
  `PacketLayout`, `PacketCodec`, `WireFormat`, `Telemetry`);
- the two receive buffers with their modular sequence numbers, loss counters, sliding window and
  percentiles (`SequenceNumbers`, `TeleopStateBuffer`, `FeedbackStateBuffer`, `LinkRuns`, `LinkStatistics`,
  `OrderStatistics`);
- the follower's chain from command to reference (`Watchdog`, `SafetyManager`, `SafetyRuns`, `RateLimiter`,
  `FollowerCycle`, `FollowerJudgement`, `FollowerReferences`) and its threads at lock granularity (`FollowerThreads`, `LiveCommands`, `CommandAge`);
- the leader's chain from feedback to torque (`BilateralGate`, `GateVerdict`, `GateCounters`, `LeaderGate`, `LeaderGateRuns`, `GateSamples`,
  `BilateralEngager`, `EngagerRuns`, `LeaderControl`, `LeaderTorque`, `LeaderForces`, `LeaderCycle`);
- both sides together over a network that drops, duplicates and reorders (`JointCounts`, `JointExchange`,
  `CommandFlags`, `TeleopSystem`, `RenderedForce`);
- the swivel recurrence of the VR leader (`SwivelEstimator`).

Objects that the program updates in place are classes whose methods are proved against functions of
the old state; runs, interleavings and bounds are lemmas about those functions. Clock readings, joint
measurements, link information and the results of the dynamics libraries are arbitrary inputs.
Doubles are exact: opaque 64-bit words in the codec, a finite/infinite/NaN datatype for what packets and
motors deliver, and `real` for clocks, configuration and the engager's scale.

`dafny verify dfyconfig.toml` checks everything.

## Where the code and its documentation differ

The model follows the code.

- `docs/protocol.md:57` and `tests/test_seq_loss_detection.cpp:17-28` say out-of-order commands are rejected.
  `src/core/teleop_state_buffer.cpp:22-28` takes a backward jump for a sender restart and accepts the packet
  (`TeleopStateBuffer.BackwardJumpIsAccepted`).
- `docs/bilateral_design.md:115` says that `shutdown` clears the bilateral request. It does not
  (`LeaderGateRuns.OnlyShutdownKeepsRequest`).
- `include/openarm_wifi_teleop/control/bilateral_engager.hpp:11` says that every state releases through RAMP_DOWN.
  WAIT_ALIGN goes straight to OFF (`EngagerRuns.UnwantedStepReleasesIff`).
- `docs/telemetry_protocol.md:7` gives the telemetry packet 164 bytes; the packed structure has 228.
- The gate is documented as continuous. A `bilateral_enable` made while the request already stands can be
  refused and leave the request in place (`LeaderGateRuns.RefusalScenario`). That guard is the exact
  condition: `LeaderGateRuns.ContinuousGating` holds for every other call, and every such call before the
  next check can fail (`LeaderGateRuns.EnableBreaksGatingIff`).
- The loss percentage is computed in 32 bits. Once received plus lost packets of a window reach 2^32 it is
  wrong, and four packets are enough to report almost total loss as none (`GateCounters.WrappedLossPasses`).
  `GateCounters.VerdictExactIffTrustworthy` gives the exact condition.
- Neither validation nor the controllers bound the joint counts of a packet by its arrays
  (`JointCounts.NineJointsOverrun`, `JointCounts.TargetsInsideIff`, `JointCounts.ReferencesInsideIff`).
- The rate limiter leaves targets alone when the packet's joint counts do not add up to the arm's
  (`FollowerReferences.LimitHoldsIffSizesMatch`), and it lets a NaN through, after which the next target is
  taken at any distance (`FollowerReferences.TwoCommandsMoveAnyDistance`). The exact condition is
  `FollowerReferences.RestrainedIffNoNan` for one command and `FollowerReferences.ReferenceRestrainedIff` for a run.
- The follower reads the newest packet and its receive time under separate locks
  (`src/apps/wifi_bimanual_follower.cpp:548`, `src/apps/wifi_bimanual_follower.cpp:554`), so the age that is judged is
  that of the newest command, which may be newer than the one applied (`CommandAge.AppliedCommandMayBeOld`;
  `CommandAge.UndisturbedAgeIsOwn` says when it is not).

## Model

| member | source | states |
|---|---|---|
| Crc32.MaskedCrc32 | src/net/packet_codec.cpp:8-17 | the masked bitwise loops compute the reference checksum |
| Crc32.BranchingCrc32 | src/telemetry/openarm_telemetry_publisher.cpp:44-54 | the branching loops of the telemetry publisher compute the same checksum |
| Crc32.CrcIsTableDriven | src/net/packet_codec.cpp:8-17 | the checksum equals the table-driven method of section 8 of RFC 1952 on every byte string |
| Crc32Check.CheckValue | src/net/packet_codec.cpp:8-17 | the checksum of the digits 123456789 is 0xCBF43926 |
| Crc32.StepInjective | src/net/packet_codec.cpp:13 | a register step never maps two registers to one |
| Crc32.RunConcat | src/net/packet_codec.cpp:10-15 | running over a concatenation is running over its parts in turn |
| Crc32Errors.BurstChangesCrc | src/net/packet_codec.cpp:8-17 | buffers of any length that differ only within 32 consecutive bits, lowest bit first, have different checksums |
| Crc32Errors.ShortRunsInjective | src/net/packet_codec.cpp:10-15 | runs over different bit strings of one length up to 32 end in different registers |
| Crc32Residue.ResidueIffOwnChecksum | src/net/packet_codec.cpp:8-17 | of all four-byte tails exactly the little-endian checksum makes the checksum of the whole the fixed residue |
| PacketLayout.TeleopOfBytes | include/openarm_wifi_teleop/net/teleop_packet.hpp:21-47 | parsing the packed little-endian bytes of a command gives the command back |
| PacketLayout.BytesOfTeleop | include/openarm_wifi_teleop/net/teleop_packet.hpp:21-47 | every 224 bytes are the packed bytes of the command parsed from them |
| PacketLayout.FeedbackOfBytes | include/openarm_wifi_teleop/net/feedback_packet.hpp:18-52 | parsing the packed little-endian bytes of a feedback packet gives the packet back |
| PacketLayout.BytesOfFeedback | include/openarm_wifi_teleop/net/feedback_packet.hpp:18-52 | every 340 bytes are the packed bytes of the feedback packet parsed from them |
| WireFormat.HeaderOffsets | include/openarm_wifi_teleop/net/teleop_packet.hpp:22-33 | which byte of a datagram each header field is: number at 8, send time at 12, side, mode, enable and estop at 20 to 23 |
| WireFormat.TeleopOffsets | include/openarm_wifi_teleop/net/teleop_packet.hpp:21-47 | which bytes of a command each field and array element is |
| WireFormat.FeedbackOffsets | include/openarm_wifi_teleop/net/feedback_packet.hpp:18-48 | which bytes of a feedback packet each single field is |
| WireFormat.FeedbackArmOffsets | include/openarm_wifi_teleop/net/feedback_packet.hpp:41-43 | which bytes each arm joint of a feedback packet is |
| WireFormat.FeedbackHandOffsets | include/openarm_wifi_teleop/net/feedback_packet.hpp:44-46 | which bytes each hand joint of a feedback packet is |
| WireFormat.AcceptedTeleopBegins | src/net/packet_codec.cpp:31-39 | the first eight bytes of every command received |
| WireFormat.AcceptedFeedbackBegins | src/net/packet_codec.cpp:67-69 | the first eight bytes of every feedback packet received |
| WireFormat.EncodingStamps | src/net/packet_codec.cpp:20-23 | what encoding writes into a header and what it leaves |
| WireFormat.Bytes64AreLowFirst | include/openarm_wifi_teleop/net/teleop_packet.hpp:27 | words lie in a datagram lowest byte first |
| Telemetry.FollowingCounts | src/telemetry/openarm_telemetry_publisher.cpp:63 | each datagram's number is one more than the last one's, in 32 bits |
| WireFormat.TelemetryOffsets | src/telemetry/openarm_telemetry_publisher.cpp:59-67 | which bytes of a telemetry datagram each field is |
| PacketCodec.TeleopDatagram.Encode | src/net/packet_codec.cpp:19-28 | the packet in place becomes its encoding: stamp and checksum, nothing else |
| PacketCodec.TeleopDatagram.DecodeAndValidate | src/net/packet_codec.cpp:30-47 | accepts iff magic, version, size and checksum fit, and leaves the packet unchanged |
| PacketCodec.FeedbackDatagram.Encode | src/net/packet_codec.cpp:55-64 | the packet in place becomes its encoding: stamp and checksum, nothing else |
| PacketCodec.FeedbackDatagram.DecodeAndValidate | src/net/packet_codec.cpp:66-78 | accepts iff magic, version, size and checksum fit, and leaves the packet unchanged |
| PacketCodec.ReceiveTeleop | src/net/udp_receiver.cpp:118-122 | a datagram is handed on iff it has the command's size and validates |
| PacketCodec.ReceiveFeedback | src/apps/wifi_bimanual_leader.cpp:438-443 | a datagram is handed on iff it has the feedback packet's size and validates |
| PacketCodec.TeleopRoundTrip | src/net/packet_codec.cpp:19-47 | serialising, parsing and validating an encoded command succeeds and returns every field |
| PacketCodec.FeedbackRoundTrip | src/net/packet_codec.cpp:55-78 | serialising, parsing and validating an encoded feedback packet succeeds and returns every field |
| PacketCodec.TeleopAcceptedIffOwnEncoding | src/net/packet_codec.cpp:19-47 | validation accepts exactly the commands equal to their own re-encoding at the same send time |
| PacketCodec.FeedbackAcceptedIffOwnEncoding | src/net/packet_codec.cpp:55-78 | validation accepts exactly the feedback packets equal to their own re-encoding at the same send time |
| PacketCodec.TeleopReceivedIffFrame | src/net/packet_codec.cpp:30-47 | what is received as a command, said of the bytes alone |
| PacketCodec.FeedbackReceivedIffFrame | src/net/packet_codec.cpp:66-78 | what is received as feedback, said of the bytes alone |
| PacketCodec.AcceptedFrameHasResidue | src/net/packet_codec.cpp:30-47 | with a right header, a frame is accepted iff the checksum of the whole frame is the residue |
| PacketCodec.BurstIsRejected | src/net/packet_codec.cpp:30-47 | no damage within 32 consecutive bits turns an accepted frame into an accepted one |
| PacketCodec.DamagedTeleopIsDropped | src/net/packet_codec.cpp:19-47 | an encoded command damaged within 32 consecutive bits, checksum field included, is not received |
| PacketCodec.DamagedFeedbackIsDropped | src/net/packet_codec.cpp:55-78 | an encoded feedback packet damaged within 32 consecutive bits, checksum field included, is not received |
| PacketCodec.TeleopIsNotFeedback | src/net/packet_codec.cpp:30-78 | no datagram that validates as one kind validates as the other, whatever follows its first bytes |
| Telemetry.TelemetryPublisher.Publish | src/telemetry/openarm_telemetry_publisher.cpp:56-76 | a closed socket sends nothing; an open one sends the stamped, numbered copy with its checksum, and all datagrams so far stay consecutively numbered with the residue |
| SequenceNumbers.DroppedAreCounted | src/core/feedback_state_buffer.cpp:18-38 | with numbers modulo 2^32, in-order delivery and gaps up to 0x7FFFFFFF the loss counter is the number of packets dropped between the first and last delivered |
| TeleopStateBuffer.Buffer.Update | src/core/teleop_state_buffer.cpp:13-54 | the whole new state: loss, restart, timing statistics and the packet, which is always taken |
| TeleopStateBuffer.Buffer.RecordGap | src/core/teleop_state_buffer.cpp:35-45 | the largest gap and the smoothed period after a gap |
| TeleopStateBuffer.Buffer.GetLatest | src/core/teleop_state_buffer.cpp:56-61 | the newest command, or none before the first |
| TeleopStateBuffer.UpdateKeepsConsistent | src/core/teleop_state_buffer.cpp:13-54 | the smoothed period stays between zero and the largest gap, and the stored number is the newest packet's |
| TeleopStateBuffer.LossIsDropped | src/core/teleop_state_buffer.cpp:18-53 | the loss counter equals the commands dropped between the first and the last one received, modulo 2^32 |
| TeleopStateBuffer.BackwardJumpIsAccepted | src/core/teleop_state_buffer.cpp:18-53 | for every buffer every packet is taken; the statistics restart iff the number is more than 0x7FFFFFFF ahead, the loss counter grows by the numbers skipped otherwise |
| TeleopStateBuffer.PredecessorReplacesNewest | src/core/teleop_state_buffer.cpp:22-28 | the packet sent just before the newest one, arriving late, replaces it and restarts the statistics |
| TeleopStateBuffer.StatisticsFollowGaps | src/core/teleop_state_buffer.cpp:35-45 | in nanoseconds: the largest gap is the larger of old and new, the period is smoothed by a tenth and started by the first gap |
| FeedbackStateBuffer.Buffer.constructor | src/core/feedback_state_buffer.cpp:11-12 | an unused buffer with the window in nanoseconds |
| FeedbackStateBuffer.Buffer.Update | src/core/feedback_state_buffer.cpp:14-40 | the pruned buffer keeps representing the full log; after a packet is taken it holds exactly the window |
| FeedbackStateBuffer.Buffer.TrimLocked | src/core/feedback_state_buffer.cpp:42-46 | popping from the front leaves exactly the samples inside the window |
| FeedbackStateBuffer.Buffer.GetLatest | src/core/feedback_state_buffer.cpp:48-53 | the newest packet, or none before the first and after a reset |
| FeedbackStateBuffer.Buffer.Snapshot | src/core/feedback_state_buffer.cpp:55-94 | every statistic is that of the full, never pruned log at that time |
| FeedbackStateBuffer.Buffer.Accumulate | src/core/feedback_state_buffer.cpp:68-76 | the loop counts the window's packets and losses in 32 bits and collects its round trips and hold times |
| FeedbackStateBuffer.Buffer.Reset | src/core/feedback_state_buffer.cpp:96-100 | a reset forgets the samples and keeps the totals |
| FeedbackStateBuffer.PrunedWindow | src/core/feedback_state_buffer.cpp:42-71 | pruned samples and full log have the same window at every later time |
| FeedbackStateBuffer.ArrivalKeepsConsistent | src/core/feedback_state_buffer.cpp:14-40 | a packet keeps the samples in time order and every packet accounted for |
| LinkRuns.NoPacketUnaccounted | src/core/feedback_state_buffer.cpp:18-38 | across restarts, duplicates and resets, received plus lost packets are the lengths of all epochs, modulo 2^32 |
| LinkRuns.LossIsDropped | src/core/feedback_state_buffer.cpp:18-38 | the loss counter equals the feedback packets dropped between the first and the last one received, modulo 2^32 |
| LinkRuns.RepetitionChangesNothing | src/core/feedback_state_buffer.cpp:25-26 | a repetition of the newest packet changes no statistic at any time, nor anything else |
| LinkRuns.TakenPacketIsLogged | src/core/feedback_state_buffer.cpp:18-38 | which sample a packet adds, when the log starts over, and by how much the loss counter grows |
| LinkRuns.NewestIsLatestTaken | src/core/feedback_state_buffer.cpp:19-36 | in every run the newest packet, its number and its receive time are those of the latest arrival that was no repetition, and there is data unless a reset followed |
| LinkRuns.ReceivedIsTaken | src/core/feedback_state_buffer.cpp:37 | in every run the packet counter counts those arrivals, modulo 2^32 |
| LinkRuns.ResetForgetsSamples | src/core/feedback_state_buffer.cpp:96-100 | a reset empties the log and keeps the totals |
| LinkStatistics.WindowKeepsYoung | src/core/feedback_state_buffer.cpp:70-71 | the window holds each sample of the log exactly if its age is at most the window, as often as the log does |
| LinkStatistics.AgeAndRate | src/core/feedback_state_buffer.cpp:58-77 | the age in nanoseconds, the rate as received over window, the totals, and no age without data |
| LinkStatistics.RoundTripFigures | src/core/feedback_state_buffer.cpp:85-88 | median, 95th percentile and maximum of the round trips as counts of the window's samples |
| LinkStatistics.HoldFigure | src/core/feedback_state_buffer.cpp:90-91 | the 95th percentile of the hold times as a count of the window's samples |
| OrderStatistics.PercentileWithin | src/core/feedback_state_buffer.cpp:80-84 | a percentile is within a limit iff at least its rank plus one of the unsorted samples are |
| OrderStatistics.LastIsMaximum | src/core/feedback_state_buffer.cpp:88 | the last sorted sample bounds all samples and is one of them |
| OrderStatistics.SortedIsSorted | src/core/feedback_state_buffer.cpp:81 | the sorted samples are an ordered rearrangement |
| BilateralGate.CheckLink | src/safety/bilateral_gate.cpp:17-47 | names all faults of the interface, and passes iff the configuration's demands on it hold |
| BilateralGate.CheckFeedback | src/safety/bilateral_gate.cpp:49-88 | names all faults of the feedback, and passes iff age, rate, round trip, loss, follower link and estop are acceptable |
| GateVerdict.VerdictInRawTerms | src/safety/bilateral_gate.cpp:49-88 | on a trustworthy window, passing a snapshot is a statement about the raw samples: received against rate times window, lost against received plus lost, and how many round trips are within the limit |
| GateCounters.LossExactIffCountersFit | src/core/feedback_state_buffer.cpp:69-78 | the reported loss is the true loss iff received plus lost stay below 2^32 |
| GateCounters.VerdictExactIffTrustworthy | src/safety/bilateral_gate.cpp:49-88 | under every configuration the verdict is the raw one iff received plus lost stay below 2^32, or there is no round trip, or the follower is in estop (or all of 2^32 packets arrived at one instant with an unharmed percentage) |
| GateCounters.WrappedLossMisleads | src/core/feedback_state_buffer.cpp:69-78 | wherever the wrapped percentage differs, some loss limit separates verdict and truth |
| GateCounters.WrappedRateMisleads | src/core/feedback_state_buffer.cpp:69-77 | wherever the packet count wraps, some rate limit separates verdict and truth |
| GateCounters.WrappedLossPasses | src/core/feedback_state_buffer.cpp:69-78 | a run of the buffer, four packets in one window, after which almost total loss passes a strict gate |
| Watchdog.SeverityGrowsWithAge | src/safety/watchdog.cpp:9-18 | an older command is never judged milder, whatever the order of the thresholds |
| SafetyManager.Manager.constructor | src/safety/safety_manager.cpp:8-15 | starts armed as the configuration says |
| SafetyManager.Manager.Update | src/safety/safety_manager.cpp:17-72 | the new state for every state, flag and age |
| SafetyManager.Manager.TriggerEstop | src/safety/safety_manager.cpp:79-84 | latches the estop |
| SafetyManager.Manager.Reset | src/safety/safety_manager.cpp:86-95 | clears the latch and re-arms |
| SafetyRuns.NeverDisabled | src/safety/safety_manager.cpp:8-95 | no run reaches DISABLED |
| SafetyRuns.NoSilentRearm | src/safety/safety_manager.cpp:8-95 | between FAULT or ESTOP and the next driving state there is a reset, or an enable 0 followed by an enable 1 where enabling is required and no estop is latched |
| SafetyRuns.ToggleRearms | src/safety/safety_manager.cpp:32-71 | that toggle does restore driving, iff the command is younger than the disable threshold |
| SafetyRuns.LatchedEstopHolds | src/safety/safety_manager.cpp:20-26 | a latched estop holds until a reset, whatever the packets say |
| SafetyRuns.SilentStateIsJudgement | src/safety/safety_manager.cpp:40-71 | during silence each cycle's state is the watchdog's judgement of that cycle's gap |
| SafetyRuns.SilenceEscalates | src/safety/safety_manager.cpp:40-71 | during silence states never step back, and FAULT is exactly a gap at or past the disable threshold and is kept |
| RateLimiter.Limiter.Limit | src/safety/rate_limiter.cpp:13-27 | the array in place, NaN and infinities included: every target limited, or untouched if the sizes differ |
| RateLimiter.LimitedWithinIff | src/safety/rate_limiter.cpp:19-26 | from a number, a cycle gives a number within the limit iff the target is not NaN |
| RateLimiter.NanOpensTheLimit | src/safety/rate_limiter.cpp:19-26 | a NaN target becomes the reference, and the cycle after it takes any target unlimited |
| RateLimiter.TravelBound | src/safety/rate_limiter.cpp:19-26 | k cycles without a NaN target move a number by at most k limits, however targets jump |
| RateLimiter.RestrainedIff | src/safety/rate_limiter.cpp:19-26 | a trajectory from a number keeps that bound between any two of its cycles iff none of its targets is NaN |
| RateLimiter.StepTowardsTarget | src/safety/rate_limiter.cpp:19-26 | a cycle covers the limit or all that is left and never passes the target |
| RateLimiter.ApproachExactly | src/safety/rate_limiter.cpp:19-26 | the distance to a fixed target after k cycles, exactly, and that the reference stays between start and target |
| RateLimiter.ArrivesOnTime | src/safety/rate_limiter.cpp:19-26 | arrival takes exactly the distance over the limit, rounded up |
| FollowerCycle.FollowerArm.Judge | src/apps/wifi_bimanual_follower.cpp:552-557 | the safety state after judging the held command by the age of the newest one; nothing happens before the first command |
| FollowerJudgement.JudgedByAge | src/apps/wifi_bimanual_follower.cpp:555-556 | on an enabling command FAULT, HOLD, WARNING_TIMEOUT and ACTIVE are each exactly a range of clock reading minus receive time, in nanoseconds |
| FollowerJudgement.FollowedIffYoung | src/apps/wifi_bimanual_follower.cpp:570-571 | references are taken exactly while neither the hold nor the disable threshold is reached |
| FollowerJudgement.EstopPacketStops | src/safety/safety_manager.cpp:20-26 | a command with estop stops the arm from any state without latching |
| FollowerJudgement.DisabledPacketDisarms | src/safety/safety_manager.cpp:32-38 | a command without enable disarms from any state and at any age, unless an estop is latched |
| FollowerJudgement.EnableIsIgnored | src/safety/safety_manager.cpp:32-58 | where enabling is not required the flag matters only while waiting |
| FollowerJudgement.DrivingWasEnabled | src/safety/safety_manager.cpp:8-95 | where enabling is required every driving state goes back to an enable 1 with no stop, reset or enable 0 since |
| FollowerCycle.FollowerArm.Follow | src/apps/wifi_bimanual_follower.cpp:570-590 | references change only in ACTIVE, READY or WARNING_TIMEOUT with a command, and then as limited; for commands whose joint counts fit the packet |
| FollowerCycle.FillFeedback | src/apps/wifi_bimanual_follower.cpp:106-135 | the packet field by field: enabled iff ACTIVE, estop iff ESTOP, link flag, the command's echo, its hold time and as many joints as fit |
| FollowerCycle.StateCodes | src/apps/wifi_bimanual_follower.cpp:114 | the number each safety state has in the packet |
| FollowerCycle.HoldIs | src/apps/wifi_bimanual_follower.cpp:119-120 | the hold time runs from the receive time and is never negative |
| FollowerReferences.FollowedJoint | src/apps/wifi_bimanual_follower.cpp:572-590 | where each joint's reference goes, for every combination of joint counts |
| FollowerReferences.FollowedVelocity | src/apps/wifi_bimanual_follower.cpp:580-589 | a joint that takes a position takes the velocity commanded for it |
| FollowerReferences.ReferenceTravelBound | src/apps/wifi_bimanual_follower.cpp:572-590 | with matching sizes, k cycles that send a joint to no NaN move its reference by at most k limits |
| FollowerReferences.ReferenceRestrainedIff | src/apps/wifi_bimanual_follower.cpp:572-590 | with matching sizes, that bound holds over a whole run iff no command sends the joint to a NaN |
| FollowerReferences.RestrainedIffNoNan | src/apps/wifi_bimanual_follower.cpp:572-590 | with matching sizes a command is restrained in every joint iff none of its targets is NaN |
| FollowerReferences.NanThenAnyTarget | src/apps/wifi_bimanual_follower.cpp:572-590 | for all references, a command with a NaN and then any command put the joint on its target at once |
| FollowerReferences.TwoCommandsMoveAnyDistance | src/apps/wifi_bimanual_follower.cpp:572-590 | two commands of matching size that together move a reference by any given distance |
| FollowerReferences.ReferenceArrives | src/apps/wifi_bimanual_follower.cpp:572-590 | towards one command a reference stays between start and target and arrives after exactly the distance over the limit, rounded up |
| FollowerReferences.LimitHoldsIffSizesMatch | src/safety/rate_limiter.cpp:14 | the limit holds for every command without NaN of given joint counts iff they match the arm's, or nothing is there to move |
| FollowerThreads.StepKeepsSound | src/apps/wifi_bimanual_follower.cpp:547-681 | every locked step of receiver, handler, pose and control thread keeps the invariant that a driving state read in a cycle was earned by that cycle's judgement |
| FollowerThreads.InitialIsSound | src/apps/wifi_bimanual_follower.cpp:269-270 | the invariant holds at start-up when enabling is required |
| FollowerThreads.JudgementEarnsState | src/safety/safety_manager.cpp:17-72 | with enabling required, one update gives a state without drive or the watchdog's judgement of an enabling command |
| FollowerThreads.FollowIsDefinedIff | src/apps/wifi_bimanual_follower.cpp:578-579 | a begun reference part has a next step iff its reads stay inside the command's arrays, which is iff the command has at most 8 arm and 4 hand joints |
| FollowerThreads.UndisturbedCycleFollows | src/apps/wifi_bimanual_follower.cpp:572-590 | the four locked reads and writes, undisturbed, are the reference update of one arm |
| JointCounts.CommandCountsPass | src/net/packet_codec.cpp:30-47 | validation accepts commands with any joint counts |
| JointCounts.FeedbackCountsPass | src/net/packet_codec.cpp:66-78 | validation accepts feedback with any joint counts |
| JointCounts.TargetsInsideIff | src/apps/wifi_bimanual_follower.cpp:578-579 | the follower's reads stay inside a command's arrays iff it has at most 8 arm and 4 hand joints |
| JointCounts.ReferencesInsideIff | src/apps/wifi_bimanual_leader.cpp:674-677 | the leader's reads stay inside a feedback packet's arrays iff it has at most 8 arm and 4 hand joints |
| JointCounts.NineJointsOverrun | src/apps/wifi_bimanual_follower.cpp:578-579 | a received command that the follower reads past |
| LiveCommands.ReferencesMoveOnlyOnLiveCommands | src/apps/wifi_bimanual_follower.cpp:547-597 | under any interleaving, also between the reads and writes of the references, every write of a cycle holds a command with enable set and no estop, and the clock it read was less than the hold threshold after a command's arrival |
| LiveCommands.OnlyWritesMoveReferences | src/apps/wifi_bimanual_follower.cpp:589-590 | references change only by those writes or a pose move |
| CommandAge.UndisturbedAgeIsOwn | src/apps/wifi_bimanual_follower.cpp:548-555 | the judged age is that of the command applied if none arrives between reading it and reading the receive time |
| CommandAge.AppliedCommandMayBeOld | src/apps/wifi_bimanual_follower.cpp:548-555 | a run for every `late`: about to write a command whose only delivery was at time 0, the clock at `late` |
| LiveCommands.RunIsSound | src/apps/wifi_bimanual_follower.cpp:547-681 | the invariant holds in every state of every run |
| BilateralEngager.Engager.Update | include/openarm_wifi_teleop/control/bilateral_engager.hpp:28-53 | the new state and scale for every state and input |
| BilateralEngager.Engager.Reset | include/openarm_wifi_teleop/control/bilateral_engager.hpp:56 | off at once, without a ramp |
| EngagerRuns.RunIsShaped | include/openarm_wifi_teleop/control/bilateral_engager.hpp:28-53 | in every run OFF and WAIT_ALIGN mean scale 0, ENGAGED means 1, and the scale stays between them |
| EngagerRuns.StepMovesScale | include/openarm_wifi_teleop/control/bilateral_engager.hpp:28-53 | only a wanted RAMP_UP raises the scale, only RAMP_DOWN lowers it, and it always does |
| EngagerRuns.UnwantedStepReleasesIff | include/openarm_wifi_teleop/control/bilateral_engager.hpp:28-53 | an unwanted step ends in RAMP_DOWN iff it starts in RAMP_UP, ENGAGED or a RAMP_DOWN with scale left over, and OFF with scale 0 otherwise |
| EngagerRuns.WantedStepIff | include/openarm_wifi_teleop/control/bilateral_engager.hpp:28-53 | from which states a wanted step waits, goes on releasing, or drives on |
| EngagerRuns.ForceStartsAligned | include/openarm_wifi_teleop/control/bilateral_engager.hpp:34-43 | every interval of positive scale starts from a WAIT_ALIGN step with want and alignment |
| EngagerRuns.ForceRisesOnlyWanted | include/openarm_wifi_teleop/control/bilateral_engager.hpp:39-43 | the scale rises only while force is wanted |
| EngagerRuns.FallCompletes | include/openarm_wifi_teleop/control/bilateral_engager.hpp:48-51 | once falling the scale falls strictly until zero |
| EngagerRuns.NoRiseBeforeZero | include/openarm_wifi_teleop/control/bilateral_engager.hpp:48-51 | between a fall and the next rise the scale reaches zero, strictly falling |
| EngagerRuns.ReleaseRamp | include/openarm_wifi_teleop/control/bilateral_engager.hpp:39-51 | the scale of every cycle of a release, exactly |
| EngagerRuns.ReleasedInTime | include/openarm_wifi_teleop/control/bilateral_engager.hpp:39-51 | from the first unwanted cycle the scale is zero within ceil(max(ramp_down, 1 ms) times rate) further cycles, even if want returns |
| EngagerRuns.RisingRamp | include/openarm_wifi_teleop/control/bilateral_engager.hpp:39-43 | the scale of every wanted cycle of ramping up, exactly |
| EngagerRuns.EngagesInTime | include/openarm_wifi_teleop/control/bilateral_engager.hpp:28-47 | wanted and aligned from the start, the engager is engaged exactly from 2 + ceil(max(ramp_up, 1 ms) times rate) cycles on |
| LeaderControl.Control.SetEffortLimits | src/controller/control.cpp:100-107 | afterwards every motor has a finite positive limit: the requested one if it is that, else the default |
| LeaderControl.Control.ClampLeaderEffort | src/controller/control.cpp:121-125 | non-finite torques become zero, others are clamped to the joint's limit |
| LeaderControl.Clamped | src/controller/control.cpp:121-125 | the result is finite and within the limit for every torque, NaN and infinities included |
| LeaderControl.Control.ComputeAllFriction | src/controller/control.cpp:127-136 | each joint's friction from its own velocity, the gripper's joints after the arm's |
| LeaderControl.Control.LeaderStep | src/controller/control.cpp:359-513 | the torque of every joint, and that each is finite and within its limit for any inputs |
| LeaderTorque.ClampIsLipschitz | src/controller/control.cpp:121-125 | clamping never widens the distance of two torques |
| LeaderTorque.ScaledTorque | src/controller/control.cpp:401-466 | a null command and a zero scale are one: the torque carries the scale's share of the reflected term |
| LeaderTorque.UpdateMovesTorqueLittle | src/controller/control.cpp:401-466 | one engager update moves a torque by at most dt / max(ramp, 1 ms) of the joint's full reflected term, across the null boundary too |
| LeaderTorque.UnrenderedTorqueIsStill | src/controller/control.cpp:401-405 | with too few gains or references the scale does not touch the torque |
| LeaderTorque.ReflectedIsFinite | src/controller/control.cpp:440-463 | finite readings, references and gains give a finite reflected term |
| LeaderTorque.GripperRoundTrip | src/joint_state_converter.hpp:84-105 | the gripper reference, carried in metres, comes back to the motor angle it was measured at |
| LeaderTorque.OnlyContactIsReflected | src/controller/control.cpp:407-463 | with both arms together at rest, the reflected term is the follower's torque without its gravity, times the gain, opposed |
| LeaderForces.ArmReflection | src/controller/control.cpp:436-439 | an arm joint's reflected term in plain numbers: gain times error, minus damping times velocity, minus force gain times contact |
| LeaderForces.GripperReflection | src/controller/control.cpp:457-463 | the same for a gripper joint, with the travel turned into a motor angle |
| LeaderForces.DamperTakesPower | src/controller/control.cpp:436-437 | the damper never puts power into a joint |
| LeaderForces.SpringPullsTowards | src/controller/control.cpp:436-437 | at rest the spring pulls towards the follower |
| LeaderForces.ArmCarries | src/controller/control.cpp:428-443 | trimmed gravity, 0.3 of the friction and 0.1 of the Coriolis torque |
| LeaderForces.GripperCarries | src/controller/control.cpp:465-466 | 0.3 of the friction |
| LeaderForces.NothingButNumbers | src/controller/control.cpp:122 | a torque that is no number is sent as zero |
| LeaderForces.ClampedIsCut | src/controller/control.cpp:123-124 | any other torque is cut to its limit on both sides |
| LeaderForces.SentWithoutCommand | src/controller/control.cpp:401-466 | without a command what is sent is what is carried, cut to the limit |
| LeaderForces.SentWithCommand | src/controller/control.cpp:401-466 | with a command it is that plus the scale's share of the reflected term, cut to the limit |
| LeaderGate.Gatekeeper.constructor | src/apps/wifi_bimanual_leader.cpp:399-454 | at start-up nothing is requested and both checks are due |
| LeaderGate.Gatekeeper.RefreshLink | src/apps/wifi_bimanual_leader.cpp:405-414 | the stored reasons are those of the interface, an unknown one if no peer is configured |
| LeaderGate.Gatekeeper.EvaluateGate | src/apps/wifi_bimanual_leader.cpp:417-436 | passes iff feedback is on, the stored link reasons are empty and both arms' feedback is acceptable |
| LeaderGate.Gatekeeper.BilateralEnable | src/apps/wifi_bimanual_leader.cpp:536-548 | accepts iff commands are enabled and the gate passes with a fresh link check; a refusal leaves the request as it was |
| LeaderGate.Gatekeeper.GateBlock | src/apps/wifi_bimanual_leader.cpp:732-747 | re-checks link and gate when due and drops the request if the gate fails |
| LeaderGateRuns.ContinuousGating | src/apps/wifi_bimanual_leader.cpp:732-747 | after a block that leaves the request standing, the latest decision passed and is under 100 ms old; the latest evaluation is under 100 ms old and passed unless it was a `bilateral_enable` made with the request already standing |
| LeaderGateRuns.LoopEvaluatesIff | src/apps/wifi_bimanual_leader.cpp:739-746 | a block evaluates the gate exactly if a request stands and no block did in the last 100 ms |
| LeaderGateRuns.LinkWasLookedAt | src/apps/wifi_bimanual_leader.cpp:732-747 | after a block that leaves the request standing, some step less than the re-check period and 100 ms before looked at the interface and found it acceptable |
| LeaderGateRuns.RequestStandsIff | src/apps/wifi_bimanual_leader.cpp:536-601 | a request stands exactly if an accepted `bilateral_enable` was not withdrawn by a handler or a failed evaluation since |
| LeaderGateRuns.CommandsEnabledIff | src/apps/wifi_bimanual_leader.cpp:571-606 | commands are enabled as the latest of enable, disable, estop and shutdown says |
| LeaderGateRuns.RunningIff | src/apps/wifi_bimanual_leader.cpp:596-606 | the leader runs until the first estop or shutdown |
| LeaderGateRuns.EnableBreaksGatingIff | src/apps/wifi_bimanual_leader.cpp:536-548 | a `bilateral_enable` can leave a failed evaluation as the latest with the request standing iff it is made with the request standing, commands enabled and the next check not due |
| LeaderGateRuns.RefusalKeepsRequest | src/apps/wifi_bimanual_leader.cpp:541-544 | every refusal before the next check leaves an earlier request standing through the block |
| LeaderGateRuns.StartedIsRun | src/apps/wifi_bimanual_leader.cpp:399-454 | start-up is where the runs of the gate begin |
| LeaderGateRuns.RequestRestsOnDecision | src/apps/wifi_bimanual_leader.cpp:732-747 | in every state a standing request rests on a decision that passed |
| LeaderGateRuns.DecisionIsRecent | src/apps/wifi_bimanual_leader.cpp:732-747 | in every state after a block, the decision under a standing request was made less than 100 ms before that block, or since |
| GateSamples.AcceptableIffSamplesGood | src/safety/bilateral_gate.cpp:49-88 | on trustworthy windows of a link, acceptable feedback is good raw samples |
| GateSamples.RequestMeansGoodSamples | src/apps/wifi_bimanual_leader.cpp:417-436 | while a request stands, the raw samples of both arms' links were good enough at the latest decision |
| LeaderGateRuns.RefusalScenario | src/apps/wifi_bimanual_leader.cpp:541-544 | a concrete run with the request standing and the latest evaluation failed |
| LeaderGateRuns.OnlyShutdownKeepsRequest | src/apps/wifi_bimanual_leader.cpp:571-606 | of the steps that disable commands exactly `shutdown` leaves a request standing |
| LeaderGateRuns.RequestNeedsEnable | src/apps/wifi_bimanual_leader.cpp:748-761 | while the leader runs, a standing request means enabled commands, so bilateral packets carry enable 1 |
| LeaderCycle.OnFeedback | src/apps/wifi_bimanual_leader.cpp:438-451 | the bytes of a datagram enter the buffer with their round trip iff they have the right size and validate; any other datagram leaves no trace |
| LeaderCycle.NumericKeepsPlaces | src/apps/wifi_bimanual_leader.cpp:441-442 | every field and array element of a received packet keeps its place |
| LeaderCycle.RoundTripIs | src/apps/wifi_bimanual_leader.cpp:444-448 | no round trip without an echo or with a clock behind it, otherwise the time since the echoed sending |
| LeaderCycle.WantsIff | src/apps/wifi_bimanual_leader.cpp:661-662 | force is wanted exactly if rendering is enabled and requested and the feedback is young, in nanoseconds, and of an enabled follower without estop |
| LeaderCycle.AlignedIff | src/apps/wifi_bimanual_leader.cpp:663-672 | aligned is every joint of arm and hand within its tolerance in either direction, as plain numbers |
| LeaderCycle.NoForceUnlessEnabled | src/apps/wifi_bimanual_leader.cpp:662 | a leader that is not to render force never does |
| LeaderCycle.LeaderArm.CheckAligned | src/apps/wifi_bimanual_leader.cpp:665-672 | true iff every joint has a counterpart within tolerance; NaN is never within it |
| LeaderCycle.LeaderArm.StepSide | src/apps/wifi_bimanual_leader.cpp:655-691 | references follow fresh feedback only, the engager steps on want and alignment, and the torques are those of its scale |
| LeaderCycle.ReleaseIsBounded | src/apps/wifi_bimanual_leader.cpp:655-693 | from the first cycle with stale feedback or no request, the null command comes within ceil(max(ramp_down, 1 ms) times rate) cycles, whatever comes back |
| LeaderCycle.RenderedWasWanted | src/apps/wifi_bimanual_leader.cpp:655-693 | a command that is not null was wanted in this cycle or within that many cycles before |
| JointExchange.FillCommand | src/apps/wifi_bimanual_leader.cpp:695-708 | for arms of any size: counts cut to a byte, slots filled as far as count and array go; mode and enable from the gate, estop 0 |
| JointExchange.CommandCarriesJoints | src/apps/wifi_bimanual_leader.cpp:695-708 | up to 8 arm and 4 hand joints, the follower's targets are the leader's joint positions, arm first |
| CommandFlags.FlagsFollowHandlers | src/apps/wifi_bimanual_leader.cpp:748-761 | in every run a packet carries enable 1 iff the latest switch was `enable`, mode 1 iff a request stands, and estop 0 |
| CommandFlags.SendFrom | src/apps/wifi_bimanual_leader.cpp:748-761 | what a loop cycle sends is such a packet |
| CommandFlags.DisabledLeaderDisarms | src/apps/wifi_bimanual_leader.cpp:571-606 | after disable, estop or shutdown every command sent disarms a follower that requires enabling |
| JointExchange.FeedbackCarriesJoints | src/apps/wifi_bimanual_follower.cpp:123-134 | the references a leader takes from a feedback packet are the joints the follower measured |
| TeleopSystem.CausalSafety | src/apps/wifi_bimanual_leader.cpp:658-662 | whenever force is wanted, the feedback read was built in an ACTIVE follower cycle that had received a leader command less than the warning threshold before, on its own clock, and answers a command sent with enable 1 and estop 0 while commands were enabled |
| TeleopSystem.StepKeepsUnforged | src/apps/wifi_bimanual_follower.cpp:547-681 | every step of leader, follower and network keeps the invariant behind causal safety |
| TeleopSystem.ReportWasActive | src/apps/wifi_bimanual_follower.cpp:106-122 | feedback marked enabled was built while ACTIVE on a live command of the leader |
| RenderedForce.RenderedForceIsGrounded | src/apps/wifi_bimanual_leader.cpp:655-747 | whenever `leader_step` gets a command, then in this cycle or at most a release before it the feedback held was built while ACTIVE on a live command, answering a command sent while commands were enabled, and the request rested on a gate decision that passed less than 100 ms before the preceding gate block, or since |
| RenderedForce.CyclesFit | src/apps/wifi_bimanual_leader.cpp:658-677 | the cycles of a leader that reads from such a follower never read past the packet's arrays |
| RenderedForce.HeldFits | src/apps/wifi_bimanual_follower.cpp:123-124 | feedback that a leader holds always fits its packet's arrays |
| TeleopSystem.ActiveFeedbackArrives | src/apps/wifi_bimanual_follower.cpp:547-681 | the system is not stuck: there is a run at whose end the leader holds feedback of an active follower |
| SwivelEstimator.Estimator.Update | include/openarm_wifi_teleop/control/temporal_swivel_estimator.hpp:35-53 | disabled it answers neutral and keeps its estimate; enabled it steps the estimate |
| SwivelEstimator.UpdateShrinksDistance | include/openarm_wifi_teleop/control/temporal_swivel_estimator.hpp:42-51 | each update takes exactly min((1 - continuity gain) times distance, rate limit times dt) off the distance to the resting swivel, from the same side |
| SwivelEstimator.Converges | include/openarm_wifi_teleop/control/temporal_swivel_estimator.hpp:42-51 | the distance is below any eps after a number of updates known beforehand |

## Left out

- Sockets, poll loops, UDP fanout, the TCP command server, JSON, logging, YAML and command lines: input and output only.
- CAN motors, KDL dynamics, Pinocchio: gravity, Coriolis and friction are arbitrary functions; friction parameters shorter than the arm, which make the source throw, are not modelled.
- Link probing: what it finds is an arbitrary input.
- The VR leader apart from its swivel estimate, `MoveToPose`, `AdjustPosition`, `Differentiator`, `DetectVibration`: pose moves appear only as arbitrary changes of the references by another thread.
- Floating-point rounding.
- FollowerCycle.FollowerArm.Follow: commands with more than 8 arm or 4 hand joints, which validation accepts (`JointCounts.CommandCountsPass`), are excluded, because the source reads past its arrays there; `JointCounts.TargetsInsideIff` is the exact condition.
- FollowerCycle.FollowerArm.Limit: the same exclusion.
- RateLimiter.Limiter.Limit: configured limits, like all configuration, are numbers; a NaN in a configuration file is not modelled.
- FollowerCycle.FollowerArm.Judge: `uint64_t` nanosecond readings are natural numbers; a clock that wraps after 584 years is not modelled.
- LeaderCycle.LeaderArm.StepSide: feedback with more than 8 arm or 4 hand joints, which validation accepts (`JointCounts.FeedbackCountsPass`), is excluded for the same reason; `JointCounts.ReferencesInsideIff` is the exact condition, and `RenderedForce.HeldFits` shows that an unforged follower never sends it.
- LeaderCycle.OnFeedback: how a 64-bit word is read as a double is an arbitrary function.
- JointExchange.FillCommand: the mock joints of a run without hardware are left out.
- FeedbackStateBuffer.Buffer.Snapshot: `std::sort` is modelled by the ordered rearrangement it leaves behind.
- LeaderGate.Gatekeeper.BilateralEnable: a handler is one step; an interleaving inside it, between the gate's verdict and the request, is not modelled, and neither is the status report that follows.
- FollowerThreads.StepKeepsSound: a cycle whose command overruns its arrays has no further step; feedforward of gravity and the motor commands that a state leads to are not part of the transition system.
- TeleopSystem.CausalSafety: one arm; the second arm runs the same code and shares only the handlers.
- That out-of-order commands are dropped, or that a pose move excludes the control cycle: the code does not promise these.
