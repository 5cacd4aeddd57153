# Verification model of Dryer

Dryer drives fabrication machines: a host resolves a machine description,
locks it, lowers G-code to commands, audits and streams them, and keeps clocks
with controllers that run a timed queue behind a safety envelope. This project
models that logic in Dafny and proves what holds of it over every input and
every run.

- **Clocks** (`ClockArithmetic`, `ClockEstimator`, `ClockSoundness`, `EstimatorLaws`,
  `ClockTransport`, `LinkLaws`, `ClockSessions`, `SessionLaws`, `ClockSystem`):
  four-timestamp exchanges, as in section 8 of RFC 5905 with a slew bound added,
  over a lossy simulated link. The main result is real interval arithmetic: every
  window holds the controller's tick. The midpoint is floored while the allowance
  is computed from the whole span, so with an odd span the early end can be one
  tick late; `ExactWindows` says exactly when.
- **Frames** (`Bytes`, `Crc`, `Protocol`, `ProtocolCodec`, `ProtocolLaws`,
  `WireLayout`, `StreamScan`, `StreamLaws`, `StreamRoundTrip`): the bounded binary
  codec with CRC-32C (section 12.1 of RFC 3720), and resynchronisation after noise.
- **Machine** (`Controller`, `ControllerLaws`, `HeaterLaws`, `Scheduling`,
  `AxisMotion`, `Wire`): the simulated controller, its safety envelope, its queue
  and its axes.
- **Programs** (`Toolpath`, `ToolpathLaws`, `LoweringLaws`, `AuditedRuns`, `PacedRuns`,
  `Runner`, `RunnerLaws`, `ClosedLoop`, `LoopBound`, `PortionedAudit`,
  `StreamedProgram`, `Completion`, `SpacingBound`): from G-code through the
  audit and the streaming runner to the position of every axis.
- **Resolution** (`Packages`, `PackageLaws`, `Allocation`, `AllocationLaws`,
  `ClaimLaws`, `Safety`, `Lock`, `LockLaws`, `SafetyLaws`): package versions by
  bounded fixpoint iteration, connectors and timers by two passes over shared
  claims, safety actions from policy to lock.

`Prelude`, `Runs` and `Sorting` hold the shared vocabulary, the one induction over
runs and the order of names. A loop or an object that the source updates step by
step is a method or a class here, proved against a specification function; the
laws are about those functions and about runs of them. The laws of `EstimatorLaws`,
`SessionLaws`, `LinkLaws`, `WireLayout`, `HeaterLaws`, `LoweringLaws`, `RunnerLaws`,
`ClaimLaws` and `SafetyLaws` say in fields, ticks and octets what single operations
do, without the functions that specify them.

Where the code and expectation part, the code is modelled and the exact
condition proved: odd spans (`ExactWindows`), a room below zero, where a heater
with target zero is driven (`SafeRoomExactly`), a window without a lead
(`ExactnessNeedsLead`), rates the cast turns backward (`DependableExactly`,
`HomeArrives`), saturating audit sums (`AuditFollows`, `SaturationLosesTrack`),
windows too short for the horizon and jobs with their own times before untimed
ones (`NoRefusalExactly`, `UntimedAfterTheEnd`), M105 lines, whose heartbeats the
runner times and the controller refuses (`ProgramStreamsExactly`, `PollIsRefused`),
programs audited in portions (`PortionsAgreeExactly`, `PortionsDisagree`), commands that
take longer than the spacing and are cut short by the next (`ContainedExactly`,
`EarlyReturnEscapes`),
dependency chains of more than 62 (`ConvergesExactly`), padded
class names (`PartitionSurvivesLocking`, `PaddedClassFailsLock`).

## Model
| member | source | states |
|---|---|---|
| ClockSystem.EveryRunSound | crates/control-client/src/lib.rs:109-191 | in every run of a session over a link that loses, copies, delays and reorders frames, with a controller clock no faster or slower than the slew bound: every recorded sample pushed is one request's own exchange, hand-over before arrival before departure before delivery; it is refused only when its midpoint has not advanced; every window returned holds the controller's tick, short at its early end of no more than the slack computed from the slew and the anchor's span, which is zero for even spans and at most one tick |
| ClockSystem.ConstantRateInClass | crates/simulator/src/clock_transport.rs:69-87 | a clock that floors elapsed time times a rate within the slew bound keeps its offset within the rounded-up slew between any two ticks |
| ClockSystem.AnswersGenuine | crates/simulator/src/clock_transport.rs:277-330 | every response the link schedules for a request carries the controller's ticks at one arrival and one departure, in order, after the hand-over and before its own delivery |
| ClockSystem.SendKeepsTransport | crates/simulator/src/clock_transport.rs:266-330 | after a send everything the link holds still answers some request, whatever was lost, copied or delayed |
| ClockSystem.GenuineVerdict | crates/clock-sync/src/lib.rs:196-234 | in a session, a genuine sample can be refused for nothing but a midpoint that has not advanced |
| ClockSoundness.SessionWindowsSound | crates/clock-sync/src/lib.rs:243-345 | for every clock in the slew class and every list of genuine samples, every window holds the clock's tick, past or future of the anchor: exactly for an even anchor span, one tick short at the early end at worst for an odd one |
| ClockSoundness.ExactSpans | crates/clock-sync/src/lib.rs:361-392 | for a span and a slew, every genuine exchange of every clock of the class anchors the true offset without slack if and only if the slack computed from span and slew is zero |
| ClockSoundness.ExactWindows | crates/clock-sync/src/lib.rs:243-345 | every window of every session of genuine samples, over every clock of the class, whose anchor has a given span holds the controller's tick if and only if the slack computed from slew and span is zero |
| ClockSoundness.LateWindowMisses | crates/clock-sync/src/lib.rs:243-345 | when the slack is not zero, two genuine exchanges, the second answered late, give a window that misses the controller's tick |
| ClockSoundness.AnchorSound | crates/clock-sync/src/lib.rs:348-400 | a genuine exchange is observable and its anchor holds the true offset at the reference midpoint, up to the slack of an odd span |
| ClockSoundness.ObserveBoundedMeaning | crates/clock-sync/src/lib.rs:348-400 | each refusal of an exchange happens exactly for the defect of its timestamps it names; otherwise the offset interval is the exchange's, widened by the slew allowance, with the estimate inside |
| ClockSoundness.PushOutcomes | crates/clock-sync/src/lib.rs:196-234 | from every reachable state a push never overflows, succeeds exactly when the exchange is observable, in order and advances the midpoint, and keeps the state well formed; a refused one keeps it whole |
| EstimatorLaws.PushExactly | crates/clock-sync/src/lib.rs:196-234 | each refusal of an observable exchange by the first defect against the last accepted one; an accepted one becomes the anchor, the first starts the session, and from the second on the estimate has the time of arrival and the drift since the anchor before |
| ClockSoundness.GenuineIsAccepted | crates/clock-sync/src/lib.rs:196-234 | genuine samples of a clock in the class are always accepted: the first of a session as it is, a later one in time order with an advancing midpoint |
| ClockSoundness.DriftLaws | crates/clock-sync/src/lib.rs:402-448 | the drift interval is ordered around its estimate and reaches the extreme average drifts the two anchors allow |
| EstimatorLaws.DriftIsTight | crates/clock-sync/src/lib.rs:402-448 | the drift bounds are the outermost parts per billion that the anchors' intervals allow, to less than one part, and the estimate is within half a part of the quotient of the offsets |
| ClockSoundness.TrueDriftContained | crates/clock-sync/src/lib.rs:402-448 | with the true offset in both anchors the drift interval holds the true average drift |
| ClockSoundness.ProjectMeaning | crates/clock-sync/src/lib.rs:283-345 | a projection is the anchor widened on each side by the drift of the slew over the distance, its midpoint inside |
| ClockSoundness.WindowSound | crates/clock-sync/src/lib.rs:243-345 | a window around an anchor that holds the true offset holds the true tick, before and after the anchor |
| ClockSoundness.UncertaintyIsHalfWidth | crates/clock-sync/src/lib.rs:253-267 | the uncertainty is the rounded-up half-width of the window, and exists exactly when the window does |
| ClockSoundness.UncertaintyGrows | crates/clock-sync/src/lib.rs:253-267 | on each side of the anchor the uncertainty never shrinks with distance |
| EstimatorLaws.WindowExactly | crates/clock-sync/src/lib.rs:243-345 | a window is refused exactly without an estimate, before the session's first midpoint, or when a drift product or an end leaves its range; otherwise it is the anchor widened by the drift on either side, with the floored middle |
| ClockArithmetic.FloorIsDivision | crates/clock-sync/src/lib.rs:450-464 | the truncating quotient with its sign correction is the mathematical floor |
| ClockArithmetic.CeilIsDivision | crates/clock-sync/src/lib.rs:466-480 | the truncating quotient with its sign correction is the mathematical ceiling |
| ClockArithmetic.RoundsToNearest | crates/clock-sync/src/lib.rs:482-505 | for every numerator in range rounding fails if and only if the doubled remainder leaves the range; otherwise no multiple of the divisor is nearer, and a tie goes away from zero |
| ClockEstimator.ClockSync.Push | crates/clock-sync/src/lib.rs:196-234 | the estimator's fields after a push are those of the specification, all of them unchanged on an error |
| ClockEstimator.ClockSync.ResyncDue | crates/clock-sync/src/lib.rs:273-281 | a resynchronisation is due as specified |
| ClockSessions.ClockSession.BeginExchange | crates/control-client/src/lib.rs:109-138 | an exchange starts with the next sequence, spent even when the sink fails, and the encoded request is what the sink gets |
| ClockSessions.ClockSession.AcceptResponse | crates/control-client/src/lib.rs:140-179 | a response that matches the pending exchange ends it, as timed out if and only if it comes no earlier than the timeout after the send, and otherwise with its sample in the estimator, taken or not; any other bytes leave the exchange pending |
| ClockSessions.ClockSession.Expire | crates/control-client/src/lib.rs:181-191 | the pending exchange is dropped and its sequence returned if and only if the send lies at least the timeout back, and nothing changes otherwise |
| ClockSystem.ExpiresExactly | crates/control-client/src/lib.rs:181-191 | in ticks: a pending exchange is dropped and reported exactly from the send plus the timeout on, or at once when the timeout is zero |
| ClockSystem.RespondsExactly | crates/control-client/src/lib.rs:140-179 | for every state and response frame: nothing pending, another sequence, too late and in time are told apart; the late one is reported as timed out and reaches no estimator, the one in time does, with the session's and the frame's four timestamps |
| ClockSystem.NoiseIsIgnored | crates/control-client/src/lib.rs:140-152 | bytes that are no response frame are reported with their decoding error and change nothing |
| ClockSystem.LostExchangesEnd | crates/control-client/src/lib.rs:109-191 | in every run over the link, whatever it lost, expiring a timeout after the last tick leaves nothing pending, and the next exchange begins with the next sequence unless all are spent |
| SessionLaws.BeginsExactly | crates/control-client/src/lib.rs:109-138 | after every history of begins, answers and expiries the sequences handed out are 0, 1, 2 and so on, none twice; another exchange starts, with the next one, if and only if none is pending and fewer than 2^32 were handed out, and its sequence is spent even when its frame is not taken |
| ClockTransport.SimClockTransport.Send | crates/simulator/src/clock_transport.rs:266-330 | the link's state after a send is the specified one, and unchanged by a failed one, generator included |
| ClockTransport.SimClockTransport.ReceiveDue | crates/simulator/src/clock_transport.rs:334-347 | the response removed is the chosen due one, and no other leaves |
| ClockTransport.EarliestIsLeast | crates/simulator/src/clock_transport.rs:334-347 | a response is returned exactly when one is due, the earliest delivered and among equals the first inserted |
| LinkLaws.DeliversExactly | crates/simulator/src/clock_transport.rs:359-400 | what the link makes of a frame, draw by draw: lost if the first draw hits the loss rate, else delivered after the latency and a drawn jitter, with a copy if the last draw hits the duplication rate; a draw is spent on each of these that is configured and comes to pass |
| LinkLaws.DeliveriesBounded | crates/simulator/src/clock_transport.rs:359-400 | bounds of every delivery: never before latency nor past latency plus jitter, at most two, none at full loss, one at least without loss |
| LinkLaws.CleanLinkAnswers | crates/simulator/src/clock_transport.rs:266-347 | over a link that only takes time a request comes back once, after both latencies and the processing time, with the controller's ticks at its arrival and departure; or the send fails for a time or clock out of range or a full queue; a link that is down swallows it |
| Crc.ComputeCrc32c | crates/control-protocol/src/lib.rs:706-716 | the nested shift loop computes the CRC-32C register of the bytes, complemented at both ends |
| Crc.CodewordIffChecksum | crates/control-protocol/src/lib.rs:706-716 | four bytes after a message are its checksum exactly when the register of the whole reaches the fixed residue |
| Crc.BurstOfFour | crates/control-protocol/src/lib.rs:706-716 | two codewords that agree outside four consecutive bytes are equal |
| ProtocolLaws.BurstsDetected | crates/control-protocol/src/lib.rs:242-297 | an accepted frame of any type changed inside four consecutive bytes, wherever they fall, is accepted by no decoder |
| ProtocolLaws.CommandRoundTrip | crates/control-protocol/src/lib.rs:201-297 | decoding an encoded command frame gives it back |
| ProtocolLaws.CommandCanonical | crates/control-protocol/src/lib.rs:242-297 | bytes that decode as a command frame are exactly what encoding it writes |
| ProtocolLaws.QueueStatusRoundTrip | crates/control-protocol/src/lib.rs:303-433 | decoding an encoded status frame gives it back |
| ProtocolLaws.QueueStatusCanonical | crates/control-protocol/src/lib.rs:350-433 | bytes that decode as a status frame are exactly what encoding it writes |
| ProtocolLaws.ClockRequestRoundTrip | crates/control-protocol/src/lib.rs:435-473 | decoding an encoded clock request gives it back |
| ProtocolLaws.ClockRequestCanonical | crates/control-protocol/src/lib.rs:464-473 | bytes that decode as a clock request are exactly what encoding it writes |
| ProtocolLaws.ClockResponseRoundTrip | crates/control-protocol/src/lib.rs:475-524 | decoding an encoded clock response gives it back |
| ProtocolLaws.ClockResponseCanonical | crates/control-protocol/src/lib.rs:506-524 | bytes that decode as a clock response are exactly what encoding it writes |
| ProtocolLaws.PrefixesTruncated | crates/control-protocol/src/lib.rs:242-297 | every proper prefix of a frame a decoder accepts is truncated for that decoder |
| WireLayout.FramesLaidOut | crates/control-protocol/tests/codec.rs:97-121 | every frame has the fixed layout of version 1: magic, version, types 1 to 4, sequence, length, payload, checksum; flags, ticks, tags 0 to 3, names with their length and numbers at their places, least octet first, signed ones in two's complement |
| WireLayout.CheckValue | crates/control-protocol/src/lib.rs:832-836 | the checksum of the digits 1 to 9 is the check value e3069283 of CRC-32C |
| WireLayout.DelimitedExactly | crates/control-protocol/src/lib.rs:526-585 | for all bytes: which defect of length, magic, version, type, payload length, frame length or checksum is reported, with its numbers, and that otherwise the bytes are a frame of the fixed layout |
| ProtocolCodec.EncodeCommand | crates/control-protocol/src/lib.rs:201-236 | the frame is written at the front of the buffer and the rest left alone; a field or a buffer that is too small is reported before any byte is written |
| ProtocolCodec.EncodeQueueStatus | crates/control-protocol/src/lib.rs:303-343 | the status frame is written at the front of the buffer, the rest left alone, or nothing is written |
| ProtocolCodec.EncodeClockRequest | crates/control-protocol/src/lib.rs:435-462 | the request is written at the front of the buffer, the rest left alone, or nothing is written |
| ProtocolCodec.EncodeClockResponse | crates/control-protocol/src/lib.rs:475-504 | the response is written at the front of the buffer, the rest left alone, or nothing is written |
| ProtocolCodec.ReadCommand | crates/control-protocol/src/lib.rs:242-297 | the cursor-driven decoder gives the specified frame or error |
| ProtocolCodec.ReadQueueStatus | crates/control-protocol/src/lib.rs:350-433 | the cursor-driven decoder gives the specified frame or error |
| ProtocolCodec.ReadClockRequest | crates/control-protocol/src/lib.rs:464-473 | the cursor-driven decoder gives the specified frame or error |
| ProtocolCodec.ReadClockResponse | crates/control-protocol/src/lib.rs:506-524 | the cursor-driven decoder gives the specified frame or error |
| ProtocolCodec.Unframe | crates/control-protocol/src/lib.rs:526-585 | magic, version, type, length and checksum are checked in their fixed order |
| StreamScan.FrameCodec.Feed | crates/transport-adapter/src/lib.rs:330-338 | bytes are appended, or refused whole when they would pass the capacity |
| StreamScan.FrameCodec.NextFrame | crates/transport-adapter/src/lib.rs:342-420 | the draining loop terminates and returns the next frame of the greedy scan, keeping exactly the scan's remainder |
| StreamScan.FrameCodec.Drain | crates/transport-adapter/src/lib.rs:498-527 | draining to the end emits the frames of the scan of the buffer and keeps its residue |
| StreamScan.CompleteIsFrame | crates/transport-adapter/src/lib.rs:362-419 | the front of a buffer is taken for a frame exactly when it is one |
| StreamScan.ResidueShort | crates/transport-adapter/src/lib.rs:342-420 | what stays buffered is the end of the stream and shorter than the longest frame |
| StreamLaws.ChunkingIrrelevant | crates/transport-adapter/src/lib.rs:330-420 | in any chunking what was emitted is the scan of the accepted bytes and what is buffered is its residue |
| StreamLaws.SameStreamSameFrames | crates/transport-adapter/src/lib.rs:330-420 | two ways of cutting one stream that fit the codec emit the same frames |
| StreamLaws.NothingRefused | crates/transport-adapter/src/lib.rs:330-338 | chunks that leave room for an unfinished frame are never refused |
| StreamLaws.ScanIsLeftmost | crates/transport-adapter/src/lib.rs:342-420 | the scan emits exactly the leftmost non-overlapping valid frames |
| StreamLaws.LeftmostUnique | crates/transport-adapter/src/lib.rs:342-420 | no other list of frames has that property |
| StreamLaws.FrameEmitted | crates/transport-adapter/src/lib.rs:342-420 | a valid frame not begun inside an emitted one is emitted once the stream is a longest frame past its start |
| StreamRoundTrip.MessagesSurvive | crates/transport-adapter/src/lib.rs:498-574 | messages encoded in a row, each after noise without a magic, in any fitting chunks, come back as exactly that list |
| StreamRoundTrip.ReadAndDispatch | crates/transport-adapter/src/lib.rs:498-574 | one read feeds the new bytes and dispatches frame by frame until none is complete or one does not decode |
| StreamRoundTrip.ReadMeaning | crates/transport-adapter/src/lib.rs:498-527 | when every frame of the scan decodes a read gives exactly their messages and keeps the residue; otherwise it gives the first failure, loses the messages before it and leaves exactly the frames after it to be read |
| Controller.SimController.AcceptCommand | crates/simulator/src/lib.rs:589-662 | acceptance with its checks in order; the entry goes behind all that are due no later |
| Controller.SimController.StartDueCommands | crates/simulator/src/lib.rs:672-720 | every due command leaves the front of the queue and takes effect, in order |
| Controller.SimController.EnforceHeartbeat | crates/simulator/src/lib.rs:734-751 | a heater with a target above zero, not yet forced safe, is forced safe with target zero and no duty if and only if it has a timeout and the last heartbeat is older; every other is left as it was |
| Controller.SimController.IntegrateHeaters | crates/simulator/src/lib.rs:754-764 | every plant advances one step under bang-bang control |
| Controller.SimController.AdvanceAxes | crates/simulator/src/lib.rs:768-797 | every axis advances one step, clamped at its endstop or its distance |
| Controller.SimController.RunStep | crates/simulator/src/lib.rs:724-810 | one turn of the run loop: time, deliveries, starts, guard, heat, motion |
| Controller.InsertSplits | crates/simulator/src/lib.rs:652-661 | inserting before the first later entry is the stable insertion of the specification |
| HeaterLaws.GuardActsExactly | crates/simulator/src/lib.rs:734-751 | in each step, in ticks: an aimed heater that is not forced safe becomes so, its target cleared, if and only if the last heartbeat is further back than its timeout; otherwise neither changes |
| HeaterLaws.PlantStepsExactly | crates/simulator/src/lib.rs:754-764 | in each step a heater is driven if and only if it is not forced safe and below its target, and its temperature moves by one part in the time constant of the distance to where the drive takes it |
| HeaterLaws.StartAimsExactly | crates/simulator/src/lib.rs:672-702 | a starting target aims the first heater of its name, frees it from its forced state and touches nothing else of any heater |
| HeaterLaws.AdmittedExactly | crates/simulator/src/lib.rs:589-662 | for every message: when it counts as a heartbeat, when it is queued and under which tick, and else by which first reason it is refused; nothing but queue, heartbeat and log changes |
| HeaterLaws.ResetExactly | crates/simulator/src/lib.rs:564-587 | a reset latches the fault, empties the queue, stops every axis where it is and clears every heater's target, drive and forced state, and changes nothing else |
| HeaterLaws.AttendedRunsObey | crates/simulator/src/lib.rs:724-764 | in every run without a reset, when no heater's timeout is shorter than the host's longest silence, no heater is ever forced safe and each is aimed at the target last started for it |
| ControllerLaws.SafeRoomExactly | crates/simulator/src/lib.rs:724-764 | in every run of every rig with sound plants the temperature stays between ambient and ambient plus gain and no heater is driven on a lost heartbeat, if and only if ambient is not below zero |
| ControllerLaws.ResetIsFinal | crates/simulator/src/lib.rs:564-605 | in a room not below zero, after a reset, whatever came before and comes after, no command is accepted or started, no heater driven, no axis moved |
| ControllerLaws.HeatKeepsThermal | crates/simulator/src/lib.rs:754-764 | one step of the plant stays between ambient and full drive |
| Scheduling.EveryRunSchedules | crates/simulator/src/lib.rs:589-720 | in every run whose windows keep a lead the queue is sorted and within capacity, every scheduled command that starts does so exactly on its tick, and without a reset, for every tick, the accepted entries are the started ones followed by the waiting ones, in order |
| Scheduling.PassedTicksAreServed | crates/simulator/src/lib.rs:672-720 | when a tick has passed without a reset, exactly the commands accepted for it have started, in the order of acceptance |
| Scheduling.ExactnessNeedsLead | crates/simulator/src/lib.rs:614-661 | no run starts a scheduled command off its tick if and only if the window's minimum lead is not zero |
| Scheduling.EveryAdmissionInWindow | crates/simulator/src/lib.rs:614-648 | in every run every scheduled command was admitted on a step boundary inside the window of its moment, saturation included |
| Scheduling.InsertIsStable | crates/simulator/src/lib.rs:652-661 | an insertion goes behind every entry of its tick and disturbs no other tick |
| AxisMotion.MoveArrives | crates/simulator/src/lib.rs:768-797 | each step takes the axis its speed further until the distance is covered: done after exactly the larger of one and the length over the speed, rounded up, steps, or never at no whole unit a step; position and remaining distance add up and the axis stays between the ends |
| AxisMotion.StartMovesExactly | crates/simulator/src/lib.rs:672-720 | a starting move or homing sets the first axis of its name on its way from where it is, replacing any running motion, and touches no other axis |
| AxisMotion.DependableExactly | crates/simulator/src/lib.rs:704-717 | every move at a rate keeps to its way if and only if the cast to a signed integer leaves the rate forward |
| AxisMotion.HomeArrives | crates/simulator/src/lib.rs:768-782 | at every rate: forward homing ends at zero after exactly the steps the way takes; at no whole unit a step, or backward, it ends at its first step if that already reaches the endstop, and otherwise never; while it runs it has moved by the speed in every step |
| Wire.ProcessWireFrame | crates/simulator/src/lib.rs:508-560 | a frame changes the controller and is answered as specified |
| Wire.CommandsArrive | crates/simulator/src/lib.rs:516-521 | an encoded command is accepted as if handed over directly |
| Wire.StatusArrives | crates/simulator/src/lib.rs:522-541 | a status request is answered under its sequence with capacity, fill, window and latched fault of the moment, and the host derives the closed loop's status from it |
| Wire.ClockArrives | crates/simulator/src/lib.rs:542-557 | a clock request is answered under its sequence with the controller's tick |
| Wire.DamageIsInert | crates/simulator/src/lib.rs:508-560 | a frame damaged inside four consecutive bytes is answered with an error and changes nothing |
| Wire.BatchArrives | crates/control-client/src/lib.rs:421-447 | a batch sent as frames has the effect of accepting its commands in order |
| Toolpath.GcodeLowerer.LowerSource | crates/gcode-lowerer/src/lib.rs:71-182 | the lowering loop gives the commands and tracked state of the specification, which `LoweredExactly` and `HeatingKeepsMeaning` state off the lines, or reports the first position out of range |
| Toolpath.GcodeLowerer.LowerHome | crates/gcode-lowerer/src/lib.rs:96-118 | a homing line homes the axes it names, or all three |
| Toolpath.GcodeLowerer.LowerMoves | crates/gcode-lowerer/src/lib.rs:131-154 | the moves of a travel line, absolute or relative |
| Toolpath.GcodeLowerer.ReadFeed | crates/gcode-lowerer/src/lib.rs:119-129 | the last feed word of a line wins |
| Toolpath.ToolpathAuditor.Audit | crates/toolpath-auditor/src/lib.rs:46-135 | the report lists the specified findings in order |
| ToolpathLaws.LoweringKeepsMeaning | crates/gcode-lowerer/src/lib.rs:71-182 | replaying the commands takes every axis exactly where the G-code says and where the lowerer tracks it, and no prefix leaves the integer range |
| LoweringLaws.LoweredExactly | crates/gcode-lowerer/src/lib.rs:71-182 | each command comes from one place of the program, in order, and each place that asks for one has it: homes by the axes named or all three, moves by their words with the truncated thousandfold number or its distance from where the axis is, targets by their heater and setting, heartbeats by M105, each rate from the last feed word in force |
| LoweringLaws.HeatingKeepsMeaning | crates/gcode-lowerer/src/lib.rs:156-173 | for each heater name: the last target in the commands is the truncated thousandfold first S value of the last line addressed to it, M104 and M109 to the hotend, M140 and M190 to the bed, both if the names coincide; it has none if and only if no line addresses it |
| LoweringLaws.CodeMeaning | crates/gcode-lowerer/src/lib.rs:85-178 | which letters and numbers, cast to unsigned integers, make a line which instruction |
| ToolpathLaws.AuditFollows | crates/toolpath-auditor/src/lib.rs:90-124 | the audit's positions equal the exact replay at every index if and only if no prefix leaves the integer range |
| ToolpathLaws.SaturationLosesTrack | crates/toolpath-auditor/src/lib.rs:108-114 | after two of the longest moves the audit's saturated position is half the exact one |
| ToolpathLaws.AuditFollowsLowering | crates/toolpath-auditor/src/lib.rs:90-124 | for a program lowered afresh the audit knows every position exactly at every index and ends where the lowerer and the G-code end |
| ToolpathLaws.AuditDecides | crates/toolpath-auditor/src/lib.rs:46-135 | a program whose exact positions fit the integer range passes if and only if every command fits: its rate, the ceiling of a known heater, the exact position it leads to |
| ToolpathLaws.FindingsExactly | crates/toolpath-auditor/src/lib.rs:46-135 | for all commands and limits, exactly the defects are reported, by code and index, each once and in order: rates, audited positions, ceilings, unknown heaters |
| AuditedRuns.PassingStaysInside | crates/toolpath-auditor/src/lib.rs:108-124 | a passing program is, exactly, inside its limits after every command |
| AuditedRuns.AuditedRunsStayInside | crates/simulator/src/lib.rs:768-797 | in every run that starts only the beginning of a passing program, each command for a limited axis finding it at rest, every limited axis is inside its limits at every step and, at rest, where its commands lead |
| AuditedRuns.OverlapEscapes | crates/simulator/src/lib.rs:704-717 | a passing program leaves its limits in some run in which a move replaces a running one |
| AuditedRuns.AuditedRunsStayCool | crates/toolpath-auditor/src/lib.rs:51-73 | in every run that starts only the beginning of a passing program no heater is aimed above its ceiling and no unknown one is heated |
| AuditedRuns.FeedLimitKeepsForward | crates/toolpath-auditor/src/lib.rs:74-106 | a feed limit in the signed range keeps every rate of a passing program forward |
| Runner.WorkflowRunner.EnqueueBatch | crates/workflow-runner/src/lib.rs:217-245 | a batch is taken whole after its audit, or not at all |
| Runner.WorkflowRunner.UpdateControllerStatus | crates/workflow-runner/src/lib.rs:250-279 | phase and counters after a status report: underruns counted with their heartbeat, completion from the fill, faulted once a heartbeat is lost |
| Runner.WorkflowRunner.NextDispatchBatch | crates/workflow-runner/src/lib.rs:284-373 | the batch, its ticks and the runner's state after a dispatch |
| RunnerLaws.ReportExactly | crates/workflow-runner/src/lib.rs:250-279 | after every report: faulted for good once a heartbeat is lost, short of that warned of an underrun and counting it, short of that complete when all is dispatched and gone, throttled only while there is no room |
| RunnerLaws.SubmitExactly | crates/workflow-runner/src/lib.rs:217-245 | a batch is taken whole, behind the jobs there are, if and only if it is empty, there is no auditor or the audit finds nothing; else it is refused with the report and nothing changes |
| RunnerLaws.BatchExactly | crates/workflow-runner/src/lib.rs:284-373 | the batch is as long as room, batch limit and jobs allow, or empty once faulted; its commands are the first jobs in order, each at the first tick not before the window, its own time or the margin after the last one, or at the window's end; and the phase says why it ended |
| RunnerLaws.EveryRunCounts | crates/workflow-runner/src/lib.rs:217-373 | in every run of submissions, reports and dispatches: faulted if and only if some report lost its heartbeat, one underrun counted for each reported with a heartbeat, and what was accepted is what was dispatched, in order, followed by the jobs |
| ClosedLoop.EveryLoopIsSound | crates/workflow-runner/src/lib.rs:250-373 | whether the runner times the jobs, each job brings its own time, or both: in every run of status, update, dispatch, acceptance and steps under settings compatible with that and with the number of heartbeats among the jobs, exactly the heartbeats are refused, the queue never passes the horizon, the other commands start in submission order, each exactly on its assigned tick, jobs timed by the runner keep their spacing, and a completed runner has had everything dispatched and started. Jobs that all bring their own times need no more of the window than the lead |
| LoopBound.NoRefusalExactly | crates/workflow-runner/src/lib.rs:284-373 | for a fresh loop, each way of timing jobs and every number of heartbeats among them: some orderly run is refused another command if and only if the loop can dispatch at all and its settings are not compatible. With jobs timed by the runner that is a lead in whole steps, a margin in whole steps unless every job meets an empty queue and the lead covers the margin, and a window that reaches a full horizon of margins behind the heartbeats; with jobs that all bring their own times, a lead inside the window; with both, also a margin of zero, or every job meeting an empty queue and a margin inside the window |
| LoopBound.UntimedAfterTheEnd | crates/workflow-runner/src/lib.rs:338-356 | under the default settings a job timed at the end of the window is accepted and an untimed one after it is refused as too late |
| ClosedLoop.CompletedCountsStarts | crates/workflow-runner/src/lib.rs:260-275 | the runner's completed count is the number of commands that have started plus the heartbeats refused, and it reports completion only with nothing left |
| ClosedLoop.HeartbeatLossIsFinal | crates/workflow-runner/src/lib.rs:250-290 | after a lost heartbeat nothing is dispatched for the rest of the run |
| StreamedProgram.SubmittedPasses | crates/workflow-runner/src/lib.rs:217-245 | what the runner has accepted, portion by portion under its own audit, would pass that audit as a whole, when before every portion the commands so far lead each limited axis back to zero |
| StreamedProgram.OnePortion | crates/workflow-runner/src/lib.rs:217-245 | a program submitted at once to a fresh loop meets that condition, whatever it is |
| PortionedAudit.PortionsAgreeExactly | crates/toolpath-auditor/src/lib.rs:46-135 | after a passing portion, the audit of what follows alone and the audit of the whole agree for everything that may follow if and only if the portion leaves every limited axis at zero |
| PortionedAudit.PortionsDisagree | crates/toolpath-auditor/src/lib.rs:46-135 | a move forth and back passes while its second half alone is refused, and a move forth passes twice while the two together do not |
| StreamedProgram.StreamedProgramStaysInside | crates/workflow-runner/src/lib.rs:217-373 | what the runner audits and accepts, at once or in portions that each begin with the limited axes at zero, heartbeats included, when every command for a limited axis is done in so many steps from anywhere inside the limits and the runner's spacing is at least as many steps: only the heartbeats are refused, the rest starts in order and on time, each command for a limited axis finds it at rest, every limited axis stays inside its limits and is at rest where the started commands lead, and no heater is aimed above its ceiling |
| SpacingBound.ContainedExactly | crates/workflow-runner/src/lib.rs:338-356 | under compatible settings, for every number of steps: all passing programs whose commands for limited axes take at most so many steps keep every limited axis inside its limits in every run if and only if the runner's spacing is at least as many steps, the spacing being the margin, or the larger of margin and lead when the queue holds one command |
| SpacingBound.EarlyReturnEscapes | crates/simulator/src/lib.rs:704-717 | the lines G0 X0.01 F60 and G0 X0 F600, under the default runner, meet everything asked of a program but that: they pass the audit, are streamed to reported completion and leave X at rest at -9, outside its limits and away from the 0 they say |
| PacedRuns.PacedRunsStayInside | crates/simulator/src/lib.rs:768-797 | in every controller run that starts only the beginning of a passing program, done with every command for a limited axis in so many steps, at starts at least as many steps apart, each such command finds its axis at rest and every limited axis is inside its limits and at rest where the started commands lead |
| PacedRuns.DoneInExactly | crates/simulator/src/lib.rs:768-797 | a command for a limited axis is done in so many steps from anywhere inside the limits if and only if its distance, or for homing the upper limit, is at most as many steps at its speed |
| StreamedProgram.ProgramEndsAsMeant | crates/gcode-lowerer/src/lib.rs:71-182 | when a lowered program, M105 lines included, whose commands for limited axes are each done in so many steps, no more than the runner's spacing has, has passed the runner's audit and been streamed to completion: the commands refused are exactly one for each M105 line, all others have started, every limited axis is inside its limits, and each one at rest is exactly where the G-code says |
| PortionedAudit.HeartbeatsAreQuiet | crates/toolpath-auditor/src/lib.rs:46-135 | without its heartbeats a program moves every axis the same, the audit tracks it the same and passes it the same |
| PortionedAudit.HeartbeatIffPoll | crates/gcode-lowerer/src/lib.rs:174-176 | a lowered program holds a heartbeat if and only if one of its lines is an M105 |
| PortionedAudit.HeartbeatsArePolls | crates/gcode-lowerer/src/lib.rs:174-176 | a lowered program has exactly one heartbeat for every M105 line |
| Completion.EveryHeartbeatIsRefused | crates/workflow-runner/src/lib.rs:338-373 | in every run of every fresh loop, whatever its settings and the host's turns, there are at least as many refusals as heartbeats dispatched, and what was submitted is what was dispatched followed by the waiting jobs |
| Completion.StreamsExactly | crates/workflow-runner/src/lib.rs:217-373 | with a compatible window and ticks enough, a program that passes its audit can be streamed to reported completion without a refusal, by some orderly run, if and only if it has no heartbeat |
| Completion.ProgramStreamsExactly | crates/gcode-lowerer/src/lib.rs:71-182 | so a lowered program that passes its audit can be streamed to the end without a refusal if and only if none of its lines is an M105 |
| Completion.PollIsRefused | crates/simulator/src/lib.rs:599-612 | the program of the one line M105 passes its audit; under the default settings its command is refused and the runner still reports completion |
| Packages.Resolve | crates/machine-resolver/src/packages.rs:62-255 | the bounded loop returns the selection of the first stable round, or of the last with its verdict |
| Packages.SelectVersions | crates/machine-resolver/src/packages.rs:72-201 | one round's choice and warnings, and for each package everything that is wrong with it, every requirement that excludes a pin included |
| Packages.DeriveConstraints | crates/machine-resolver/src/packages.rs:203-225 | the constraints are those the manifests of the chosen packages declare |
| PackageLaws.ShallowConverges | crates/machine-resolver/src/packages.rs:62-241 | without a chain of more than 62 dependencies the iteration settles within its 64 rounds |
| PackageLaws.ConvergesExactly | crates/machine-resolver/src/packages.rs:62-241 | for every bound on the length of dependency chains: every request settles on every registry within the bound if and only if the bound is at most 62 |
| PackageLaws.LineConvergesExactly | crates/machine-resolver/src/packages.rs:62-241 | on a line of packages the iteration settles in time if and only if the line has at most 62 dependencies; on a longer one it is given up without an error of any package |
| PackageLaws.ResolverDecides | crates/machine-resolver/src/packages.rs:62-255 | on such a registry the resolver reports no error if and only if the request has a solution, and what it chose is the only one |
| PackageLaws.SelectionIsSolution | crates/machine-resolver/src/packages.rs:62-255 | on any registry a selection without an error is a solution: pins at their version, roots present, closed under dependencies, every requirement met, every unpinned package at the highest version all accept, nothing without a reason |
| PackageLaws.SolutionIsSettled | crates/machine-resolver/src/packages.rs:62-241 | solutions are exactly the choices one more round confirms without an error |
| PackageLaws.SolutionIsReached | crates/machine-resolver/src/packages.rs:62-255 | on a registry whose chains have any bound, so in particular no cycle, pins and roots lead to every package of a solution in no more steps than the longest chain has |
| PackageLaws.ReasonsExactly | crates/machine-resolver/src/packages.rs:72-201 | for each package a round asks for, exactly which reasons it reports, from which manifest; a version is chosen if and only if there is none; and the warnings are the chosen roots that nothing pins or requires |
| Allocation.Allocate | crates/machine-resolver/src/allocation.rs:38-504 | the two passes over shared claims give what each demand is due against the grants before it, or nothing if any is denied; `AllocatedExactly` says in plain terms when and what |
| Allocation.ExplicitPass | crates/machine-resolver/src/allocation.rs:75-295 | the explicit claims in component and attribute order, each granted or denied as `ClaimDecidedExactly` says |
| Allocation.SearchPass | crates/machine-resolver/src/allocation.rs:303-495 | the searches of the components without a claim, in order |
| AllocationLaws.AllocationSound | crates/machine-resolver/src/allocation.rs:75-495 | on success every demand is met in order: the resource exists with the kind asked for, claims get the port they name, searches the least port eligible at that moment with its domain and bus; over both passes no resource and no timer channel is given twice, and every stepper socket with a known step pin has one when a step rate is declared |
| AllocationLaws.SearchFailsExactly | crates/machine-resolver/src/allocation.rs:350-423 | a search is denied for want of a connector if and only if no port of its board is eligible |
| ClaimLaws.ClaimTargetExactly | crates/machine-resolver/src/allocation.rs:75-136 | a claim is denied as malformed, for an unknown board or for a missing connector exactly when its text has no dot, the part before the first names no board, or the rest no port of it |
| ClaimLaws.ClaimDecidedExactly | crates/machine-resolver/src/allocation.rs:138-295 | for every claim that names a connector and every list of earlier grants: denied by the first that fails of the kind its device or attribute asks for, no earlier grant of the port, the bus its device needs, and, where the step rate binds the port, a first timer function whose channel no earlier grant uses; granted that port if and only if none fails |
| ClaimLaws.SearchDecidedExactly | crates/machine-resolver/src/allocation.rs:303-495 | for every search: denied without one controller, for an unknown one, or for want of a port that fits in kind, exclusivity, domain, channel and bus; else granted the first such port, with all ports of the kind as candidates |
| ClaimLaws.AllocatedExactly | crates/machine-resolver/src/allocation.rs:38-504 | allocation succeeds with given grants if and only if no earlier phase failed and each demand, in turn, is entitled to its grant after the grants before it |
| ClaimLaws.DemandsExactly | crates/machine-resolver/src/allocation.rs:75-322 | the demands are, in order, the text attributes connected_to, output and input with their kinds, and then the components with none of these whose device needs a connector |
| Safety.ValidateSafety | crates/machine-resolver/src/safety.rs:52-183 | the findings of every component in order |
| SafetyLaws.FindingsExactly | crates/machine-resolver/src/safety.rs:52-183 | for every component, each finding exactly when it has the defect: unfit driver, no policy, nothing to make safe, and where its policy requires a sensor none named, none granted, none that senses, or none on some controller it steers |
| SafetyLaws.TargetsExactly | crates/machine-resolver/src/capability.rs:9-60 | a component governs its own resources or, if it has none, those of the driver it names, which is unfit when blank or not only steppers |
| SafetyLaws.SensorExactly | crates/machine-resolver/src/capability.rs:66-88 | a component's sensor on a controller is the first sensing input there that the sensor it names was granted |
| Safety.Partition | crates/machine-resolver/src/safety.rs:185-241 | the bindings of each controller in order of component and resource, the owners and the clashes |
| LockLaws.OneArrangement | crates/machine-resolver/src/safety.rs:236-240 | a controller's bindings have no other ascending arrangement than the one partitioning leaves |
| LockLaws.ResourcesMeaning | crates/machine-resolver/src/capability.rs:53-59 | the resources a policy governs are exactly those of the assignments, each once, in the order of their names |
| Lock.ApplyAssignments | crates/machine-lock/src/generate.rs:118-142 | the locked resources of each controller |
| Lock.ApplySafety | crates/machine-lock/src/generate.rs:144-214 | generation succeeds exactly when every binding is local to a known controller, and then gives each controller one state for each of its bindings, with its component, class, port, state, timeout and sensor port, in order of component and resource |
| LockLaws.StatesOfPlan | crates/machine-lock/src/generate.rs:207-211 | the locked states of a controller are its bindings in the order partitioning left them: sorting them again changes nothing |
| Lock.ValidateLock | crates/machine-lock/src/validate.rs:22-84 | the nested loops accept exactly the locks whose safety states are labelled, distinct, resolved and timed |
| Lock.LockControllers | crates/machine-lock/src/generate.rs:98-214 | generating and validating the controllers of a lock |
| LockLaws.PartitionSurvivesLocking | crates/machine-resolver/src/safety.rs:185-241 | for every machine that allocates, validates and partitions without a clash under positive timeouts: no resource carries two actions and each governed one carries one, every required sensor is resolved on the same controller, generation places everything, and the lock's safety checks pass if and only if every bound name and class is unpadded |
| SafetyLaws.LockedStatesExactly | crates/machine-lock/src/generate.rs:118-214 | under the same conditions, field by field: the lock of each controller holds exactly one state for every resource a component with a policy steers there, with its port, the component's name and class, the policy's state and timeout and, exactly when the policy requires one, the port of the sensor on that controller; no others; in order; and the assigned ports under their keys |
| SafetyLaws.TrimExactly | crates/machine-lock/src/validate.rs:22-84 | trimming drops the blanks at both ends and nothing else |
| LockLaws.PaddedClassFailsLock | crates/machine-lock/src/validate.rs:22-84 | a machine whose one class begins with a blank allocates, passes safety validation, partitions without a clash and has its actions placed, and then its lock is refused |
| LockLaws.SensorPresent | crates/machine-resolver/src/safety.rs:113-181 | in a validated machine the required sensor is on every controller the component's resources are on |

## Left out
- YAML, JSON, hashing, the file system and package snapshots: foreign libraries and input or output.
- Firmware build and flash, the command line, the user interface, diagnostics text and source spans; diagnostics are codes.
- Host clock reads, frame sinks and deliveries are inputs of the models; mutexes, channels and the stream transports are not modelled.
- The command transport of crates/simulator/src/lib.rs:197-294: what it delivers in a step is an arbitrary list in `Controller`, so its losses, copies and delays are covered, its generator is not.
- `ClockExchange`, `MultiControllerClockSync`, the clock cluster and the controller daemon: thin layers over the session; the daemon's status is `StatusOf` in `ClosedLoop`.
- `observe` without a slew bound (crates/clock-sync/src/lib.rs:120-160): the bounded form with a zero bound.
- ReadAndDispatch: the bytes read are an argument and the daemon's queue status update is not modelled, so a status frame it refuses counts as one that does not decode.
- Binary floating point: plants and G-code values are real numbers, casts truncate and saturate, infinities and not-a-number are not modelled; a plant time constant of zero stands still.
- Parsing of G-code text into words: lines are already cleaned and split.
- Ticks past the range of `u64` and overflow of axis positions past `i64` in the controller; `Ranged` bounds the closed loop to the range of ticks. An overflow in the lowerer, a panic in checked builds, is its error result.
- The trace is kept as the acceptances, rejections and starts of commands; temperature samples, endstop and safe-state events are not.
- EveryLoopIsSound: jobs with their own times ask for step boundaries; the controller refuses any other.
- NoRefusalExactly: the lead is not zero, since starts are then late (`ExactnessNeedsLead`); where jobs bring their own times lead, margin and window are in whole steps.
- StreamedProgramStaysInside: the jobs leave their timing to the runner, as lowered programs do; a job clamped to the end of the window keeps no spacing.
- AuditedRunsStayInside: each command for a limited axis is assumed to find it at rest, since a new motion replaces a running one; `OverlapEscapes` shows what happens otherwise, and `PacedRunsStayInside` and `ContainedExactly` give the condition beforehand.
- DependableExactly: a rate of exactly 2^63 cast to a signed integer is its least value, whose product with a negative direction overflows, a panic in checked builds and forward in release builds; the exact integers here go backward.
- Enqueueing a single job: a batch of one.
- Requirements of packages are the sets of versions they accept, and versions are ordered numbers.
- SelectVersions: the errors of a package are a set; their order and text are not kept.
- Resources are pairs of controller and port rather than dotted text, as for controllers named without a dot; capability tables and bus matching are what they say of a connector.
- Blank characters are the four usual ones when names are trimmed.
- ValidateLock: the build inputs and the hashes of the lock are not modelled, only its version 3 safety checks.
- Workflows, expansion, electrical checks, requirements collection and payload parsing of the resolver: validation of single entries.
