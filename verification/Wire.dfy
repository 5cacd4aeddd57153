// The controller's wire interface, `process_wire_frame` of
// crates/simulator/src/lib.rs: frames in, state changes and replies out.
module Wire {
  import opened Prelude
  import opened Bytes
  import opened Protocol
  import opened ProtocolCodec
  import opened Crc
  import ProtocolLaws
  import opened Controller
  import opened ControllerLaws
  import Runner
  import ClosedLoop

  datatype WireError =
    | HeaderTooShort
    | Undecodable(error: DecodeError)
    | Unsupported(messageType: byte)

  type Reply = Result<Option<seq<byte>>, WireError>

  function WireStatus(s: ControllerState): QueueStatus {
    QueueStatus(s.capacity % U16_LIMIT, |s.queue| % U16_LIMIT, Earliest(s), Latest(s), s.faulted)
  }

  /** What a frame does to the controller, and the frame it answers with. */
  function Process(s: ControllerState, frame: seq<byte>): (ControllerState, Reply)
    requires s.now < U64_LIMIT
  {
    if |frame| < 4 then (s, Err(HeaderTooShort))
    else if frame[3] == COMMAND_TYPE then
      match DecodeCommand(frame)
      case Err(e) => (s, Err(Undecodable(e)))
      case Ok(f) => (Accept(s, f.envelope), Ok(None))
    else if frame[3] == QUEUE_STATUS_TYPE then
      match DecodeQueueStatus(frame)
      case Err(e) => (s, Err(Undecodable(e)))
      case Ok(f) => (s, Ok(Some(QueueStatusFrameBytes(QueueStatusFrame(f.sequence, WireStatus(s))))))
    else if frame[3] == CLOCK_REQUEST_TYPE then
      match DecodeClockRequest(frame)
      case Err(e) => (s, Err(Undecodable(e)))
      case Ok(f) => (s, Ok(Some(ClockResponseFrameBytes(ClockResponseFrame(f.sequence, ClockResponse(s.now, s.now))))))
    else (s, Err(Unsupported(frame[3])))
  }

  method ProcessWireFrame(c: SimController, frame: seq<byte>) returns (r: Reply)
    requires c.now < U64_LIMIT
    modifies c
    ensures (c.State(), r) == Process(old(c.State()), frame)
  {
    hide DecodeCommand, DecodeQueueStatus, DecodeClockRequest, QueueStatusFrameBytes, ClockResponseFrameBytes, Accept,
      Earliest, Latest;
    if |frame| < 4 {
      return Err(HeaderTooShort);
    }
    var messageType := frame[3];
    if messageType == COMMAND_TYPE {
      var command := ReadCommand(frame);
      if command.Err? {
        return Err(Undecodable(command.error));
      }
      c.AcceptCommand(command.value.envelope);
      return Ok(None);
    }
    if messageType == QUEUE_STATUS_TYPE {
      var request := ReadQueueStatus(frame);
      if request.Err? {
        return Err(Undecodable(request.error));
      }
      var status := c.Status();
      var bytes := StatusReply(request.value.sequence, status);
      return Ok(Some(bytes));
    }
    if messageType == CLOCK_REQUEST_TYPE {
      var request := ReadClockRequest(frame);
      if request.Err? {
        return Err(Undecodable(request.error));
      }
      var bytes := ClockReply(request.value.sequence, c.now);
      return Ok(Some(bytes));
    }
    r := Err(Unsupported(messageType));
  }

  method StatusReply(sequence: u32, status: QueueStatus) returns (bytes: seq<byte>)
    ensures bytes == QueueStatusFrameBytes(QueueStatusFrame(sequence, status))
  {
    hide QueueStatusPayload, FrameBytes;
    var frame := QueueStatusFrame(sequence, status);
    assert |QueueStatusFrameBytes(frame)| == 36;
    var output := new byte[36];
    var length := EncodeQueueStatus(frame, output);
    bytes := output[..length.value];
  }

  method ClockReply(sequence: u32, now: u64) returns (bytes: seq<byte>)
    ensures bytes == ClockResponseFrameBytes(ClockResponseFrame(sequence, ClockResponse(now, now)))
  {
    hide ClockResponsePayload, FrameBytes;
    var frame := ClockResponseFrame(sequence, ClockResponse(now, now));
    assert |ClockResponseFrameBytes(frame)| == 31;
    var output := new byte[31];
    var length := EncodeClockResponse(frame, output);
    bytes := output[..length.value];
  }

  // ----- what the interface promises --------------------------------------------------------

  lemma TypeByte(messageType: byte, sequence: u32, payload: seq<byte>)
    requires |payload| <= MAX_PAYLOAD_LEN
    ensures |FrameBytes(messageType, sequence, payload)| >= 4
    ensures FrameBytes(messageType, sequence, payload)[3] == messageType
  {
    hide U32Bytes, U16Bytes, WordBytes;
  }

  /** An encoded command is accepted as if it had been handed over directly. */
  lemma CommandsArrive(s: ControllerState, frame: CommandFrame)
    requires s.now < U64_LIMIT && Encodable(frame.envelope)
    ensures Process(s, CommandFrameBytes(frame)) == (Accept(s, frame.envelope), Ok(None))
  {
    hide DecodeCommand, FrameBytes, CommandPayload, Accept;
    ProtocolLaws.CommandRoundTrip(frame);
    TypeByte(COMMAND_TYPE, frame.sequence, CommandPayload(frame.envelope));
  }

  /** A status request comes back under its own sequence with the status of the
      moment, from which the host derives exactly the session status of the loop. */
  lemma StatusArrives(s: ControllerState, request: QueueStatusFrame, heartbeatOk: bool)
    requires s.now < U64_LIMIT
    ensures var (next, reply) := Process(s, QueueStatusFrameBytes(request));
      && next == s && reply.Ok? && reply.value.Some?
      && DecodeQueueStatus(reply.value.value) == Ok(QueueStatusFrame(request.sequence, WireStatus(s)))
    ensures var q := WireStatus(s);
      && q.capacity == s.capacity % 0x1_0000 && q.fill == |s.queue| % 0x1_0000 && q.underrun == s.faulted
      && q.earliestAccepted == Min(s.now + s.window.minLead, 0xffff_ffff_ffff_ffff)
      && q.latestAccepted == Min(s.now + s.window.maxHorizon, 0xffff_ffff_ffff_ffff)
    ensures var q := WireStatus(s);
      ClosedLoop.StatusOf(s, heartbeatOk)
      == Runner.SessionStatus(q.capacity, q.fill, q.earliestAccepted, q.latestAccepted, q.underrun, heartbeatOk)
  {
    hide DecodeQueueStatus, FrameBytes, QueueStatusPayload;
    ProtocolLaws.QueueStatusRoundTrip(request);
    ProtocolLaws.QueueStatusRoundTrip(QueueStatusFrame(request.sequence, WireStatus(s)));
    TypeByte(QUEUE_STATUS_TYPE, request.sequence, QueueStatusPayload(request.status));
  }

  lemma ClockArrives(s: ControllerState, request: ClockRequestFrame)
    requires s.now < U64_LIMIT
    ensures var (next, reply) := Process(s, ClockRequestFrameBytes(request));
      && next == s && reply.Ok? && reply.value.Some?
      && DecodeClockResponse(reply.value.value) == Ok(ClockResponseFrame(request.sequence, ClockResponse(s.now, s.now)))
  {
    hide DecodeClockRequest, DecodeClockResponse, FrameBytes, ClockResponsePayload;
    ProtocolLaws.ClockRequestRoundTrip(request);
    ProtocolLaws.ClockResponseRoundTrip(ClockResponseFrame(request.sequence, ClockResponse(s.now, s.now)));
    TypeByte(CLOCK_REQUEST_TYPE, request.sequence, [0]);
  }

  /** A frame damaged in up to four consecutive bytes, wherever they fall, is
      answered with an error and leaves the controller as it was. */
  lemma DamageIsInert(s: ControllerState, sent: seq<byte>, received: seq<byte>, p: nat)
    requires s.now < U64_LIMIT && ProtocolLaws.Accepted(sent)
    requires |sent| == |received| && p + 4 <= |sent| && sent != received
    requires sent[..p] == received[..p] && sent[p + 4..] == received[p + 4..]
    ensures Process(s, received).0 == s && Process(s, received).1.Err?
  {
    hide DecodeCommand, DecodeQueueStatus, DecodeClockRequest, DecodeClockResponse;
    ProtocolLaws.BurstsDetected(sent, received, p);
  }

  /** Frames in order, each processed after the last. */
  function ProcessAll(s: ControllerState, frames: seq<seq<byte>>): ControllerState
    requires s.now < U64_LIMIT
    decreases |frames|
  {
    if frames == [] then s
    else
      AcceptKeepsTime(s, frames[0]);
      ProcessAll(Process(s, frames[0]).0, frames[1..])
  }

  lemma AcceptKeepsTime(s: ControllerState, frame: seq<byte>)
    requires s.now < U64_LIMIT
    ensures Process(s, frame).0.now == s.now
  {
    hide DecodeCommand, DecodeQueueStatus, DecodeClockRequest, Accept;
    if |frame| >= 4 && frame[3] == COMMAND_TYPE && DecodeCommand(frame).Ok? {
      AcceptTouchesQueue(s, DecodeCommand(frame).value.envelope);
    }
  }

  function FramesOf(batch: seq<CommandEnvelope>, sequence: nat): seq<seq<byte>>
    requires forall k :: 0 <= k < |batch| ==> Encodable(batch[k])
    decreases |batch|
  {
    if batch == [] then []
    else [CommandFrameBytes(CommandFrame(sequence % U32_LIMIT, batch[0]))] + FramesOf(batch[1..], sequence + 1)
  }

  /** A batch sent as frames reaches the controller as the closed loop has it. */
  lemma {:induction false} BatchArrives(s: ControllerState, batch: seq<CommandEnvelope>, sequence: nat)
    requires s.now < U64_LIMIT && forall k :: 0 <= k < |batch| ==> Encodable(batch[k])
    ensures ProcessAll(s, FramesOf(batch, sequence)) == AcceptAll(s, batch)
    decreases |batch|
  {
    hide Accept, Process, CommandFrameBytes, Encodable;
    if batch != [] {
      var frame := CommandFrame(sequence % U32_LIMIT, batch[0]);
      CommandsArrive(s, frame);
      AcceptTouchesQueue(s, batch[0]);
      assert FramesOf(batch, sequence)[1..] == FramesOf(batch[1..], sequence + 1);
      BatchArrives(Accept(s, batch[0]), batch[1..], sequence + 1);
    }
  }
}
