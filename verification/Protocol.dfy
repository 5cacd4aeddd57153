// The bounded v1 frames of crates/control-protocol/src/lib.rs as values: what
// each encoder writes and what each decoder answers.
module Protocol {
  import opened Prelude
  import opened Bytes
  import opened Crc

  // ----- text ---------------------------------------------------------------------

  predicate Continuation(b: byte) {
    0x80 <= b <= 0xbf
  }

  /** Length of the well-formed UTF-8 sequence that starts `s`, or zero. */
  function Utf8Length(s: seq<byte>): (n: nat)
    ensures n <= |s|
  {
    if |s| >= 1 && s[0] <= 0x7f then 1
    else if |s| >= 2 && 0xc2 <= s[0] <= 0xdf && Continuation(s[1]) then 2
    else if |s| >= 3 && Continuation(s[1]) && Continuation(s[2])
            && (if s[0] == 0xe0 then 0xa0 <= s[1] else if s[0] == 0xed then s[1] <= 0x9f else 0xe1 <= s[0] <= 0xef)
                then 3
    else if |s| >= 4 && Continuation(s[1]) && Continuation(s[2]) && Continuation(s[3])
            && (if s[0] == 0xf0 then 0x90 <= s[1] else if s[0] == 0xf4 then s[1] <= 0x8f else 0xf1 <= s[0] <= 0xf3)
                then 4
    else 0
  }

  predicate ValidUtf8(s: seq<byte>)
    decreases |s|
  {
    s == [] || (Utf8Length(s) > 0 && ValidUtf8(s[Utf8Length(s)..]))
  }

  /** A Rust `String`. */
  type Text = s: seq<byte> | ValidUtf8(s) witness []

  // ----- messages -----------------------------------------------------------------

  datatype Command =
    | Heartbeat
    | SetHeaterTarget(heater: Text, targetMilliC: i64)
    | Home(axis: Text, rateUmS: u64)
    | Move(axis: Text, distanceUm: i64, rateUmS: u64)

  datatype CommandEnvelope = CommandEnvelope(executeAt: Option<u64>, command: Command)

  datatype CommandFrame = CommandFrame(sequence: u32, envelope: CommandEnvelope)

  datatype QueueStatus = QueueStatus(
    capacity: u16,
    fill: u16,
    earliestAccepted: u64,
    latestAccepted: u64,
    underrun: bool)

  datatype QueueStatusFrame = QueueStatusFrame(sequence: u32, status: QueueStatus)

  datatype ClockRequestFrame = ClockRequestFrame(sequence: u32)

  datatype ClockResponse = ClockResponse(controllerReceive: u64, controllerSend: u64)

  datatype ClockResponseFrame = ClockResponseFrame(sequence: u32, response: ClockResponse)

  datatype EncodeError =
    | EncodedStringTooLong(length: nat, maximum: nat)
    | EncodedPayloadTooLong(length: nat, maximum: nat)
    | BufferTooSmall(needed: nat, available: nat)

  datatype DecodeError =
    | Truncated(needed: nat, available: nat)
    | InvalidMagic
    | UnsupportedVersion(version: byte)
    | UnsupportedMessageType(messageType: byte)
    | PayloadTooLong(length: nat, maximum: nat)
    | TrailingFrameBytes(count: nat)
    | ChecksumMismatch(encoded: Word, computed: Word)
    | InvalidPayloadLength(expected: nat, actual: nat)
    | InvalidFlags(flags: byte)
    | InvalidStateFlags(flags: byte)
    | UnknownCommandTag(tag: byte)
    | StringTooLong(length: nat, maximum: nat)
    | InvalidUtf8
    | TrailingPayloadBytes(count: nat)

  const MAGIC: seq<byte> := [0x44, 0x52]
  const PROTOCOL_VERSION: byte := 1
  const COMMAND_TYPE: byte := 1
  const QUEUE_STATUS_TYPE: byte := 2
  const CLOCK_REQUEST_TYPE: byte := 3
  const CLOCK_RESPONSE_TYPE: byte := 4
  const HEADER_LEN: nat := 10
  const CHECKSUM_LEN: nat := 4
  const MAX_STRING_LEN: nat := 63
  const MAX_PAYLOAD_LEN: nat := 128
  const MAX_FRAME_LEN: nat := 142
  const QUEUE_STATUS_PAYLOAD_LEN: nat := 22
  const CLOCK_REQUEST_PAYLOAD_LEN: nat := 1
  const CLOCK_RESPONSE_PAYLOAD_LEN: nat := 17

  const TAG_HEARTBEAT: byte := 0
  const TAG_SET_HEATER_TARGET: byte := 1
  const TAG_HOME: byte := 2
  const TAG_MOVE: byte := 3

  // ----- what the encoders write ----------------------------------------------------

  /** The checksummed part of a frame: version, type, sequence, length, payload. */
  function Body(messageType: byte, sequence: u32, payload: seq<byte>): (s: seq<byte>)
    requires |payload| <= MAX_PAYLOAD_LEN
    ensures |s| == 8 + |payload|
  {
    [PROTOCOL_VERSION, messageType] + U32Bytes(sequence) + U16Bytes(|payload|) + payload
  }

  function FrameBytes(messageType: byte, sequence: u32, payload: seq<byte>): (s: seq<byte>)
    requires |payload| <= MAX_PAYLOAD_LEN
    ensures |s| == HEADER_LEN + |payload| + CHECKSUM_LEN
  {
    MAGIC + Body(messageType, sequence, payload) + WordBytes(Crc32c(Body(messageType, sequence, payload)))
  }

  function NameOf(command: Command): Text {
    match command
    case Heartbeat => []
    case SetHeaterTarget(heater, _) => heater
    case Home(axis, _) => axis
    case Move(axis, _, _) => axis
  }

  /** The only semantic bound an encoder checks. */
  predicate Encodable(envelope: CommandEnvelope) {
    |NameOf(envelope.command)| <= MAX_STRING_LEN
  }

  function StringBytes(s: Text): seq<byte>
    requires |s| <= MAX_STRING_LEN
  {
    [ByteOf(|s|)] + s
  }

  function CommandBytes(command: Command): (s: seq<byte>)
    requires |NameOf(command)| <= MAX_STRING_LEN
    ensures |s| <= 81
  {
    match command
    case Heartbeat => [TAG_HEARTBEAT]
    case SetHeaterTarget(heater, target) => [TAG_SET_HEATER_TARGET] + (StringBytes(heater) + I64Bytes(target))
    case Home(axis, rate) => [TAG_HOME] + (StringBytes(axis) + U64Bytes(rate))
    case Move(axis, distance, rate) => [TAG_MOVE] + (StringBytes(axis) + (I64Bytes(distance) + U64Bytes(rate)))
  }

  function CommandPayload(envelope: CommandEnvelope): (s: seq<byte>)
    requires Encodable(envelope)
    ensures |s| <= 90
  {
    match envelope.executeAt
    case None => [0] + CommandBytes(envelope.command)
    case Some(t) => [1] + (U64Bytes(t) + CommandBytes(envelope.command))
  }

  function CommandFrameBytes(frame: CommandFrame): seq<byte>
    requires Encodable(frame.envelope)
  {
    FrameBytes(COMMAND_TYPE, frame.sequence, CommandPayload(frame.envelope))
  }

  function QueueStatusPayload(status: QueueStatus): (s: seq<byte>)
    ensures |s| == QUEUE_STATUS_PAYLOAD_LEN
  {
    [0] + (U16Bytes(status.capacity) + (U16Bytes(status.fill) + (U64Bytes(status.earliestAccepted)
      + (U64Bytes(status.latestAccepted) + [if status.underrun then 1 else 0]))))
  }

  function QueueStatusFrameBytes(frame: QueueStatusFrame): seq<byte> {
    FrameBytes(QUEUE_STATUS_TYPE, frame.sequence, QueueStatusPayload(frame.status))
  }

  function ClockRequestFrameBytes(frame: ClockRequestFrame): seq<byte> {
    FrameBytes(CLOCK_REQUEST_TYPE, frame.sequence, [0])
  }

  function ClockResponsePayload(response: ClockResponse): (s: seq<byte>)
    ensures |s| == CLOCK_RESPONSE_PAYLOAD_LEN
  {
    [0] + (U64Bytes(response.controllerReceive) + U64Bytes(response.controllerSend))
  }

  function ClockResponseFrameBytes(frame: ClockResponseFrame): seq<byte> {
    FrameBytes(CLOCK_RESPONSE_TYPE, frame.sequence, ClockResponsePayload(frame.response))
  }

  // ----- what the decoders answer -----------------------------------------------------

  /** What is left to read, and how much was read before it. */
  datatype Cursor = Cursor(rest: seq<byte>, position: nat)

  function Take(c: Cursor, n: nat): (r: Result<(seq<byte>, Cursor), DecodeError>)
    ensures r.Ok? ==> |r.value.0| == n && c.rest == r.value.0 + r.value.1.rest
  {
    if |c.rest| < n then Err(Truncated(c.position + n, c.position + |c.rest|))
    else Ok((c.rest[..n], Cursor(c.rest[n..], c.position + n)))
  }

  function TakeU8(c: Cursor): Result<(byte, Cursor), DecodeError> {
    var (s, next) :- Take(c, 1);
    Ok((s[0], next))
  }

  function TakeU16(c: Cursor): Result<(u16, Cursor), DecodeError> {
    var (s, next) :- Take(c, 2);
    Ok((U16Of(s), next))
  }

  function TakeU64(c: Cursor): Result<(u64, Cursor), DecodeError> {
    var (s, next) :- Take(c, 8);
    Ok((U64Of(s), next))
  }

  function TakeI64(c: Cursor): Result<(i64, Cursor), DecodeError> {
    var (s, next) :- Take(c, 8);
    Ok((I64Of(s), next))
  }

  function TakeString(c: Cursor): Result<(Text, Cursor), DecodeError> {
    var (b, afterLength) :- TakeU8(c);
    if ValueOf(b) > MAX_STRING_LEN then Err(StringTooLong(ValueOf(b), MAX_STRING_LEN))
    else
      var (s, next) :- Take(afterLength, ValueOf(b));
      if ValidUtf8(s) then Ok((s, next)) else Err(InvalidUtf8)
  }

  function TakeCommand(c: Cursor): Result<(Command, Cursor), DecodeError> {
    var (tag, c1) :- TakeU8(c);
    if tag == TAG_HEARTBEAT then Ok((Heartbeat, c1))
    else if tag == TAG_SET_HEATER_TARGET then
      var (heater, c2) :- TakeString(c1);
      var (target, c3) :- TakeI64(c2);
      Ok((SetHeaterTarget(heater, target), c3))
    else if tag == TAG_HOME then
      var (axis, c2) :- TakeString(c1);
      var (rate, c3) :- TakeU64(c2);
      Ok((Home(axis, rate), c3))
    else if tag == TAG_MOVE then
      var (axis, c2) :- TakeString(c1);
      var (distance, c3) :- TakeI64(c2);
      var (rate, c4) :- TakeU64(c3);
      Ok((Move(axis, distance, rate), c4))
    else Err(UnknownCommandTag(tag))
  }

  function TakeSchedule(flags: byte, c: Cursor): Result<(Option<u64>, Cursor), DecodeError> {
    if flags & 1 != 0 then
      var (t, next) :- TakeU64(c);
      Ok((Some(t), next))
    else Ok((None, c))
  }

  function DecodePayload(payload: seq<byte>): Result<CommandEnvelope, DecodeError> {
    var (flags, c1) :- TakeU8(Cursor(payload, 0));
    if flags & 0xfe != 0 then Err(InvalidFlags(flags))
    else
      var (executeAt, c2) :- TakeSchedule(flags, c1);
      var (command, c3) :- TakeCommand(c2);
      if |c3.rest| != 0 then Err(TrailingPayloadBytes(|c3.rest|))
      else Ok(CommandEnvelope(executeAt, command))
  }

  function RequireLen(input: seq<byte>, needed: nat): Result<(), DecodeError> {
    if |input| < needed then Err(Truncated(needed, |input|)) else Ok(())
  }

  datatype Delimited = Delimited(sequence: u32, payload: seq<byte>)

  /** The validation every decoder shares, in its fixed order. */
  function Delimit(input: seq<byte>, messageType: byte): Result<Delimited, DecodeError> {
    var _ :- RequireLen(input, 2);
    if input[..2] != MAGIC then Err(InvalidMagic)
    else
      var _ :- RequireLen(input, HEADER_LEN);
      if input[2] != PROTOCOL_VERSION then Err(UnsupportedVersion(input[2]))
      else if input[3] != messageType then Err(UnsupportedMessageType(input[3]))
      else
        var payloadLen := U16Of(input[8..10]);
        if payloadLen > MAX_PAYLOAD_LEN then Err(PayloadTooLong(payloadLen, MAX_PAYLOAD_LEN))
        else
          var frameLen := HEADER_LEN + payloadLen + CHECKSUM_LEN;
          var _ :- RequireLen(input, frameLen);
          if |input| > frameLen then Err(TrailingFrameBytes(|input| - frameLen))
          else
            var payloadEnd := HEADER_LEN + payloadLen;
            var encoded := LeWord(input[payloadEnd..]);
            var computed := Crc32c(input[2..payloadEnd]);
            if encoded != computed then Err(ChecksumMismatch(encoded, computed))
            else Ok(Delimited(U32Of(input[4..8]), input[HEADER_LEN..payloadEnd]))
  }

  function DelimitFixed(input: seq<byte>, messageType: byte, expected: nat): Result<Delimited, DecodeError> {
    var d :- Delimit(input, messageType);
    if |d.payload| != expected then Err(InvalidPayloadLength(expected, |d.payload|)) else Ok(d)
  }

  function DecodeCommand(input: seq<byte>): Result<CommandFrame, DecodeError> {
    var d :- Delimit(input, COMMAND_TYPE);
    var envelope :- DecodePayload(d.payload);
    Ok(CommandFrame(d.sequence, envelope))
  }

  function DecodeQueueStatus(input: seq<byte>): Result<QueueStatusFrame, DecodeError> {
    var d :- DelimitFixed(input, QUEUE_STATUS_TYPE, QUEUE_STATUS_PAYLOAD_LEN);
    var (flags, c1) :- TakeU8(Cursor(d.payload, 0));
    if flags != 0 then Err(InvalidFlags(flags))
    else
      var (capacity, c2) :- TakeU16(c1);
      var (fill, c3) :- TakeU16(c2);
      var (earliest, c4) :- TakeU64(c3);
      var (latest, c5) :- TakeU64(c4);
      var (state, c6) :- TakeU8(c5);
      if state & 0xfe != 0 then Err(InvalidStateFlags(state))
      else Ok(QueueStatusFrame(d.sequence, QueueStatus(capacity, fill, earliest, latest, state & 1 != 0)))
  }

  function DecodeClockRequest(input: seq<byte>): Result<ClockRequestFrame, DecodeError> {
    var d :- DelimitFixed(input, CLOCK_REQUEST_TYPE, CLOCK_REQUEST_PAYLOAD_LEN);
    var (flags, _) :- TakeU8(Cursor(d.payload, 0));
    if flags != 0 then Err(InvalidFlags(flags)) else Ok(ClockRequestFrame(d.sequence))
  }

  function DecodeClockResponse(input: seq<byte>): Result<ClockResponseFrame, DecodeError> {
    var d :- DelimitFixed(input, CLOCK_RESPONSE_TYPE, CLOCK_RESPONSE_PAYLOAD_LEN);
    var (flags, c1) :- TakeU8(Cursor(d.payload, 0));
    if flags != 0 then Err(InvalidFlags(flags))
    else
      var (receive, c2) :- TakeU64(c1);
      var (send, _) :- TakeU64(c2);
      Ok(ClockResponseFrame(d.sequence, ClockResponse(receive, send)))
  }
}
