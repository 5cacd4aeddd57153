// The encoders and decoders as they run: a writer that fills a caller's buffer
// and a reader that advances over a payload.
module ProtocolCodec {
  import opened Prelude
  import opened Bytes
  import opened Crc
  import opened Protocol
  import opened ProtocolLaws

  class Writer {
    const output: array<byte>
    var position: nat

    ghost predicate Valid()
      reads this
    {
      position <= output.Length
    }

    ghost function Written(): seq<byte>
      reads this, output
      requires Valid()
    {
      output[..position]
    }

    constructor (output: array<byte>)
      ensures Valid() && this.output == output && position == 0
    {
      this.output := output;
      position := 0;
    }

    /** Nothing is written when the bytes do not fit. */
    method Write(bytes: seq<byte>) returns (r: Result<(), EncodeError>)
      requires Valid()
      modifies this`position, output
      ensures Valid()
      ensures r == if old(position) + |bytes| <= output.Length then Ok(())
                   else Err(BufferTooSmall(old(position) + |bytes|, output.Length))
      ensures Written() == old(Written()) + if r.Ok? then bytes else []
      ensures forall i :: position <= i < output.Length ==> output[i] == old(output[i])
    {
      var end := position + |bytes|;
      if end > output.Length {
        return Err(BufferTooSmall(end, output.Length));
      }
      forall i | 0 <= i < |bytes| {
        output[position + i] := bytes[i];
      }
      position := end;
      r := Ok(());
    }
  }

  /** Magic, version, type, sequence and payload length. */
  function Header(messageType: byte, sequence: u32, payloadLen: nat): (s: seq<byte>)
    requires payloadLen <= MAX_PAYLOAD_LEN
    ensures |s| == HEADER_LEN
  {
    MAGIC + [PROTOCOL_VERSION] + [messageType] + U32Bytes(sequence) + U16Bytes(payloadLen)
  }

  method WriteHeader(writer: Writer, messageType: byte, sequence: u32, payloadLen: nat)
    requires writer.Valid() && writer.position == 0 && HEADER_LEN <= writer.output.Length
    requires payloadLen <= MAX_PAYLOAD_LEN
    modifies writer`position, writer.output
    ensures writer.Valid() && writer.Written() == Header(messageType, sequence, payloadLen)
    ensures forall i :: writer.position <= i < writer.output.Length ==> writer.output[i] == old(writer.output[i])
  {
    hide U32Bytes, U16Bytes;
    var _ := writer.Write(MAGIC);
    var _ := writer.Write([PROTOCOL_VERSION]);
    var _ := writer.Write([messageType]);
    var _ := writer.Write(U32Bytes(sequence));
    var _ := writer.Write(U16Bytes(payloadLen));
  }

  /** Append the checksum of everything after the magic. */
  method WriteChecksum(writer: Writer, ghost messageType: byte, ghost sequence: u32, ghost payload: seq<byte>)
    requires writer.Valid() && |payload| <= MAX_PAYLOAD_LEN
    requires writer.Written() == Header(messageType, sequence, |payload|) + payload
    requires writer.position + CHECKSUM_LEN <= writer.output.Length
    modifies writer`position, writer.output
    ensures writer.Valid() && writer.Written() == FrameBytes(messageType, sequence, payload)
    ensures forall i :: writer.position <= i < writer.output.Length ==> writer.output[i] == old(writer.output[i])
  {
    hide Crc32c, WordBytes, U32Bytes, U16Bytes;
    var checksum := ComputeCrc32c(writer.output[2..writer.position]);
    assert writer.output[2..writer.position] == writer.Written()[2..] == Body(messageType, sequence, payload);
    assert writer.Written() == MAGIC + Body(messageType, sequence, payload);
    var _ := writer.Write(WordBytes(checksum));
  }

  method EncodePayload(envelope: CommandEnvelope, writer: Writer)
    requires Encodable(envelope)
    requires writer.Valid() && writer.position + |CommandPayload(envelope)| <= writer.output.Length
    modifies writer`position, writer.output
    ensures writer.Valid() && writer.Written() == old(writer.Written()) + CommandPayload(envelope)
    ensures forall i :: writer.position <= i < writer.output.Length ==> writer.output[i] == old(writer.output[i])
  {
    hide U64Bytes, CommandBytes;
    ghost var before := writer.Written();
    WriteSchedule(envelope.executeAt, writer);
    EncodeCommandBody(envelope.command, writer);
    ghost var body := CommandBytes(envelope.command);
    if envelope.executeAt.Some? {
      Reassociate(before, [1], U64Bytes(envelope.executeAt.value), body);
    } else {
      ConcatAssoc(before, [0], body);
    }
  }

  /** The flag, and the tick if there is one. */
  method WriteSchedule(executeAt: Option<u64>, writer: Writer)
    requires writer.Valid() && writer.position + (if executeAt.Some? then 9 else 1) <= writer.output.Length
    modifies writer`position, writer.output
    ensures writer.Valid()
    ensures writer.Written() == old(writer.Written()) + if executeAt.Some? then [1] + U64Bytes(executeAt.value) else [0]
    ensures forall i :: writer.position <= i < writer.output.Length ==> writer.output[i] == old(writer.output[i])
  {
    hide U64Bytes;
    if executeAt.Some? {
      WritePair(writer, [1], U64Bytes(executeAt.value));
    } else {
      var _ := writer.Write([0]);
    }
  }

  method EncodeCommandBody(command: Command, writer: Writer)
    requires |NameOf(command)| <= MAX_STRING_LEN
    requires writer.Valid() && writer.position + |CommandBytes(command)| <= writer.output.Length
    modifies writer`position, writer.output
    ensures writer.Valid() && writer.Written() == old(writer.Written()) + CommandBytes(command)
    ensures forall i :: writer.position <= i < writer.output.Length ==> writer.output[i] == old(writer.output[i])
  {
    hide U64Bytes, I64Bytes, ValidUtf8, StringBytes;
    ghost var before := writer.Written();
    if command.Heartbeat? {
      var _ := writer.Write([TAG_HEARTBEAT]);
      return;
    }
    StringLength(NameOf(command));
    match command
    case SetHeaterTarget(heater, target) =>
      WriteTagged(writer, TAG_SET_HEATER_TARGET, heater);
      var _ := writer.Write(I64Bytes(target));
      Reassociate(before, [TAG_SET_HEATER_TARGET], StringBytes(heater), I64Bytes(target));
    case Home(axis, rate) =>
      WriteTagged(writer, TAG_HOME, axis);
      var _ := writer.Write(U64Bytes(rate));
      Reassociate(before, [TAG_HOME], StringBytes(axis), U64Bytes(rate));
    case Move(axis, distance, rate) =>
      WriteTagged(writer, TAG_MOVE, axis);
      WritePair(writer, I64Bytes(distance), U64Bytes(rate));
      Reassociate(before, [TAG_MOVE], StringBytes(axis), I64Bytes(distance) + U64Bytes(rate));
  }

  method WritePair(writer: Writer, a: seq<byte>, b: seq<byte>)
    requires writer.Valid() && writer.position + |a| + |b| <= writer.output.Length
    modifies writer`position, writer.output
    ensures writer.Valid() && writer.Written() == old(writer.Written()) + (a + b)
    ensures forall i :: writer.position <= i < writer.output.Length ==> writer.output[i] == old(writer.output[i])
  {
    var _ := writer.Write(a);
    var _ := writer.Write(b);
  }

  /** A command tag and its length-prefixed name. */
  method WriteTagged(writer: Writer, tag: byte, name: Text)
    requires |name| <= MAX_STRING_LEN
    requires writer.Valid() && writer.position + 2 + |name| <= writer.output.Length
    modifies writer`position, writer.output
    ensures writer.Valid() && writer.Written() == old(writer.Written()) + ([tag] + StringBytes(name))
    ensures forall i :: writer.position <= i < writer.output.Length ==> writer.output[i] == old(writer.output[i])
  {
    hide ValidUtf8, ByteOf;
    var _ := writer.Write([tag]);
    var _ := writer.Write([ByteOf(|name|)]);
    var _ := writer.Write(name);
  }

  /** Field bounds and then capacity are checked before any byte is written. */
  method EncodeCommand(frame: CommandFrame, output: array<byte>) returns (r: Result<nat, EncodeError>)
    modifies output
    ensures !Encodable(frame.envelope) ==>
      r == Err(EncodedStringTooLong(|NameOf(frame.envelope.command)|, MAX_STRING_LEN)) && output[..] == old(output[..])
    ensures Encodable(frame.envelope) ==>
      var bytes := CommandFrameBytes(frame);
      if |bytes| <= output.Length then r == Ok(|bytes|) && output[..] == bytes + old(output[|bytes|..])
      else r == Err(BufferTooSmall(|bytes|, output.Length)) && output[..] == old(output[..])
  {
    hide Crc32c, WordBytes, U32Bytes, U16Bytes, CommandPayload, FrameBytes;
    if |NameOf(frame.envelope.command)| > MAX_STRING_LEN {
      return Err(EncodedStringTooLong(|NameOf(frame.envelope.command)|, MAX_STRING_LEN));
    }
    ghost var payload := CommandPayload(frame.envelope);
    var payloadLen := PayloadLen(frame.envelope);
    var frameLen := HEADER_LEN + payloadLen + CHECKSUM_LEN;
    if output.Length < frameLen {
      return Err(BufferTooSmall(frameLen, output.Length));
    }
    var writer := new Writer(output);
    WriteHeader(writer, COMMAND_TYPE, frame.sequence, payloadLen);
    EncodePayload(frame.envelope, writer);
    WriteChecksum(writer, COMMAND_TYPE, frame.sequence, payload);
    assert output[..] == writer.Written() + output[writer.position..];
    r := Ok(writer.position);
  }

  function PayloadLen(envelope: CommandEnvelope): (n: nat)
    requires Encodable(envelope)
    ensures n == |CommandPayload(envelope)|
  {
    1 + (if envelope.executeAt.Some? then 8 else 0) +
    match envelope.command
    case Heartbeat => 1
    case SetHeaterTarget(heater, _) => 1 + (1 + |heater|) + 8
    case Home(axis, _) => 1 + (1 + |axis|) + 8
    case Move(axis, _, _) => 1 + (1 + |axis|) + 8 + 8
  }

  method WriteStatus(status: QueueStatus, writer: Writer)
    requires writer.Valid() && writer.position + QUEUE_STATUS_PAYLOAD_LEN <= writer.output.Length
    modifies writer`position, writer.output
    ensures writer.Valid() && writer.Written() == old(writer.Written()) + QueueStatusPayload(status)
    ensures forall i :: writer.position <= i < writer.output.Length ==> writer.output[i] == old(writer.output[i])
  {
    hide U16Bytes, U64Bytes;
    ghost var before := writer.Written();
    var _ := writer.Write([0]);
    WritePair(writer, U16Bytes(status.capacity), U16Bytes(status.fill));
    WritePair(writer, U64Bytes(status.earliestAccepted), U64Bytes(status.latestAccepted));
    var _ := writer.Write([if status.underrun then 1 else 0]);
    assert writer.Written() == before + QueueStatusPayload(status);
  }

  method EncodeQueueStatus(frame: QueueStatusFrame, output: array<byte>) returns (r: Result<nat, EncodeError>)
    modifies output
    ensures var bytes := QueueStatusFrameBytes(frame);
      if |bytes| <= output.Length then r == Ok(|bytes|) && output[..] == bytes + old(output[|bytes|..])
      else r == Err(BufferTooSmall(|bytes|, output.Length)) && output[..] == old(output[..])
  {
    hide Crc32c, WordBytes, U32Bytes, U16Bytes, U64Bytes, FrameBytes, Header;
    var frameLen := HEADER_LEN + QUEUE_STATUS_PAYLOAD_LEN + CHECKSUM_LEN;
    if output.Length < frameLen {
      return Err(BufferTooSmall(frameLen, output.Length));
    }
    var status := frame.status;
    var writer := new Writer(output);
    WriteHeader(writer, QUEUE_STATUS_TYPE, frame.sequence, QUEUE_STATUS_PAYLOAD_LEN);
    WriteStatus(status, writer);
    WriteChecksum(writer, QUEUE_STATUS_TYPE, frame.sequence, QueueStatusPayload(status));
    assert output[..] == writer.Written() + output[writer.position..];
    r := Ok(writer.position);
  }

  method EncodeClockRequest(frame: ClockRequestFrame, output: array<byte>) returns (r: Result<nat, EncodeError>)
    modifies output
    ensures var bytes := ClockRequestFrameBytes(frame);
      if |bytes| <= output.Length then r == Ok(|bytes|) && output[..] == bytes + old(output[|bytes|..])
      else r == Err(BufferTooSmall(|bytes|, output.Length)) && output[..] == old(output[..])
  {
    hide Crc32c, WordBytes, U32Bytes, U16Bytes, FrameBytes, Header;
    var frameLen := HEADER_LEN + CLOCK_REQUEST_PAYLOAD_LEN + CHECKSUM_LEN;
    if output.Length < frameLen {
      return Err(BufferTooSmall(frameLen, output.Length));
    }
    var writer := new Writer(output);
    WriteHeader(writer, CLOCK_REQUEST_TYPE, frame.sequence, CLOCK_REQUEST_PAYLOAD_LEN);
    var _ := writer.Write([0]);
    WriteChecksum(writer, CLOCK_REQUEST_TYPE, frame.sequence, [0]);
    assert output[..] == writer.Written() + output[writer.position..];
    r := Ok(writer.position);
  }

  method EncodeClockResponse(frame: ClockResponseFrame, output: array<byte>) returns (r: Result<nat, EncodeError>)
    modifies output
    ensures var bytes := ClockResponseFrameBytes(frame);
      if |bytes| <= output.Length then r == Ok(|bytes|) && output[..] == bytes + old(output[|bytes|..])
      else r == Err(BufferTooSmall(|bytes|, output.Length)) && output[..] == old(output[..])
  {
    hide Crc32c, WordBytes, U32Bytes, U16Bytes, U64Bytes, FrameBytes, Header;
    var frameLen := HEADER_LEN + CLOCK_RESPONSE_PAYLOAD_LEN + CHECKSUM_LEN;
    if output.Length < frameLen {
      return Err(BufferTooSmall(frameLen, output.Length));
    }
    var writer := new Writer(output);
    WriteHeader(writer, CLOCK_RESPONSE_TYPE, frame.sequence, CLOCK_RESPONSE_PAYLOAD_LEN);
    ghost var header := writer.Written();
    var _ := writer.Write([0]);
    var _ := writer.Write(U64Bytes(frame.response.controllerReceive));
    var _ := writer.Write(U64Bytes(frame.response.controllerSend));
    assert writer.Written() == header + ClockResponsePayload(frame.response);
    WriteChecksum(writer, CLOCK_RESPONSE_TYPE, frame.sequence, ClockResponsePayload(frame.response));
    assert output[..] == writer.Written() + output[writer.position..];
    r := Ok(writer.position);
  }

  // ----- reading -------------------------------------------------------------------

  class Reader {
    const input: seq<byte>
    var position: nat

    ghost predicate Valid()
      reads this
    {
      position <= |input|
    }

    ghost function View(): Cursor
      reads this
      requires Valid()
    {
      Cursor(input[position..], position)
    }

    constructor (input: seq<byte>)
      ensures Valid() && View() == Cursor(input, 0)
    {
      this.input := input;
      position := 0;
    }

    method Read(length: nat) returns (r: Result<seq<byte>, DecodeError>)
      requires Valid()
      modifies this
      ensures Valid()
      ensures match Take(old(View()), length)
              case Ok(step) => r == Ok(step.0) && View() == step.1
              case Err(e) => r == Err(e) && View() == old(View())
    {
      var end := position + length;
      if end > |input| {
        return Err(Truncated(end, |input|));
      }
      assert input[position..][..length] == input[position..end];
      r := Ok(input[position..end]);
      position := end;
    }

    method ReadU8() returns (r: Result<byte, DecodeError>)
      requires Valid()
      modifies this
      ensures Valid()
      ensures match TakeU8(old(View()))
              case Ok(step) => r == Ok(step.0) && View() == step.1
              case Err(e) => r == Err(e)
    {
      var bytes :- Read(1);
      r := Ok(bytes[0]);
    }

    method ReadU16() returns (r: Result<u16, DecodeError>)
      requires Valid()
      modifies this
      ensures Valid()
      ensures match TakeU16(old(View()))
              case Ok(step) => r == Ok(step.0) && View() == step.1
              case Err(e) => r == Err(e)
    {
      var bytes :- Read(2);
      r := Ok(U16Of(bytes));
    }

    method ReadU64() returns (r: Result<u64, DecodeError>)
      requires Valid()
      modifies this
      ensures Valid()
      ensures match TakeU64(old(View()))
              case Ok(step) => r == Ok(step.0) && View() == step.1
              case Err(e) => r == Err(e)
    {
      var bytes :- Read(8);
      r := Ok(U64Of(bytes));
    }

    method ReadI64() returns (r: Result<i64, DecodeError>)
      requires Valid()
      modifies this
      ensures Valid()
      ensures match TakeI64(old(View()))
              case Ok(step) => r == Ok(step.0) && View() == step.1
              case Err(e) => r == Err(e)
    {
      var bytes :- Read(8);
      r := Ok(I64Of(bytes));
    }

    method ReadString() returns (r: Result<Text, DecodeError>)
      requires Valid()
      modifies this
      ensures Valid()
      ensures match TakeString(old(View()))
              case Ok(step) => r == Ok(step.0) && View() == step.1
              case Err(e) => r == Err(e)
    {
      var length :- ReadU8();
      if ValueOf(length) > MAX_STRING_LEN {
        return Err(StringTooLong(ValueOf(length), MAX_STRING_LEN));
      }
      var bytes :- Read(ValueOf(length));
      if !ValidUtf8(bytes) {
        return Err(InvalidUtf8);
      }
      r := Ok(bytes);
    }
  }

  /** The tagged command of a payload. */
  method ReadTagged(reader: Reader) returns (r: Result<Command, DecodeError>)
    requires reader.Valid()
    modifies reader
    ensures reader.Valid()
    ensures match TakeCommand(old(reader.View()))
            case Ok(step) => r == Ok(step.0) && reader.View() == step.1
            case Err(e) => r == Err(e)
  {
    hide Take, TakeU8, TakeU64, TakeI64, TakeString, ValidUtf8;
    var tag :- reader.ReadU8();
    if tag == TAG_HEARTBEAT {
      return Ok(Heartbeat);
    }
    if tag == TAG_SET_HEATER_TARGET {
      var heater :- reader.ReadString();
      var target :- reader.ReadI64();
      return Ok(SetHeaterTarget(heater, target));
    }
    if tag == TAG_HOME {
      var axis :- reader.ReadString();
      var rate :- reader.ReadU64();
      return Ok(Home(axis, rate));
    }
    if tag == TAG_MOVE {
      var axis :- reader.ReadString();
      var distance :- reader.ReadI64();
      var rate :- reader.ReadU64();
      return Ok(Move(axis, distance, rate));
    }
    r := Err(UnknownCommandTag(tag));
  }

  method ReadPayload(payload: seq<byte>) returns (r: Result<CommandEnvelope, DecodeError>)
    ensures r == DecodePayload(payload)
  {
    hide Take, TakeU8, TakeU64, TakeCommand;
    var reader := new Reader(payload);
    var flags :- reader.ReadU8();
    if flags & 0xfe != 0 {
      return Err(InvalidFlags(flags));
    }
    var executeAt: Option<u64> := None;
    if flags & 1 != 0 {
      var t :- reader.ReadU64();
      executeAt := Some(t);
    }
    var command :- ReadTagged(reader);
    if |payload| - reader.position != 0 {
      return Err(TrailingPayloadBytes(|payload| - reader.position));
    }
    r := Ok(CommandEnvelope(executeAt, command));
  }

  method ReadCommand(input: seq<byte>) returns (r: Result<CommandFrame, DecodeError>)
    ensures r == DecodeCommand(input)
  {
    hide Delimit, DecodePayload;
    var d :- Unframe(input, COMMAND_TYPE);
    var envelope :- ReadPayload(d.payload);
    r := Ok(CommandFrame(d.sequence, envelope));
  }

  method ReadQueueStatus(input: seq<byte>) returns (r: Result<QueueStatusFrame, DecodeError>)
    ensures r == DecodeQueueStatus(input)
  {
    hide Delimit, TakeU8, TakeU16, TakeU64;
    var d :- Unframe(input, QUEUE_STATUS_TYPE);
    if |d.payload| != QUEUE_STATUS_PAYLOAD_LEN {
      return Err(InvalidPayloadLength(QUEUE_STATUS_PAYLOAD_LEN, |d.payload|));
    }
    var reader := new Reader(d.payload);
    var flags :- reader.ReadU8();
    if flags != 0 {
      return Err(InvalidFlags(flags));
    }
    var capacity :- reader.ReadU16();
    var fill :- reader.ReadU16();
    var earliest :- reader.ReadU64();
    var latest :- reader.ReadU64();
    var state :- reader.ReadU8();
    if state & 0xfe != 0 {
      return Err(InvalidStateFlags(state));
    }
    r := Ok(QueueStatusFrame(d.sequence, QueueStatus(capacity, fill, earliest, latest, state & 1 != 0)));
  }

  method ReadClockRequest(input: seq<byte>) returns (r: Result<ClockRequestFrame, DecodeError>)
    ensures r == DecodeClockRequest(input)
  {
    hide Delimit;
    var d :- Unframe(input, CLOCK_REQUEST_TYPE);
    if |d.payload| != CLOCK_REQUEST_PAYLOAD_LEN {
      return Err(InvalidPayloadLength(CLOCK_REQUEST_PAYLOAD_LEN, |d.payload|));
    }
    var reader := new Reader(d.payload);
    var flags := reader.ReadU8();
    if flags.value != 0 {
      return Err(InvalidFlags(flags.value));
    }
    r := Ok(ClockRequestFrame(d.sequence));
  }

  method ReadClockResponse(input: seq<byte>) returns (r: Result<ClockResponseFrame, DecodeError>)
    ensures r == DecodeClockResponse(input)
  {
    hide Delimit, TakeU8, TakeU64;
    var d :- Unframe(input, CLOCK_RESPONSE_TYPE);
    if |d.payload| != CLOCK_RESPONSE_PAYLOAD_LEN {
      return Err(InvalidPayloadLength(CLOCK_RESPONSE_PAYLOAD_LEN, |d.payload|));
    }
    var reader := new Reader(d.payload);
    var flags :- reader.ReadU8();
    if flags != 0 {
      return Err(InvalidFlags(flags));
    }
    var receive :- reader.ReadU64();
    var send :- reader.ReadU64();
    r := Ok(ClockResponseFrame(d.sequence, ClockResponse(receive, send)));
  }

  /** The shared header, length and checksum validation. */
  method Unframe(input: seq<byte>, messageType: byte) returns (r: Result<Delimited, DecodeError>)
    ensures r == Delimit(input, messageType)
  {
    hide Crc32c, LeWord, U16Of, U32Of;
    if |input| < 2 {
      return Err(Truncated(2, |input|));
    }
    if input[..2] != MAGIC {
      return Err(InvalidMagic);
    }
    if |input| < HEADER_LEN {
      return Err(Truncated(HEADER_LEN, |input|));
    }
    if input[2] != PROTOCOL_VERSION {
      return Err(UnsupportedVersion(input[2]));
    }
    if input[3] != messageType {
      return Err(UnsupportedMessageType(input[3]));
    }
    var payloadLen := U16Of(input[8..10]);
    if payloadLen > MAX_PAYLOAD_LEN {
      return Err(PayloadTooLong(payloadLen, MAX_PAYLOAD_LEN));
    }
    var frameLen := HEADER_LEN + payloadLen + CHECKSUM_LEN;
    if |input| < frameLen {
      return Err(Truncated(frameLen, |input|));
    }
    if |input| > frameLen {
      return Err(TrailingFrameBytes(|input| - frameLen));
    }
    var payloadEnd := HEADER_LEN + payloadLen;
    var encoded := LeWord(input[payloadEnd..]);
    var computed := ComputeCrc32c(input[2..payloadEnd]);
    if encoded != computed {
      return Err(ChecksumMismatch(encoded, computed));
    }
    r := Ok(Delimited(U32Of(input[4..8]), input[HEADER_LEN..payloadEnd]));
  }
}
