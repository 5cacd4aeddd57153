// Encoders and decoders are mutual inverses, prefixes are recognised as
// truncated, and no burst of four bytes goes unnoticed.
module ProtocolLaws {
  import opened Prelude
  import opened Bytes
  import opened Crc
  import opened Protocol

  // ----- frames -------------------------------------------------------------------

  lemma FrameLayout(messageType: byte, sequence: u32, payload: seq<byte>)
    requires |payload| <= MAX_PAYLOAD_LEN
    ensures var b := FrameBytes(messageType, sequence, payload);
      && b[..2] == MAGIC && b[2] == PROTOCOL_VERSION && b[3] == messageType
      && b[4..8] == U32Bytes(sequence) && b[8..10] == U16Bytes(|payload|)
      && b[10..10 + |payload|] == payload
      && b[2..10 + |payload|] == Body(messageType, sequence, payload)
      && b[10 + |payload|..] == WordBytes(Crc32c(Body(messageType, sequence, payload)))
      && b[2..] == Body(messageType, sequence, payload) + WordBytes(Crc32c(Body(messageType, sequence, payload)))
  {
    hide Crc32c, WordBytes, U32Bytes, U16Bytes;
  }

  lemma DelimitInverts(messageType: byte, sequence: u32, payload: seq<byte>)
    requires |payload| <= MAX_PAYLOAD_LEN
    ensures Delimit(FrameBytes(messageType, sequence, payload), messageType) == Ok(Delimited(sequence, payload))
  {
    hide Crc32c, WordBytes, U32Bytes, U16Bytes, U16Of, U32Of, LeWord, Body, FrameBytes;
    FrameLayout(messageType, sequence, payload);
    U32RoundTrips(sequence, U32Bytes(sequence));
    U16RoundTrips(|payload|, U16Bytes(|payload|));
    WordRoundTrip(Crc32c(Body(messageType, sequence, payload)));
  }

  lemma DelimitExact(b: seq<byte>, messageType: byte)
    requires Delimit(b, messageType).Ok?
    ensures var d := Delimit(b, messageType).value;
      && |d.payload| <= MAX_PAYLOAD_LEN
      && |b| == HEADER_LEN + |d.payload| + CHECKSUM_LEN
      && b[..2] == MAGIC
      && Codeword(b[2..])
      && FrameBytes(messageType, d.sequence, d.payload) == b
  {
    hide Crc32c, WordBytes, U32Bytes, U16Bytes, U16Of, U32Of, LeWord, Codeword;
    var d := Delimit(b, messageType).value;
    var end := HEADER_LEN + |d.payload|;
    U32RoundTrips(0, b[4..8]);
    U16RoundTrips(0, b[8..10]);
    BytesRoundTrip(b[end..]);
    assert b[2..end] == Body(messageType, d.sequence, d.payload);
    assert b == b[..2] + b[2..end] + b[end..];
    CodewordIffChecksum(b[2..end], b[end..]);
    assert b[2..] == b[2..end] + b[end..];
  }

  /** Every proper prefix of an acceptable frame is reported as truncated. */
  lemma DelimitPrefix(b: seq<byte>, messageType: byte, n: nat)
    requires Delimit(b, messageType).Ok? && n < |b|
    ensures Delimit(b[..n], messageType).Err? && Delimit(b[..n], messageType).error.Truncated?
  {
    hide Crc32c, U16Of, U32Of, LeWord;
    var p := b[..n];
    if n >= 2 {
      assert p[..2] == b[..2];
      if n >= HEADER_LEN {
        assert p[8..10] == b[8..10];
      }
    }
  }

  /** Two frames of one length, of whatever types, that differ only inside four
      consecutive bytes are not both acceptable. */
  lemma DelimitBurst(x: seq<byte>, y: seq<byte>, xType: byte, yType: byte, p: nat)
    requires Delimit(x, xType).Ok? && Delimit(y, yType).Ok?
    requires |x| == |y| && p + 4 <= |x| && x[..p] == y[..p] && x[p + 4..] == y[p + 4..]
    ensures x == y
  {
    hide Delimit, Codeword, FrameBytes;
    DelimitExact(x, xType);
    DelimitExact(y, yType);
    // A window over the magic moves onto the checked bytes.
    var q := if p < 2 then 2 else p;
    assert x[2..][..q - 2] == y[2..][..q - 2] by {
      if p >= 2 {
        assert x[2..][..q - 2] == x[..p][2..] && y[2..][..q - 2] == y[..p][2..];
      }
    }
    assert x[2..][q - 2 + 4..] == y[2..][q - 2 + 4..] by {
      assert x[2..][q - 2 + 4..] == x[p + 4..][q - p..];
      assert y[2..][q - 2 + 4..] == y[p + 4..][q - p..];
    }
    BurstOfFour(x[2..], y[2..], q - 2);
    assert x == x[..2] + x[2..] && y == y[..2] + y[2..];
  }

  // ----- cursors --------------------------------------------------------------------

  lemma TakeExact(a: seq<byte>, b: seq<byte>, position: nat)
    ensures Take(Cursor(a + b, position), |a|) == Ok((a, Cursor(b, position + |a|)))
  {
    assert (a + b)[..|a|] == a && (a + b)[|a|..] == b;
  }

  lemma TakeU8Exact(a: byte, b: seq<byte>, position: nat)
    ensures TakeU8(Cursor([a] + b, position)) == Ok((a, Cursor(b, position + 1)))
  {
    TakeExact([a], b, position);
  }

  lemma TakeU16Exact(x: u16, b: seq<byte>, position: nat)
    ensures TakeU16(Cursor(U16Bytes(x) + b, position)) == Ok((x, Cursor(b, position + 2)))
  {
    TakeExact(U16Bytes(x), b, position);
    U16RoundTrips(x, U16Bytes(x));
  }

  lemma TakeU64Exact(x: u64, b: seq<byte>, position: nat)
    ensures TakeU64(Cursor(U64Bytes(x) + b, position)) == Ok((x, Cursor(b, position + 8)))
  {
    TakeExact(U64Bytes(x), b, position);
    U64RoundTrips(x, U64Bytes(x));
  }

  lemma TakeI64Exact(x: i64, b: seq<byte>, position: nat)
    ensures TakeI64(Cursor(I64Bytes(x) + b, position)) == Ok((x, Cursor(b, position + 8)))
  {
    TakeExact(I64Bytes(x), b, position);
    I64RoundTrips(x, I64Bytes(x));
  }

  lemma TakeStringExact(s: Text, b: seq<byte>, position: nat)
    requires |s| <= MAX_STRING_LEN
    ensures TakeString(Cursor(StringBytes(s) + b, position)) == Ok((s, Cursor(b, position + 1 + |s|)))
  {
    hide ValidUtf8, ByteOf, ValueOf, Take, TakeU8;
    assert StringBytes(s) + b == [ByteOf(|s|)] + (s + b);
    TakeU8Exact(ByteOf(|s|), s + b, position);
    ByteRoundTrip(|s|);
    TakeExact(s, b, position + 1);
  }

  lemma U64Recovered(c: Cursor)
    requires TakeU64(c).Ok?
    ensures c.rest == U64Bytes(TakeU64(c).value.0) + TakeU64(c).value.1.rest
  {
    U64RoundTrips(0, c.rest[..8]);
  }

  lemma I64Recovered(c: Cursor)
    requires TakeI64(c).Ok?
    ensures c.rest == I64Bytes(TakeI64(c).value.0) + TakeI64(c).value.1.rest
  {
    I64RoundTrips(0, c.rest[..8]);
  }

  lemma U16Recovered(c: Cursor)
    requires TakeU16(c).Ok?
    ensures c.rest == U16Bytes(TakeU16(c).value.0) + TakeU16(c).value.1.rest
  {
    U16RoundTrips(0, c.rest[..2]);
  }

  lemma U8Recovered(c: Cursor)
    requires TakeU8(c).Ok?
    ensures c.rest == [TakeU8(c).value.0] + TakeU8(c).value.1.rest
  {
  }

  lemma StringRecovered(c: Cursor)
    requires TakeString(c).Ok?
    ensures |TakeString(c).value.0| <= MAX_STRING_LEN
    ensures c.rest == StringBytes(TakeString(c).value.0) + TakeString(c).value.1.rest
  {
    hide ValueOf, ByteOf, ValidUtf8, TakeU8;
    var (b, afterLength) := TakeU8(c).value;
    ValueRoundTrip(b);
    U8Recovered(c);
    var (name, next) := Take(afterLength, ValueOf(b)).value;
    ConcatAssoc([b], name, next.rest);
  }

  // ----- commands -------------------------------------------------------------------

  /** A tag and a name are read back, leaving what follows them. */
  lemma TakeTaggedExact(tag: byte, name: Text, rest: seq<byte>, position: nat)
    requires |name| <= MAX_STRING_LEN
    ensures TakeU8(Cursor([tag] + (StringBytes(name) + rest), position))
            == Ok((tag, Cursor(StringBytes(name) + rest, position + 1)))
    ensures TakeString(Cursor(StringBytes(name) + rest, position + 1))
      == Ok((name, Cursor(rest, position + 2 + |name|)))
  {
    hide StringBytes, TakeU8, TakeString;
    TakeU8Exact(tag, StringBytes(name) + rest, position);
    TakeStringExact(name, rest, position + 1);
  }

  lemma TakeCommandExact(command: Command, b: seq<byte>, position: nat)
    requires |NameOf(command)| <= MAX_STRING_LEN
    ensures TakeCommand(Cursor(CommandBytes(command) + b, position))
            == Ok((command, Cursor(b, position + |CommandBytes(command)|)))
  {
    hide StringBytes, U64Bytes, I64Bytes, TakeU8, TakeString, TakeU64, TakeI64, ValidUtf8;
    StringLength(NameOf(command));
    match command
    case Heartbeat =>
      TakeU8Exact(TAG_HEARTBEAT, b, position);
    case SetHeaterTarget(heater, target) =>
      Reassociate([TAG_SET_HEATER_TARGET], StringBytes(heater), I64Bytes(target), b);
      TakeTaggedExact(TAG_SET_HEATER_TARGET, heater, I64Bytes(target) + b, position);
      TakeI64Exact(target, b, position + 2 + |heater|);
    case Home(axis, rate) =>
      Reassociate([TAG_HOME], StringBytes(axis), U64Bytes(rate), b);
      TakeTaggedExact(TAG_HOME, axis, U64Bytes(rate) + b, position);
      TakeU64Exact(rate, b, position + 2 + |axis|);
    case Move(axis, distance, rate) =>
      Reassociate([TAG_MOVE], StringBytes(axis), I64Bytes(distance) + U64Bytes(rate), b);
      assert (I64Bytes(distance) + U64Bytes(rate)) + b == I64Bytes(distance) + (U64Bytes(rate) + b);
      TakeTaggedExact(TAG_MOVE, axis, I64Bytes(distance) + (U64Bytes(rate) + b), position);
      TakeMoveExact(distance, rate, b, position + 2 + |axis|);
  }

  lemma Reassociate(a: seq<byte>, b: seq<byte>, c: seq<byte>, d: seq<byte>)
    ensures (a + (b + c)) + d == a + (b + (c + d))
  {
  }

  lemma TakeMoveExact(distance: i64, rate: u64, b: seq<byte>, position: nat)
    ensures TakeI64(Cursor(I64Bytes(distance) + (U64Bytes(rate) + b), position))
            == Ok((distance, Cursor(U64Bytes(rate) + b, position + 8)))
    ensures TakeU64(Cursor(U64Bytes(rate) + b, position + 8)) == Ok((rate, Cursor(b, position + 16)))
  {
    hide U64Bytes, I64Bytes, TakeU64, TakeI64;
    TakeI64Exact(distance, U64Bytes(rate) + b, position);
    TakeU64Exact(rate, b, position + 8);
  }

  lemma StringLength(s: Text)
    requires |s| <= MAX_STRING_LEN
    ensures |StringBytes(s)| == 1 + |s|
  {
  }

  lemma CommandRecovered(c: Cursor)
    requires TakeCommand(c).Ok?
    ensures var (command, next) := TakeCommand(c).value;
      |NameOf(command)| <= MAX_STRING_LEN && c.rest == CommandBytes(command) + next.rest
  {
    hide StringBytes, U64Bytes, I64Bytes, TakeU8, TakeString, TakeU64, TakeI64, ValidUtf8;
    U8Recovered(c);
    var (tag, c1) := TakeU8(c).value;
    var (command, next) := TakeCommand(c).value;
    match command
    case Heartbeat =>
    case SetHeaterTarget(heater, target) =>
      StringRecovered(c1);
      I64Recovered(TakeString(c1).value.1);
      Reassociate([tag], StringBytes(heater), I64Bytes(target), next.rest);
    case Home(axis, rate) =>
      StringRecovered(c1);
      U64Recovered(TakeString(c1).value.1);
      Reassociate([tag], StringBytes(axis), U64Bytes(rate), next.rest);
    case Move(axis, distance, rate) =>
      StringRecovered(c1);
      var c2 := TakeString(c1).value.1;
      I64Recovered(c2);
      U64Recovered(TakeI64(c2).value.1);
      Reassociate([tag], StringBytes(axis), I64Bytes(distance) + U64Bytes(rate), next.rest);
      ConcatAssoc(I64Bytes(distance), U64Bytes(rate), next.rest);
  }

  lemma PayloadInverts(envelope: CommandEnvelope)
    requires Encodable(envelope)
    ensures DecodePayload(CommandPayload(envelope)) == Ok(envelope)
  {
    hide U64Bytes, TakeU8, TakeU64, TakeCommand, CommandBytes;
    var command := CommandBytes(envelope.command);
    assert command + [] == command;
    match envelope.executeAt
    case None =>
      TakeU8Exact(0, command, 0);
      TakeCommandExact(envelope.command, [], 1);
    case Some(t) =>
      TakeU8Exact(1, U64Bytes(t) + command, 0);
      TakeU64Exact(t, command, 1);
      TakeCommandExact(envelope.command, [], 9);
  }

  lemma PayloadExact(payload: seq<byte>)
    requires DecodePayload(payload).Ok?
    ensures var envelope := DecodePayload(payload).value;
      Encodable(envelope) && CommandPayload(envelope) == payload
  {
    hide U64Bytes, TakeU64, TakeCommand, CommandBytes;
    var (flags, c1) := TakeU8(Cursor(payload, 0)).value;
    KnownFlags(flags);
    var (executeAt, c2) := TakeSchedule(flags, c1).value;
    CommandRecovered(c2);
    var (command, c3) := TakeCommand(c2).value;
    assert CommandBytes(command) + [] == CommandBytes(command);
    if executeAt.Some? {
      U64Recovered(c1);
    }
  }

  lemma KnownFlags(flags: byte)
    requires flags & 0xfe == 0
    ensures flags == if flags & 1 != 0 then 1 else 0
  {
  }

  /** Decoding an encoded command frame gives the frame back. */
  lemma CommandRoundTrip(frame: CommandFrame)
    requires Encodable(frame.envelope)
    ensures DecodeCommand(CommandFrameBytes(frame)) == Ok(frame)
  {
    hide Delimit, FrameBytes, DecodePayload, CommandPayload;
    DelimitInverts(COMMAND_TYPE, frame.sequence, CommandPayload(frame.envelope));
    PayloadInverts(frame.envelope);
  }

  /** Whatever decodes as a command frame is exactly that frame's encoding. */
  lemma CommandCanonical(b: seq<byte>)
    requires DecodeCommand(b).Ok?
    ensures Encodable(DecodeCommand(b).value.envelope) && CommandFrameBytes(DecodeCommand(b).value) == b
  {
    hide Delimit, FrameBytes, DecodePayload, CommandPayload;
    DelimitExact(b, COMMAND_TYPE);
    PayloadExact(Delimit(b, COMMAND_TYPE).value.payload);
  }

  // ----- fixed-width frames ------------------------------------------------------------

  lemma QueueStatusRoundTrip(frame: QueueStatusFrame)
    ensures DecodeQueueStatus(QueueStatusFrameBytes(frame)) == Ok(frame)
  {
    hide Delimit, FrameBytes, U16Bytes, U64Bytes, TakeU8, TakeU16, TakeU64;
    var s := frame.status;
    DelimitInverts(QUEUE_STATUS_TYPE, frame.sequence, QueueStatusPayload(s));
    var last := [if s.underrun then 1 else 0 as byte];
    var r4 := U64Bytes(s.latestAccepted) + last;
    var r3 := U64Bytes(s.earliestAccepted) + r4;
    var r2 := U16Bytes(s.fill) + r3;
    var r1 := U16Bytes(s.capacity) + r2;
    TakeU8Exact(0, r1, 0);
    TakeU16Exact(s.capacity, r2, 1);
    TakeU16Exact(s.fill, r3, 3);
    TakeU64Exact(s.earliestAccepted, r4, 5);
    TakeU64Exact(s.latestAccepted, last, 13);
    assert last == last + [];
    TakeU8Exact(last[0], [], 21);
  }

  lemma QueueStatusCanonical(b: seq<byte>)
    requires DecodeQueueStatus(b).Ok?
    ensures QueueStatusFrameBytes(DecodeQueueStatus(b).value) == b
  {
    hide Delimit, FrameBytes, U16Bytes, U64Bytes, TakeU16, TakeU64;
    DelimitExact(b, QUEUE_STATUS_TYPE);
    var payload := Delimit(b, QUEUE_STATUS_TYPE).value.payload;
    var c1 := TakeU8(Cursor(payload, 0)).value.1;
    U16Recovered(c1);
    var c2 := TakeU16(c1).value.1;
    U16Recovered(c2);
    var c3 := TakeU16(c2).value.1;
    U64Recovered(c3);
    var c4 := TakeU64(c3).value.1;
    U64Recovered(c4);
    var c5 := TakeU64(c4).value.1;
    KnownFlags(c5.rest[0]);
    U64Lengths(c3);
    U64Lengths(c4);
    U16Lengths(c1);
    U16Lengths(c2);
    assert c5.rest == [c5.rest[0]];
    assert payload == [0] + c1.rest;
    assert payload == QueueStatusPayload(DecodeQueueStatus(b).value.status);
  }

  lemma U64Lengths(c: Cursor)
    requires TakeU64(c).Ok?
    ensures |c.rest| == 8 + |TakeU64(c).value.1.rest|
  {
  }

  lemma U16Lengths(c: Cursor)
    requires TakeU16(c).Ok?
    ensures |c.rest| == 2 + |TakeU16(c).value.1.rest|
  {
  }

  lemma ClockRequestRoundTrip(frame: ClockRequestFrame)
    ensures DecodeClockRequest(ClockRequestFrameBytes(frame)) == Ok(frame)
  {
    hide Delimit, FrameBytes;
    DelimitInverts(CLOCK_REQUEST_TYPE, frame.sequence, [0]);
  }

  lemma ClockRequestCanonical(b: seq<byte>)
    requires DecodeClockRequest(b).Ok?
    ensures ClockRequestFrameBytes(DecodeClockRequest(b).value) == b
  {
    hide Delimit, FrameBytes;
    DelimitExact(b, CLOCK_REQUEST_TYPE);
    assert Delimit(b, CLOCK_REQUEST_TYPE).value.payload == [0];
  }

  lemma ClockResponseRoundTrip(frame: ClockResponseFrame)
    ensures DecodeClockResponse(ClockResponseFrameBytes(frame)) == Ok(frame)
  {
    hide Delimit, FrameBytes, U64Bytes, TakeU8, TakeU64;
    var r := frame.response;
    DelimitInverts(CLOCK_RESPONSE_TYPE, frame.sequence, ClockResponsePayload(r));
    TakeU8Exact(0, U64Bytes(r.controllerReceive) + U64Bytes(r.controllerSend), 0);
    TakeU64Exact(r.controllerReceive, U64Bytes(r.controllerSend), 1);
    assert U64Bytes(r.controllerSend) == U64Bytes(r.controllerSend) + [];
    TakeU64Exact(r.controllerSend, [], 9);
  }

  lemma ClockResponseCanonical(b: seq<byte>)
    requires DecodeClockResponse(b).Ok?
    ensures ClockResponseFrameBytes(DecodeClockResponse(b).value) == b
  {
    hide Delimit, FrameBytes, U64Bytes, TakeU64;
    DelimitExact(b, CLOCK_RESPONSE_TYPE);
    var payload := Delimit(b, CLOCK_RESPONSE_TYPE).value.payload;
    var c1 := TakeU8(Cursor(payload, 0)).value.1;
    U64Recovered(c1);
    var c2 := TakeU64(c1).value.1;
    U64Recovered(c2);
    U64Lengths(c1);
    U64Lengths(c2);
    assert TakeU64(c2).value.1.rest == [];
    assert U64Bytes(TakeU64(c2).value.0) + [] == U64Bytes(TakeU64(c2).value.0);
    assert payload == [0] + c1.rest;
  }

  // ----- all four types -------------------------------------------------------------------

  predicate IsTruncated<T>(r: Result<T, DecodeError>) {
    r.Err? && r.error.Truncated?
  }

  /** A proper prefix of a frame is truncated for the decoder that accepts the frame. */
  lemma PrefixesTruncated(b: seq<byte>, n: nat)
    requires n < |b|
    ensures DecodeCommand(b).Ok? ==> IsTruncated(DecodeCommand(b[..n]))
    ensures DecodeQueueStatus(b).Ok? ==> IsTruncated(DecodeQueueStatus(b[..n]))
    ensures DecodeClockRequest(b).Ok? ==> IsTruncated(DecodeClockRequest(b[..n]))
    ensures DecodeClockResponse(b).Ok? ==> IsTruncated(DecodeClockResponse(b[..n]))
  {
    hide Delimit, DecodePayload;
    if DecodeCommand(b).Ok? { DelimitPrefix(b, COMMAND_TYPE, n); }
    if DecodeQueueStatus(b).Ok? { DelimitPrefix(b, QUEUE_STATUS_TYPE, n); }
    if DecodeClockRequest(b).Ok? { DelimitPrefix(b, CLOCK_REQUEST_TYPE, n); }
    if DecodeClockResponse(b).Ok? { DelimitPrefix(b, CLOCK_RESPONSE_TYPE, n); }
  }

  predicate Accepted(b: seq<byte>) {
    DecodeCommand(b).Ok? || DecodeQueueStatus(b).Ok? || DecodeClockRequest(b).Ok? || DecodeClockResponse(b).Ok?
  }

  /** Damage confined to four consecutive bytes of an accepted frame, wherever it
      falls, leaves bytes that no decoder accepts. */
  lemma BurstsDetected(x: seq<byte>, y: seq<byte>, p: nat)
    requires |x| == |y| && p + 4 <= |x| && x[..p] == y[..p] && x[p + 4..] == y[p + 4..]
    requires x != y
    requires Accepted(x)
    ensures !Accepted(y)
  {
    hide Delimit, DecodePayload;
    var xType :| Delimit(x, xType).Ok?;
    forall yType: byte
      ensures Delimit(y, yType).Err?
    {
      if Delimit(y, yType).Ok? {
        DelimitBurst(x, y, xType, yType, p);
        assert false;
      }
    }
  }
}
