// The octets of version 1 frames, position by position, and the value of the
// checksum: what a peer on the other end of the wire relies on.
module WireLayout {
  import opened Prelude
  import opened Bytes
  import opened Crc
  import opened Protocol
  import opened ProtocolLaws

  // ----- octets as numbers ---------------------------------------------------------------------

  lemma LowHalves(b: byte)
    ensures b as int == Bit(b, 0x01) + 2 * ((b >> 1) as int)
    ensures (b >> 1) as int == Bit(b, 0x02) + 2 * ((b >> 2) as int)
    ensures (b >> 2) as int == Bit(b, 0x04) + 2 * ((b >> 3) as int)
    ensures (b >> 3) as int == Bit(b, 0x08) + 2 * ((b >> 4) as int)
  {
  }
  lemma HighHalves(b: byte)
    ensures (b >> 4) as int == Bit(b, 0x10) + 2 * ((b >> 5) as int)
    ensures (b >> 5) as int == Bit(b, 0x20) + 2 * ((b >> 6) as int)
    ensures (b >> 6) as int == Bit(b, 0x40) + 2 * ((b >> 7) as int)
    ensures (b >> 7) as int == Bit(b, 0x80)
  {
  }
  lemma WeighNext(d: seq<int>, k: nat)
    requires k < |d|
    ensures Weigh(d[k..]) == d[k] + 2 * Weigh(d[k + 1..])
  {
    assert d[k..][1..] == d[k + 1..];
  }
  lemma WeighEight(d: seq<int>)
    requires |d| == 8
    ensures Weigh(d) == d[0] + 2 * (d[1] + 2 * (d[2] + 2 * (d[3] + 2 * (d[4] + 2 * (d[5] + 2 * (d[6] + 2 * d[7]))))))
  {
    hide Weigh;
    assert d[0..] == d && Weigh(d[8..]) == 0 by { assert d[8..] == []; assert Weigh([]) == 0 by { WeighNone(); } }
    WeighNext(d, 0); WeighNext(d, 1); WeighNext(d, 2); WeighNext(d, 3);
    WeighNext(d, 4); WeighNext(d, 5); WeighNext(d, 6); WeighNext(d, 7);
  }
  lemma WeighNone() ensures Weigh([]) == 0 {}
  lemma ValueIsInt(b: byte)
    ensures ValueOf(b) == b as int
  {
    hide Bit, Weigh;
    LowHalves(b);
    HighHalves(b);
    WeighEight(Bits(b));
  }
  function Shifted(c: bv32): bv32 { if c & 1 == 1 then (c >> 1) ^ 0x82f6_3b78 else c >> 1 }
  function Advance(c: bv32, b: byte): bv32 {
    Shifted(Shifted(Shifted(Shifted(Shifted(Shifted(Shifted(Shifted(c ^ (b as bv32)))))))))
  }
  lemma StepsTwo(c: Word, n: nat)
    ensures Steps(c, n + 2) == Steps(Step(Step(c)), n)
  { hide Step; }
  lemma Advances(c: bv32, b: byte)
    ensures Steps(Xor(Word(c), OfByte(b)), 8) == Word(Advance(c, b))
  {
    hide Step, Shifted, Steps;
    var x := c ^ (b as bv32);
    ShiftTwo(x, 6);
    ShiftTwo(Shifted(Shifted(x)), 4);
    ShiftTwo(Shifted(Shifted(Shifted(Shifted(x)))), 2);
    ShiftTwo(Shifted(Shifted(Shifted(Shifted(Shifted(Shifted(x)))))), 0);
    StepsNext(Word(Advance(c, b)), 0);
  }
  lemma ShiftTwo(c: bv32, n: nat)
    ensures Steps(Word(c), n + 2) == Steps(Word(Shifted(Shifted(c))), n)
  {
    hide Step, Shifted;
    OneShift(c);
    OneShift(Shifted(c));
    StepsTwo(Word(c), n);
  }
  lemma OneShift(c: bv32)
    ensures Step(Word(c)) == Word(Shifted(c))
  {
    OddBits(c);
    HalfBits(c);
    XorBits(c >> 1);
    hide Half, Odd, Xor;
  }

  lemma OddBits(c: bv32)
    ensures Odd(Word(c)) <==> c & 1 == 1
  {
  }

  lemma HalfBits(c: bv32)
    ensures Half(Word(c)) == Word(c >> 1)
  {
  }

  lemma XorBits(h: bv32)
    ensures Xor(Word(h), Word(POLYNOMIAL)) == Word(h ^ 0x82f6_3b78)
  {
  }

  /** The number some octets carry, least octet first. */
  function LittleEndian(s: seq<byte>): int {
    if s == [] then 0 else s[0] as int + 256 * LittleEndian(s[1..])
  }

  lemma {:induction false} FromLeIsLittleEndian(s: seq<byte>)
    ensures FromLe(s) == LittleEndian(s)
  {
    hide ValueOf;
    if s != [] {
      ValueIsInt(s[0]);
      FromLeIsLittleEndian(s[1..]);
    }
  }

  predicate Number(s: seq<byte>, at: nat, width: nat, x: int) {
    at + width <= |s| && LittleEndian(s[at..at + width]) == x
  }

  /** Two's complement in eight octets. */
  predicate SignedNumber(s: seq<byte>, at: nat, x: int) {
    Number(s, at, 8, if x < 0 then x + 0x1_0000_0000_0000_0000 else x)
  }

  predicate NameAt(s: seq<byte>, at: nat, name: seq<byte>) {
    at + 1 + |name| <= |s| && s[at] as int == |name| && s[at + 1..at + 1 + |name|] == name
  }

  // ----- layouts -----------------------------------------------------------------------------------

  /** Two magic octets, version, type, sequence number, payload length, payload, and the
      checksum of all that follows the magic. */
  predicate FramedAs(s: seq<byte>, messageType: byte, sequence: int, payload: seq<byte>) {
    && |s| == 14 + |payload|
    && s[0] == 0x44 && s[1] == 0x52 && s[2] == 1 && s[3] == messageType
    && Number(s, 4, 4, sequence) && Number(s, 8, 2, |payload|) && s[10..10 + |payload|] == payload
    && var checksum := Crc32c(s[2..10 + |payload|]).bits;
       && s[10 + |payload|] == (checksum & 0xff) as byte && s[11 + |payload|] == ((checksum >> 8) & 0xff) as byte
       && s[12 + |payload|] == ((checksum >> 16) & 0xff) as byte
           && s[13 + |payload|] == ((checksum >> 24) & 0xff) as byte
  }

  predicate CommandAt(p: seq<byte>, at: nat, command: Command) {
    match command
    case Heartbeat => |p| == at + 1 && p[at] == 0
    case SetHeaterTarget(heater, target) =>
      && |p| == at + 10 + |heater| && p[at] == 1 && NameAt(p, at + 1, heater)
      && SignedNumber(p, at + 2 + |heater|, target)
    case Home(axis, rate) =>
      && |p| == at + 10 + |axis| && p[at] == 2 && NameAt(p, at + 1, axis)
      && Number(p, at + 2 + |axis|, 8, rate)
    case Move(axis, distance, rate) =>
      && |p| == at + 18 + |axis| && p[at] == 3 && NameAt(p, at + 1, axis)
      && SignedNumber(p, at + 2 + |axis|, distance) && Number(p, at + 10 + |axis|, 8, rate)
  }

  /** Flags, which say whether a tick follows; the tick; the command. */
  predicate EnvelopeAt(p: seq<byte>, envelope: CommandEnvelope) {
    && p != []
    && match envelope.executeAt
       case None => p[0] == 0 && CommandAt(p, 1, envelope.command)
       case Some(t) => p[0] == 1 && Number(p, 1, 8, t) && CommandAt(p, 9, envelope.command)
  }

  predicate StatusAt(p: seq<byte>, status: QueueStatus) {
    && |p| == 22 && p[0] == 0
    && Number(p, 1, 2, status.capacity) && Number(p, 3, 2, status.fill)
    && Number(p, 5, 8, status.earliestAccepted) && Number(p, 13, 8, status.latestAccepted)
    && p[21] == if status.underrun then 1 else 0
  }

  predicate ResponseAt(p: seq<byte>, response: ClockResponse) {
    |p| == 17 && p[0] == 0 && Number(p, 1, 8, response.controllerReceive) && Number(p, 9, 8, response.controllerSend)
  }

  // ----- the encoders keep to them -----------------------------------------------------------------

  lemma LeBytesNumber(x: int, n: nat)
    requires 0 <= x < Pow256(n)
    ensures LittleEndian(LeBytes(x, n)) == x
  {
    hide LeBytes;
    FromLeOfLeBytes(x, n);
    FromLeIsLittleEndian(LeBytes(x, n));
  }

  /** Bytes of a number between others. */
  lemma NumberInside(before: seq<byte>, middle: seq<byte>, after: seq<byte>, s: seq<byte>, x: int)
    requires LittleEndian(middle) == x && s == before + middle + after
    ensures Number(s, |before|, |middle|, x)
  {
    hide LittleEndian;
    assert s[|before|..|before| + |middle|] == middle;
  }

  lemma U64Number(x: u64)
    ensures LittleEndian(U64Bytes(x)) == x
  {
    hide LeBytes, LittleEndian;
    WidthLimits();
    LeBytesNumber(x, 8);
  }

  lemma I64Number(x: i64)
    ensures LittleEndian(I64Bytes(x)) == if x < 0 then x + 0x1_0000_0000_0000_0000 else x
  {
    hide LittleEndian, U64Bytes;
    U64Number(if x < 0 then x + U64_LIMIT else x);
  }

  lemma U16Number(x: u16)
    ensures LittleEndian(U16Bytes(x)) == x
  {
    hide LeBytes, LittleEndian;
    WidthLimits();
    LeBytesNumber(x, 2);
  }

  lemma U32Number(x: u32)
    ensures LittleEndian(U32Bytes(x)) == x
  {
    hide LeBytes, LittleEndian;
    WidthLimits();
    LeBytesNumber(x, 4);
  }

  lemma FrameFramed(messageType: byte, sequence: u32, payload: seq<byte>)
    requires |payload| <= MAX_PAYLOAD_LEN
    ensures FramedAs(FrameBytes(messageType, sequence, payload), messageType, sequence, payload)
  {
    hide U32Bytes, U16Bytes, Crc32c, LittleEndian, Number;
    var s := FrameBytes(messageType, sequence, payload);
    var body := Body(messageType, sequence, payload);
    var check := WordBytes(Crc32c(body));
    U32Number(sequence);
    U16Number(|payload|);
    var tail := U16Bytes(|payload|) + payload + check;
    assert s == [0x44, 0x52, 1, messageType] + U32Bytes(sequence) + tail;
    NumberInside([0x44, 0x52, 1, messageType], U32Bytes(sequence), tail, s, sequence);
    var front := [0x44, 0x52, 1, messageType] + U32Bytes(sequence);
    assert s == front + U16Bytes(|payload|) + (payload + check);
    NumberInside(front, U16Bytes(|payload|), payload + check, s, |payload|);
    assert s == (front + U16Bytes(|payload|)) + payload + check;
    assert s[2..10 + |payload|] == body;
    assert s[10 + |payload|..] == check;
    assert s[10..10 + |payload|] == payload;
  }

  lemma ByteOfInt(v: int)
    requires 0 <= v < 256
    ensures ByteOf(v) as int == v
  {
    ByteRoundTrip(v);
    ValueIsInt(ByteOf(v));
  }

  lemma NameWritten(before: seq<byte>, name: Text, after: seq<byte>, s: seq<byte>)
    requires |name| <= MAX_STRING_LEN && s == before + (StringBytes(name) + after)
    ensures NameAt(s, |before|, name)
  {
    hide ByteOf;
    ByteOfInt(|name|);
    assert s == before + [ByteOf(|name|)] + name + after;
    assert s[|before| + 1..|before| + 1 + |name|] == name;
  }

  lemma CommandWritten(front: seq<byte>, command: Command)
    requires |NameOf(command)| <= MAX_STRING_LEN
    ensures CommandAt(front + CommandBytes(command), |front|, command)
  {
    match command
    case Heartbeat =>
    case SetHeaterTarget(heater, target) => TargetWritten(front, heater, target);
    case Home(axis, rate) => HomeWritten(front, axis, rate);
    case Move(axis, distance, rate) => MoveWritten(front, axis, distance, rate);
  }

  lemma TargetWritten(front: seq<byte>, heater: Text, target: i64)
    requires |heater| <= MAX_STRING_LEN
    ensures CommandAt(front + CommandBytes(SetHeaterTarget(heater, target)), |front|, SetHeaterTarget(heater, target))
  {
    hide U64Bytes, I64Bytes, LittleEndian, StringBytes, NameAt;
    var p := front + CommandBytes(SetHeaterTarget(heater, target));
    var tagged := front + [TAG_SET_HEATER_TARGET];
    StringLength(heater);
    assert p == tagged + (StringBytes(heater) + I64Bytes(target));
    NameWritten(tagged, heater, I64Bytes(target), p);
    I64Number(target);
    assert p == (tagged + StringBytes(heater)) + I64Bytes(target) + [];
    NumberInside(tagged + StringBytes(heater), I64Bytes(target), [], p,
                 if target < 0 then target + U64_LIMIT else target);
  }

  lemma HomeWritten(front: seq<byte>, axis: Text, rate: u64)
    requires |axis| <= MAX_STRING_LEN
    ensures CommandAt(front + CommandBytes(Home(axis, rate)), |front|, Home(axis, rate))
  {
    hide U64Bytes, LittleEndian, StringBytes, NameAt;
    var p := front + CommandBytes(Home(axis, rate));
    var tagged := front + [TAG_HOME];
    StringLength(axis);
    assert p == tagged + (StringBytes(axis) + U64Bytes(rate));
    NameWritten(tagged, axis, U64Bytes(rate), p);
    U64Number(rate);
    assert p == (tagged + StringBytes(axis)) + U64Bytes(rate) + [];
    NumberInside(tagged + StringBytes(axis), U64Bytes(rate), [], p, rate);
  }

  lemma MoveWritten(front: seq<byte>, axis: Text, distance: i64, rate: u64)
    requires |axis| <= MAX_STRING_LEN
    ensures CommandAt(front + CommandBytes(Move(axis, distance, rate)), |front|, Move(axis, distance, rate))
  {
    hide U64Bytes, I64Bytes, LittleEndian, StringBytes, NameAt;
    var p := front + CommandBytes(Move(axis, distance, rate));
    var tagged := front + [TAG_MOVE];
    var named := tagged + StringBytes(axis);
    StringLength(axis);
    var numbers := I64Bytes(distance) + U64Bytes(rate);
    assert p == tagged + (StringBytes(axis) + numbers);
    NameWritten(tagged, axis, numbers, p);
    I64Number(distance);
    U64Number(rate);
    assert p == named + I64Bytes(distance) + U64Bytes(rate);
    NumberInside(named, I64Bytes(distance), U64Bytes(rate), p,
                 if distance < 0 then distance + U64_LIMIT else distance);
    assert p == (named + I64Bytes(distance)) + U64Bytes(rate) + [];
    NumberInside(named + I64Bytes(distance), U64Bytes(rate), [], p, rate);
  }

  lemma EnvelopeWritten(envelope: CommandEnvelope)
    requires Encodable(envelope)
    ensures EnvelopeAt(CommandPayload(envelope), envelope)
  {
    hide CommandBytes, CommandAt, U64Bytes, LittleEndian;
    var p := CommandPayload(envelope);
    match envelope.executeAt
    case None =>
      CommandWritten([0], envelope.command);
    case Some(t) =>
      U64Number(t);
      assert p == [1] + U64Bytes(t) + CommandBytes(envelope.command);
      NumberInside([1], U64Bytes(t), CommandBytes(envelope.command), p, t);
      CommandWritten([1] + U64Bytes(t), envelope.command);
  }

  lemma NumberFirst(a: seq<byte>, rest: seq<byte>)
    ensures Number(a + rest, 0, |a|, LittleEndian(a))
  {
    hide LittleEndian;
    assert (a + rest)[0..|a|] == a;
  }

  lemma NumberLater(front: seq<byte>, s: seq<byte>, at: nat, width: nat, x: int)
    requires Number(s, at, width, x)
    ensures Number(front + s, |front| + at, width, x)
  {
    hide LittleEndian;
    assert (front + s)[|front| + at..|front| + at + width] == s[at..at + width];
  }

  /** Two numbers of eight octets in a row. */
  lemma StatusTail(c: seq<byte>, d: seq<byte>, last: seq<byte>)
    requires |c| == 8 && |d| == 8
    ensures var p := c + (d + last);
      Number(p, 0, 8, LittleEndian(c)) && Number(p, 8, 8, LittleEndian(d))
  {
    hide LittleEndian, Number;
    NumberFirst(c, d + last);
    NumberFirst(d, last);
    NumberLater(c, d + last, 0, 8, LittleEndian(d));
  }

  /** The numbers of a status payload, behind its flags. */
  lemma FieldsInside(first: seq<byte>, a: seq<byte>, b: seq<byte>, c: seq<byte>, d: seq<byte>, last: seq<byte>)
    requires |first| == 1 && |a| == 2 && |b| == 2 && |c| == 8 && |d| == 8 && |last| == 1
    ensures var p := first + (a + (b + (c + (d + last))));
      && Number(p, 1, 2, LittleEndian(a)) && Number(p, 3, 2, LittleEndian(b))
      && Number(p, 5, 8, LittleEndian(c)) && Number(p, 13, 8, LittleEndian(d))
  {
    hide LittleEndian, Number;
    var tail := c + (d + last);
    StatusTail(c, d, last);
    NumberFirst(a, b + tail);
    NumberFirst(b, tail);
    NumberLater(a, b + tail, 0, 2, LittleEndian(b));
    NumberLater(first, a + (b + tail), 0, 2, LittleEndian(a));
    NumberLater(first, a + (b + tail), 2, 2, LittleEndian(b));
    NumberLater(b, tail, 0, 8, LittleEndian(c));
    NumberLater(b, tail, 8, 8, LittleEndian(d));
    NumberLater(a, b + tail, 2, 8, LittleEndian(c));
    NumberLater(a, b + tail, 10, 8, LittleEndian(d));
    NumberLater(first, a + (b + tail), 4, 8, LittleEndian(c));
    NumberLater(first, a + (b + tail), 12, 8, LittleEndian(d));
  }

  lemma StatusWritten(status: QueueStatus)
    ensures StatusAt(QueueStatusPayload(status), status)
  {
    hide U64Bytes, U16Bytes, LittleEndian, Number;
    U16Number(status.capacity);
    U16Number(status.fill);
    U64Number(status.earliestAccepted);
    U64Number(status.latestAccepted);
    FieldsInside([0], U16Bytes(status.capacity), U16Bytes(status.fill), U64Bytes(status.earliestAccepted),
                 U64Bytes(status.latestAccepted), [if status.underrun then 1 else 0]);
  }

  lemma ResponseWritten(response: ClockResponse)
    ensures ResponseAt(ClockResponsePayload(response), response)
  {
    hide U64Bytes, LittleEndian;
    var p := ClockResponsePayload(response);
    var (receive, send) := (U64Bytes(response.controllerReceive), U64Bytes(response.controllerSend));
    U64Number(response.controllerReceive);
    U64Number(response.controllerSend);
    assert p == [0] + receive + send;
    NumberInside([0], receive, send, p, response.controllerReceive);
    assert p == ([0] + receive) + send + [];
    NumberInside([0] + receive, send, [], p, response.controllerSend);
  }

  /** Every frame that can be written has the layout of its kind: types 1 to 4,
      sequence and payload in the common frame, and each field of the payload at its
      position, numbers with the least octet first. */
  lemma FramesLaidOut(command: CommandFrame, status: QueueStatusFrame, request: ClockRequestFrame,
                      response: ClockResponseFrame)
    ensures Encodable(command.envelope) ==>
      exists p :: EnvelopeAt(p, command.envelope) && FramedAs(CommandFrameBytes(command), 1, command.sequence, p)
    ensures exists p :: StatusAt(p, status.status) && FramedAs(QueueStatusFrameBytes(status), 2, status.sequence, p)
    ensures FramedAs(ClockRequestFrameBytes(request), 3, request.sequence, [0])
    ensures exists p ::
      ResponseAt(p, response.response) && FramedAs(ClockResponseFrameBytes(response), 4, response.sequence, p)
  {
    hide FramedAs, FrameBytes, EnvelopeAt, StatusAt, ResponseAt, CommandPayload, QueueStatusPayload,
      ClockResponsePayload;
    if Encodable(command.envelope) {
      EnvelopeWritten(command.envelope);
      FrameFramed(COMMAND_TYPE, command.sequence, CommandPayload(command.envelope));
    }
    StatusWritten(status.status);
    FrameFramed(QUEUE_STATUS_TYPE, status.sequence, QueueStatusPayload(status.status));
    FrameFramed(CLOCK_REQUEST_TYPE, request.sequence, [0]);
    ResponseWritten(response.response);
    FrameFramed(CLOCK_RESPONSE_TYPE, response.sequence, ClockResponsePayload(response.response));
  }

  // ----- the checksum ----------------------------------------------------------------------------

  lemma RegisterByte(c: bv32, s: seq<byte>)
    requires s != []
    ensures Register(Word(c), s) == Register(Word(Advance(c, s[0])), s[1..])
  {
    hide Advance, Register, Steps, Xor, OfByte;
    RegisterNext(Word(c), s);
    Advances(c, s[0]);
    XorWord(c, s[0]);
  }

  lemma XorWord(c: bv32, b: byte)
    ensures Xor(Word(c), OfByte(b)) == Word(c ^ (b as bv32))
  {
  }

  lemma RegisterThree(c: bv32, s: seq<byte>)
    requires |s| >= 3
    ensures Register(Word(c), s) == Register(Word(Advance(Advance(Advance(c, s[0]), s[1]), s[2])), s[3..])
  {
    hide Advance, Register;
    RegisterByte(c, s);
    RegisterByte(Advance(c, s[0]), s[1..]);
    RegisterByte(Advance(Advance(c, s[0]), s[1]), s[2..]);
    assert s[1..][1..] == s[2..] && s[2..][1..] == s[3..];
  }

  /** The octets "123456789" have the check value of CRC-32C. */
  lemma CheckValue()
    ensures Crc32c([0x31, 0x32, 0x33, 0x34, 0x35, 0x36, 0x37, 0x38, 0x39]) == Word(0xe306_9283)
  {
    hide Register, Advance;
    var s: seq<byte> := [0x31, 0x32, 0x33, 0x34, 0x35, 0x36, 0x37, 0x38, 0x39];
    RegisterThree(0xffff_ffff, s);
    AfterThree();
    RegisterThree(0xef84_d04d, s[3..]);
    RegisterThree(0xbeca_8e79, s[6..]);
    assert s[3..][3..] == s[6..] && s[6..][3..] == [];
    RegisterNext(Word(0x1cf9_6d7c), []);
    NotBits(0x1cf9_6d7c);
  }

  lemma AfterThree()
    ensures Advance(Advance(Advance(0xffff_ffff, 0x31), 0x32), 0x33) == 0xef84_d04d
    ensures Advance(Advance(Advance(0xef84_d04d, 0x34), 0x35), 0x36) == 0xbeca_8e79
    ensures Advance(Advance(Advance(0xbeca_8e79, 0x37), 0x38), 0x39) == 0x1cf9_6d7c
  {
  }

  // ----- what a decoder refuses --------------------------------------------------------------------

  /** The decoders check length, magic, version, type, payload length, frame length
      and checksum in this order and answer with the first that is wrong; otherwise
      they go on with the sequence number and payload of a frame of that layout. */
  lemma DelimitedExactly(input: seq<byte>, messageType: byte)
    ensures var d := Delimit(input, messageType);
      var n := |input|;
      if n < 2 then d == Err(Truncated(2, n))
      else if input[0] != 0x44 || input[1] != 0x52 then d == Err(InvalidMagic)
      else if n < 10 then d == Err(Truncated(10, n))
      else if input[2] != 1 then d == Err(UnsupportedVersion(input[2]))
      else if input[3] != messageType then d == Err(UnsupportedMessageType(input[3]))
      else
        var length := LittleEndian(input[8..10]);
        if length > 128 then d == Err(PayloadTooLong(length, 128))
        else if n < 14 + length then d == Err(Truncated(14 + length, n))
        else if n > 14 + length then d == Err(TrailingFrameBytes(n - 14 - length))
        else
          && (d.Ok? ==> FramedAs(input, messageType, d.value.sequence, d.value.payload))
          && (d.Err? ==> d.error.ChecksumMismatch? && d.error.encoded != d.error.computed
                         && d.error.computed == Crc32c(input[2..10 + length]))
  {
    hide LittleEndian, Crc32c, FramedAs, LeWord, FrameBytes, Codeword, U32Of, FromLe;
    if |input| >= 10 {
      FromLeIsLittleEndian(input[8..10]);
      assert input[..2] == MAGIC <==> input[0] == 0x44 && input[1] == 0x52;
      if Delimit(input, messageType).Ok? {
        DelimitExact(input, messageType);
        var d := Delimit(input, messageType).value;
        FrameFramed(messageType, d.sequence, d.payload);
      }
    } else if |input| >= 2 {
      assert input[..2] == MAGIC <==> input[0] == 0x44 && input[1] == 0x52;
    }
  }
}
