// Frames written into a noisy stream come back out of it.
module StreamRoundTrip {
  import opened Prelude
  import opened Bytes
  import opened Crc
  import opened Protocol
  import opened ProtocolLaws
  import opened StreamScan
  import opened StreamLaws

  /** What a stream reader hands to its caller. */
  datatype Message =
    | CommandMessage(command: CommandFrame)
    | QueueStatusMessage(status: QueueStatusFrame)
    | ClockRequestMessage(request: ClockRequestFrame)
    | ClockResponseMessage(response: ClockResponseFrame)
    | RawMessage(messageType: byte, bytes: seq<byte>)

  predicate Sendable(m: Message) {
    !m.RawMessage? && (m.CommandMessage? ==> Encodable(m.command.envelope))
  }

  function Encode(m: Message): seq<byte>
    requires Sendable(m)
  {
    match m
    case CommandMessage(f) => CommandFrameBytes(f)
    case QueueStatusMessage(f) => QueueStatusFrameBytes(f)
    case ClockRequestMessage(f) => ClockRequestFrameBytes(f)
    case ClockResponseMessage(f) => ClockResponseFrameBytes(f)
  }

  function Dispatch(bytes: seq<byte>): Result<Message, DecodeError> {
    if |bytes| < HEADER_LEN then Err(Truncated(HEADER_LEN, |bytes|))
    else if bytes[3] == QUEUE_STATUS_TYPE then
      var f :- DecodeQueueStatus(bytes);
      Ok(QueueStatusMessage(f))
    else if bytes[3] == CLOCK_RESPONSE_TYPE then
      var f :- DecodeClockResponse(bytes);
      Ok(ClockResponseMessage(f))
    else if bytes[3] == CLOCK_REQUEST_TYPE then
      var f :- DecodeClockRequest(bytes);
      Ok(ClockRequestMessage(f))
    else if bytes[3] == COMMAND_TYPE then
      var f :- DecodeCommand(bytes);
      Ok(CommandMessage(f))
    else Ok(RawMessage(bytes[3], bytes))
  }

  function DispatchAll(frames: seq<seq<byte>>): seq<Result<Message, DecodeError>> {
    seq(|frames|, i requires 0 <= i < |frames| => Dispatch(frames[i]))
  }

  /** One message on the wire, after whatever noise precedes it. */
  datatype Segment = Segment(noise: seq<byte>, message: Message)

  ghost predicate Quiet(segment: Segment) {
    NoMagic(segment.noise) && Sendable(segment.message)
  }

  ghost function Transmitted(segments: seq<Segment>, tail: seq<byte>): seq<byte>
    requires forall g :: g in segments ==> Quiet(g)
  {
    if segments == [] then tail
    else
      assert Quiet(segments[0]);
      segments[0].noise + (Encode(segments[0].message) + Transmitted(segments[1..], tail))
  }

  lemma FrameBytesAreFrame(messageType: byte, sequence: u32, payload: seq<byte>)
    requires |payload| <= MAX_PAYLOAD_LEN && KnownType(messageType)
    ensures var b := FrameBytes(messageType, sequence, payload);
      IsFrame(b) && |b| >= HEADER_LEN && b[0] == D && b[1] == R && b[3] == messageType
  {
    hide Delimit, FrameBytes, Body, Crc32c, WordBytes;
    var b := FrameBytes(messageType, sequence, payload);
    FrameLayout(messageType, sequence, payload);
    DelimitInverts(messageType, sequence, payload);
    assert b[..2][0] == D && b[..2][1] == R;
  }

  /** An encoded message is one frame, and dispatching it gives the message back. */
  lemma EncodedIsFrame(m: Message)
    requires Sendable(m)
    ensures IsFrame(Encode(m)) && |Encode(m)| >= HEADER_LEN && Dispatch(Encode(m)) == Ok(m)
    ensures Encode(m)[0] == D && Encode(m)[1] == R
  {
    hide IsFrame, FrameBytes, CommandPayload, QueueStatusPayload, ClockResponsePayload, DecodeCommand,
      DecodeQueueStatus, DecodeClockRequest, DecodeClockResponse;
    match m
    case CommandMessage(f) =>
      FrameBytesAreFrame(COMMAND_TYPE, f.sequence, CommandPayload(f.envelope));
      CommandRoundTrip(f);
    case QueueStatusMessage(f) =>
      FrameBytesAreFrame(QUEUE_STATUS_TYPE, f.sequence, QueueStatusPayload(f.status));
      QueueStatusRoundTrip(f);
    case ClockRequestMessage(f) =>
      FrameBytesAreFrame(CLOCK_REQUEST_TYPE, f.sequence, [0]);
      ClockRequestRoundTrip(f);
    case ClockResponseMessage(f) =>
      FrameBytesAreFrame(CLOCK_RESPONSE_TYPE, f.sequence, ClockResponsePayload(f.response));
      ClockResponseRoundTrip(f);
  }

  /** Noise without a magic delays nothing and hides nothing. */
  lemma ScanPastNoise(noise: seq<byte>, t: seq<byte>)
    requires NoMagic(noise) && |t| >= 2 && t[0] == D && t[1] == R
    ensures Scan(noise + t) == Scan(t)
  {
    hide Classify, Scan;
    var s := noise + t;
    forall i | 0 <= i < |noise|
      ensures !MagicAt(s, i)
    {
      assert !MagicAt(noise, i);
    }
    assert MagicAt(s, |noise|);
    SkipToMagic(s, |noise|);
    assert s[|noise|..] == t;
  }

  lemma ScanTakesFrame(frame: seq<byte>, rest: seq<byte>)
    requires IsFrame(frame)
    ensures Scan(frame + rest) == Scanned([frame] + Scan(rest).frames, Scan(rest).residue)
  {
    hide Classify, IsFrame;
    var t := frame + rest;
    assert t[..|frame|] == frame && t[|frame|..] == rest;
    CompleteIsFrame(t, |frame|);
  }

  lemma {:induction false} TransmittedScans(segments: seq<Segment>, tail: seq<byte>)
    requires NoMagic(tail) && forall g :: g in segments ==> Quiet(g)
    ensures DispatchAll(Scan(Transmitted(segments, tail)).frames)
            == seq(|segments|, i requires 0 <= i < |segments| => Ok(segments[i].message))
    decreases |segments|
  {
    hide Classify, IsFrame, Dispatch, Encode, Scan;
    if segments == [] {
      NothingToFind(tail);
    } else {
      var g := segments[0];
      assert g in segments;
      var rest := Transmitted(segments[1..], tail);
      EncodedIsFrame(g.message);
      ScanPastNoise(g.noise, Encode(g.message) + rest);
      ScanTakesFrame(Encode(g.message), rest);
      TransmittedScans(segments[1..], tail);
      var frames := Scan(rest).frames;
      assert |DispatchAll(frames)| == |segments| - 1;
      forall i | 0 <= i < |segments|
        ensures Dispatch(([Encode(g.message)] + frames)[i]) == Ok(segments[i].message)
      {
        if i > 0 {
          assert DispatchAll(frames)[i - 1] == Ok(segments[1..][i - 1].message);
        }
      }
    }
  }

  /** Messages encoded one after another, each preceded by any noise free of a
      frame magic and cut into any chunks the codec has room for, are delimited
      and decoded to exactly those messages. */
  lemma MessagesSurvive(segments: seq<Segment>, tail: seq<byte>, capacity: nat, chunks: seq<seq<byte>>)
    requires NoMagic(tail) && forall g :: g in segments ==> Quiet(g)
    requires forall c :: c in chunks ==> |c| + MAX_FRAME_LEN <= capacity + 1
    requires Concat(chunks) == Transmitted(segments, tail)
    ensures DispatchAll(FeedAll(capacity, chunks).emitted)
            == seq(|segments|, i requires 0 <= i < |segments| => Ok(segments[i].message))
  {
    SameStreamSameFrames(capacity, chunks, chunks);
    TransmittedScans(segments, tail);
  }

  // ----- reading ----------------------------------------------------------------------

  datatype ReaderError =
    | Codec(error: FrameCodecError)
    | Decode(reason: DecodeError)

  /** What one read makes of the buffered bytes: the first frame that does not
      decode ends it, and takes the messages before it along. */
  function ReadFrom(buffer: seq<byte>): (Result<seq<Message>, DecodeError>, seq<byte>)
    decreases |buffer|
  {
    ScanByNext(buffer);
    var (frame, rest) := Next(buffer);
    if frame.None? then (Ok([]), rest)
    else
      match Dispatch(frame.value)
      case Err(e) => (Err(e), rest)
      case Ok(m) =>
        var (r, left) := ReadFrom(rest);
        (After([m], r), left)
  }

  /** What was read before goes first, unless the rest fails. */
  function After(done: seq<Message>, r: Result<seq<Message>, DecodeError>): Result<seq<Message>, DecodeError> {
    if r.Ok? then Ok(done + r.value) else r
  }

  lemma AfterMore(done: seq<Message>, m: Message, r: Result<seq<Message>, DecodeError>)
    ensures After(done, After([m], r)) == After(done + [m], r)
    ensures After([], r) == r && After(done, Ok([])) == Ok(done)
  {
    if r.Ok? {
      assert done + ([m] + r.value) == (done + [m]) + r.value && [] + r.value == r.value;
    }
    assert done + [] == done;
  }

  /** The first frame that does not decode. */
  function FirstBad(frames: seq<seq<byte>>): (bad: nat)
    ensures bad <= |frames|
    ensures forall i :: 0 <= i < bad ==> Dispatch(frames[i]).Ok?
    ensures bad < |frames| ==> Dispatch(frames[bad]).Err?
  {
    if frames == [] || Dispatch(frames[0]).Err? then 0 else 1 + FirstBad(frames[1..])
  }

  /** When all frames decode, their messages in order and the residue kept;
      otherwise the first failure, and exactly the frames after it to be read. */
  predicate ReadsAs(r: Result<seq<Message>, DecodeError>, left: seq<byte>, scanned: Scanned) {
    var bad := FirstBad(scanned.frames);
    if bad == |scanned.frames| then
      && r.Ok? && left == scanned.residue && |r.value| == |scanned.frames|
      && forall i :: 0 <= i < |scanned.frames| ==> Dispatch(scanned.frames[i]) == Ok(r.value[i])
    else
      && r.Err? && Dispatch(scanned.frames[bad]) == Err(r.error)
      && Scan(left) == Scanned(scanned.frames[bad + 1..], scanned.residue)
  }

  lemma ReadsOn(frame: seq<byte>, m: Message, r: Result<seq<Message>, DecodeError>, left: seq<byte>, later: Scanned)
    requires Dispatch(frame) == Ok(m) && ReadsAs(r, left, later)
    ensures ReadsAs(After([m], r), left, Scanned([frame] + later.frames, later.residue))
  {
    hide Dispatch, Scan;
    var frames := [frame] + later.frames;
    assert frames[1..] == later.frames;
    var bad := FirstBad(later.frames);
    if bad < |later.frames| {
      assert frames[bad + 2..] == later.frames[bad + 1..];
    }
  }

  lemma ReadStep(buffer: seq<byte>)
    ensures var (frame, rest) := Next(buffer);
      && (frame.Some? ==> |rest| < |buffer|)
      && ReadFrom(buffer) ==
           if frame.None? then (Ok([]), rest)
           else if Dispatch(frame.value).Err? then (Err(Dispatch(frame.value).error), rest)
           else (After([Dispatch(frame.value).value], ReadFrom(rest).0), ReadFrom(rest).1)
  {
    hide Dispatch, Next, After;
    ScanByNext(buffer);
  }

  /** One read against the scan of the same bytes. */
  lemma {:induction false} ReadMeaning(buffer: seq<byte>)
    ensures ReadsAs(ReadFrom(buffer).0, ReadFrom(buffer).1, Scan(buffer))
    decreases |buffer|
  {
    hide Dispatch, Next, Scan, ReadFrom, After;
    ScanByNext(buffer);
    ReadStep(buffer);
    var (frame, rest) := Next(buffer);
    if frame.Some? {
      var frames, later := Scan(buffer).frames, Scan(rest);
      assert frames[0] == frame.value && frames[1..] == later.frames;
      if Dispatch(frame.value).Ok? {
        ReadMeaning(rest);
        ReadsOn(frame.value, Dispatch(frame.value).value, ReadFrom(rest).0, ReadFrom(rest).1, later);
      }
    }
  }

  /** Reading a chunk from the transport, delimiting and decoding what it completes. */
  method ReadAndDispatch(codec: FrameCodec, incoming: seq<byte>) returns (r: Result<seq<Message>, ReaderError>)
    modifies codec
    ensures if |incoming| > 0 && old(|codec.buffer|) + |incoming| > codec.maxCapacity
            then r == Err(Codec(BufferOverflow(codec.maxCapacity))) && codec.buffer == old(codec.buffer)
            else var (read, left) := ReadFrom(old(codec.buffer) + incoming);
                 && codec.buffer == left
                 && r == if read.Ok? then Ok(read.value) else Err(Decode(read.error))
  {
    hide Dispatch, Next, After, ReadFrom;
    if |incoming| > 0 {
      var fed := codec.Feed(incoming);
      if fed.Err? {
        return Err(Codec(fed.error));
      }
    }
    ghost var start := old(codec.buffer) + incoming;
    assert codec.buffer == start;
    var dispatched: seq<Message> := [];
    AfterMore([], RawMessage(0, []), ReadFrom(start).0);
    while true
      invariant ReadFrom(start) == (After(dispatched, ReadFrom(codec.buffer).0), ReadFrom(codec.buffer).1)
      decreases |codec.buffer|
    {
      ghost var before := codec.buffer;
      ReadStep(before);
      var frame := codec.NextFrame();
      if frame.None? {
        AfterMore(dispatched, RawMessage(0, []), Ok([]));
        break;
      }
      var message := Dispatch(frame.value);
      if message.Err? {
        AfterFailure(dispatched, message.error);
        return Err(Decode(message.error));
      }
      AfterMore(dispatched, message.value, ReadFrom(codec.buffer).0);
      dispatched := dispatched + [message.value];
    }
    r := Ok(dispatched);
  }

  lemma AfterFailure(done: seq<Message>, e: DecodeError)
    ensures After(done, Err(e)) == Err(e)
  {
  }
}
