// Correlation of clock requests with their responses: `ClockSession` of
// crates/control-client/src/lib.rs.
module ClockSessions {
  import opened Prelude
  import opened Bytes
  import opened Protocol
  import opened ProtocolCodec
  import opened ClockArithmetic
  import opened ClockEstimator

  datatype PendingExchange = PendingExchange(sequence: u32, hostSend: u64)

  datatype SessionState = SessionState(
    sync: SyncState,
    nextSequence: u32,
    exhausted: bool,
    timeout: u64,
    pending: Option<PendingExchange>)

  /** `E` is what the frame sink reports when it fails. */
  datatype SessionError<+E> =
    | Busy(sequence: u32)
    | SequenceExhausted
    | Transport(error: E)
    | Sync(sync: ClockSyncError)
    | Decode(decode: DecodeError)
    | NoPending
    | UnexpectedSequence(expected: u32, received: u32)
    | TimedOut(sequence: u32)

  datatype Receipt = Receipt(sequence: u32, sample: ClockSample, estimate: Option<ClockEstimate>)

  function NewSession(maxSlewPpb: int, timeout: u64): SessionState {
    SessionState(InitialState(maxSlewPpb), 0, false, timeout, None)
  }

  /** Why a new exchange may not start. */
  function Refusal<E>(s: SessionState): Option<SessionError<E>> {
    if s.pending.Some? then Some(Busy(s.pending.value.sequence))
    else if s.exhausted then Some(SequenceExhausted)
    else None
  }

  /** An exchange starts at `hostSend`; its sequence is spent even if the sink fails. */
  function Begin<E>(s: SessionState, hostSend: u64, sink: Result<(), E>): (SessionState, Result<u32, SessionError<E>>) {
    match Refusal(s)
    case Some(e) => (s, Err(e))
    case None =>
      var spent := s.(exhausted := s.nextSequence == U32_LIMIT - 1, nextSequence := (s.nextSequence + 1) % U32_LIMIT);
      match sink
      case Err(e) => (spent, Err(Transport(e)))
      case Ok(_) => (spent.(pending := Some(PendingExchange(s.nextSequence, hostSend))), Ok(s.nextSequence))
  }

  predicate Expired(s: SessionState, now: u64) {
    s.pending.Some? && SatSub(now, s.pending.value.hostSend) >= s.timeout
  }

  /** The exchange has been open for as long as the session waits. */
  predicate Overdue(s: SessionState, now: u64) {
    s.pending.Some? && (s.timeout == 0 || s.pending.value.hostSend + s.timeout <= now)
  }

  /** A response that arrived at `hostReceive`. A matching one ends the exchange
      whether or not the estimator takes its sample. */
  function Accept<E>(s: SessionState, bytes: seq<byte>, hostReceive: u64)
    : (SessionState, Result<Receipt, SessionError<E>>)
  {
    match DecodeClockResponse(bytes)
    case Err(e) => (s, Err(Decode(e)))
    case Ok(frame) =>
      if s.pending.None? then (s, Err(NoPending))
      else
        var pending := s.pending.value;
        if frame.sequence != pending.sequence then (s, Err(UnexpectedSequence(pending.sequence, frame.sequence)))
        else if Expired(s, hostReceive) then (s.(pending := None), Err(TimedOut(pending.sequence)))
        else
          var r := frame.response;
          var sample := ClockSample(pending.hostSend, r.controllerReceive, r.controllerSend, hostReceive);
          match PushSample(s.sync, sample)
          case Err(e) => (s.(pending := None), Err(Sync(e)))
          case Ok(next) => (s.(pending := None, sync := next), Ok(Receipt(pending.sequence, sample, next.estimate)))
  }

  function ExpireAt(s: SessionState, now: u64): (SessionState, Option<u32>) {
    if Expired(s, now) then (s.(pending := None), Some(s.pending.value.sequence)) else (s, None)
  }

  class ClockSession {
    const sync: ClockSync
    var nextSequence: u32
    var exhausted: bool
    const timeout: u64
    var pending: Option<PendingExchange>
    const request: array<byte>

    ghost predicate Valid() {
      request.Length == HEADER_LEN + CLOCK_REQUEST_PAYLOAD_LEN + CHECKSUM_LEN
    }

    ghost function State(): SessionState
      reads this, sync
    {
      SessionState(sync.State(), nextSequence, exhausted, timeout, pending)
    }

    constructor Init(maxSlewPpb: int, timeout: u64)
      ensures Valid() && State() == NewSession(maxSlewPpb, timeout) && fresh(sync) && fresh(request)
    {
      sync := new ClockSync.Init(maxSlewPpb);
      nextSequence, exhausted, pending := 0, false, None;
      this.timeout := timeout;
      request := new byte[15];
    }

    /** Start an exchange. The host clock read and the answer of the frame sink
        are the environment's; the frame handed to the sink is `frame`. */
    method BeginExchange<E>(hostSend: u64, sink: Result<(), E>)
      returns (frame: Option<seq<byte>>, r: Result<u32, SessionError<E>>)
      requires Valid()
      modifies this, request
      ensures (State(), r) == Begin(old(State()), hostSend, sink)
      ensures frame == if Refusal<E>(old(State())).Some? then None
                       else Some(ClockRequestFrameBytes(ClockRequestFrame(old(nextSequence))))
    {
      hide ClockRequestFrameBytes;
      if pending.Some? {
        return None, Err(Busy(pending.value.sequence));
      }
      if exhausted {
        return None, Err(SequenceExhausted);
      }
      var sequence := nextSequence;
      RequestLength(sequence);
      var length := EncodeClockRequest(ClockRequestFrame(sequence), request);
      exhausted := sequence == U32_LIMIT - 1;
      nextSequence := (sequence + 1) % U32_LIMIT;
      frame := Some(request[..length.value]);
      if sink.Err? {
        return frame, Err(Transport(sink.error));
      }
      pending := Some(PendingExchange(sequence, hostSend));
      r := Ok(sequence);
    }

    method AcceptResponse<E>(bytes: seq<byte>, hostReceive: u64) returns (r: Result<Receipt, SessionError<E>>)
      requires Valid()
      modifies this, sync
      ensures (State(), r) == Accept(old(State()), bytes, hostReceive)
      ensures var response := DecodeClockResponse(bytes);
        response.Ok? && old(pending).Some? && response.value.sequence == old(pending).value.sequence ==>
          && pending.None?
          && (r == Err(TimedOut(response.value.sequence)) <==> old(Overdue(State(), hostReceive)))
    {
      hide DecodeClockResponse, PushSample;
      var response := ReadClockResponse(bytes);
      if response.Err? {
        return Err(Decode(response.error));
      }
      if pending.None? {
        return Err(NoPending);
      }
      var exchange := pending.value;
      if response.value.sequence != exchange.sequence {
        return Err(UnexpectedSequence(exchange.sequence, response.value.sequence));
      }
      if SatSub(hostReceive, exchange.hostSend) >= timeout {
        pending := None;
        return Err(TimedOut(exchange.sequence));
      }
      var reply := response.value.response;
      var sample := ClockSample(exchange.hostSend, reply.controllerReceive, reply.controllerSend, hostReceive);
      pending := None;
      var estimate := sync.Push(sample);
      if estimate.Err? {
        return Err(Sync(estimate.error));
      }
      r := Ok(Receipt(exchange.sequence, sample, estimate.value));
    }

    method Expire(now: u64) returns (timedOut: Option<u32>)
      modifies this
      ensures (State(), timedOut) == ExpireAt(old(State()), now)
      ensures if old(Overdue(State(), now)) then
                pending.None? && old(pending).Some? && timedOut == Some(old(pending).value.sequence)
              else pending == old(pending) && timedOut.None?
    {
      if pending.Some? && SatSub(now, pending.value.hostSend) >= timeout {
        timedOut := Some(pending.value.sequence);
        pending := None;
      } else {
        timedOut := None;
      }
    }
  }

  lemma RequestLength(sequence: u32)
    ensures |ClockRequestFrameBytes(ClockRequestFrame(sequence))| == 15
  {
  }
}
