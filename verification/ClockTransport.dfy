// The simulated controller clock and clock-sync link of
// crates/simulator/src/clock_transport.rs.
module ClockTransport {
  import opened Prelude
  import opened Bytes
  import opened Protocol
  import opened ProtocolCodec
  import ClockArithmetic

  datatype LinkConfig = LinkConfig(latency: u64, jitter: u64, lossPerMille: u16, dupPerMille: u16)

  /** A controller clock of constant rate, anchored at one host tick. */
  datatype ControllerClock = ControllerClock(hostEpoch: u64, controllerEpoch: u64, ratePpb: i64)

  datatype ControllerClockError =
    | NonPositiveRate(ratePpb: i64)
    | HostBeforeEpoch(hostTick: u64, hostEpoch: u64)
    | ClockOverflow

  datatype TransportError =
    | RequestDecode(decode: DecodeError)
    | ClockFailure(clock: ControllerClockError)
    | TimeOverflow
    | QueueFull(maximum: nat)

  datatype ConfigError =
    | InvalidLossRate(value: u16)
    | InvalidDuplicationRate(value: u16)
    | ZeroPendingCapacity

  datatype TransportConfig = TransportConfig(
    request: LinkConfig,
    response: LinkConfig,
    processing: u64,
    maxPending: nat,
    seed: u64,
    clock: ControllerClock)

  datatype Scheduled = Scheduled(deliveredAt: u64, insertionOrder: u64, bytes: seq<byte>)

  datatype TransportState = TransportState(
    cfg: TransportConfig,
    rng: u64,
    nextOrder: u64,
    pending: seq<Scheduled>,
    linkUp: bool)

  function NewClock(hostEpoch: u64, controllerEpoch: u64, ratePpb: i64): Result<ControllerClock, ControllerClockError> {
    if ratePpb <= -PPB then Err(NonPositiveRate(ratePpb)) else Ok(ControllerClock(hostEpoch, controllerEpoch, ratePpb))
  }

  /** The controller tick at a host tick, rounded down. */
  function At(clock: ControllerClock, host: u64): Result<u64, ControllerClockError> {
    if host < clock.hostEpoch then Err(HostBeforeEpoch(host, clock.hostEpoch))
    else
      var scaled := (host - clock.hostEpoch) * (PPB + clock.ratePpb);
      if !(-I128_LIMIT <= scaled < I128_LIMIT) then Err(ClockOverflow)
      else
        var ticks := ClockArithmetic.TruncDiv(scaled, PPB);
        if !(0 <= ticks < U64_LIMIT) then Err(ClockOverflow)
        else
          match CheckedAdd(clock.controllerEpoch, ticks)
          case None => Err(ClockOverflow)
          case Some(t) => Ok(t)
  }

  function ValidateLink(link: LinkConfig): Option<ConfigError> {
    if link.lossPerMille > 1000 then Some(InvalidLossRate(link.lossPerMille))
    else if link.dupPerMille > 1000 then Some(InvalidDuplicationRate(link.dupPerMille))
    else None
  }

  /** One step of the seeded linear congruential generator. */
  function NextState(rng: u64): u64 {
    (rng * 6364136223846793005 + 1442695040888963407) % U64_LIMIT
  }

  function Draw(rng: u64): u64 {
    rng / 0x2_0000_0000
  }

  function NewTransport(cfg: TransportConfig): Result<TransportState, ConfigError> {
    if ValidateLink(cfg.request).Some? then Err(ValidateLink(cfg.request).value)
    else if ValidateLink(cfg.response).Some? then Err(ValidateLink(cfg.response).value)
    else if cfg.maxPending == 0 then Err(ZeroPendingCapacity)
    else Ok(TransportState(cfg, (cfg.seed * 2 + 1) % U64_LIMIT, 0, [], true))
  }

  datatype Delivery = Delivery(rng: u64, ticks: seq<u64>)

  /** When copies of a frame sent at `sentAt` arrive: none, one, or two in a row. */
  function Deliveries(rng: u64, sentAt: u64, link: LinkConfig): Result<Delivery, TransportError> {
    var r1 := if link.lossPerMille > 0 then NextState(rng) else rng;
    if link.lossPerMille > 0 && Draw(r1) % 1000 < link.lossPerMille then Ok(Delivery(r1, []))
    else if link.jitter != 0 && link.jitter + 1 == U64_LIMIT then Err(TimeOverflow)
    else
      var r2 := if link.jitter == 0 then r1 else NextState(r1);
      var jitter := if link.jitter == 0 then 0 else Draw(r2) % (link.jitter + 1);
      var delivered := sentAt + link.latency + jitter;
      if delivered >= U64_LIMIT then Err(TimeOverflow)
      else
        var r3 := if link.dupPerMille > 0 then NextState(r2) else r2;
        if link.dupPerMille > 0 && Draw(r3) % 1000 < link.dupPerMille then
          if delivered + 1 == U64_LIMIT then Err(TimeOverflow) else Ok(Delivery(r3, [delivered, delivered + 1]))
        else Ok(Delivery(r3, [delivered]))
  }

  function Stamp(ticks: seq<u64>, order: u64, bytes: seq<byte>): (s: seq<Scheduled>)
    ensures |s| == |ticks|
  {
    if ticks == [] then []
    else [Scheduled(ticks[0], order, bytes)] + Stamp(ticks[1..], (order + 1) % U64_LIMIT, bytes)
  }

  datatype Batch = Batch(rng: u64, order: u64, scheduled: seq<Scheduled>)

  /** The answer the controller encodes for a request that reaches it at `arrival`. */
  function Answer(cfg: TransportConfig, sequence: u32, arrival: u64): Result<(u64, seq<byte>), TransportError> {
    match CheckedAdd(arrival, cfg.processing)
    case None => Err(TimeOverflow)
    case Some(departure) =>
      match (At(cfg.clock, arrival), At(cfg.clock, departure))
      case (Err(e), _) => Err(ClockFailure(e))
      case (_, Err(e)) => Err(ClockFailure(e))
      case (Ok(receive), Ok(send)) =>
        Ok((departure, ClockResponseFrameBytes(ClockResponseFrame(sequence, ClockResponse(receive, send)))))
  }

  function AnswerAll(cfg: TransportConfig, sequence: u32, arrivals: seq<u64>, rng: u64, order: u64)
    : Result<Batch, TransportError>
  {
    if arrivals == [] then Ok(Batch(rng, order, []))
    else
      var (departure, bytes) :- Answer(cfg, sequence, arrivals[0]);
      var d :- Deliveries(rng, departure, cfg.response);
      var rest :- AnswerAll(cfg, sequence, arrivals[1..], d.rng, (order + |d.ticks|) % U64_LIMIT);
      Ok(Batch(rest.rng, rest.order, Stamp(d.ticks, order, bytes) + rest.scheduled))
  }

  /** The transport after a request frame was handed over at `hostSend`. */
  function SendRequest(t: TransportState, hostSend: u64, frame: seq<byte>): Result<TransportState, TransportError> {
    match DecodeClockRequest(frame)
    case Err(e) => Err(RequestDecode(e))
    case Ok(request) =>
      if !t.linkUp then Ok(t)
      else
        var d :- Deliveries(t.rng, hostSend, t.cfg.request);
        var batch :- AnswerAll(t.cfg, request.sequence, d.ticks, d.rng, t.nextOrder);
        if |t.pending| + |batch.scheduled| > t.cfg.maxPending then Err(QueueFull(t.cfg.maxPending))
        else Ok(t.(rng := batch.rng, nextOrder := batch.order, pending := t.pending + batch.scheduled))
  }

  predicate Before(a: Scheduled, b: Scheduled) {
    a.deliveredAt < b.deliveredAt || (a.deliveredAt == b.deliveredAt && a.insertionOrder < b.insertionOrder)
  }

  /** The first of the earliest responses due by `now`. */
  function EarliestDue(pending: seq<Scheduled>, now: u64): (r: Option<nat>)
    ensures r.Some? ==> r.value < |pending| && pending[r.value].deliveredAt <= now
  {
    if pending == [] then None
    else
      var last := |pending| - 1;
      var best := EarliestDue(pending[..last], now);
      if pending[last].deliveredAt <= now && (best.None? || Before(pending[last], pending[best.value])) then Some(last)
      else best
  }

  /** Nothing due is earlier, and equals keep their order. */
  lemma {:induction false} EarliestIsLeast(pending: seq<Scheduled>, now: u64)
    ensures EarliestDue(pending, now).None? <==> forall k :: 0 <= k < |pending| ==> pending[k].deliveredAt > now
    ensures EarliestDue(pending, now).Some? ==>
      var i := EarliestDue(pending, now).value;
      forall k :: 0 <= k < |pending| && pending[k].deliveredAt <= now ==>
        !Before(pending[k], pending[i]) && (k < i ==> Before(pending[i], pending[k]))
  {
    if pending != [] {
      var rest := pending[..|pending| - 1];
      EarliestIsLeast(rest, now);
      assert forall k :: 0 <= k < |rest| ==> pending[k] == rest[k];
    }
  }

  function Without<T>(s: seq<T>, i: nat): seq<T>
    requires i < |s|
  {
    s[..i] + s[i + 1..]
  }

  class SimClockTransport {
    const cfg: TransportConfig
    var rng: u64
    var nextOrder: u64
    var pending: seq<Scheduled>
    var linkUp: bool

    ghost function State(): TransportState
      reads this
    {
      TransportState(cfg, rng, nextOrder, pending, linkUp)
    }

    constructor (cfg: TransportConfig)
      ensures State() == TransportState(cfg, (cfg.seed * 2 + 1) % U64_LIMIT, 0, [], true)
    {
      this.cfg := cfg;
      rng, nextOrder, pending, linkUp := (cfg.seed * 2 + 1) % U64_LIMIT, 0, [], true;
    }

    /** A failed hand-over changes nothing, not even the generator. */
    method Send(hostSend: u64, frame: seq<byte>) returns (r: Result<(), TransportError>)
      modifies this
      ensures match SendRequest(old(State()), hostSend, frame)
              case Ok(next) => r == Ok(()) && State() == next
              case Err(e) => r == Err(e) && State() == old(State())
    {
      hide DecodeClockRequest, Deliveries, AnswerAll;
      var request := ReadClockRequest(frame);
      if request.Err? {
        return Err(RequestDecode(request.error));
      }
      if !linkUp {
        return Ok(());
      }
      var arrivals := Deliveries(rng, hostSend, cfg.request);
      if arrivals.Err? {
        return Err(arrivals.error);
      }
      var batch := AnswerArrivals(request.value.sequence, arrivals.value.ticks, arrivals.value.rng, nextOrder);
      if batch.Err? {
        return Err(batch.error);
      }
      if |pending| + |batch.value.scheduled| > cfg.maxPending {
        return Err(QueueFull(cfg.maxPending));
      }
      rng, nextOrder, pending := batch.value.rng, batch.value.order, pending + batch.value.scheduled;
      r := Ok(());
    }

    /** Answer every copy of a request that reached the controller. */
    method AnswerArrivals(sequence: u32, arrivals: seq<u64>, firstRng: u64, firstOrder: u64)
      returns (r: Result<Batch, TransportError>)
      ensures r == AnswerAll(cfg, sequence, arrivals, firstRng, firstOrder)
    {
      hide Deliveries, Answer, Stamp;
      var candidateRng: u64, candidateOrder: u64 := firstRng, firstOrder;
      var scheduled: seq<Scheduled> := [];
      ghost var whole := AnswerAll(cfg, sequence, arrivals, firstRng, firstOrder);
      assert arrivals[0..] == arrivals;
      assert whole.Ok? ==> [] + whole.value.scheduled == whole.value.scheduled;
      for i := 0 to |arrivals|
        invariant match AnswerAll(cfg, sequence, arrivals[i..], candidateRng, candidateOrder)
                  case Ok(rest) => whole == Ok(Batch(rest.rng, rest.order, scheduled + rest.scheduled))
                  case Err(e) => whole == Err(e)
      {
        assert arrivals[i..][1..] == arrivals[i + 1..];
        var answer := Answer(cfg, sequence, arrivals[i]);
        if answer.Err? {
          return Err(answer.error);
        }
        var copies := Deliveries(candidateRng, answer.value.0, cfg.response);
        if copies.Err? {
          return Err(copies.error);
        }
        candidateRng := copies.value.rng;
        var stamped := StampCopies(copies.value.ticks, candidateOrder, answer.value.1);
        ghost var before := scheduled;
        scheduled := scheduled + stamped;
        candidateOrder := (candidateOrder + |stamped|) % U64_LIMIT;
        ghost var rest := AnswerAll(cfg, sequence, arrivals[i + 1..], candidateRng, candidateOrder);
        assert rest.Ok? ==> before + (stamped + rest.value.scheduled) == scheduled + rest.value.scheduled;
      }
      assert arrivals[|arrivals|..] == [] && scheduled + [] == scheduled;
      r := Ok(Batch(candidateRng, candidateOrder, scheduled));
    }

    /** Give each copy of a response its place in the arrival order. */
    static method StampCopies(ticks: seq<u64>, first: u64, bytes: seq<byte>) returns (scheduled: seq<Scheduled>)
      ensures scheduled == Stamp(ticks, first, bytes)
    {
      scheduled := [];
      var order: u64 := first;
      assert ticks[0..] == ticks;
      for j := 0 to |ticks|
        invariant scheduled + Stamp(ticks[j..], order, bytes) == Stamp(ticks, first, bytes)
      {
        assert ticks[j..][1..] == ticks[j + 1..];
        scheduled := scheduled + [Scheduled(ticks[j], order, bytes)];
        order := (order + 1) % U64_LIMIT;
      }
    }

    /** Remove and return the earliest due response. */
    method ReceiveDue(hostNow: u64) returns (r: Option<Scheduled>)
      modifies this`pending
      ensures match EarliestDue(old(pending), hostNow)
              case None => r == None && pending == old(pending)
              case Some(i) => r == Some(old(pending)[i]) && pending == Without(old(pending), i)
    {
      var best: Option<nat> := None;
      assert pending[..|pending|] == pending;
      for k := 0 to |pending|
        invariant best == EarliestDue(pending[..k], hostNow)
      {
        assert pending[..k + 1][..k] == pending[..k];
        if pending[k].deliveredAt <= hostNow && (best.None? || Before(pending[k], pending[best.value])) {
          best := Some(k);
        }
      }
      if best.None? {
        return None;
      }
      r := Some(pending[best.value]);
      pending := Without(pending, best.value);
    }

    /** Responses in flight are lost with the link. */
    method DropLink()
      modifies this`linkUp, this`pending
      ensures State() == old(State()).(linkUp := false, pending := [])
    {
      linkUp, pending := false, [];
    }

    method RestoreLink()
      modifies this`linkUp
      ensures State() == old(State()).(linkUp := true)
    {
      linkUp := true;
    }
  }
}
