// A clock session talking to a controller over the simulated link, end to end.
module ClockSystem {
  import opened Prelude
  import opened Bytes
  import opened Protocol
  import opened ProtocolLaws
  import opened ClockArithmetic
  import opened ClockEstimator
  import opened ClockSoundness
  import opened ClockTransport
  import opened ClockSessions
  import opened Runs

  /** What a run leaves behind for a reader to judge it by. */
  datatype Record =
    | Pushed(sequence: u32, sample: ClockSample, verdict: Option<ClockSyncError>)
    | Answered(host: u64, window: ControllerWindow, span: u64)

  /** `handoffs` remembers when each request was handed to the link. */
  datatype System = System(
    session: SessionState,
    transport: TransportState,
    now: u64,
    handoffs: map<u32, u64>,
    records: seq<Record>)

  /** What the host may do next; waits are in host ticks and only move time forward. */
  datatype Step =
    | BeginStep(wait: u64, handoffDelay: u64)
    | ReceiveStep(wait: u64, stampDelay: u64)
    | ExpireStep(wait: u64)
    | QueryStep(host: u64)
    | DropLinkStep
    | RestoreLinkStep

  function BeginAt(s: System, hostSend: u64, handoff: u64): System {
    if Refusal<TransportError>(s.session).Some? then s.(now := handoff)
    else
      var sequence := s.session.nextSequence;
      var sent := SendRequest(s.transport, handoff, ClockRequestFrameBytes(ClockRequestFrame(sequence)));
      match sent
      case Err(e) =>
        s.(session := Begin(s.session, hostSend, Err(e)).0, now := handoff)
      case Ok(transport) =>
        var sink: Result<(), TransportError> := Ok(());
        s.(session := Begin(s.session, hostSend, sink).0, transport := transport, now := handoff,
           handoffs := s.handoffs[sequence := handoff])
  }

  /** The record an accepted or refused sample leaves. */
  function RecordOf(s: SessionState, bytes: seq<byte>, stamp: u64): seq<Record> {
    match Accept<TransportError>(s, bytes, stamp).1
    case Ok(receipt) => [Pushed(receipt.sequence, receipt.sample, None)]
    case Err(Sync(e)) =>
      var reply := DecodeClockResponse(bytes).value.response;
      var pending := s.pending.value;
      [Pushed(pending.sequence, ClockSample(pending.hostSend, reply.controllerReceive, reply.controllerSend, stamp),
        Some(e))]
    case _ => []
  }

  function ReceiveAt(s: System, poll: u64, stamp: u64): System {
    match EarliestDue(s.transport.pending, poll)
    case None => s.(now := stamp)
    case Some(i) =>
      var bytes := s.transport.pending[i].bytes;
      s.(transport := s.transport.(pending := Without(s.transport.pending, i)),
         session := Accept<TransportError>(s.session, bytes, stamp).0,
         now := stamp,
         records := s.records + RecordOf(s.session, bytes, stamp))
  }

  function QueryAt(s: System, host: u64): System {
    match WindowAt(s.session.sync, host)
    case Err(_) => s
    case Ok(window) =>
      var sync := s.session.sync;
      var span := if sync.estimate.Some? then sync.estimate.value.anchor.roundTrip else 0;
      s.(records := s.records + [Answered(host, window, span)])
  }

  function Next(s: System, step: Step): System {
    match step
    case BeginStep(wait, delay) => BeginAt(s, SatAdd(s.now, wait), SatAdd(SatAdd(s.now, wait), delay))
    case ReceiveStep(wait, delay) => ReceiveAt(s, SatAdd(s.now, wait), SatAdd(SatAdd(s.now, wait), delay))
    case ExpireStep(wait) =>
      s.(now := SatAdd(s.now, wait), session := ExpireAt(s.session, SatAdd(s.now, wait)).0)
    case QueryStep(host) => QueryAt(s, host)
    case DropLinkStep => s.(transport := s.transport.(linkUp := false, pending := []))
    case RestoreLinkStep => s.(transport := s.transport.(linkUp := true))
  }

  function Start(transport: TransportState, maxSlewPpb: int, timeout: u64): System {
    System(NewSession(maxSlewPpb, timeout), transport, 0, map[], [])
  }

  // ----- the controller clock ---------------------------------------------------------

  /** The controller clock at every host tick, before its epoch too. */
  function ClockOf(k: ControllerClock): Clock {
    (t: int) => k.controllerEpoch + ((t - k.hostEpoch) * (PPB + k.ratePpb)) / PPB
  }

  lemma AtReadsClock(k: ControllerClock, host: u64)
    requires -PPB <= k.ratePpb && At(k, host).Ok?
    ensures At(k, host).value == ClockOf(k)(host)
  {
    ProductMono(0, PPB + k.ratePpb, host - k.hostEpoch);
    assert (host - k.hostEpoch) * (PPB + k.ratePpb) == (PPB + k.ratePpb) * (host - k.hostEpoch);
  }

  lemma ConstantRateInClass(k: ControllerClock, slew: int)
    requires PhysicalSlew(slew) && Abs(k.ratePpb) <= slew
    ensures InClass(ClockOf(k), slew)
  {
    hide OffsetsWithin;
    forall s: int, t: int
      ensures OffsetsWithin(ClockOf(k), slew, s, t)
    {
      ConstantRatePair(k, slew, s, t);
    }
  }

  lemma ConstantRatePair(k: ControllerClock, slew: int, s: int, t: int)
    requires PhysicalSlew(slew) && Abs(k.ratePpb) <= slew
    ensures OffsetsWithin(ClockOf(k), slew, s, t)
  {
    var a, b := if s <= t then s else t, if s <= t then t else s;
    OffsetOfRate(k, a);
    OffsetOfRate(k, b);
    RateSpread(k.ratePpb, slew, a - k.hostEpoch, b - k.hostEpoch);
    assert Abs(t - s) == b - a;
  }

  lemma OffsetOfRate(k: ControllerClock, t: int)
    ensures Offset(ClockOf(k), t) == k.controllerEpoch - k.hostEpoch + ((t - k.hostEpoch) * k.ratePpb) / PPB
  {
    var x := t - k.hostEpoch;
    assert x * (PPB + k.ratePpb) == x * PPB + x * k.ratePpb;
  }

  lemma RateSpread(rate: int, slew: int, a: int, b: int)
    requires PhysicalSlew(slew) && Abs(rate) <= slew && a <= b
    ensures Abs((b * rate) / PPB - (a * rate) / PPB) <= Drift(slew, b - a)
  {
    var n := b - a;
    assert b * rate == a * rate + n * rate;
    ProductMono(Abs(rate), slew, n);
    assert n * rate == rate * n;
    if rate < 0 {
      assert rate * n == -(Abs(rate) * n);
    }
    ProductMono(0, Abs(rate), n);
    CeilMono(Abs(rate) * n, slew * n, PPB);
  }

  // ----- the invariant of every run -----------------------------------------------------

  /** The response answers the request of this sequence, between its hand-over and its delivery. */
  predicate AnswersAt(c: Clock, handoffs: map<u32, u64>, r: Scheduled, sequence: u32, arrival: int, departure: int) {
    && sequence in handoffs
    && handoffs[sequence] <= arrival <= departure <= r.deliveredAt
    && 0 <= c(arrival) < U64_LIMIT && 0 <= c(departure) < U64_LIMIT
    && r.bytes == ClockResponseFrameBytes(ClockResponseFrame(sequence, ClockResponse(c(arrival), c(departure))))
  }

  ghost predicate Answers(c: Clock, handoffs: map<u32, u64>, r: Scheduled) {
    exists sequence: u32, arrival: int, departure: int :: AnswersAt(c, handoffs, r, sequence, arrival, departure)
  }

  ghost predicate TransportSound(c: Clock, handoffs: map<u32, u64>, t: TransportState) {
    && (forall k :: 0 <= k < |t.pending| ==> Answers(c, handoffs, t.pending[k]))
    && ClockOf(t.cfg.clock) == c
  }

  /** The sample is one genuine exchange: its request, handed over under this
      sequence, reached the controller and was answered before the response arrived. */
  ghost predicate OneExchange(c: Clock, handoffs: map<u32, u64>, sequence: u32, x: ClockSample) {
    sequence in handoffs &&
    exists arrival: int, departure: int ::
      Genuine(c, x, arrival, departure) && x.hostSend <= handoffs[sequence] <= arrival
  }

  ghost predicate RecordSound(c: Clock, slew: int, handoffs: map<u32, u64>, r: Record) {
    match r
    case Pushed(sequence, sample, verdict) =>
      OneExchange(c, handoffs, sequence, sample) && (verdict == None || verdict == Some(InsufficientSeparation))
    case Answered(host, window, span) =>
      && window.earliest - LowSlack(slew, span) <= c(host) <= window.latest
      && window.earliest <= window.estimate <= window.latest
  }

  ghost predicate LastSampleSound(c: Clock, s: System) {
    s.session.sync.lastRaw.Some? ==>
      var last := s.session.sync.lastRaw.value;
      && IsGenuine(c, last)
      && last.hostReceive <= s.now
      && (s.session.pending.Some? ==> last.hostReceive <= s.session.pending.value.hostSend)
      && s.session.sync.previous.Some?
      && s.session.sync.previous.value.referenceHost <= last.hostReceive
  }

  predicate SequencesFresh(s: System) {
    && (forall q :: q in s.handoffs ==> s.handoffs[q] <= s.now && (q < s.session.nextSequence || s.session.exhausted))
    && (s.session.pending.Some? ==>
          var p := s.session.pending.value;
          p.sequence in s.handoffs && p.hostSend <= s.handoffs[p.sequence])
  }

  ghost predicate Sound(c: Clock, slew: int, s: System) {
    && PhysicalSlew(slew) && InClass(c, slew)
    && s.session.sync.maxSlewPpb == slew
    && WellFormed(s.session.sync) && SoundFor(c, s.session.sync)
    && TransportSound(c, s.handoffs, s.transport)
    && -PPB < s.transport.cfg.clock.ratePpb
    && SequencesFresh(s)
    && LastSampleSound(c, s)
    && (forall k :: 0 <= k < |s.records| ==> RecordSound(c, slew, s.handoffs, s.records[k]))
  }

  // ----- the link --------------------------------------------------------------------------

  lemma DeliveriesLate(rng: u64, sentAt: u64, link: LinkConfig)
    requires Deliveries(rng, sentAt, link).Ok?
    ensures forall k :: 0 <= k < |Deliveries(rng, sentAt, link).value.ticks| ==>
              sentAt <= Deliveries(rng, sentAt, link).value.ticks[k]
  {
    hide NextState, Draw;
  }

  lemma {:induction false} StampedLayout(ticks: seq<u64>, order: u64, bytes: seq<byte>)
    ensures forall k :: 0 <= k < |ticks| ==>
      Stamp(ticks, order, bytes)[k] == Scheduled(ticks[k], (order + k) % U64_LIMIT, bytes)
  {
    if ticks != [] {
      StampedLayout(ticks[1..], (order + 1) % U64_LIMIT, bytes);
    }
  }

  lemma AnswerGenuine(cfg: TransportConfig, sequence: u32, arrival: u64)
    requires -PPB < cfg.clock.ratePpb && Answer(cfg, sequence, arrival).Ok?
    ensures var (departure, bytes) := Answer(cfg, sequence, arrival).value;
      var c := ClockOf(cfg.clock);
      && arrival <= departure
      && 0 <= c(arrival) < U64_LIMIT && 0 <= c(departure) < U64_LIMIT
      && bytes == ClockResponseFrameBytes(ClockResponseFrame(sequence, ClockResponse(c(arrival), c(departure))))
  {
    hide At, ClockOf, ClockResponseFrameBytes;
    AtReadsClock(cfg.clock, arrival);
    AtReadsClock(cfg.clock, arrival + cfg.processing);
  }

  lemma {:induction false} AnswersGenuine(cfg: TransportConfig, sequence: u32, arrivals: seq<u64>, rng: u64,
                                          order: u64, handoffs: map<u32, u64>)
    requires -PPB < cfg.clock.ratePpb && sequence in handoffs
    requires forall k :: 0 <= k < |arrivals| ==> handoffs[sequence] <= arrivals[k]
    requires AnswerAll(cfg, sequence, arrivals, rng, order).Ok?
    ensures var batch := AnswerAll(cfg, sequence, arrivals, rng, order).value;
      forall k :: 0 <= k < |batch.scheduled| ==> Answers(ClockOf(cfg.clock), handoffs, batch.scheduled[k])
    decreases |arrivals|
  {
    hide Deliveries, Answer, ClockOf, Stamp, ClockResponseFrameBytes;
    if arrivals != [] {
      var c := ClockOf(cfg.clock);
      var (departure, bytes) := Answer(cfg, sequence, arrivals[0]).value;
      AnswerGenuine(cfg, sequence, arrivals[0]);
      var d := Deliveries(rng, departure, cfg.response).value;
      DeliveriesLate(rng, departure, cfg.response);
      StampedLayout(d.ticks, order, bytes);
      var stamped := Stamp(d.ticks, order, bytes);
      forall k | 0 <= k < |stamped|
        ensures Answers(c, handoffs, stamped[k])
      {
        assert AnswersAt(c, handoffs, stamped[k], sequence, arrivals[0], departure);
      }
      AnswersGenuine(cfg, sequence, arrivals[1..], d.rng, (order + |d.ticks|) % U64_LIMIT, handoffs);
    }
  }

  lemma RememberingMore(c: Clock, before: map<u32, u64>, sequence: u32, handoff: u64, r: Scheduled)
    requires sequence !in before && Answers(c, before, r)
    ensures Answers(c, before[sequence := handoff], r)
  {
    hide ClockResponseFrameBytes;
    var q: u32, arrival: int, departure: int :| AnswersAt(c, before, r, q, arrival, departure);
    assert AnswersAt(c, before[sequence := handoff], r, q, arrival, departure);
  }

  /** Whatever the link loses, copies or delays, what it holds answers a request. */
  lemma SendKeepsTransport(c: Clock, handoffs: map<u32, u64>, t: TransportState, sequence: u32, handoff: u64)
    requires TransportSound(c, handoffs, t) && -PPB < t.cfg.clock.ratePpb && sequence !in handoffs
    requires SendRequest(t, handoff, ClockRequestFrameBytes(ClockRequestFrame(sequence))).Ok?
    ensures TransportSound(c, handoffs[sequence := handoff],
                           SendRequest(t, handoff, ClockRequestFrameBytes(ClockRequestFrame(sequence))).value)
    ensures SendRequest(t, handoff, ClockRequestFrameBytes(ClockRequestFrame(sequence))).value.cfg == t.cfg
  {
    hide Deliveries, AnswerAll, ClockOf, Answers, DecodeClockRequest, ClockRequestFrameBytes;
    ClockRequestRoundTrip(ClockRequestFrame(sequence));
    var after := handoffs[sequence := handoff];
    forall k | 0 <= k < |t.pending|
      ensures Answers(c, after, t.pending[k])
    {
      RememberingMore(c, handoffs, sequence, handoff, t.pending[k]);
    }
    if t.linkUp {
      var d := Deliveries(t.rng, handoff, t.cfg.request).value;
      DeliveriesLate(t.rng, handoff, t.cfg.request);
      AnswersGenuine(t.cfg, sequence, d.ticks, d.rng, t.nextOrder, after);
    }
  }

  // ----- steps -------------------------------------------------------------------------------

  lemma RecordsRemember(c: Clock, slew: int, before: map<u32, u64>, sequence: u32, handoff: u64, r: Record)
    requires sequence !in before && RecordSound(c, slew, before, r)
    ensures RecordSound(c, slew, before[sequence := handoff], r)
  {
  }

  lemma BeginKeeps(c: Clock, slew: int, s: System, hostSend: u64, handoff: u64)
    requires Sound(c, slew, s) && s.now <= hostSend <= handoff
    ensures Sound(c, slew, BeginAt(s, hostSend, handoff))
  {
    hide SendRequest, TransportSound, WellFormed, SoundFor, InClass, RecordSound, ClockRequestFrameBytes;
    var sequence := s.session.nextSequence;
    if Refusal<TransportError>(s.session).None? {
      assert sequence !in s.handoffs;
      if SendRequest(s.transport, handoff, ClockRequestFrameBytes(ClockRequestFrame(sequence))).Ok? {
        SendKeepsTransport(c, s.handoffs, s.transport, sequence, handoff);
        forall k | 0 <= k < |s.records|
          ensures RecordSound(c, slew, s.handoffs[sequence := handoff], s.records[k])
        {
          RecordsRemember(c, slew, s.handoffs, sequence, handoff, s.records[k]);
        }
      }
    }
  }

  /** The sample a matching response completes is genuine. */
  lemma SampleIsOneExchange(c: Clock, handoffs: map<u32, u64>, r: Scheduled, p: PendingExchange, stamp: u64)
    requires Answers(c, handoffs, r) && r.deliveredAt <= stamp
    requires p.sequence in handoffs && p.hostSend <= handoffs[p.sequence]
    ensures DecodeClockResponse(r.bytes).Ok?
    ensures var frame := DecodeClockResponse(r.bytes).value;
      frame.sequence == p.sequence ==>
        OneExchange(c, handoffs, p.sequence,
                    ClockSample(p.hostSend, frame.response.controllerReceive, frame.response.controllerSend, stamp))
  {
    hide DecodeClockResponse, ClockResponseFrameBytes;
    var q: u32, arrival: int, departure: int :| AnswersAt(c, handoffs, r, q, arrival, departure);
    var frame := ClockResponseFrame(q, ClockResponse(c(arrival), c(departure)));
    ClockResponseRoundTrip(frame);
    if q == p.sequence {
      var x := ClockSample(p.hostSend, frame.response.controllerReceive, frame.response.controllerSend, stamp);
      assert Genuine(c, x, arrival, departure) && x.hostSend <= handoffs[q] <= arrival;
    }
  }

  /** In a run, a genuine sample can be refused only for not advancing the midpoint. */
  lemma GenuineVerdict(c: Clock, s: SyncState, x: ClockSample)
    requires WellFormed(s) && InClass(c, s.maxSlewPpb) && IsGenuine(c, x)
    requires s.lastRaw.Some? ==>
      && IsGenuine(c, s.lastRaw.value) && s.lastRaw.value.hostReceive <= x.hostSend
    ensures PushSample(s, x).Ok? || PushSample(s, x) == Err(InsufficientSeparation)
  {
    var arrival: int, departure: int :| Genuine(c, x, arrival, departure);
    GenuineIsObservable(c, s.maxSlewPpb, x, arrival, departure);
    if s.lastRaw.Some? {
      var last := s.lastRaw.value;
      var a: int, d: int :| Genuine(c, last, a, d);
      ClockAdvance(c, s.maxSlewPpb, a, arrival);
      ClockAdvance(c, s.maxSlewPpb, d, departure);
      assert CheckOrder(s.lastRaw, x).None?;
    }
    RefusalReasons(s, x);
  }

  lemma RefusalReasons(s: SyncState, x: ClockSample)
    requires WellFormed(s) && ObserveBounded(x, s.maxSlewPpb).Ok? && CheckOrder(s.lastRaw, x).None?
    ensures PushSample(s, x).Ok? || PushSample(s, x) == Err(InsufficientSeparation)
  {
    hide ObserveBounded, CheckOrder;
    PushOutcomes(s, x);
  }

  /** What the estimator remembers after a sample. */
  lemma PushRemembers(s: SyncState, x: ClockSample)
    requires WellFormed(s) && PushSample(s, x).Ok?
    ensures var t := PushSample(s, x).value;
      t.lastRaw == Some(x) && t.previous.Some? && t.previous.value.referenceHost <= x.hostReceive
  {
    PushOutcomes(s, x);
    ObserveBoundedMeaning(x, s.maxSlewPpb);
  }

  lemma AcceptKeeps(c: Clock, slew: int, s: System, r: Scheduled, stamp: u64)
    requires Sound(c, slew, s) && Answers(c, s.handoffs, r) && r.deliveredAt <= stamp && s.now <= stamp
    ensures var accepted := Accept<TransportError>(s.session, r.bytes, stamp).0;
      Sound(c, slew, s.(session := accepted, now := stamp, records := s.records + RecordOf(s.session, r.bytes, stamp)))
  {
    hide DecodeClockResponse, PushSample, TransportSound, Answers, InClass, SoundFor, WellFormed, OneExchange;
    if s.session.pending.Some? {
      var p := s.session.pending.value;
      SampleIsOneExchange(c, s.handoffs, r, p, stamp);
      var frame := DecodeClockResponse(r.bytes).value;
      if frame.sequence == p.sequence && !Expired(s.session, stamp) {
        var x := ClockSample(p.hostSend, frame.response.controllerReceive, frame.response.controllerSend, stamp);
        OneExchangeIsGenuine(c, s.handoffs, p.sequence, x);
        GenuineVerdict(c, s.session.sync, x);
        PushSound(c, s.session.sync, x);
        if PushSample(s.session.sync, x).Ok? {
          PushRemembers(s.session.sync, x);
        }
      }
    }
  }

  lemma OneExchangeIsGenuine(c: Clock, handoffs: map<u32, u64>, sequence: u32, x: ClockSample)
    requires OneExchange(c, handoffs, sequence, x)
    ensures IsGenuine(c, x)
  {
  }

  lemma ReceiveKeeps(c: Clock, slew: int, s: System, poll: u64, stamp: u64)
    requires Sound(c, slew, s) && s.now <= poll <= stamp
    ensures Sound(c, slew, ReceiveAt(s, poll, stamp))
  {
    hide Accept, RecordOf, Answers, InClass, SoundFor, WellFormed, RecordSound;
    match EarliestDue(s.transport.pending, poll)
    case None =>
    case Some(i) =>
      var r := s.transport.pending[i];
      var taken := s.(transport := s.transport.(pending := Without(s.transport.pending, i)));
      assert Sound(c, slew, taken);
      AcceptKeeps(c, slew, taken, r, stamp);
  }

  lemma QueryKeeps(c: Clock, slew: int, s: System, host: u64)
    requires Sound(c, slew, s)
    ensures Sound(c, slew, QueryAt(s, host))
  {
    hide WindowAt, InClass, WellFormed, TransportSound;
    var sync := s.session.sync;
    if WindowAt(sync, host).Ok? {
      WindowNeedsEstimate(sync, host);
      var span := sync.estimate.value.anchor.roundTrip;
      LowSlackIsBit(slew, span);
      WindowSound(c, sync, host, LowSlack(slew, span));
    }
  }

  lemma WindowNeedsEstimate(s: SyncState, host: u64)
    requires WindowAt(s, host).Ok?
    ensures s.estimate.Some?
  {
  }

  lemma StepKeeps(c: Clock, slew: int, s: System, step: Step)
    requires Sound(c, slew, s)
    ensures Sound(c, slew, Next(s, step))
  {
    hide BeginAt, ReceiveAt, QueryAt, InClass, SoundFor, WellFormed, RecordSound, Answers;
    match step
    case BeginStep(wait, delay) =>
      BeginKeeps(c, slew, s, SatAdd(s.now, wait), SatAdd(SatAdd(s.now, wait), delay));
    case ReceiveStep(wait, delay) =>
      ReceiveKeeps(c, slew, s, SatAdd(s.now, wait), SatAdd(SatAdd(s.now, wait), delay));
    case ExpireStep(wait) =>
    case QueryStep(host) =>
      QueryKeeps(c, slew, s, host);
    case DropLinkStep =>
    case RestoreLinkStep =>
  }

  lemma RunIsSound(cfg: TransportConfig, slew: int, timeout: u64, steps: seq<Step>)
    requires PhysicalSlew(slew) && NewTransport(cfg).Ok?
    requires NewClock(cfg.clock.hostEpoch, cfg.clock.controllerEpoch, cfg.clock.ratePpb).Ok?
    requires Abs(cfg.clock.ratePpb) <= slew
    ensures Sound(ClockOf(cfg.clock), slew, RunOf(cfg, slew, timeout, steps))
  {
    hide Next, InClass, ClockOf;
    var c := ClockOf(cfg.clock);
    ConstantRateInClass(cfg.clock, slew);
    var step := (s: System, e: Step) => Next(s, e);
    ghost var inv := (s: System) => Sound(c, slew, s);
    forall s: System, e: Step | inv(s)
      ensures inv(step(s, e))
    {
      StepKeeps(c, slew, s, e);
    }
    var first := Start(NewTransport(cfg).value, slew, timeout);
    assert inv(first);
    RunKeeps(step, inv, (e: Step) => true, first, steps);
  }

  function RunOf(cfg: TransportConfig, slew: int, timeout: u64, steps: seq<Step>): System
    requires NewTransport(cfg).Ok?
  {
    Run((s, e) => Next(s, e), Start(NewTransport(cfg).value, slew, timeout), steps)
  }

  /** In every run over a link that loses, copies, delays and reorders frames,
      with a controller clock no faster or slower than the slew bound: each
      sample pushed comes from one request and its own answer, it is refused
      only when its midpoint has not advanced, and every window returned holds
      the controller's tick, short at its early end of no more than the slack of
      the anchor's measured span: nothing for an even span, at most one tick for
      an odd one. */
  lemma EveryRunSound(cfg: TransportConfig, slew: int, timeout: u64, steps: seq<Step>)
    requires PhysicalSlew(slew) && NewTransport(cfg).Ok?
    requires NewClock(cfg.clock.hostEpoch, cfg.clock.controllerEpoch, cfg.clock.ratePpb).Ok?
    requires Abs(cfg.clock.ratePpb) <= slew
    ensures var s := RunOf(cfg, slew, timeout, steps);
      forall k :: 0 <= k < |s.records| ==> RecordSound(ClockOf(cfg.clock), slew, s.handoffs, s.records[k])
  {
    hide RunOf, RecordSound, ClockOf;
    RunIsSound(cfg, slew, timeout, steps);
  }

  // ----- timeouts -------------------------------------------------------------------------------

  /** A pending exchange is dropped, and its sequence reported, if and only if its timeout has passed. */
  lemma ExpiresExactly(s: SessionState, now: u64)
    ensures ExpireAt(s, now) ==
      if Overdue(s, now) then (s.(pending := None), Some(s.pending.value.sequence)) else (s, None)
  {
  }

  /** What a response does: only one that matches the pending exchange ends it; in
      time it reaches the estimator, whatever that makes of it, and later it is
      reported as timed out. */
  lemma RespondsExactly(s: SessionState, frame: ClockResponseFrame, at: u64)
    ensures var (next, r) := Accept<TransportError>(s, ClockResponseFrameBytes(frame), at);
      if s.pending.None? then next == s && r == Err(NoPending)
      else
        var p := s.pending.value;
        if frame.sequence != p.sequence then
          next == s && r == Err(UnexpectedSequence(p.sequence, frame.sequence))
        else if Overdue(s, at) then next == s.(pending := None) && r == Err(TimedOut(p.sequence))
        else
          var x := ClockSample(p.hostSend, frame.response.controllerReceive, frame.response.controllerSend, at);
          && next == s.(pending := None, sync := PushOrKeep(s.sync, x))
          && match PushSample(s.sync, x)
             case Ok(sync) => r == Ok(Receipt(p.sequence, x, sync.estimate))
             case Err(e) => r == Err(Sync(e))
  {
    hide DecodeClockResponse, ClockResponseFrameBytes, PushSample;
    ClockResponseRoundTrip(frame);
  }

  /** Bytes that are no response change nothing. */
  lemma NoiseIsIgnored(s: SessionState, bytes: seq<byte>, at: u64)
    requires DecodeClockResponse(bytes).Err?
    ensures Accept<TransportError>(s, bytes, at) == (s, Err(Decode(DecodeClockResponse(bytes).error)))
  {
  }

  lemma RunOn(cfg: TransportConfig, slew: int, timeout: u64, steps: seq<Step>, more: Step)
    requires NewTransport(cfg).Ok?
    ensures RunOf(cfg, slew, timeout, steps + [more]) == Next(RunOf(cfg, slew, timeout, steps), more)
  {
    hide Next;
    var step := (s: System, e: Step) => Next(s, e);
    var first := Start(NewTransport(cfg).value, slew, timeout);
    assert (steps + [more])[..|steps|] == steps && (steps + [more])[|steps|..] == [more];
    RunSplits(step, first, steps + [more], |steps|);
    RunOne(step, Run(step, first, steps), more);
  }

  lemma {:induction false} TimeoutStays(s: System, steps: seq<Step>)
    ensures Run((s, e) => Next(s, e), s, steps).session.timeout == s.session.timeout
    decreases |steps|
  {
    if steps != [] {
      OneTimeout(s, steps[0]);
      hide Next;
      TimeoutStays(Next(s, steps[0]), steps[1..]);
    }
  }

  lemma OneTimeout(s: System, step: Step)
    ensures Next(s, step).session.timeout == s.session.timeout
  {
    hide SendRequest, DecodeClockResponse, PushSample, WindowAt, EarliestDue, RecordOf, ClockRequestFrameBytes;
  }

  /** In every run, whatever the link lost: waiting for the timeout and expiring leaves
      no exchange pending, so that the next one begins unless the sequences are spent. */
  lemma LostExchangesEnd(cfg: TransportConfig, slew: int, timeout: u64, steps: seq<Step>, wait: u64, again: u64,
                         delay: u64)
    requires PhysicalSlew(slew) && NewTransport(cfg).Ok?
    requires NewClock(cfg.clock.hostEpoch, cfg.clock.controllerEpoch, cfg.clock.ratePpb).Ok?
    requires Abs(cfg.clock.ratePpb) <= slew
    requires timeout <= wait && RunOf(cfg, slew, timeout, steps).now + wait < U64_LIMIT
    ensures var before := RunOf(cfg, slew, timeout, steps).session;
      var expired := RunOf(cfg, slew, timeout, steps + [ExpireStep(wait)]).session;
      var begun := RunOf(cfg, slew, timeout, steps + [ExpireStep(wait)] + [BeginStep(again, delay)]).session;
      && expired == before.(pending := None)
      && (!before.exhausted ==> begun.nextSequence == (before.nextSequence + 1) % U32_LIMIT)
      && (begun.pending.Some? ==> begun.pending.value.sequence == before.nextSequence)
  {
    hide RunOf, ClockOf, SendRequest, ClockRequestFrameBytes, InClass, SoundFor, WellFormed, TransportSound,
      RecordSound;
    RunIsSound(cfg, slew, timeout, steps);
    RunOn(cfg, slew, timeout, steps, ExpireStep(wait));
    RunOn(cfg, slew, timeout, steps + [ExpireStep(wait)], BeginStep(again, delay));
    RunTimeout(cfg, slew, timeout, steps);
    var s := RunOf(cfg, slew, timeout, steps);
    ExpiresExactly(s.session, s.now + wait);
  }

  lemma RunTimeout(cfg: TransportConfig, slew: int, timeout: u64, steps: seq<Step>)
    requires NewTransport(cfg).Ok?
    ensures RunOf(cfg, slew, timeout, steps).session.timeout == timeout
  {
    hide Next;
    TimeoutStays(Start(NewTransport(cfg).value, slew, timeout), steps);
  }
}
