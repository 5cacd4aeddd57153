// When the simulated link delivers, loses and repeats a frame, and what a request
// over it comes back with.
module LinkLaws {
  import opened Prelude
  import opened Protocol
  import opened ProtocolLaws
  import opened ClockTransport

  /** The generator after so many draws. */
  function Drawn(rng: u64, n: nat): u64 {
    if n == 0 then rng else NextState(Drawn(rng, n - 1))
  }

  /** The draw of a seeded generator that decides with this probability, in parts per thousand. */
  predicate Hits(rng: u64, perMille: u16) {
    perMille > 0 && Draw(rng) % 1000 < perMille
  }

  /** A frame is lost, or arrives after the latency and a jitter drawn up to its bound,
      alone or followed at once by its copy; a draw is spent on each of the three that
      the link is configured for and that comes to pass. */
  lemma DeliversExactly(rng: u64, sentAt: u64, link: LinkConfig)
    ensures var a := if link.lossPerMille > 0 then 1 else 0;
      var b := a + if link.jitter > 0 then 1 else 0;
      var c := b + if link.dupPerMille > 0 then 1 else 0;
      var late := if link.jitter == 0 then 0 else Draw(Drawn(rng, b)) % (link.jitter + 1);
      var at := sentAt + link.latency + late;
      var twice := Hits(Drawn(rng, c), link.dupPerMille);
      Deliveries(rng, sentAt, link) ==
        if Hits(Drawn(rng, 1), link.lossPerMille) then Ok(Delivery(Drawn(rng, a), []))
        else if link.jitter == U64_LIMIT - 1 || at + (if twice then 1 else 0) >= U64_LIMIT then Err(TimeOverflow)
        else Ok(Delivery(Drawn(rng, c), if twice then [at, at + 1] else [at]))
  {
    hide NextState, Draw;
    assert Drawn(rng, 0) == rng;
    assert Drawn(rng, 1) == NextState(rng);
    assert Drawn(rng, 2) == NextState(Drawn(rng, 1));
    assert Drawn(rng, 3) == NextState(Drawn(rng, 2));
  }

  /** Bounds that hold of every delivery, whatever is drawn. */
  lemma DeliveriesBounded(rng: u64, sentAt: u64, link: LinkConfig)
    requires Deliveries(rng, sentAt, link).Ok?
    ensures var ticks := Deliveries(rng, sentAt, link).value.ticks;
      && |ticks| <= 2
      && (link.lossPerMille == 0 ==> |ticks| >= 1) && (link.lossPerMille >= 1000 ==> ticks == [])
      && (link.dupPerMille == 0 ==> |ticks| <= 1) && (link.dupPerMille >= 1000 ==> |ticks| != 1)
      && (|ticks| >= 1 ==> sentAt + link.latency <= ticks[0] <= sentAt + link.latency + link.jitter)
      && (|ticks| == 2 ==> ticks[1] == ticks[0] + 1)
  {
    hide NextState, Draw, Deliveries;
    DeliversExactly(rng, sentAt, link);
  }

  /** The first two draws from seed zero. */
  lemma FirstDraws()
    ensures Drawn(1, 1) == 7806831264735756412 && Draw(7806831264735756412) == 908834774
    ensures NextState(7806831264735756412) == SECOND_STATE
  {
    assert Drawn(1, 0) == 1;
  }

  const SECOND_STATE: u64 := 9396908728118811419

  /** A link that only takes time. */
  predicate Clean(link: LinkConfig) {
    link.jitter == 0 && link.lossPerMille == 0 && link.dupPerMille == 0
  }

  /** A request over clean links comes back once: after both latencies and the time
      the controller takes, with the controller's ticks at its arrival there and at
      the departure of the answer; or it fails, and then for a time or a clock out of
      range or a full queue. A link that is down swallows it. */
  lemma CleanLinkAnswers(t: TransportState, sequence: u32, hostSend: u64)
    requires Clean(t.cfg.request) && Clean(t.cfg.response)
    ensures var sent := SendRequest(t, hostSend, ClockRequestFrameBytes(ClockRequestFrame(sequence)));
      var arrival := hostSend + t.cfg.request.latency;
      var departure := arrival + t.cfg.processing;
      var back := departure + t.cfg.response.latency;
      if !t.linkUp then sent == Ok(t)
      else if arrival >= U64_LIMIT || departure >= U64_LIMIT then sent == Err(TimeOverflow)
      else
        var receive, send := At(t.cfg.clock, arrival), At(t.cfg.clock, departure);
        if receive.Err? then sent == Err(ClockFailure(receive.error))
        else if send.Err? then sent == Err(ClockFailure(send.error))
        else if back >= U64_LIMIT then sent == Err(TimeOverflow)
        else if |t.pending| >= t.cfg.maxPending then sent == Err(QueueFull(t.cfg.maxPending))
        else
          var answer := ClockResponseFrame(sequence, ClockResponse(receive.value, send.value));
          sent == Ok(t.(nextOrder := (t.nextOrder + 1) % U64_LIMIT,
                        pending := t.pending + [Scheduled(back, t.nextOrder, ClockResponseFrameBytes(answer))]))
  {
    hide DecodeClockRequest, ClockRequestFrameBytes, ClockResponseFrameBytes, Deliveries, Answer, AnswerAll;
    ClockRequestRoundTrip(ClockRequestFrame(sequence));
    CleanDelivers(t.rng, hostSend, t.cfg.request);
    var arrival := hostSend + t.cfg.request.latency;
    if t.linkUp && arrival < U64_LIMIT {
      CleanAnswer(t, sequence, arrival);
    }
  }

  lemma CleanDelivers(rng: u64, sentAt: u64, link: LinkConfig)
    requires Clean(link)
    ensures Deliveries(rng, sentAt, link) ==
            if sentAt + link.latency >= U64_LIMIT then Err(TimeOverflow) else Ok(Delivery(rng, [sentAt + link.latency]))
  {
    hide NextState, Draw, Deliveries;
    DeliversExactly(rng, sentAt, link);
    assert Drawn(rng, 0) == rng;
  }

  lemma CleanAnswer(t: TransportState, sequence: u32, arrival: u64)
    requires Clean(t.cfg.response)
    ensures var batch := AnswerAll(t.cfg, sequence, [arrival], t.rng, t.nextOrder);
      var departure := arrival + t.cfg.processing;
      var back := departure + t.cfg.response.latency;
      if departure >= U64_LIMIT then batch == Err(TimeOverflow)
      else
        var receive, send := At(t.cfg.clock, arrival), At(t.cfg.clock, departure);
        if receive.Err? then batch == Err(ClockFailure(receive.error))
        else if send.Err? then batch == Err(ClockFailure(send.error))
        else if back >= U64_LIMIT then batch == Err(TimeOverflow)
        else
          var bytes := ClockResponseFrameBytes(ClockResponseFrame(sequence, ClockResponse(receive.value, send.value)));
          batch == Ok(Batch(t.rng, (t.nextOrder + 1) % U64_LIMIT, [Scheduled(back, t.nextOrder, bytes)]))
  {
    hide ClockResponseFrameBytes, At, Deliveries;
    assert [arrival][1..] == [];
    var departure := arrival + t.cfg.processing;
    if departure < U64_LIMIT {
      CleanDelivers(t.rng, departure, t.cfg.response);
      var back := departure + t.cfg.response.latency;
      if back < U64_LIMIT {
        assert [back][1..] == [];
        forall bytes
          ensures Stamp([back], t.nextOrder, bytes) + [] == [Scheduled(back, t.nextOrder, bytes)]
        {
        }
      }
    }
  }
}
