// What the estimator keeps of an exchange, how tight its drift is, and exactly when
// it gives a window: in timestamps and quotients.
module EstimatorLaws {
  import opened Prelude
  import opened ClockArithmetic
  import opened ClockEstimator
  import opened ClockSoundness

  /** The drift between two anchors: its bounds are the outermost parts per billion the
      anchors' intervals allow, to less than one part, and its estimate the nearest. */
  predicate DriftBetween(previous: OffsetObservation, current: OffsetObservation, d: DriftEstimate) {
    && d.baseline == current.referenceHost - previous.referenceHost
    && var least := (current.offsetMin - previous.offsetMax) * 1_000_000_000;
       var most := (current.offsetMax - previous.offsetMin) * 1_000_000_000;
       var middle := (current.offset - previous.offset) * 1_000_000_000;
       && d.minPpb * d.baseline <= least < (d.minPpb + 1) * d.baseline
       && (d.maxPpb - 1) * d.baseline < most <= d.maxPpb * d.baseline
       && 2 * Abs(middle - d.ppb * d.baseline) <= d.baseline
  }

  lemma DriftIsTight(previous: OffsetObservation, current: OffsetObservation)
    requires WellFormedAnchor(previous) && WellFormedAnchor(current)
    requires previous.referenceHost < current.referenceHost
    ensures EstimateDrift(previous, current).Ok?
    ensures DriftBetween(previous, current, EstimateDrift(previous, current).value)
  {
    hide EstimateDrift, WellFormedAnchor;
    DriftLaws(previous, current);
    DriftParts(previous, current);
    var d := EstimateDrift(previous, current).value;
    BoundsAreTight((current.offsetMin - previous.offsetMax) * PPB, (current.offsetMax - previous.offsetMin) * PPB,
                   d.minPpb, d.maxPpb, d.baseline);
    NearestIsNear((current.offset - previous.offset) * PPB, d.ppb, d.baseline);
  }

  lemma BoundsAreTight(least: int, most: int, low: int, high: int, d: int)
    requires d > 0 && low == least / d && high == Ceil(most, d)
    ensures low * d <= least < (low + 1) * d
    ensures (high - 1) * d < most <= high * d
  {
    hide Ceil;
    DivBounds(least, d);
    DivBounds(most, d);
    assert (low + 1) * d == low * d + d;
    assert (high - 1) * d == high * d - d;
  }

  lemma DriftParts(previous: OffsetObservation, current: OffsetObservation)
    requires EstimateDrift(previous, current).Ok?
    ensures var d := EstimateDrift(previous, current).value;
      && d.baseline == current.referenceHost - previous.referenceHost > 0
      && d.minPpb == ((current.offsetMin - previous.offsetMax) * PPB) / d.baseline
      && d.maxPpb == Ceil((current.offsetMax - previous.offsetMin) * PPB, d.baseline)
      && forall q: int ::
           Abs((current.offset - previous.offset) * PPB - d.ppb * d.baseline)
           <= Abs((current.offset - previous.offset) * PPB - q * d.baseline)
  {
    hide DivFloor, DivCeil, DivRoundNearestTiesAway, Ceil, Abs;
    var baseline := current.referenceHost - previous.referenceHost;
    FloorIsDivision((current.offsetMin - previous.offsetMax) * PPB, baseline);
    CeilIsDivision((current.offsetMax - previous.offsetMin) * PPB, baseline);
    RoundsToNearest((current.offset - previous.offset) * PPB, baseline);
  }

  lemma NearestIsNear(n: int, v: int, d: int)
    requires d > 0 && forall q: int :: Abs(n - v * d) <= Abs(n - q * d)
    ensures 2 * Abs(n - v * d) <= d
  {
    DivBounds(n, d);
    var low := n / d;
    assert Abs(n - v * d) <= Abs(n - low * d);
    assert Abs(n - v * d) <= Abs(n - (low + 1) * d);
    assert (low + 1) * d == low * d + d;
  }

  /** A timestamp earlier than one of the last accepted exchange. */
  predicate HostBack(s: SyncState, x: ClockSample) {
    s.lastRaw.Some? && (x.hostSend < s.lastRaw.value.hostSend || x.hostReceive < s.lastRaw.value.hostReceive)
  }

  predicate ControllerBack(s: SyncState, x: ClockSample) {
    && s.lastRaw.Some?
    && (x.controllerReceive < s.lastRaw.value.controllerReceive || x.controllerSend < s.lastRaw.value.controllerSend)
  }

  /** An exchange that can be observed is refused for running back, first on the host
      and then on the controller, or for not advancing the midpoint. Otherwise it
      becomes the anchor; the session starts with the first; and from the second on
      there is an estimate, with the drift since the anchor before and the time of
      arrival. */
  lemma PushExactly(s: SyncState, x: ClockSample)
    requires WellFormed(s)
    ensures var observed, r := ObserveBounded(x, s.maxSlewPpb), PushSample(s, x);
      if observed.Err? then r == Err(observed.error)
      else if HostBack(s, x) then r == Err(HostRegressed)
      else if ControllerBack(s, x) then r == Err(ControllerRegressed)
      else if s.previous.Some? && observed.value.referenceHost <= s.previous.value.referenceHost then
        r == Err(InsufficientSeparation)
      else
        && r.Ok?
        && var next, o := r.value, observed.value;
           && next.maxSlewPpb == s.maxSlewPpb && next.previous == Some(o) && next.lastRaw == Some(x)
           && next.sessionStart == (if s.previous.Some? then s.sessionStart else Some(o.referenceHost))
           && (s.previous.None? ==> next.estimate.None?)
           && (s.previous.Some? ==>
                 && next.estimate.Some?
                 && next.estimate.value.anchor == o && next.estimate.value.sampledAt == x.hostReceive
                 && DriftBetween(s.previous.value, o, next.estimate.value.drift))
  {
    hide ObserveBounded, EstimateDrift, DriftBetween;
    ObserveBoundedMeaning(x, s.maxSlewPpb);
    var observed := ObserveBounded(x, s.maxSlewPpb);
    if observed.Ok? && s.previous.Some? && s.previous.value.referenceHost < observed.value.referenceHost {
      DriftIsTight(s.previous.value, observed.value);
    }
  }

  predicate InI128(x: int) {
    -0x8000_0000_0000_0000_0000_0000_0000_0000 <= x < 0x8000_0000_0000_0000_0000_0000_0000_0000
  }

  /** Parts per billion of a product leave ample room for an anchor. */
  lemma QuotientsFit(n: int)
    requires InI128(n)
    ensures DivFloor(n, PPB) == Ok(n / PPB) && DivCeil(n, PPB) == Ok(Ceil(n, PPB))
    ensures Abs(n / PPB) <= I128_LIMIT / 1_000_000 && Abs(Ceil(n, PPB)) <= I128_LIMIT / 1_000_000
  {
    FloorIsDivision(n, PPB);
    CeilIsDivision(n, PPB);
  }

  /** What is left of a projection once both drifts are known. */
  lemma Widened(host: u64, anchor: OffsetObservation, below: int, above: int)
    requires WellFormedAnchor(anchor) && below <= 0 <= above
    requires Abs(below) <= I128_LIMIT / 1_000_000 && Abs(above) <= I128_LIMIT / 1_000_000
    ensures I128(anchor.offsetMin + below).Ok? && I128(anchor.offsetMax + above).Ok?
    ensures var low, high := host + anchor.offsetMin + below, host + anchor.offsetMax + above;
      I128(low).Ok? && I128(high).Ok? && I128(high - low).Ok? && I128(low + TruncDiv(high - low, 2)).Ok?
  {
  }

  lemma Spread(s: SyncState, elapsed: int)
    requires WellFormed(s) && s.estimate.Some?
    ensures DriftBelow(s, elapsed) <= 0 <= DriftAbove(s, elapsed)
  {
    DriftSpread(s, elapsed);
  }

  predicate Multiplies(s: SyncState, elapsed: int)
    requires s.estimate.Some?
  {
    InI128(elapsed * LeastPpb(s)) && InI128(elapsed * GreatestPpb(s))
  }

  /** What is left to compute once both drifts are known. */
  function Widen(host: u64, anchor: OffsetObservation, lowDrift: int, highDrift: int)
    : Result<Projection, ClockSyncError>
  {
    var offsetLow :- I128(anchor.offsetMin + lowDrift);
    var offsetHigh :- I128(anchor.offsetMax + highDrift);
    var low :- I128(host + offsetLow);
    var high :- I128(host + offsetHigh);
    var width :- I128(high - low);
    var midpoint :- I128(low + TruncDiv(width, 2));
    Ok(Projection(low, midpoint, high))
  }

  lemma ProjectSteps(s: SyncState, host: u64, below: int, above: int)
    requires WellFormed(s) && s.estimate.Some? && s.sessionStart.value <= host
    requires var elapsed := host - s.estimate.value.anchor.referenceHost;
      && below == elapsed * (if elapsed < 0 then GreatestPpb(s) else LeastPpb(s))
      && above == elapsed * (if elapsed < 0 then LeastPpb(s) else GreatestPpb(s))
    ensures Project(s, host) ==
      var lowScaled :- I128(below);
      var lowDrift :- DivFloor(lowScaled, PPB);
      var highScaled :- I128(above);
      var highDrift :- DivCeil(highScaled, PPB);
      Widen(host, s.estimate.value.anchor, lowDrift, highDrift)
  {
    hide DivFloor, DivCeil, TruncDiv, WellFormedAnchor, Min, Max;
    assert I128(host - s.estimate.value.anchor.referenceHost).Ok? && I128(-s.maxSlewPpb).Ok?;
  }

  lemma ProjectionExists(s: SyncState, host: u64)
    requires WellFormed(s) && s.estimate.Some? && s.sessionStart.value <= host
    ensures var elapsed := host - s.estimate.value.anchor.referenceHost;
      if Multiplies(s, elapsed) then Project(s, host).Ok? else Project(s, host) == Err(ArithmeticOverflow)
  {
    hide DivFloor, DivCeil, TruncDiv, Ceil, DriftBelow, DriftAbove, Project, LeastPpb, GreatestPpb;
    var anchor := s.estimate.value.anchor;
    var elapsed := host - anchor.referenceHost;
    var below := elapsed * (if elapsed < 0 then GreatestPpb(s) else LeastPpb(s));
    var above := elapsed * (if elapsed < 0 then LeastPpb(s) else GreatestPpb(s));
    ProjectSteps(s, host, below, above);
    assert Multiplies(s, elapsed) <==> InI128(below) && InI128(above);
    QuotientsOrOverflow(below);
    QuotientsOrOverflow(above);
    if Multiplies(s, elapsed) {
      QuotientsFit(below);
      QuotientsFit(above);
      Spread(s, elapsed);
      DriftsAre(s, elapsed, below, above);
      Widened(host, anchor, below / PPB, Ceil(above, PPB));
    }
  }

  lemma QuotientsOrOverflow(n: int)
    ensures if InI128(n) then I128(n) == Ok(n) && DivFloor(n, PPB).Ok? && DivCeil(n, PPB).Ok?
            else I128(n) == Err(ArithmeticOverflow)
  {
    if InI128(n) {
      QuotientsFit(n);
    }
  }

  lemma DriftsAre(s: SyncState, elapsed: int, below: int, above: int)
    requires s.estimate.Some?
    requires below == elapsed * (if elapsed < 0 then GreatestPpb(s) else LeastPpb(s))
    requires above == elapsed * (if elapsed < 0 then LeastPpb(s) else GreatestPpb(s))
    ensures DriftBelow(s, elapsed) == below / PPB && DriftAbove(s, elapsed) == Ceil(above, PPB)
  {
  }

  /** A window needs an estimate and a tick of its session; past that it exists if and
      only if the two drifts can be multiplied out and both ends are ticks. */
  lemma WindowExactly(s: SyncState, host: u64)
    requires WellFormed(s)
    ensures var r := WindowAt(s, host);
      if s.estimate.None? then r == Err(EstimateUnavailable)
      else if host < s.sessionStart.value then r == Err(HostTickBeforeSession)
      else
        var anchor := s.estimate.value.anchor;
        var elapsed := host - anchor.referenceHost;
        var low, high := host + anchor.offsetMin + DriftBelow(s, elapsed),
          host + anchor.offsetMax + DriftAbove(s, elapsed);
        if Multiplies(s, elapsed) && 0 <= low && high < U64_LIMIT then
          r.Ok? && r.value.earliest == low && r.value.estimate == low + (high - low) / 2 && r.value.latest == high
        else r == Err(ArithmeticOverflow)
  {
    hide DriftBelow, DriftAbove, Multiplies, WellFormedAnchor;
    ProjectMeaning(s, host);
    if s.estimate.None? {
      NoEstimate(s, host);
    } else if host < s.sessionStart.value {
      BeforeSession(s, host);
    } else {
      ProjectionExists(s, host);
      EndsDecide(s, host);
    }
  }

  lemma NoEstimate(s: SyncState, host: u64)
    requires s.estimate.None?
    ensures WindowAt(s, host) == Err(EstimateUnavailable)
  {
  }

  lemma BeforeSession(s: SyncState, host: u64)
    requires s.estimate.Some? && s.sessionStart.Some? && host < s.sessionStart.value
    ensures WindowAt(s, host) == Err(HostTickBeforeSession)
  {
  }

  lemma EndsDecide(s: SyncState, host: u64)
    ensures var p, r := Project(s, host), WindowAt(s, host);
      && (p.Err? ==> r == Err(p.error))
      && (p.Ok? && p.value.low <= p.value.midpoint <= p.value.high ==>
            if 0 <= p.value.low && p.value.high < U64_LIMIT then
              r == Ok(ControllerWindow(p.value.low, p.value.midpoint, p.value.high))
            else r == Err(ArithmeticOverflow))
  {
    hide Project;
  }
}
