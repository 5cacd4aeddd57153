// Why the estimator's windows can be trusted: for every controller clock whose
// offset from the host moves no faster than the configured slew, genuine
// exchanges yield windows around the true controller tick.
module ClockSoundness {
  import opened Prelude
  import opened ClockArithmetic
  import opened ClockEstimator
  import opened Runs

  /** A controller clock, read at every host tick. */
  type Clock = int -> int

  function Offset(c: Clock, t: int): int {
    c(t) - t
  }

  /** The most the offset may move while the host advances by `span`. */
  function Drift(slew: int, span: int): int {
    Ceil(slew * span, PPB)
  }

  predicate OffsetsWithin(c: Clock, slew: int, s: int, t: int) {
    Abs(Offset(c, t) - Offset(c, s)) <= Drift(slew, Abs(t - s))
  }

  ghost predicate InClass(c: Clock, slew: int) {
    forall s: int, t: int :: OffsetsWithin(c, slew, s, t)
  }

  /** Slew bounds for which a controller clock never runs backwards. */
  predicate PhysicalSlew(slew: int) {
    0 <= slew <= PPB
  }

  /** The request reached the controller at host tick `arrival`, its answer left at `departure`. */
  predicate Genuine(c: Clock, x: ClockSample, arrival: int, departure: int) {
    && x.hostSend <= arrival <= departure <= x.hostReceive
    && x.controllerReceive == c(arrival)
    && x.controllerSend == c(departure)
  }

  function Allowance(slew: int, span: int): int {
    Ceil(slew * span, MIDPOINT_DENOMINATOR)
  }

  /** What the low end of an anchor lacks: the reference tick of an odd span is
      rounded down while the allowance covers exactly half the span. */
  function LowSlack(slew: int, span: int): int {
    if span % 2 == 0 then 0 else Allowance(slew, span + 1) - Allowance(slew, span)
  }

  ghost predicate AnchorContains(c: Clock, o: OffsetObservation, slack: int) {
    o.offsetMin - slack <= Offset(c, o.referenceHost) <= o.offsetMax
  }

  // ----- products and rounding ---------------------------------------------

  lemma ScaledBounds(slew: int, span: int, limit: int)
    requires PhysicalSlew(slew) && 0 <= span <= limit
    ensures 0 <= slew * span <= PPB * limit
  {
    ProductMono(0, slew, span);
    ProductMono(slew, PPB, span);
    assert PPB * span <= PPB * limit;
  }

  lemma ProductMono(a: int, b: int, span: int)
    requires a <= b && 0 <= span
    ensures a * span <= b * span
  {
    if span > 0 { MulLe(a, b, span); }
  }

  lemma DriftMono(slew: int, a: int, b: int)
    requires PhysicalSlew(slew) && 0 <= a <= b
    ensures 0 <= Drift(slew, a) <= Drift(slew, b) <= b
  {
    ProductMono(a, b, slew);
    ScaledBounds(slew, a, a);
    ScaledBounds(slew, b, b);
    CeilMono(slew * a, slew * b, PPB);
  }

  /** Half the span needs exactly the allowance when the span is even. */
  lemma AllowanceIsHalfDrift(slew: int, half: int)
    ensures Allowance(slew, 2 * half) == Drift(slew, half)
  {
    assert slew * (2 * half) == 2 * (slew * half);
  }

  lemma LowSlackIsBit(slew: int, span: int)
    requires PhysicalSlew(slew) && 0 <= span
    ensures 0 <= LowSlack(slew, span) <= 1
    ensures Drift(slew, span - span / 2) == Allowance(slew, span) + LowSlack(slew, span)
    ensures Drift(slew, span / 2) <= Allowance(slew, span)
  {
    assert slew * (span + 1) == slew * span + slew;
    ScaledBounds(slew, span, span);
    if span % 2 == 0 {
      AllowanceIsHalfDrift(slew, span / 2);
    } else {
      AllowanceIsHalfDrift(slew, span / 2 + 1);
      AllowanceIsHalfDrift(slew, span / 2);
      assert slew * (span - 1) == slew * span - slew;
      CeilMono(slew * (span - 1), slew * span, MIDPOINT_DENOMINATOR);
    }
  }

  // ----- acceptance ----------------------------------------------------------

  /** An exchange is refused only for a reason visible in its four timestamps. */
  lemma ObserveBoundedMeaning(x: ClockSample, slew: int)
    requires PhysicalSlew(slew)
    ensures var r := ObserveBounded(x, slew);
      var span := x.hostReceive - x.hostSend;
      && (r == Err(HostRegressed) <==> x.hostReceive < x.hostSend)
      && (r == Err(ControllerRegressed) <==> x.hostSend <= x.hostReceive && x.controllerSend < x.controllerReceive)
      && (r == Err(ControllerProcessingExceedsRoundTrip) <==>
            x.hostSend <= x.hostReceive && x.controllerReceive <= x.controllerSend
            && x.controllerSend - x.controllerReceive > span + 2 * Allowance(slew, span))
      && (r.Err? ==> r.error in {HostRegressed, ControllerRegressed, ControllerProcessingExceedsRoundTrip})
      && (r.Ok? ==>
            var o := r.value;
            && o.referenceHost == x.hostSend + span / 2
            && o.offsetMin == x.controllerSend - x.hostReceive - Allowance(slew, span)
            && o.offsetMax == x.controllerReceive - x.hostSend + Allowance(slew, span)
            && o.offset == o.offsetMin + (o.offsetMax - o.offsetMin) / 2
            && o.offsetMin <= o.offset <= o.offsetMax
            && o.roundTrip == span
            && -4 * U64_LIMIT < o.offsetMin && o.offsetMax < 4 * U64_LIMIT)
  {
    hide Allowance, DivCeil;
    if x.hostSend <= x.hostReceive {
      AllowanceFits(slew, x.hostReceive - x.hostSend);
    }
  }

  lemma AllowanceFits(slew: int, span: u64)
    requires PhysicalSlew(slew)
    ensures -I128_LIMIT <= span * slew < I128_LIMIT
    ensures DivCeil(span * slew, MIDPOINT_DENOMINATOR) == Ok(Allowance(slew, span))
    ensures 0 <= Allowance(slew, span) <= U64_LIMIT
  {
    hide DivCeil;
    ScaledBounds(slew, span, U64_LIMIT);
    assert span * slew == slew * span;
    CeilIsDivision(slew * span, MIDPOINT_DENOMINATOR);
  }

  // ----- containment at the anchor -------------------------------------------

  /** A clock in the class never runs backwards and never gains more than its drift. */
  lemma ClockAdvance(c: Clock, slew: int, s: int, t: int)
    requires InClass(c, slew) && PhysicalSlew(slew) && s <= t
    ensures Offset(c, s) - Drift(slew, t - s) <= Offset(c, t) <= Offset(c, s) + Drift(slew, t - s)
    ensures c(s) <= c(t)
  {
    assert OffsetsWithin(c, slew, s, t);
    DriftMono(slew, 0, t - s);
  }

  lemma DriftWithinTwoAllowances(slew: int, span: int)
    requires PhysicalSlew(slew) && 0 <= span
    ensures Drift(slew, span) <= 2 * Allowance(slew, span)
  {
  }

  lemma AdvanceWithinAllowance(c: Clock, slew: int, span: int, arrival: int, departure: int)
    requires InClass(c, slew) && PhysicalSlew(slew)
    requires arrival <= departure && departure - arrival <= span
    ensures 0 <= c(departure) - c(arrival) <= span + 2 * Allowance(slew, span)
  {
    ClockAdvance(c, slew, arrival, departure);
    DriftMono(slew, departure - arrival, span);
    DriftWithinTwoAllowances(slew, span);
  }

  /** A genuine exchange is never refused. */
  lemma GenuineIsObservable(c: Clock, slew: int, x: ClockSample, arrival: int, departure: int)
    requires InClass(c, slew) && PhysicalSlew(slew) && Genuine(c, x, arrival, departure)
    ensures ObserveBounded(x, slew).Ok?
  {
    AdvanceWithinAllowance(c, slew, x.hostReceive - x.hostSend, arrival, departure);
    ObserveBoundedMeaning(x, slew);
  }

  /** The anchor of a genuine exchange contains the true offset, up to the slack of an odd span. */
  lemma AnchorSound(c: Clock, slew: int, x: ClockSample, arrival: int, departure: int)
    requires InClass(c, slew) && PhysicalSlew(slew) && Genuine(c, x, arrival, departure)
    ensures ObserveBounded(x, slew).Ok?
    ensures AnchorContains(c, ObserveBounded(x, slew).value, LowSlack(slew, x.hostReceive - x.hostSend))
  {
    var span := x.hostReceive - x.hostSend;
    hide ObserveBounded, Allowance, InClass;
    AnchorEnds(c, slew, x.hostSend, span, arrival, departure);
    GenuineIsObservable(c, slew, x, arrival, departure);
    ObserveBoundedMeaning(x, slew);
  }

  lemma AnchorEnds(c: Clock, slew: int, send: int, span: int, arrival: int, departure: int)
    requires InClass(c, slew) && PhysicalSlew(slew)
    requires send <= arrival <= departure <= send + span
    ensures c(departure) - (send + span) - Allowance(slew, span) - LowSlack(slew, span)
            <= Offset(c, send + span / 2)
            <= c(arrival) - send + Allowance(slew, span)
  {
    var r := send + span / 2;
    LowSlackIsBit(slew, span);
    AnchorHigh(c, slew, send, arrival, r, span / 2, Allowance(slew, span));
    AnchorLow(c, slew, send + span, departure, r, span - span / 2, Allowance(slew, span) + LowSlack(slew, span));
  }

  lemma AnchorHigh(c: Clock, slew: int, send: int, arrival: int, r: int, half: int, allowance: int)
    requires InClass(c, slew) && PhysicalSlew(slew)
    requires send <= arrival && r == send + half && 0 <= half
    requires Drift(slew, half) <= allowance
    ensures Offset(c, r) <= c(arrival) - send + allowance
  {
    if arrival <= r {
      ClockAdvance(c, slew, arrival, r);
      DriftMono(slew, r - arrival, half);
    } else {
      ClockAdvance(c, slew, r, arrival);
      DriftMono(slew, arrival - r, arrival - r);
      DriftMono(slew, half, half);
    }
  }

  lemma AnchorLow(c: Clock, slew: int, receive: int, departure: int, r: int, half: int, allowance: int)
    requires InClass(c, slew) && PhysicalSlew(slew)
    requires departure <= receive && receive == r + half && 0 <= half
    requires Drift(slew, half) <= allowance
    ensures c(departure) - receive - allowance <= Offset(c, r)
  {
    if departure < r {
      ClockAdvance(c, slew, departure, r);
      DriftMono(slew, r - departure, r - departure);
      DriftMono(slew, half, half);
    } else {
      ClockAdvance(c, slew, r, departure);
      DriftMono(slew, departure - r, half);
    }
  }

  /** Every exchange of this span, over every admissible clock, is contained without slack. */
  ghost predicate SpanIsExact(slew: int, span: u64) {
    forall c: Clock, x: ClockSample, arrival: int, departure: int ::
      InClass(c, slew) && x.hostReceive - x.hostSend == span && Genuine(c, x, arrival, departure)
      && ObserveBounded(x, slew).Ok?
      ==> AnchorContains(c, ObserveBounded(x, slew).value, 0)
  }

  function SteppedClock(slew: int, origin: int, bias: int): Clock {
    (t: int) => t + Ceil(slew * (t - origin), PPB) - bias
  }

  lemma SteppedClockInClass(slew: int, origin: int, bias: int)
    requires PhysicalSlew(slew)
    ensures InClass(SteppedClock(slew, origin, bias), slew)
  {
    var c := SteppedClock(slew, origin, bias);
    forall s: int, t: int
      ensures OffsetsWithin(c, slew, s, t)
    {
      if s <= t {
        SteppedClockStep(slew, s - origin, t - origin);
      } else {
        SteppedClockStep(slew, t - origin, s - origin);
      }
    }
  }

  lemma SteppedClockStep(slew: int, a: int, b: int)
    requires PhysicalSlew(slew) && a <= b
    ensures 0 <= Ceil(slew * b, PPB) - Ceil(slew * a, PPB) <= Ceil(slew * (b - a), PPB)
  {
    assert slew * (b - a) == slew * b - slew * a;
    ScaledBounds(slew, b - a, b - a);
    CeilMono(slew * a, slew * b, PPB);
  }

  /** An answer that leaves at the very end of the exchange misses the anchor by the slack. */
  lemma LateAnswerMisses(slew: int, span: u64)
    requires PhysicalSlew(slew) && LowSlack(slew, span) != 0
    ensures !SpanIsExact(slew, span)
  {
    LowSlackIsBit(slew, span);
    var bias := Drift(slew, span - span / 2);
    var c := SteppedClock(slew, span / 2, bias);
    SteppedClockInClass(slew, span / 2, bias);
    var x := ClockSample(0, span, span, span);
    assert Genuine(c, x, span, span);
    GenuineIsObservable(c, slew, x, span, span);
    ObserveBoundedMeaning(x, slew);
    assert slew * 0 == 0;
    assert Offset(c, span / 2) == -bias;
    assert !AnchorContains(c, ObserveBounded(x, slew).value, 0);
  }

  /** Containment without slack holds for a span exactly when its slack is zero,
      a condition on the measured span and the configured slew alone. */
  lemma ExactSpans(slew: int, span: u64)
    requires PhysicalSlew(slew)
    ensures SpanIsExact(slew, span) <==> LowSlack(slew, span) == 0
  {
    if LowSlack(slew, span) == 0 {
      forall c: Clock, x: ClockSample, arrival: int, departure: int |
        InClass(c, slew) && x.hostReceive - x.hostSend == span && Genuine(c, x, arrival, departure)
        && ObserveBounded(x, slew).Ok?
        ensures AnchorContains(c, ObserveBounded(x, slew).value, 0)
      {
        AnchorSound(c, slew, x, arrival, departure);
      }
    } else {
      LateAnswerMisses(slew, span);
    }
  }

  // ----- interval laws ---------------------------------------------------------

  predicate WellFormedAnchor(o: OffsetObservation) {
    -4 * U64_LIMIT < o.offsetMin <= o.offset <= o.offsetMax < 4 * U64_LIMIT
  }

  /** The drift interval is ordered around its estimate and reaches the extreme
      average drifts the two anchors allow. */
  lemma DriftLaws(previous: OffsetObservation, current: OffsetObservation)
    requires WellFormedAnchor(previous) && WellFormedAnchor(current)
    requires previous.referenceHost < current.referenceHost
    ensures var r := EstimateDrift(previous, current);
      && r.Ok?
      && r.value.minPpb <= r.value.ppb <= r.value.maxPpb
      && r.value.minPpb * r.value.baseline <= (current.offsetMin - previous.offsetMax) * PPB
      && (current.offsetMax - previous.offsetMin) * PPB <= r.value.maxPpb * r.value.baseline
      && r.value.baseline == current.referenceHost - previous.referenceHost
  {
    var baseline := current.referenceHost - previous.referenceHost;
    var point := (current.offset - previous.offset) * PPB;
    var least := (current.offsetMin - previous.offsetMax) * PPB;
    var most := (current.offsetMax - previous.offsetMin) * PPB;
    RoundBetween(point, baseline);
    FloorIsDivision(least, baseline);
    CeilIsDivision(most, baseline);
    FloorMono(least, point, baseline);
    CeilMono(point, most, baseline);
    DivBounds(least, baseline);
    DivBounds(most, baseline);
  }

  /** With the true offset in both anchors, the drift interval holds the true average drift. */
  lemma TrueDriftContained(c: Clock, previous: OffsetObservation, current: OffsetObservation)
    requires WellFormedAnchor(previous) && WellFormedAnchor(current)
    requires previous.referenceHost < current.referenceHost
    requires AnchorContains(c, previous, 0) && AnchorContains(c, current, 0)
    ensures EstimateDrift(previous, current).Ok?
    ensures var d := EstimateDrift(previous, current).value;
      d.minPpb * d.baseline
      <= (Offset(c, current.referenceHost) - Offset(c, previous.referenceHost)) * PPB
      <= d.maxPpb * d.baseline
  {
    hide EstimateDrift;
    DriftLaws(previous, current);
  }

  predicate WellFormed(s: SyncState) {
    && PhysicalSlew(s.maxSlewPpb)
    && (s.previous.Some? ==> WellFormedAnchor(s.previous.value))
    && (s.estimate.Some? ==>
          && s.previous == Some(s.estimate.value.anchor)
          && s.estimate.value.drift.minPpb <= s.estimate.value.drift.ppb <= s.estimate.value.drift.maxPpb)
    && (s.sessionStart.Some? <==> s.previous.Some?)
    && (s.lastRaw.Some? <==> s.previous.Some?)
  }

  /** A sample is refused only for a defect of its timestamps, never for
      overflow, and every state an accepted sample produces is well formed. */
  lemma PushOutcomes(s: SyncState, x: ClockSample)
    requires WellFormed(s)
    ensures WellFormed(PushOrKeep(s, x)) && PushOrKeep(s, x).maxSlewPpb == s.maxSlewPpb
    ensures PushSample(s, x) != Err(ArithmeticOverflow)
    ensures PushSample(s, x).Ok? <==>
      && ObserveBounded(x, s.maxSlewPpb).Ok?
      && CheckOrder(s.lastRaw, x).None?
      && (s.previous.Some? ==> s.previous.value.referenceHost < ObserveBounded(x, s.maxSlewPpb).value.referenceHost)
    ensures PushSample(s, x).Ok? ==>
      && PushSample(s, x).value.previous == Some(ObserveBounded(x, s.maxSlewPpb).value)
      && PushSample(s, x).value.lastRaw == Some(x)
      && (PushSample(s, x).value.estimate.Some? <==> s.previous.Some?)
  {
    ObserveBoundedMeaning(x, s.maxSlewPpb);
    if ObserveBounded(x, s.maxSlewPpb).Ok? && s.previous.Some? {
      var o := ObserveBounded(x, s.maxSlewPpb).value;
      if s.previous.value.referenceHost < o.referenceHost {
        DriftLaws(s.previous.value, o);
      }
    }
  }

  // ----- projection -------------------------------------------------------------

  function LeastPpb(s: SyncState): int
    requires s.estimate.Some?
  {
    Min(s.estimate.value.drift.minPpb, -s.maxSlewPpb)
  }

  function GreatestPpb(s: SyncState): int
    requires s.estimate.Some?
  {
    Max(s.estimate.value.drift.maxPpb, s.maxSlewPpb)
  }

  /** How far a projection may drift below its anchor, and above it. */
  function DriftBelow(s: SyncState, elapsed: int): int
    requires s.estimate.Some?
  {
    (elapsed * (if elapsed < 0 then GreatestPpb(s) else LeastPpb(s))) / PPB
  }

  function DriftAbove(s: SyncState, elapsed: int): int
    requires s.estimate.Some?
  {
    Ceil(elapsed * (if elapsed < 0 then LeastPpb(s) else GreatestPpb(s)), PPB)
  }

  lemma Opposed(a: int, b: int)
    ensures (-a) * b == -(a * b) && a * (-b) == -(a * b) && (-a) * (-b) == a * b
  {
  }

  /** A factor at least the slew carries at least as far on either side. */
  lemma AtLeastSlew(slew: int, factor: int, elapsed: int)
    requires 0 <= slew <= factor
    ensures elapsed < 0 ==> elapsed * factor <= -(slew * Abs(elapsed)) && slew * Abs(elapsed) <= elapsed * (-factor)
    ensures elapsed >= 0 ==> elapsed * (-factor) <= -(slew * Abs(elapsed)) && slew * Abs(elapsed) <= elapsed * factor
  {
    var span := Abs(elapsed);
    ProductMono(slew, factor, span);
    Commuted(factor, span);
    Opposed(span, factor);
  }

  lemma Commuted(a: int, b: int)
    ensures a * b == b * a
  {
  }

  lemma FloorOfNegative(n: int, d: int)
    requires d > 0
    ensures (-n) / d == -Ceil(n, d)
  {
  }

  lemma DriftSpread(s: SyncState, elapsed: int)
    requires WellFormed(s) && s.estimate.Some?
    ensures DriftBelow(s, elapsed) <= -Drift(s.maxSlewPpb, Abs(elapsed))
    ensures Drift(s.maxSlewPpb, Abs(elapsed)) <= DriftAbove(s, elapsed)
    ensures DriftBelow(s, elapsed) <= 0 <= DriftAbove(s, elapsed)
  {
    hide Ceil, WellFormed;
    WellFormedSlew(s);
    var slew, span := s.maxSlewPpb, Abs(elapsed);
    DriftMono(slew, 0, span);
    AtLeastSlew(slew, GreatestPpb(s), elapsed);
    AtLeastSlew(slew, -LeastPpb(s), elapsed);
    var below := elapsed * (if elapsed < 0 then GreatestPpb(s) else LeastPpb(s));
    var above := elapsed * (if elapsed < 0 then LeastPpb(s) else GreatestPpb(s));
    FloorMono(below, -(slew * span), PPB);
    CeilMono(slew * span, above, PPB);
    FloorOfNegative(slew * span, PPB);
  }

  /** A projection that succeeds is the anchor widened by the drift on either side. */
  lemma ProjectMeaning(s: SyncState, host: u64)
    requires WellFormed(s)
    ensures Project(s, host).Ok? ==>
      && s.estimate.Some?
      && s.sessionStart.Some? && s.sessionStart.value <= host
      && var p, anchor := Project(s, host).value, s.estimate.value.anchor;
         var elapsed := host - anchor.referenceHost;
         && p.low == host + anchor.offsetMin + DriftBelow(s, elapsed)
         && p.high == host + anchor.offsetMax + DriftAbove(s, elapsed)
         && p.low <= p.midpoint <= p.high
         && p.midpoint == p.low + (p.high - p.low) / 2
  {
    if Project(s, host).Ok? {
      var anchor := s.estimate.value.anchor;
      var elapsed := host - anchor.referenceHost;
      FloorIsDivision(elapsed * (if elapsed < 0 then GreatestPpb(s) else LeastPpb(s)), PPB);
      CeilIsDivision(elapsed * (if elapsed < 0 then LeastPpb(s) else GreatestPpb(s)), PPB);
      DriftSpread(s, elapsed);
    }
  }

  lemma WellFormedSlew(s: SyncState)
    requires WellFormed(s)
    ensures PhysicalSlew(s.maxSlewPpb)
  {
  }

  /** A window around a sound anchor holds the true controller tick, before and after the anchor. */
  lemma WindowSound(c: Clock, s: SyncState, host: u64, slack: int)
    requires WellFormed(s) && InClass(c, s.maxSlewPpb)
    requires s.estimate.Some? ==> AnchorContains(c, s.estimate.value.anchor, slack)
    requires WindowAt(s, host).Ok?
    ensures WindowAt(s, host).value.earliest - slack <= c(host) <= WindowAt(s, host).value.latest
    ensures WindowAt(s, host).value.earliest <= WindowAt(s, host).value.estimate <= WindowAt(s, host).value.latest
  {
    hide DriftBelow, DriftAbove, Drift, InClass, Project, WellFormed;
    ProjectMeaning(s, host);
    WellFormedSlew(s);
    var r := s.estimate.value.anchor.referenceHost;
    DriftSpread(s, host - r);
    if r <= host {
      ClockAdvance(c, s.maxSlewPpb, r, host);
    } else {
      ClockAdvance(c, s.maxSlewPpb, host, r);
    }
  }

  /** A window is the anchor widened by the drift, and its uncertainty the ceiling half-width. */
  lemma UncertaintyIsHalfWidth(s: SyncState, host: u64)
    requires WellFormed(s)
    ensures UncertaintyAt(s, host).Ok? <==> WindowAt(s, host).Ok?
    ensures UncertaintyAt(s, host).Ok? ==>
      && s.estimate.Some?
      && var w, anchor := WindowAt(s, host).value, s.estimate.value.anchor;
         var elapsed := host - anchor.referenceHost;
         && UncertaintyAt(s, host).value == Ceil(w.latest - w.earliest, 2)
         && w.earliest == host + anchor.offsetMin + DriftBelow(s, elapsed)
         && w.latest == host + anchor.offsetMax + DriftAbove(s, elapsed)
  {
    hide DriftBelow, DriftAbove;
    ProjectMeaning(s, host);
  }

  /** Moving away from the anchor on either side never narrows the window. */
  lemma UncertaintyGrows(s: SyncState, near: u64, far: u64)
    requires WellFormed(s)
    requires UncertaintyAt(s, near).Ok? && UncertaintyAt(s, far).Ok?
    requires var r := s.estimate.value.anchor.referenceHost; r <= near <= far || far <= near <= r
    ensures UncertaintyAt(s, near).value <= UncertaintyAt(s, far).value
  {
    hide DriftBelow, DriftAbove, UncertaintyAt, WindowAt;
    UncertaintyIsHalfWidth(s, near);
    UncertaintyIsHalfWidth(s, far);
    var r := s.estimate.value.anchor.referenceHost;
    DriftGrows(s, near - r, far - r);
  }

  lemma DriftGrows(s: SyncState, near: int, far: int)
    requires WellFormed(s) && s.estimate.Some?
    requires 0 <= near <= far || far <= near < 0 || far < 0 == near
    ensures DriftBelow(s, far) <= DriftBelow(s, near)
    ensures DriftAbove(s, near) <= DriftAbove(s, far)
  {
    if near == 0 {
      DriftSpread(s, far);
    } else {
      ProductMono(Abs(near), Abs(far), GreatestPpb(s));
      ProductMono(Abs(near), Abs(far), -LeastPpb(s));
      SignedProducts(s, near);
      SignedProducts(s, far);
      FloorMono(far * (if far < 0 then GreatestPpb(s) else LeastPpb(s)),
                near * (if near < 0 then GreatestPpb(s) else LeastPpb(s)), PPB);
      CeilMono(near * (if near < 0 then LeastPpb(s) else GreatestPpb(s)),
               far * (if far < 0 then LeastPpb(s) else GreatestPpb(s)), PPB);
    }
  }

  lemma SignedProducts(s: SyncState, elapsed: int)
    requires s.estimate.Some?
    ensures elapsed < 0 ==> elapsed * GreatestPpb(s) == -(Abs(elapsed) * GreatestPpb(s))
    ensures elapsed < 0 ==> elapsed * LeastPpb(s) == Abs(elapsed) * -LeastPpb(s)
    ensures elapsed >= 0 ==> elapsed * LeastPpb(s) == -(Abs(elapsed) * -LeastPpb(s))
  {
  }

  // ----- whole sessions -----------------------------------------------------------

  /** The anchor in use is sound, up to the slack of its measured span. */
  ghost predicate SoundFor(c: Clock, s: SyncState) {
    s.estimate.Some? ==>
      AnchorContains(c, s.estimate.value.anchor, LowSlack(s.maxSlewPpb, s.estimate.value.anchor.roundTrip))
  }

  ghost predicate IsGenuine(c: Clock, x: ClockSample) {
    exists arrival: int, departure: int :: Genuine(c, x, arrival, departure)
  }

  function PushAll(s: SyncState, samples: seq<ClockSample>): SyncState {
    Run((s, x) => PushOrKeep(s, x), s, samples)
  }

  lemma PushSound(c: Clock, s: SyncState, x: ClockSample)
    requires WellFormed(s) && InClass(c, s.maxSlewPpb) && SoundFor(c, s) && IsGenuine(c, x)
    ensures WellFormed(PushOrKeep(s, x)) && SoundFor(c, PushOrKeep(s, x))
    ensures PushOrKeep(s, x).maxSlewPpb == s.maxSlewPpb
  {
    hide PushSample, ObserveBounded, EstimateDrift, CheckOrder;
    PushOutcomes(s, x);
    if PushSample(s, x).Ok? {
      var arrival: int, departure: int :| Genuine(c, x, arrival, departure);
      AnchorSound(c, s.maxSlewPpb, x, arrival, departure);
      ObserveBoundedMeaning(x, s.maxSlewPpb);
    }
  }

  lemma PushAllSound(c: Clock, s: SyncState, samples: seq<ClockSample>)
    requires WellFormed(s) && InClass(c, s.maxSlewPpb) && SoundFor(c, s)
    requires forall x :: x in samples ==> IsGenuine(c, x)
    ensures WellFormed(PushAll(s, samples)) && SoundFor(c, PushAll(s, samples))
    ensures PushAll(s, samples).maxSlewPpb == s.maxSlewPpb
  {
    hide PushOrKeep;
    var step := (s: SyncState, x: ClockSample) => PushOrKeep(s, x);
    ghost var inv := (t: SyncState) => WellFormed(t) && SoundFor(c, t) && t.maxSlewPpb == s.maxSlewPpb;
    ghost var genuine := (x: ClockSample) => IsGenuine(c, x);
    forall t: SyncState, x: ClockSample | inv(t) && genuine(x)
      ensures inv(step(t, x))
    {
      PushSound(c, t, x);
    }
    RunKeeps(step, inv, genuine, s, samples);
  }

  /** Whatever genuine samples a session was offered, every window it returns
      holds the controller's tick; only an odd measured span can cost one tick,
      and only at the early end. */
  lemma SessionWindowsSound(c: Clock, slew: int, samples: seq<ClockSample>, host: u64)
    requires PhysicalSlew(slew) && InClass(c, slew)
    requires forall x :: x in samples ==> IsGenuine(c, x)
    requires WindowAt(PushAll(InitialState(slew), samples), host).Ok?
    ensures var s := PushAll(InitialState(slew), samples);
      var w := WindowAt(s, host).value;
      && s.estimate.Some?
      && w.earliest - LowSlack(slew, s.estimate.value.anchor.roundTrip) <= c(host) <= w.latest
      && w.earliest <= w.estimate <= w.latest
      && (s.estimate.value.anchor.roundTrip % 2 == 0 ==> w.earliest <= c(host))
      && w.earliest - 1 <= c(host)
  {
    PushAllSound(c, InitialState(slew), samples);
    var s := PushAll(InitialState(slew), samples);
    ProjectMeaning(s, host);
    LowSlackIsBit(slew, s.estimate.value.anchor.roundTrip);
    WindowSound(c, s, host, LowSlack(slew, s.estimate.value.anchor.roundTrip));
  }

  // ----- which windows are exact ----------------------------------------------------

  /** The window a session of genuine samples with this last span returns holds the tick. */
  ghost predicate WindowHolds(c: Clock, slew: int, span: u64, samples: seq<ClockSample>, host: u64) {
    var s := PushAll(InitialState(slew), samples);
    InClass(c, slew) && (forall x :: x in samples ==> IsGenuine(c, x))
    && WindowAt(s, host).Ok? && s.estimate.Some? && s.estimate.value.anchor.roundTrip == span ==>
      WindowAt(s, host).value.earliest <= c(host) <= WindowAt(s, host).value.latest
  }

  ghost predicate WindowsAreExact(slew: int, span: u64) {
    forall c: Clock, samples: seq<ClockSample>, host: u64 :: WindowHolds(c, slew, span, samples, host)
  }

  /** At its anchor's own reference tick a window is the anchor. */
  lemma WindowAtAnchor(s: SyncState)
    requires WellFormed(s) && s.estimate.Some?
    requires var o := s.estimate.value.anchor;
      s.sessionStart.value <= o.referenceHost && 0 <= o.referenceHost + o.offsetMin
        && o.referenceHost + o.offsetMax < U64_LIMIT
    ensures var o := s.estimate.value.anchor;
      var w := WindowAt(s, o.referenceHost);
      w.Ok? && w.value.earliest == o.referenceHost + o.offsetMin
  {
    hide ObserveBounded, EstimateDrift, DivFloor, DivCeil;
    var drift := s.estimate.value.drift;
    NoElapsed(Min(drift.minPpb, -s.maxSlewPpb));
    NoElapsed(Max(drift.maxPpb, s.maxSlewPpb));
  }

  lemma NoElapsed(ppb: int)
    ensures I128(0 * ppb) == Ok(0) && DivFloor(0, PPB) == Ok(0) && DivCeil(0, PPB) == Ok(0)
  {
    assert 0 * ppb == 0;
  }

  lemma FullSlewHasNoSlack(span: u64)
    ensures LowSlack(PPB, span) == 0
  {
    assert Allowance(PPB, span) == (span + 1) / 2;
  }

  /** Where the slack is not zero, half the span and the drift over it stay in range. */
  lemma SlackLeavesRoom(slew: int, span: u64)
    requires PhysicalSlew(slew) && LowSlack(slew, span) != 0
    ensures span % 2 == 1 && span >= 3
    ensures Drift(slew, span / 2 + 1) == Allowance(slew, span) + 1
    ensures 0 <= Allowance(slew, span) <= span / 2
    ensures span / 2 + 1 + Drift(slew, span / 2 + 1) < U64_LIMIT
  {
    LowSlackIsBit(slew, span);
    var half := span / 2 + 1;
    DriftMono(slew, 0, half);
    ScaledBounds(slew, span, span);
    if slew == PPB {
      FullSlewHasNoSlack(span);
      assert false;
    }
    ProductMono(slew, PPB - 1, half);
    assert (PPB - 1) * half == PPB * half - half;
  }

  /** Two genuine exchanges whose second answer leaves late: the window at the
      second's reference tick misses the controller's tick. */
  lemma LateWindowMisses(slew: int, span: u64)
    requires PhysicalSlew(slew) && LowSlack(slew, span) != 0
    ensures !WindowsAreExact(slew, span)
  {
    hide InClass, PushSample, ObserveBounded, WindowAt, EstimateDrift;
    SlackLeavesRoom(slew, span);
    var r := span / 2;
    var c := SteppedClock(slew, r, r);
    SteppedClockInClass(slew, r, r);
    assert slew * (r - r) == 0;
    assert c(r) == 0 && c(span) == r + 1 + Drift(slew, r + 1);
    var first := ClockSample(0, 0, 0, r);
    var second := ClockSample(0, 0, c(span), span);
    assert Genuine(c, first, r, r) && Genuine(c, second, r, span);
    LatePushes(c, slew, span, first, second);
    var samples := [first, second];
    var s := PushAll(InitialState(slew), samples);
    WindowAtAnchor(s);
    forall x | x in samples
      ensures IsGenuine(c, x)
    {
    }
    assert !WindowHolds(c, slew, span, samples, r);
  }

  lemma LatePushes(c: Clock, slew: int, span: u64, first: ClockSample, second: ClockSample)
    requires PhysicalSlew(slew) && InClass(c, slew) && span >= 3
    requires first == ClockSample(0, 0, 0, span / 2) && second.hostSend == 0 && second.hostReceive == span
    requires second.controllerReceive == 0
    requires Genuine(c, first, span / 2, span / 2) && Genuine(c, second, span / 2, span)
    ensures var s := PushAll(InitialState(slew), [first, second]);
      && WellFormed(s) && s.estimate.Some? && s.sessionStart.value <= span / 2
      && var o := s.estimate.value.anchor;
         && o.referenceHost == span / 2 && o.roundTrip == span
         && o.offsetMin == second.controllerSend - span - Allowance(slew, span)
         && o.offsetMax == Allowance(slew, span)
  {
    hide InClass, ObserveBounded, EstimateDrift, Allowance;
    var start := InitialState(slew);
    GenuineIsObservable(c, slew, first, span / 2, span / 2);
    GenuineIsObservable(c, slew, second, span / 2, span);
    ObserveBoundedMeaning(first, slew);
    ObserveBoundedMeaning(second, slew);
    PushOutcomes(start, first);
    var middle := PushOrKeep(start, first);
    PushOutcomes(middle, second);
    TwoPushes(start, first, second);
  }

  lemma TwoPushes(s: SyncState, a: ClockSample, b: ClockSample)
    ensures PushAll(s, [a, b]) == PushOrKeep(PushOrKeep(s, a), b)
  {
    hide PushOrKeep;
    var step := (s: SyncState, x: ClockSample) => PushOrKeep(s, x);
    assert [a, b][1..] == [b];
    RunOne(step, PushOrKeep(s, a), b);
  }

  /** Every window of every genuine session whose anchor has this span holds the
      controller's tick exactly when the slack of the span is zero. */
  lemma ExactWindows(slew: int, span: u64)
    requires PhysicalSlew(slew)
    ensures WindowsAreExact(slew, span) <==> LowSlack(slew, span) == 0
  {
    hide InClass, PushAll, WindowAt, LowSlack, IsGenuine;
    if LowSlack(slew, span) == 0 {
      forall c: Clock, samples: seq<ClockSample>, host: u64
        ensures WindowHolds(c, slew, span, samples, host)
      {
        var s := PushAll(InitialState(slew), samples);
        if InClass(c, slew) && (forall x :: x in samples ==> IsGenuine(c, x)) && WindowAt(s, host).Ok? {
          SessionWindowsSound(c, slew, samples, host);
        }
      }
    } else {
      LateWindowMisses(slew, span);
    }
  }

  /** Genuine samples in time order with advancing midpoints are always accepted,
      the first of a session among them. */
  lemma GenuineIsAccepted(c: Clock, s: SyncState, x: ClockSample, arrival: int, departure: int, last: ClockSample,
                          lastArrival: int, lastDeparture: int)
    requires WellFormed(s) && InClass(c, s.maxSlewPpb) && Genuine(c, x, arrival, departure)
    requires s.lastRaw.Some? ==>
      && s.lastRaw == Some(last) && Genuine(c, last, lastArrival, lastDeparture)
      && last.hostSend <= x.hostSend && last.hostReceive <= x.hostReceive
      && lastArrival <= arrival && lastDeparture <= departure
      && s.previous.value.referenceHost < x.hostSend + (x.hostReceive - x.hostSend) / 2
    ensures PushSample(s, x).Ok?
  {
    GenuineIsObservable(c, s.maxSlewPpb, x, arrival, departure);
    ObserveBoundedMeaning(x, s.maxSlewPpb);
    if s.lastRaw.Some? {
      ClockAdvance(c, s.maxSlewPpb, lastArrival, arrival);
      ClockAdvance(c, s.maxSlewPpb, lastDeparture, departure);
    }
    PushOutcomes(s, x);
  }
}
