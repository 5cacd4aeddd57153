// The estimator state of crates/clock-sync/src/lib.rs and its operations.
module ClockEstimator {
  import opened Prelude
  import opened ClockArithmetic

  datatype ClockSample = ClockSample(
    hostSend: u64,
    controllerReceive: u64,
    controllerSend: u64,
    hostReceive: u64)

  /** Offsets are controller minus host; `roundTrip` is the measured host span. */
  datatype OffsetObservation = OffsetObservation(
    referenceHost: u64,
    offset: int,
    offsetMin: int,
    offsetMax: int,
    roundTrip: u64)

  datatype DriftEstimate = DriftEstimate(ppb: int, minPpb: int, maxPpb: int, baseline: u64)

  datatype ClockEstimate = ClockEstimate(anchor: OffsetObservation, drift: DriftEstimate, sampledAt: u64)

  datatype ControllerWindow = ControllerWindow(earliest: u64, estimate: u64, latest: u64)

  datatype Projection = Projection(low: int, midpoint: int, high: int)

  /** The fields of one session's estimator. */
  datatype SyncState = SyncState(
    maxSlewPpb: int,
    sessionStart: Option<u64>,
    previous: Option<OffsetObservation>,
    estimate: Option<ClockEstimate>,
    lastRaw: Option<ClockSample>)

  function InitialState(maxSlewPpb: int): SyncState {
    SyncState(maxSlewPpb, None, None, None, None)
  }

  function ObserveBounded(sample: ClockSample, maxSlewPpb: int): Result<OffsetObservation, ClockSyncError> {
    if sample.hostReceive < sample.hostSend then Err(HostRegressed)
    else if sample.controllerSend < sample.controllerReceive then Err(ControllerRegressed)
    else
      var span := sample.hostReceive - sample.hostSend;
      var scaled :- I128(span * maxSlewPpb);
      var allowance :- DivCeil(scaled, MIDPOINT_DENOMINATOR);
      var nominalLow :- I128(sample.controllerSend - sample.hostReceive);
      var nominalHigh :- I128(sample.controllerReceive - sample.hostSend);
      var low :- I128(nominalLow - allowance);
      var high :- I128(nominalHigh + allowance);
      var width :- I128(high - low);
      if width < 0 then Err(ControllerProcessingExceedsRoundTrip)
      else
        var midpoint :- I128(low + width / 2);
        Ok(OffsetObservation(sample.hostSend + span / 2, midpoint, low, high, span))
  }

  function EstimateDrift(previous: OffsetObservation, current: OffsetObservation)
    : Result<DriftEstimate, ClockSyncError>
  {
    if current.referenceHost <= previous.referenceHost then Err(InsufficientSeparation)
    else
      var baseline := current.referenceHost - previous.referenceHost;
      var pointDelta :- I128(current.offset - previous.offset);
      var minimumDelta :- I128(current.offsetMin - previous.offsetMax);
      var maximumDelta :- I128(current.offsetMax - previous.offsetMin);
      var point :- I128(pointDelta * PPB);
      var ppb :- DivRoundNearestTiesAway(point, baseline);
      var minimum :- I128(minimumDelta * PPB);
      var minPpb :- DivFloor(minimum, baseline);
      var maximum :- I128(maximumDelta * PPB);
      var maxPpb :- DivCeil(maximum, baseline);
      Ok(DriftEstimate(ppb, minPpb, maxPpb, baseline))
  }

  /** Ordering checks between a sample and the last accepted one. */
  function CheckOrder(last: Option<ClockSample>, sample: ClockSample): Option<ClockSyncError> {
    match last
    case None => None
    case Some(l) =>
      if sample.hostSend < l.hostSend || sample.hostReceive < l.hostReceive then Some(HostRegressed)
      else if sample.controllerReceive < l.controllerReceive || sample.controllerSend < l.controllerSend then
        Some(ControllerRegressed)
      else None
  }

  /** The state after an accepted sample, or the reason it is rejected. */
  function PushSample(s: SyncState, sample: ClockSample): Result<SyncState, ClockSyncError> {
    var observation :- ObserveBounded(sample, s.maxSlewPpb);
    match CheckOrder(s.lastRaw, sample)
    case Some(e) => Err(e)
    case None =>
      var start := if s.sessionStart.None? then Some(observation.referenceHost) else s.sessionStart;
      match s.previous
      case None =>
        Ok(s.(sessionStart := start, previous := Some(observation), lastRaw := Some(sample)))
      case Some(previous) =>
        if observation.referenceHost <= previous.referenceHost then Err(InsufficientSeparation)
        else
          var drift :- EstimateDrift(previous, observation);
          Ok(s.(sessionStart := start, previous := Some(observation), lastRaw := Some(sample),
                estimate := Some(ClockEstimate(observation, drift, sample.hostReceive))))
  }

  /** Rejected samples leave the estimator as it was. */
  function PushOrKeep(s: SyncState, sample: ClockSample): SyncState {
    match PushSample(s, sample)
    case Ok(next) => next
    case Err(_) => s
  }

  function Project(s: SyncState, host: u64): Result<Projection, ClockSyncError> {
    if s.estimate.None? then Err(EstimateUnavailable)
    else if s.sessionStart.None? then Err(EstimateUnavailable)
    else if host < s.sessionStart.value then Err(HostTickBeforeSession)
    else
      var anchor, drift := s.estimate.value.anchor, s.estimate.value.drift;
      var elapsed :- I128(host - anchor.referenceHost);
      var physicalMin :- I128(-s.maxSlewPpb);
      var minimumPpb := Min(drift.minPpb, physicalMin);
      var maximumPpb := Max(drift.maxPpb, s.maxSlewPpb);
      var lowPpb := if elapsed < 0 then maximumPpb else minimumPpb;
      var highPpb := if elapsed < 0 then minimumPpb else maximumPpb;
      var lowScaled :- I128(elapsed * lowPpb);
      var lowDrift :- DivFloor(lowScaled, PPB);
      var highScaled :- I128(elapsed * highPpb);
      var highDrift :- DivCeil(highScaled, PPB);
      var offsetLow :- I128(anchor.offsetMin + lowDrift);
      var offsetHigh :- I128(anchor.offsetMax + highDrift);
      var controllerLow :- I128(host + offsetLow);
      var controllerHigh :- I128(host + offsetHigh);
      var width :- I128(controllerHigh - controllerLow);
      var midpoint :- I128(controllerLow + TruncDiv(width, 2));
      Ok(Projection(controllerLow, midpoint, controllerHigh))
  }

  function WindowAt(s: SyncState, host: u64): Result<ControllerWindow, ClockSyncError> {
    var p :- Project(s, host);
    var earliest :- ToU64(p.low);
    var estimate :- ToU64(p.midpoint);
    var latest :- ToU64(p.high);
    Ok(ControllerWindow(earliest, estimate, latest))
  }

  function UncertaintyAt(s: SyncState, host: u64): Result<u64, ClockSyncError> {
    var p :- Project(s, host);
    var low :- ToU64(p.low);
    var midpoint :- ToU64(p.midpoint);
    var high :- ToU64(p.high);
    var below :- I128(p.midpoint - p.low);
    var above :- I128(p.high - p.midpoint);
    ToU64(Max(below, above))
  }

  /** One host/controller clock session. */
  class ClockSync {
    const maxSlewPpb: int
    var sessionStart: Option<u64>
    var previous: Option<OffsetObservation>
    var estimate: Option<ClockEstimate>
    var lastRaw: Option<ClockSample>

    ghost function State(): SyncState
      reads this
    {
      SyncState(maxSlewPpb, sessionStart, previous, estimate, lastRaw)
    }

    constructor Init(maxSlewPpb: int)
      ensures State() == InitialState(maxSlewPpb)
    {
      this.maxSlewPpb := maxSlewPpb;
      sessionStart, previous, estimate, lastRaw := None, None, None, None;
    }

    /** A negative slew bound is refused. */
    static method New(maxSlewPpb: int) returns (r: Result<ClockSync, ClockSyncError>)
      ensures maxSlewPpb < 0 ==> r == Err(InvalidSlewBound)
      ensures maxSlewPpb >= 0 ==> r.Ok? && fresh(r.value) && r.value.State() == InitialState(maxSlewPpb)
    {
      if maxSlewPpb < 0 {
        return Err(InvalidSlewBound);
      }
      var sync := new ClockSync.Init(maxSlewPpb);
      r := Ok(sync);
    }

    /** All validation completes before any field changes. */
    method Push(sample: ClockSample) returns (r: Result<Option<ClockEstimate>, ClockSyncError>)
      modifies this
      ensures State() == PushOrKeep(old(State()), sample)
      ensures match PushSample(old(State()), sample)
              case Ok(next) => r == Ok(next.estimate)
              case Err(e) => r == Err(e)
    {
      var observed := ObserveBounded(sample, maxSlewPpb);
      if observed.Err? {
        return Err(observed.error);
      }
      var observation := observed.value;
      if lastRaw.Some? {
        var last := lastRaw.value;
        if sample.hostSend < last.hostSend || sample.hostReceive < last.hostReceive {
          return Err(HostRegressed);
        }
        if sample.controllerReceive < last.controllerReceive || sample.controllerSend < last.controllerSend {
          return Err(ControllerRegressed);
        }
      }
      var nextEstimate: Option<ClockEstimate> := None;
      if previous.Some? {
        if observation.referenceHost <= previous.value.referenceHost {
          return Err(InsufficientSeparation);
        }
        var drift := EstimateDrift(previous.value, observation);
        if drift.Err? {
          return Err(drift.error);
        }
        nextEstimate := Some(ClockEstimate(observation, drift.value, sample.hostReceive));
      }
      if sessionStart.None? {
        sessionStart := Some(observation.referenceHost);
      }
      previous := Some(observation);
      lastRaw := Some(sample);
      if nextEstimate.Some? {
        estimate := nextEstimate;
      }
      r := Ok(estimate);
    }

    method ControllerWindowAt(host: u64) returns (r: Result<ControllerWindow, ClockSyncError>)
      ensures r == WindowAt(State(), host)
    {
      r := WindowAt(SyncState(maxSlewPpb, sessionStart, previous, estimate, lastRaw), host);
    }

    /** A session without an estimate is due; an older tick is not elapsed time. */
    method ResyncDue(hostNow: u64, intervalTicks: u64) returns (due: bool)
      ensures due <==> State().estimate.None? || State().estimate.value.sampledAt + intervalTicks <= hostNow
    {
      if estimate.None? {
        return true;
      }
      due := estimate.value.sampledAt <= hostNow && hostNow - estimate.value.sampledAt >= intervalTicks;
    }
  }
}
