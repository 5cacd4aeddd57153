// What every run of the simulated controller keeps: the edge safety envelope,
// silence after a reset, and exact stable scheduling.
module ControllerLaws {
  import opened Prelude
  import opened Protocol
  import opened Runs
  import opened Controller

  /** What every start of a due command keeps, starting all of them keeps. */
  lemma {:induction false} StartDueKeeps(inv: ControllerState -> bool, s: ControllerState)
    requires inv(s)
    requires forall c: ControllerState :: inv(c) && c.queue != [] && c.queue[0].executeAt <= c.now ==>
      inv(StartFront(c))
    ensures inv(StartDue(s))
    ensures StartDue(s).queue == [] || StartDue(s).queue[0].executeAt > StartDue(s).now
    decreases |s.queue|
  {
    hide Begin;
    if s.queue != [] && s.queue[0].executeAt <= s.now {
      StartDueKeeps(inv, StartFront(s));
    }
  }

  lemma AcceptAllKeeps(inv: ControllerState -> bool, s: ControllerState, envelopes: seq<CommandEnvelope>)
    requires inv(s)
    requires forall c: ControllerState, e: CommandEnvelope :: inv(c) ==> inv(Accept(c, e))
    ensures inv(AcceptAll(s, envelopes))
  {
    hide Accept;
    RunKeeps((c: ControllerState, e: CommandEnvelope) => Accept(c, e), inv, (e: CommandEnvelope) => true, s, envelopes);
  }

  // ----- the edge safety envelope -----------------------------------------------------------

  predicate SoundPlant(cfg: HeaterCfg) {
    cfg.gainMilliC >= 0 && cfg.tauMs >= 1
  }

  predicate Thermal(h: Heater, ambient: i64) {
    && SoundPlant(h.cfg)
    && ambient as real <= h.milliC <= ambient as real + h.cfg.gainMilliC as real
  }

  /** A heater is driven only while the last heartbeat is no older than its timeout. */
  predicate Watched(h: Heater, now: nat, lastHeartbeat: nat) {
    h.dutyOn && h.cfg.heartbeatTimeout.Some? ==> now - lastHeartbeat <= h.cfg.heartbeatTimeout.value
  }

  predicate ThermalAll(s: ControllerState) {
    forall k :: 0 <= k < |s.heaters| ==> Thermal(s.heaters[k], s.ambient)
  }

  predicate EdgeSafe(s: ControllerState) {
    && ThermalAll(s)
    && forall k :: 0 <= k < |s.heaters| ==> Watched(s.heaters[k], s.now, s.lastHeartbeat)
  }

  /** A fraction of a change is no larger than the change. */
  lemma Shrink(d: real, rate: real) returns (step: real)
    requires 0.0 <= rate <= 1.0
    ensures step == d * rate
    ensures if d >= 0.0 then 0.0 <= step <= d else d <= step <= 0.0
  {
    step := d * rate;
    var rest := d * (1.0 - rate);
    assert step + rest == d;
    if d >= 0.0 {
      assert step >= 0.0 && rest >= 0.0;
    } else {
      assert step <= 0.0 && rest <= 0.0;
    }
  }

  lemma Reciprocal(tau: int)
    requires tau >= 1
    ensures 0.0 <= 1.0 / (tau as real) <= 1.0
  {
  }

  /** A millisecond of the plant stays between ambient and full drive. */
  lemma HeatKeepsThermal(h: Heater, ambient: i64)
    requires Thermal(h, ambient)
    ensures Thermal(Heat(h, ambient), ambient)
  {
    hide Truncate;
    Reciprocal(h.cfg.tauMs);
    var gain := h.cfg.gainMilliC as real;
    var drive := if Heat(h, ambient).dutyOn then gain else 0.0;
    var gap := drive - (h.milliC - ambient as real);
    StepBetween(h.milliC, gap, 1.0 / (h.cfg.tauMs as real), ambient as real, ambient as real + gain);
  }

  /** Part of the way from one point of an interval to another is still inside it. */
  lemma StepBetween(x: real, gap: real, rate: real, low: real, high: real)
    requires low <= x <= high && low <= x + gap <= high && 0.0 <= rate <= 1.0
    ensures low <= x + gap * rate <= high
  {
    var step := Shrink(gap, rate);
  }

  lemma GuardKeepsThermal(h: Heater, ambient: i64, now: nat, lastHeartbeat: nat)
    requires Thermal(h, ambient)
    ensures Thermal(Guard(h, now, lastHeartbeat), ambient)
  {
  }

  /** In a room not below zero no lost heartbeat leaves a heater driven. */
  lemma GuardWatches(h: Heater, ambient: i64, now: nat, lastHeartbeat: nat)
    requires Thermal(h, ambient) && ambient >= 0
    ensures Watched(Heat(Guard(h, now, lastHeartbeat), ambient), now, lastHeartbeat)
  {
    hide Truncate;
    WarmTruncates(h.milliC);
    assert Guard(h, now, lastHeartbeat).milliC == h.milliC;
    assert ambient as real >= 0.0;
    if HeartbeatLost(h, now, lastHeartbeat) {
      var guarded := Guard(h, now, lastHeartbeat);
      assert guarded.forcedSafe || guarded.target <= 0;
      assert !Heat(guarded, ambient).dutyOn;
    }
  }

  lemma WarmTruncates(x: real)
    ensures x >= 0.0 ==> Truncate(x) >= 0
  {
  }

  lemma PlantIsSafe(h: Heater, ambient: i64, now: nat, lastHeartbeat: nat)
    requires Thermal(h, ambient)
    ensures Thermal(Heat(Guard(h, now, lastHeartbeat), ambient), ambient)
    ensures ambient >= 0 ==> Watched(Heat(Guard(h, now, lastHeartbeat), ambient), now, lastHeartbeat)
  {
    hide Thermal, Heat, Guard, Watched;
    GuardKeepsThermal(h, ambient, now, lastHeartbeat);
    HeatKeepsThermal(Guard(h, now, lastHeartbeat), ambient);
    if ambient >= 0 {
      GuardWatches(h, ambient, now, lastHeartbeat);
    }
  }

  lemma PlantsAreSafe(s: ControllerState)
    requires ThermalAll(s)
    ensures ThermalAll(Plants(s)) && (s.ambient >= 0 ==> EdgeSafe(Plants(s)))
  {
    hide Heat, Guard, Thermal, Watched;
    forall k | 0 <= k < |s.heaters|
      ensures Thermal(Plants(s).heaters[k], s.ambient)
      ensures s.ambient >= 0 ==> Watched(Plants(s).heaters[k], s.now, s.lastHeartbeat)
    {
      PlantIsSafe(s.heaters[k], s.ambient, s.now, s.lastHeartbeat);
    }
  }

  /** A starting command touches no temperature, no drive and no clock. */
  lemma StartTouchesTargets(s: ControllerState)
    requires s.queue != []
    ensures var t := StartFront(s);
      && t.now == s.now && t.ambient == s.ambient && t.lastHeartbeat == s.lastHeartbeat
      && |t.heaters| == |s.heaters|
      && forall k :: 0 <= k < |s.heaters| ==>
           t.heaters[k].cfg == s.heaters[k].cfg && t.heaters[k].milliC == s.heaters[k].milliC
  {
    hide FindHeater, FindAxis;
  }

  lemma StepIsSafe(s: ControllerState, deliveries: seq<CommandEnvelope>)
    requires ThermalAll(s)
    ensures ThermalAll(Step(s, deliveries)) && (s.ambient >= 0 ==> EdgeSafe(Step(s, deliveries)))
    ensures Step(s, deliveries).ambient == s.ambient
  {
    hide Plants, StartFront, Accept, StartDue, AcceptAll;
    var ambient := s.ambient;
    var inv := (c: ControllerState) => ThermalAll(c) && c.ambient == ambient;
    forall c: ControllerState, e: CommandEnvelope | inv(c)
      ensures inv(Accept(c, e))
    {
      AcceptTouchesQueue(c, e);
    }
    forall c: ControllerState | inv(c) && c.queue != []
      ensures inv(StartFront(c))
    {
      StartTouchesTargets(c);
    }
    var later := s.(now := s.now + STEP_TICKS);
    AcceptAllKeeps(inv, later, deliveries);
    StartDueKeeps(inv, AcceptAll(later, deliveries));
    PlantsAreSafe(StartDue(AcceptAll(later, deliveries)));
    PlantsKeepAmbient(StartDue(AcceptAll(later, deliveries)));
  }

  lemma PlantsKeepAmbient(s: ControllerState)
    ensures Plants(s).ambient == s.ambient
  {
  }

  lemma AcceptTouchesQueue(s: ControllerState, e: CommandEnvelope)
    ensures var t := Accept(s, e);
      && t.now == s.now && t.ambient == s.ambient && t.heaters == s.heaters && t.axes == s.axes
      && (t.lastHeartbeat == s.lastHeartbeat || t.lastHeartbeat == s.now)
      && t.faulted == s.faulted && t.capacity == s.capacity && t.window == s.window
  {
    hide Insert;
  }

  lemma NextIsSafe(s: ControllerState, input: Input)
    requires s.ambient >= 0 && EdgeSafe(s)
    ensures EdgeSafe(Next(s, input)) && Next(s, input).ambient == s.ambient
  {
    hide Step, Accept, Thermal;
    match input
    case Elapse(deliveries) => StepIsSafe(s, deliveries);
    case Receive(e) => AcceptTouchesQueue(s, e);
    case ResetFault =>
      forall k | 0 <= k < |s.heaters|
        ensures Thermal(Reset(s).heaters[k], s.ambient)
      {
        ThermalIgnoresControl(s.heaters[k], s.ambient);
      }
    case SetWindow(w) =>
  }

  lemma ThermalIgnoresControl(h: Heater, ambient: i64)
    requires Thermal(h, ambient)
    ensures Thermal(h.(target := 0, dutyOn := false, forcedSafe := false), ambient)
  {
  }

  function After(s: ControllerState, inputs: seq<Input>): ControllerState {
    Run((c: ControllerState, i: Input) => Next(c, i), s, inputs)
  }

  predicate SoundPlants(heaters: seq<HeaterCfg>) {
    forall k :: 0 <= k < |heaters| ==> SoundPlant(heaters[k])
  }

  lemma StartsSafe(ambient: i64, heaters: seq<HeaterCfg>, axes: seq<(Text, i64)>)
    requires SoundPlants(heaters)
    ensures EdgeSafe(New(ambient, heaters, axes))
  {
  }

  lemma RunIsSafe(s: ControllerState, inputs: seq<Input>)
    requires s.ambient >= 0 && EdgeSafe(s)
    ensures EdgeSafe(After(s, inputs)) && After(s, inputs).ambient == s.ambient
  {
    hide Next, EdgeSafe;
    var ambient := s.ambient;
    var step := (c: ControllerState, i: Input) => Next(c, i);
    var inv := (c: ControllerState) => EdgeSafe(c) && c.ambient == ambient;
    forall c: ControllerState, i: Input | inv(c)
      ensures inv(step(c, i))
    {
      NextIsSafe(c, i);
    }
    RunKeeps(step, inv, (i: Input) => true, s, inputs);
  }

  /** Every rig with sound plants in this room is safe after every run. */
  ghost predicate SafeRoom(ambient: i64) {
    forall heaters: seq<HeaterCfg>, axes: seq<(Text, i64)>, inputs: seq<Input> ::
      SoundPlants(heaters) ==> EdgeSafe(After(New(ambient, heaters, axes), inputs))
  }

  /** The envelope holds over all runs exactly when the room is not below zero:
      in a colder one a heater with target zero is driven with no heartbeat at all. */
  lemma SafeRoomExactly(ambient: i64)
    ensures SafeRoom(ambient) <==> ambient >= 0
  {
    if ambient >= 0 {
      forall heaters: seq<HeaterCfg>, axes: seq<(Text, i64)>, inputs: seq<Input> | SoundPlants(heaters)
        ensures EdgeSafe(After(New(ambient, heaters, axes), inputs))
      {
        StartsSafe(ambient, heaters, axes);
        RunIsSafe(New(ambient, heaters, axes), inputs);
      }
    } else {
      ColdRoom(ambient);
    }
  }

  lemma ColdRoom(ambient: i64)
    requires ambient < 0
    ensures !SafeRoom(ambient)
  {
    hide Accept, FindHeater, FindAxis;
    var cfg := HeaterCfg([], 0, 1, Some(0));
    var s := New(ambient, [cfg], []);
    var input := Elapse([]);
    var later := s.(now := STEP_TICKS);
    assert AcceptAll(later, []) == later;
    assert StartDue(later) == later;
    var h := s.heaters[0];
    assert Guard(h, STEP_TICKS, 0) == h;
    TruncateInteger(ambient);
    assert Heat(h, ambient).dutyOn;
    assert Next(s, input).heaters[0] == Heat(h, ambient);
    assert !EdgeSafe(Next(s, input));
    RunOne((c: ControllerState, i: Input) => Next(c, i), s, input);
    assert After(s, [input]) == Next(s, input);
    assert SoundPlants([cfg]);
  }

  lemma TruncateInteger(a: int)
    ensures Truncate(a as real) == a
  {
  }

  // ----- after a reset ------------------------------------------------------------------------

  function Accepteds(history: seq<Event>): seq<Queued> {
    if history == [] then []
    else
      var last := history[|history| - 1];
      Accepteds(history[..|history| - 1]) + if last.Accepted? then [last.entry] else []
  }

  function Starteds(history: seq<Event>): seq<Queued> {
    if history == [] then []
    else
      var last := history[|history| - 1];
      Starteds(history[..|history| - 1]) + if last.Started? then [last.entry] else []
  }

  lemma LogExtends(history: seq<Event>, e: Event)
    ensures Accepteds(history + [e]) == if e.Accepted? then Accepteds(history) + [e.entry] else Accepteds(history)
    ensures Starteds(history + [e]) == if e.Started? then Starteds(history) + [e.entry] else Starteds(history)
  {
    assert (history + [e])[..|history|] == history;
  }

  /** Nothing moves, nothing is driven and nothing was taken since `from`. */
  predicate Silent(from: ControllerState, s: ControllerState) {
    && s.faulted && s.queue == [] && s.ambient == from.ambient
    && s.axes == from.axes
    && (forall k :: 0 <= k < |s.axes| ==> s.axes[k].motion.None?)
    && ThermalAll(s)
    && (forall k :: 0 <= k < |s.heaters| ==> s.heaters[k].target == 0 && !s.heaters[k].dutyOn)
    && Accepteds(s.history) == Accepteds(from.history)
    && Starteds(s.history) == Starteds(from.history)
  }

  lemma RefusedSilently(from: ControllerState, s: ControllerState, e: CommandEnvelope)
    requires Silent(from, s)
    ensures Silent(from, Accept(s, e))
  {
    LogExtends(s.history, Rejected(s.now, e, FaultLatched));
  }

  lemma StepIsSilent(from: ControllerState, s: ControllerState, deliveries: seq<CommandEnvelope>)
    requires Silent(from, s) && from.ambient >= 0
    ensures Silent(from, Step(s, deliveries))
  {
    hide Accept, Begin, Accepteds, Starteds;
    var inv := (c: ControllerState) => Silent(from, c);
    forall c: ControllerState, e: CommandEnvelope | inv(c)
      ensures inv(Accept(c, e))
    {
      RefusedSilently(from, c, e);
    }
    var later := s.(now := s.now + STEP_TICKS);
    AcceptAllKeeps(inv, later, deliveries);
    var t := AcceptAll(later, deliveries);
    PlantsAreSafe(t);
    assert Plants(t).axes == t.axes;
  }

  lemma NextIsSilent(from: ControllerState, s: ControllerState, input: Input)
    requires Silent(from, s) && from.ambient >= 0
    ensures Silent(from, Next(s, input))
  {
    hide Step, Accept, Accepteds, Starteds, Thermal;
    match input
    case Elapse(deliveries) => StepIsSilent(from, s, deliveries);
    case Receive(e) => RefusedSilently(from, s, e);
    case ResetFault =>
      forall k | 0 <= k < |s.heaters|
        ensures Thermal(Reset(s).heaters[k], s.ambient)
      {
        ThermalIgnoresControl(s.heaters[k], s.ambient);
      }
      assert Reset(s).axes == s.axes;
    case SetWindow(w) =>
  }

  /** Once reset, whatever happened before and whatever arrives after, no command
      is accepted or started again, no heater is driven and no axis moves. */
  lemma ResetIsFinal(ambient: i64, heaters: seq<HeaterCfg>, axes: seq<(Text, i64)>, before: seq<Input>,
                     after: seq<Input>)
    requires ambient >= 0 && SoundPlants(heaters)
    ensures var reset := Reset(After(New(ambient, heaters, axes), before));
      Silent(reset, After(reset, after))
  {
    hide Next, Silent;
    var s := New(ambient, heaters, axes);
    StartsSafe(ambient, heaters, axes);
    RunIsSafe(s, before);
    var reached := After(s, before);
    var reset := Reset(reached);
    ResetIsSilent(reached);
    var step := (c: ControllerState, i: Input) => Next(c, i);
    var inv := (c: ControllerState) => Silent(reset, c);
    forall c: ControllerState, i: Input | inv(c)
      ensures inv(step(c, i))
    {
      NextIsSilent(reset, c, i);
    }
    RunKeeps(step, inv, (i: Input) => true, reset, after);
  }

  lemma ResetIsSilent(s: ControllerState)
    requires EdgeSafe(s)
    ensures Silent(Reset(s), Reset(s))
  {
    hide Thermal;
    forall k | 0 <= k < |s.heaters|
      ensures Thermal(Reset(s).heaters[k], s.ambient)
    {
      ThermalIgnoresControl(s.heaters[k], s.ambient);
    }
  }
}
