// What the safety guard, the plant and the commands do to each heater, in ticks
// and degrees, and what a machine whose host stays alive keeps.
module HeaterLaws {
  import opened Prelude
  import opened Protocol
  import opened Controller
  import opened ControllerLaws
  import opened Scheduling

  // ----- one step -------------------------------------------------------------------------

  /** The last heartbeat is older than the heater's timeout. */
  predicate Unattended(h: Heater, now: nat, lastHeartbeat: nat) {
    match h.cfg.heartbeatTimeout
    case None => false
    case Some(timeout) => lastHeartbeat + timeout < now
  }

  /** In a step a heater that is aimed and not yet forced safe is forced safe, its
      target cleared, if and only if the last heartbeat is older than its timeout;
      otherwise neither target nor state changes. */
  lemma GuardActsExactly(s: ControllerState, k: nat)
    requires k < |s.heaters|
    ensures var h, next := s.heaters[k], Plants(s).heaters;
      && |next| == |s.heaters| && next[k].cfg == h.cfg
      && (h.target > 0 && !h.forcedSafe ==>
            && (next[k].forcedSafe <==> Unattended(h, s.now, s.lastHeartbeat))
            && next[k].target == if Unattended(h, s.now, s.lastHeartbeat) then 0 else h.target)
      && (h.target <= 0 || h.forcedSafe ==> next[k].forcedSafe == h.forcedSafe && next[k].target == h.target)
  {
    hide Truncate;
  }

  /** The target is above the temperature, in whole millidegrees towards zero. */
  predicate Below(milliC: real, target: i64) {
    if target > 0 then milliC < target as real else milliC <= target as real - 1.0
  }

  lemma TruncatesBelow(x: real, target: i64)
    ensures Truncate(x) < target <==> Below(x, target)
  {
    if x >= 0.0 {
      assert x.Floor as real <= x < x.Floor as real + 1.0;
    } else {
      var n := (-x).Floor;
      assert n as real <= -x < n as real + 1.0;
    }
  }

  /** In a step a heater is driven if and only if it is not forced safe and below its
      target, both as the guard leaves them; and its temperature moves by one part in
      the time constant of what separates it from where the drive would take it. */
  lemma PlantStepsExactly(s: ControllerState, k: nat)
    requires k < |s.heaters|
    ensures var h, next := s.heaters[k], Plants(s).heaters[k];
      && (next.dutyOn <==> !next.forcedSafe && Below(h.milliC, next.target))
      && (h.cfg.tauMs == 0 ==> next.milliC == h.milliC)
      && (h.cfg.tauMs > 0 ==>
            (next.milliC - h.milliC) * h.cfg.tauMs as real ==
            (if next.dutyOn then h.cfg.gainMilliC as real else 0.0) - (h.milliC - s.ambient as real))
  {
    hide Truncate;
    var h := s.heaters[k];
    var guarded := Guard(h, s.now, s.lastHeartbeat);
    assert Plants(s).heaters[k] == Heat(guarded, s.ambient);
    TruncatesBelow(h.milliC, guarded.target);
    if h.cfg.tauMs > 0 {
      var tau := h.cfg.tauMs as real;
      var drive := if Heat(guarded, s.ambient).dutyOn then h.cfg.gainMilliC as real else 0.0;
      var gap := drive - (h.milliC - s.ambient as real);
      PartOf(gap, tau);
      assert Heat(guarded, s.ambient).milliC - h.milliC == gap * (1.0 / tau);
    }
  }

  lemma PartOf(gap: real, tau: real)
    requires tau > 0.0
    ensures gap * (1.0 / tau) * tau == gap
  {
    assert (1.0 / tau) * tau == 1.0;
  }

  predicate FirstHeater(heaters: seq<Heater>, k: nat)
    requires k < |heaters|
  {
    forall j :: 0 <= j < k ==> heaters[j].cfg.name != heaters[k].cfg.name
  }

  /** A starting target aims the first heater of its name, makes it safe to drive
      again, and touches nothing else of any heater. */
  lemma StartAimsExactly(s: ControllerState, k: nat)
    requires s.queue != [] && k < |s.heaters|
    ensures var c, h, next := s.queue[0].command, s.heaters[k], StartFront(s).heaters;
      && |next| == |s.heaters|
      && next[k] == if c.SetHeaterTarget? && c.heater == h.cfg.name && FirstHeater(s.heaters, k)
                    then h.(target := c.targetMilliC, forcedSafe := false) else h
  {
    hide FindHeater, FindAxis;
  }

  /** A reset latches the fault, empties the queue, stops every axis where it is and
      clears every heater's target, drive and forced state, at its temperature. */
  lemma ResetExactly(s: ControllerState)
    ensures var next := Reset(s);
      && next == s.(heaters := next.heaters, axes := next.axes, queue := [], faulted := true)
      && |next.heaters| == |s.heaters| && |next.axes| == |s.axes|
      && (forall k :: 0 <= k < |s.heaters| ==>
            var h := next.heaters[k];
            && h.cfg == s.heaters[k].cfg && h.milliC == s.heaters[k].milliC
            && h.target == 0 && !h.dutyOn && !h.forcedSafe)
      && (forall k :: 0 <= k < |s.axes| ==>
            var a := next.axes[k];
            a.name == s.axes[k].name && a.position == s.axes[k].position && a.motion.None?)
  {
  }

  // ----- acceptance -------------------------------------------------------------------------

  /** Everything a message can do on arrival: a heartbeat without a time is noted; any
      other command is queued if and only if nothing is latched, the queue has room and
      a given time is on a step boundary inside the window; and nothing else changes
      anything but the log, which names the first of these that fails. */
  lemma AdmittedExactly(s: ControllerState, e: CommandEnvelope)
    requires s.now < U64_LIMIT
    ensures var next, at := Accept(s, e), e.executeAt;
      var beat := !s.faulted && e.command.Heartbeat? && at.None?;
      var queued :=
        && !s.faulted && !e.command.Heartbeat? && |s.queue| < s.capacity
        && (at.Some? ==>
              && at.value % 1000 == 0
              && s.now + s.window.minLead <= at.value <= s.now + s.window.maxHorizon);
      && next == s.(queue := next.queue, lastHeartbeat := next.lastHeartbeat, history := next.history)
      && next.lastHeartbeat == (if beat then s.now else s.lastHeartbeat)
      && (queued ==>
            var entry := Queued(if at.Some? then at.value else s.now, e.command, at.Some?);
            multiset(next.queue) == multiset(s.queue) + multiset{entry})
      && (!queued ==> next.queue == s.queue)
      && (next.history == s.history <==> beat)
      && (!beat && !queued ==>
            next.history == s.history +
              [Rejected(s.now, e,
                 if s.faulted then FaultLatched
                 else if e.command.Heartbeat? then ScheduledHeartbeat
                 else if at.Some? && at.value % 1000 != 0 then Misaligned
                 else if at.Some? && at.value < s.now + s.window.minLead then TooEarly
                 else if at.Some? && at.value > s.now + s.window.maxHorizon then TooLate
                 else NoRoom)])
  {
    hide Insert;
    InsertHolds(s.queue, Entry(s, e));
    InsertCounts(s.queue, Entry(s, e));
  }

  lemma {:induction false} InsertCounts(queue: seq<Queued>, q: Queued)
    ensures multiset(Insert(queue, q)) == multiset(queue) + multiset{q}
  {
    if queue != [] && queue[0].executeAt <= q.executeAt {
      InsertCounts(queue[1..], q);
      assert queue == [queue[0]] + queue[1..];
    }
  }

  // ----- a host that stays alive ---------------------------------------------------------------

  /** The target of the last start for the heater, or zero. */
  function LastTarget(started: seq<Queued>, name: Text): i64 {
    if started == [] then 0
    else
      var last := started[|started| - 1].command;
      if last.SetHeaterTarget? && last.heater == name then last.targetMilliC
      else LastTarget(started[..|started| - 1], name)
  }

  const BEAT := CommandEnvelope(None, Heartbeat)

  /** Ticks since the last heartbeat, after one more input. */
  function Silence(input: Input, since: nat): nat {
    match input
    case Elapse(deliveries) => if BEAT in deliveries then 0 else since + 1000
    case Receive(e) => if e == BEAT then 0 else since
    case _ => since
  }

  /** No two heartbeats are further apart, the start counting as one, and nothing is reset. */
  predicate Attended(inputs: seq<Input>, since: nat, limit: nat)
    decreases |inputs|
  {
    inputs == [] ||
    (!inputs[0].ResetFault? && Silence(inputs[0], since) <= limit
     && Attended(inputs[1..], Silence(inputs[0], since), limit))
  }

  /** No heater has been forced safe, and each is aimed as it was told last. */
  predicate Obedient(s: ControllerState, heaters: seq<HeaterCfg>) {
    && !s.faulted && |s.heaters| == |heaters|
    && forall k :: 0 <= k < |heaters| ==>
         && s.heaters[k].cfg == heaters[k] && !s.heaters[k].forcedSafe
         && s.heaters[k].target ==
              if FirstHeater(s.heaters, k) then LastTarget(Starteds(s.history), heaters[k].name) else 0
  }

  predicate Patient(heaters: seq<HeaterCfg>, limit: nat) {
    forall k :: 0 <= k < |heaters| && heaters[k].heartbeatTimeout.Some? ==> limit <= heaters[k].heartbeatTimeout.value
  }

  predicate Heard(s: ControllerState, since: nat) {
    s.lastHeartbeat + since == s.now
  }

  lemma AcceptObeys(s: ControllerState, e: CommandEnvelope, heaters: seq<HeaterCfg>)
    requires Obedient(s, heaters)
    ensures Obedient(Accept(s, e), heaters) && Accept(s, e).now == s.now
    ensures Accept(s, e).lastHeartbeat == if e == BEAT then s.now else s.lastHeartbeat
  {
    hide Insert, Starteds, LastTarget, FirstHeater;
    match Refusal(s, e)
    case Some(reason) => LogExtends(s.history, Rejected(s.now, e, reason));
    case None =>
      if !e.command.Heartbeat? {
        LogExtends(s.history, Accepted(s.now, Entry(s, e)));
      }
  }

  lemma {:induction false} DeliveriesObey(s: ControllerState, deliveries: seq<CommandEnvelope>, heaters: seq<HeaterCfg>)
    requires Obedient(s, heaters)
    ensures Obedient(AcceptAll(s, deliveries), heaters) && AcceptAll(s, deliveries).now == s.now
    ensures AcceptAll(s, deliveries).lastHeartbeat == if BEAT in deliveries then s.now else s.lastHeartbeat
    decreases |deliveries|
  {
    hide Accept, Obedient;
    if deliveries != [] {
      AcceptObeys(s, deliveries[0], heaters);
      DeliveriesObey(Accept(s, deliveries[0]), deliveries[1..], heaters);
      assert deliveries == [deliveries[0]] + deliveries[1..];
    }
  }

  lemma StartObeys(s: ControllerState, heaters: seq<HeaterCfg>)
    requires Obedient(s, heaters) && s.queue != []
    ensures var next := StartFront(s);
      Obedient(next, heaters) && next.now == s.now && next.lastHeartbeat == s.lastHeartbeat
  {
    hide StartFront, Starteds, AxisFree;
    var next := StartFront(s);
    StartFields(s);
    StartTouchesTargets(s);
    LogExtends(s.history, StartEvent(s));
    var started := Starteds(s.history);
    assert (started + [s.queue[0]])[..|started|] == started;
    forall k | 0 <= k < |heaters|
      ensures next.heaters[k].cfg == heaters[k] && !next.heaters[k].forcedSafe
      ensures next.heaters[k].target ==
                if FirstHeater(next.heaters, k) then LastTarget(Starteds(next.history), heaters[k].name) else 0
    {
      StartAimsExactly(s, k);
      SameNames(s.heaters, next.heaters, k);
    }
  }

  lemma SameNames(a: seq<Heater>, b: seq<Heater>, k: nat)
    requires |a| == |b| && k < |a| && forall j :: 0 <= j < |a| ==> a[j].cfg == b[j].cfg
    ensures FirstHeater(a, k) == FirstHeater(b, k)
  {
    assert forall j :: 0 <= j < |a| ==> a[j].cfg.name == b[j].cfg.name;
  }

  lemma PlantsObey(s: ControllerState, heaters: seq<HeaterCfg>, since: nat, limit: nat)
    requires Obedient(s, heaters) && Heard(s, since) && since <= limit && Patient(heaters, limit)
    ensures Obedient(Plants(s), heaters) && Heard(Plants(s), since)
  {
    hide Starteds, LastTarget, Plants;
    var next := Plants(s);
    PlantsTouchHeaters(s);
    forall k | 0 <= k < |heaters|
      ensures next.heaters[k].cfg == s.heaters[k].cfg && !next.heaters[k].forcedSafe
      ensures next.heaters[k].target == s.heaters[k].target
    {
      GuardActsExactly(s, k);
      assert s.heaters[k].cfg == heaters[k];
      assert !Unattended(s.heaters[k], s.now, s.lastHeartbeat);
    }
    forall k | 0 <= k < |heaters|
      ensures next.heaters[k].cfg == heaters[k]
      ensures next.heaters[k].target ==
                if FirstHeater(next.heaters, k) then LastTarget(Starteds(next.history), heaters[k].name) else 0
    {
      SameNames(s.heaters, next.heaters, k);
    }
  }

  lemma PlantsTouchHeaters(s: ControllerState)
    ensures var next := Plants(s);
      && next.now == s.now && next.lastHeartbeat == s.lastHeartbeat && next.faulted == s.faulted
      && next.history == s.history && |next.heaters| == |s.heaters|
  {
    hide Guard, Heat, MoveAxis;
  }

  lemma StepObeys(s: ControllerState, deliveries: seq<CommandEnvelope>, heaters: seq<HeaterCfg>, since: nat, limit: nat)
    requires Obedient(s, heaters) && Heard(s, since) && Patient(heaters, limit)
    requires Silence(Elapse(deliveries), since) <= limit
    ensures Obedient(Step(s, deliveries), heaters) && Heard(Step(s, deliveries), Silence(Elapse(deliveries), since))
  {
    hide Accept, StartFront, Plants, StartDue, AcceptAll, Obedient, Patient;
    var later := s.(now := s.now + STEP_TICKS);
    assert Obedient(later, heaters) by { ClockObeys(s, heaters); }
    DeliveriesObey(later, deliveries, heaters);
    var received := AcceptAll(later, deliveries);
    var inv := (c: ControllerState) =>
      Obedient(c, heaters) && c.now == received.now && c.lastHeartbeat == received.lastHeartbeat;
    forall c: ControllerState | inv(c) && c.queue != []
      ensures inv(StartFront(c))
    {
      StartObeys(c, heaters);
    }
    StartDueKeeps(inv, received);
    PlantsObey(StartDue(received), heaters, Silence(Elapse(deliveries), since), limit);
  }

  lemma ClockObeys(s: ControllerState, heaters: seq<HeaterCfg>)
    requires Obedient(s, heaters)
    ensures Obedient(s.(now := s.now + STEP_TICKS), heaters)
  {
    hide LastTarget, Starteds, FirstHeater;
  }

  lemma WindowObeys(s: ControllerState, w: QueueWindow, heaters: seq<HeaterCfg>)
    requires Obedient(s, heaters)
    ensures Obedient(s.(window := w), heaters)
  {
    hide LastTarget, Starteds, FirstHeater;
  }

  lemma {:induction false} RunObeys(s: ControllerState, inputs: seq<Input>, heaters: seq<HeaterCfg>, since: nat,
                                    limit: nat)
    requires Obedient(s, heaters) && Heard(s, since) && Patient(heaters, limit) && Attended(inputs, since, limit)
    ensures Obedient(After(s, inputs), heaters)
    decreases |inputs|
  {
    hide Step, Accept, Obedient, Patient;
    if inputs != [] {
      match inputs[0] {
        case Elapse(deliveries) => StepObeys(s, deliveries, heaters, since, limit);
        case Receive(e) => AcceptObeys(s, e, heaters);
        case SetWindow(w) => WindowObeys(s, w, heaters);
      }
      RunObeys(Next(s, inputs[0]), inputs[1..], heaters, Silence(inputs[0], since), limit);
    }
  }

  /** In every run without a reset in which no heater's timeout is shorter than the
      longest silence of the host, no heater is ever forced safe, and each is aimed at
      the target last started for it. */
  lemma AttendedRunsObey(ambient: i64, heaters: seq<HeaterCfg>, axes: seq<(Text, i64)>, inputs: seq<Input>, limit: nat)
    requires Patient(heaters, limit) && Attended(inputs, 0, limit)
    ensures Obedient(After(New(ambient, heaters, axes), inputs), heaters)
  {
    hide After;
    RunObeys(New(ambient, heaters, axes), inputs, heaters, 0, limit);
  }
}
