// A program that passes the audit keeps the simulated machine inside the
// limits it was audited against.
module AuditedRuns {
  import opened Prelude
  import opened Protocol
  import opened Runs
  import opened Controller
  import opened ControllerLaws
  import opened AxisMotion
  import opened Toolpath
  import opened ToolpathLaws

  // ----- what a passing audit says ----------------------------------------------------------

  /** Limits that hold the home position and leave room in `i64` on both sides. */
  predicate Bounded(l: AxisLimit) {
    -I64_LIMIT < l.low <= 0 <= l.high < I64_LIMIT - 1
  }

  predicate BoundedLimits(limits: AuditLimits) {
    forall axis: Text :: axis in limits.axes ==> Bounded(limits.axes[axis])
  }

  predicate Within(limits: AuditLimits, axis: Text, at: int) {
    axis in limits.axes ==> limits.axes[axis].low <= at <= limits.axes[axis].high
  }

  predicate RatesForward(commands: seq<Command>) {
    forall k :: 0 <= k < |commands| ==>
      && (commands[k].Home? ==> Forward(commands[k].rateUmS))
      && (commands[k].Move? ==> Forward(commands[k].rateUmS))
  }

  lemma {:induction false} PrefixPasses(limits: AuditLimits, commands: seq<Command>, i: nat)
    requires Findings(limits, commands) == [] && i <= |commands|
    ensures Findings(limits, commands[..i]) == []
    decreases |commands|
  {
    hide LastFindings;
    if i == |commands| {
      assert commands[..i] == commands;
    } else {
      assert Init(commands)[..i] == commands[..i];
      PrefixPasses(limits, Init(commands), i);
    }
  }

  /** After every command of a passing program every limited axis is, exactly, in its limits. */
  lemma {:induction false} PassingStaysInside(limits: AuditLimits, commands: seq<Command>, axis: Text)
    requires Findings(limits, commands) == [] && BoundedLimits(limits) && axis in limits.axes
    ensures Within(limits, axis, Replay(0, commands, axis))
    ensures Audited(commands, axis) == Replay(0, commands, axis)
    decreases |commands|
  {
    assert Bounded(limits.axes[axis]);
    if commands != [] {
      var before := Init(commands);
      assert before == commands[..|before|];
      PrefixPasses(limits, commands, |before|);
      PassingStaysInside(limits, before, axis);
      assert LastFindings(limits, commands) == [];
      match Last(commands)
      case Move(name, distance, rate) =>
        if name == axis {
          NoBoundsFinding(limits, axis, Audited(commands, axis), |before|, rate);
        }
      case _ =>
    }
  }

  lemma NoBoundsFinding(limits: AuditLimits, axis: Text, at: int, index: nat, rate: u64)
    requires RateFinding(limits, rate, index) + BoundsFinding(limits, axis, at, index) == []
    ensures Within(limits, axis, at)
  {
  }

  /** A feed limit in the range of `i64` makes every rate of a passing program run forward. */
  lemma {:induction false} FeedLimitKeepsForward(limits: AuditLimits, commands: seq<Command>)
    requires Findings(limits, commands) == [] && 0 < limits.maxFeed < I64_LIMIT
    ensures RatesForward(commands)
    decreases |commands|
  {
    if commands != [] {
      var before := Init(commands);
      assert before == commands[..|before|];
      PrefixPasses(limits, commands, |before|);
      FeedLimitKeepsForward(limits, before);
      assert LastFindings(limits, commands) == [];
      forall k | 0 <= k < |commands|
        ensures commands[k].Home? ==> Forward(commands[k].rateUmS)
        ensures commands[k].Move? ==> Forward(commands[k].rateUmS)
      {
        if k < |before| {
          assert before[k] == commands[k];
        } else {
          assert commands[k] == Last(commands);
        }
      }
    }
  }

  // ----- one axis ---------------------------------------------------------------------------------

  /** The axis is where its commands have taken it, or on its way there. */
  predicate Aimed(a: Axis, at: int) {
    match a.motion
    case None => a.position == at
    case Some(m) =>
      if m.homing then at == 0 && m.perMs <= 0
      else
        && a.position + m.remaining == at
        && (m.remaining >= 0 ==> m.perMs >= 0)
        && (m.remaining <= 0 ==> m.perMs <= 0)
  }

  lemma StepStaysInside(a: Axis, at: int, low: int, high: int)
    requires Aimed(a, at) && low <= a.position <= high && low <= at <= high && low <= 0 <= high
    ensures Aimed(MoveAxis(a), at) && low <= MoveAxis(a).position <= high
    ensures MoveAxis(a).name == a.name
  {
  }

  lemma MoveAims(a: Axis, at: int, distance: int, rate: u64)
    requires Aimed(a, at) && a.motion.None? && Forward(rate)
    ensures Aimed(Moving(a, distance, rate), at + distance)
  {
    hide Speed, MoveMotion;
    SpeedMeaning(rate);
    MoveSpeed(distance, rate);
    MoveMotionParts(distance, rate);
  }

  lemma HomeAims(a: Axis, rate: u64)
    requires Forward(rate)
    ensures Aimed(Homing(a, rate), 0)
  {
    SpeedMeaning(rate);
  }

  // ----- the machine -------------------------------------------------------------------------------

  function CommandsOf(entries: seq<Queued>): seq<Command> {
    Map((q: Queued) => q.command, entries)
  }

  /** What has started is the beginning of the program. */
  predicate Leads(history: seq<Event>, program: seq<Command>) {
    CommandsOf(Starteds(history)) <= program
  }

  /** The command moves an axis that has limits. */
  predicate Concerns(limits: AuditLimits, c: Command) {
    (c.Home? || c.Move?) && c.axis in limits.axes
  }

  /** Every command that moved an axis with limits found it at rest. */
  predicate IdleOn(limits: AuditLimits, history: seq<Event>) {
    forall k :: 0 <= k < |history| && history[k].Started? && Concerns(limits, history[k].entry.command) ==>
      history[k].idle
  }

  predicate Follows(limits: AuditLimits, history: seq<Event>, program: seq<Command>) {
    Leads(history, program) && IdleOn(limits, history)
  }

  predicate FirstNamed(axes: seq<Axis>, k: nat)
    requires k < |axes|
  {
    forall j :: 0 <= j < k ==> axes[j].name != axes[k].name
  }

  /** One axis: inside its limits, and aimed where the started commands lead. */
  ghost predicate AxisSafe(limits: AuditLimits, s: ControllerState, k: nat)
    requires k < |s.axes|
  {
    var a := s.axes[k];
    a.name in limits.axes ==>
      && Within(limits, a.name, a.position)
      && (if s.faulted || !FirstNamed(s.axes, k) then a.motion.None?
          else Aimed(a, Replay(0, CommandsOf(Starteds(s.history)), a.name)))
  }

  ghost predicate AxesSafe(limits: AuditLimits, s: ControllerState) {
    && (forall k :: 0 <= k < |s.axes| ==> AxisSafe(limits, s, k))
    && (s.faulted ==> s.queue == [])
  }

  ghost predicate Inv(limits: AuditLimits, program: seq<Command>, s: ControllerState) {
    Follows(limits, s.history, program) ==> AxesSafe(limits, s)
  }

  lemma LeadsEarlier(history: seq<Event>, e: Event, program: seq<Command>)
    requires Leads(history + [e], program)
    ensures Leads(history, program)
  {
    hide Starteds;
    LogExtends(history, e);
    if e.Started? {
      assert CommandsOf(Starteds(history + [e])) == CommandsOf(Starteds(history)) + [e.entry.command];
    }
  }

  lemma IdleExtends(limits: AuditLimits, history: seq<Event>, e: Event)
    ensures IdleOn(limits, history + [e]) <==>
            IdleOn(limits, history) && (e.Started? && Concerns(limits, e.entry.command) ==> e.idle)
  {
    hide Concerns;
    var all := history + [e];
    assert forall k :: 0 <= k < |history| ==> history[k] == all[k];
    assert all[|history|] == e;
  }

  lemma FollowsEarlier(limits: AuditLimits, history: seq<Event>, e: Event, program: seq<Command>)
    requires Follows(limits, history + [e], program)
    ensures Follows(limits, history, program)
    ensures e.Started? && Concerns(limits, e.entry.command) ==> e.idle
  {
    hide Leads, IdleOn;
    LeadsEarlier(history, e, program);
    IdleExtends(limits, history, e);
  }

  /** Accepting or refusing starts nothing. */
  lemma AcceptStartsNothing(limits: AuditLimits, s: ControllerState, e: CommandEnvelope, program: seq<Command>)
    ensures Starteds(Accept(s, e).history) == Starteds(s.history)
    ensures Follows(limits, Accept(s, e).history, program) ==> Follows(limits, s.history, program)
    ensures s.faulted ==> Accept(s, e).queue == s.queue
  {
    hide Insert, Starteds, Follows;
    var next := Accept(s, e);
    if next.history != s.history {
      var logged := next.history[|s.history|];
      assert next.history == s.history + [logged];
      LogExtends(s.history, logged);
      if Follows(limits, next.history, program) {
        FollowsEarlier(limits, s.history, logged, program);
      }
    }
  }

  /** Safety of the axes looks at nothing but axes, fault, queue and starts. */
  lemma SameAxesSafe(limits: AuditLimits, s: ControllerState, next: ControllerState)
    requires AxesSafe(limits, s)
    requires next.axes == s.axes && next.faulted == s.faulted && Starteds(next.history) == Starteds(s.history)
    requires s.faulted ==> next.queue == s.queue
    ensures AxesSafe(limits, next)
  {
    hide Starteds, Within, Aimed, FirstNamed;
    forall k | 0 <= k < |next.axes|
      ensures AxisSafe(limits, next, k)
    {
      assert AxisSafe(limits, s, k);
      assert FirstNamed(next.axes, k) == FirstNamed(s.axes, k);
    }
  }

  lemma AcceptKeepsAxes(limits: AuditLimits, program: seq<Command>, s: ControllerState, e: CommandEnvelope)
    requires Inv(limits, program, s)
    ensures Inv(limits, program, Accept(s, e))
  {
    hide Accept, Starteds, Follows, AxesSafe;
    AcceptStartsNothing(limits, s, e, program);
    AcceptTouchesQueue(s, e);
    if Follows(limits, Accept(s, e).history, program) {
      SameAxesSafe(limits, s, Accept(s, e));
    }
  }

  /** A started motion reaches exactly the first axis of its name. */
  lemma SetMotionReaches(axes: seq<Axis>, name: Text, m: Motion, k: nat)
    requires k < |axes|
    ensures var next := SetMotion(axes, name, m);
      && |next| == |axes|
      && next[k] == (if axes[k].name == name && FirstNamed(axes, k) then axes[k].(motion := Some(m)) else axes[k])
      && (FirstNamed(next, k) <==> FirstNamed(axes, k))
  {
    hide FindAxis;
    var next := SetMotion(axes, name, m);
    assert forall j :: 0 <= j < |axes| ==> next[j].name == axes[j].name;
  }

  lemma AtRestMeaning(axes: seq<Axis>, name: Text, k: nat)
    requires k < |axes| && axes[k].name == name && FirstNamed(axes, k)
    ensures AtRest(axes, name) <==> axes[k].motion.None?
  {
    hide FindAxis;
  }

  /** What a start does to one axis and to where its commands lead. */
  lemma StartReaches(s: ControllerState, k: nat)
    requires s.queue != [] && k < |s.axes|
    ensures var next := StartFront(s);
      var c := s.queue[0].command;
      var hit := FirstNamed(s.axes, k) && (c.Home? || c.Move?) && c.axis == s.axes[k].name;
      && |next.axes| == |s.axes| && next.faulted == s.faulted
      && (FirstNamed(next.axes, k) <==> FirstNamed(s.axes, k))
      && next.axes[k] == (if !hit then s.axes[k]
                          else if c.Home? then Homing(s.axes[k], c.rateUmS)
                          else Moving(s.axes[k], c.distanceUm, c.rateUmS))
      && (hit && StartEvent(s).idle ==> s.axes[k].motion.None?)
  {
    hide HomeMotion, MoveMotion, SetMotion, SetTarget, FirstNamed, AtRest;
    match s.queue[0].command
    case Home(name, rate) =>
      SetMotionReaches(s.axes, name, HomeMotion(rate), k);
      if s.axes[k].name == name && FirstNamed(s.axes, k) {
        AtRestMeaning(s.axes, name, k);
      }
    case Move(name, distance, rate) =>
      SetMotionReaches(s.axes, name, MoveMotion(distance, rate), k);
      if s.axes[k].name == name && FirstNamed(s.axes, k) {
        AtRestMeaning(s.axes, name, k);
      }
    case _ =>
  }

  lemma StartedLeadsOn(s: ControllerState, program: seq<Command>)
    requires s.queue != [] && Leads(s.history + [StartEvent(s)], program)
    ensures var done := CommandsOf(Starteds(s.history));
      var all := CommandsOf(Starteds(s.history + [StartEvent(s)]));
      && all == done + [s.queue[0].command]
      && |done| < |program| && program[|done|] == s.queue[0].command
  {
    hide Starteds, AxisFree;
    LogExtends(s.history, StartEvent(s));
  }

  predicate Sane(limits: AuditLimits, program: seq<Command>) {
    Findings(limits, program) == [] && BoundedLimits(limits) && RatesForward(program)
  }

  lemma StartKeepsAxis(limits: AuditLimits, program: seq<Command>, s: ControllerState, k: nat)
    requires Sane(limits, program)
    requires s.queue != [] && k < |s.axes| && AxisSafe(limits, s, k) && !s.faulted
    requires Follows(limits, StartFront(s).history, program) && StartFront(s).history == s.history + [StartEvent(s)]
    ensures |StartFront(s).axes| == |s.axes| && AxisSafe(limits, StartFront(s), k)
  {
    hide StartFront, Starteds, AxisFree, Aimed, Homing, Moving, Replay, FirstNamed, Findings, BoundedLimits, IdleOn;
    var name := s.axes[k].name;
    var c := s.queue[0].command;
    var done := CommandsOf(Starteds(s.history));
    StartReaches(s, k);
    StartedLeadsOn(s, program);
    ReplayLast(0, done, c, name);
    FollowsEarlier(limits, s.history, StartEvent(s), program);
    if FirstNamed(s.axes, k) {
      var at := Replay(0, done, name);
      assert c == program[|done|];
      if c.Home? && c.axis == name {
        HomeAims(s.axes[k], c.rateUmS);
        HomingStays(s.axes[k], c.rateUmS);
      } else if c.Move? && c.axis == name {
        if name in limits.axes {
          MoveAims(s.axes[k], at, c.distanceUm, c.rateUmS);
        }
        HomingStays(s.axes[k], c.rateUmS);
      }
    }
  }

  lemma HomingStays(a: Axis, rate: u64)
    ensures Homing(a, rate).position == a.position && Homing(a, rate).name == a.name
    ensures forall d :: Moving(a, d, rate).position == a.position && Moving(a, d, rate).name == a.name
  {
  }

  lemma StartLogs(s: ControllerState)
    requires s.queue != []
    ensures StartFront(s).history == s.history + [StartEvent(s)]
    ensures |StartFront(s).axes| == |s.axes| && StartFront(s).faulted == s.faulted
  {
    hide AxisFree, HomeMotion, MoveMotion, FindAxis, FindHeater;
  }

  lemma StartKeepsAxes(limits: AuditLimits, program: seq<Command>, s: ControllerState)
    requires Sane(limits, program) && Inv(limits, program, s) && s.queue != []
    ensures Inv(limits, program, StartFront(s))
  {
    hide StartFront, Follows, AxisSafe, Sane, AxisFree;
    var next := StartFront(s);
    StartLogs(s);
    if Follows(limits, next.history, program) {
      FollowsEarlier(limits, s.history, StartEvent(s), program);
      forall k | 0 <= k < |next.axes|
        ensures AxisSafe(limits, next, k)
      {
        StartKeepsAxis(limits, program, s, k);
      }
    }
  }

  lemma PlantsKeepAxes(limits: AuditLimits, program: seq<Command>, s: ControllerState)
    requires Sane(limits, program) && Inv(limits, program, s)
    ensures Inv(limits, program, Plants(s))
  {
    hide MoveAxis, GuardAll, HeatAll, Starteds, Aimed, Replay, Findings, Audited;
    var next := Plants(s);
    assert next.history == s.history && next.queue == s.queue;
    if Follows(limits, s.history, program) {
      var done := CommandsOf(Starteds(s.history));
      assert done == program[..|done|];
      PrefixPasses(limits, program, |done|);
      forall k | 0 <= k < |next.axes|
        ensures AxisSafe(limits, next, k)
      {
        NamesKept(s, k);
        var a := s.axes[k];
        if a.name in limits.axes {
          assert AxisSafe(limits, s, k) && Bounded(limits.axes[a.name]);
          if a.motion.None? {
            RestStays(a);
          }
          if !s.faulted && FirstNamed(s.axes, k) {
            PassingStaysInside(limits, done, a.name);
            StepStaysInside(a, Replay(0, done, a.name), limits.axes[a.name].low, limits.axes[a.name].high);
          }
        }
      }
    }
  }

  lemma RestStays(a: Axis)
    requires a.motion.None?
    ensures MoveAxis(a) == a
  {
  }

  lemma NamesKept(s: ControllerState, k: nat)
    requires k < |s.axes|
    ensures |Plants(s).axes| == |s.axes| && Plants(s).axes[k] == MoveAxis(s.axes[k])
    ensures Plants(s).axes[k].name == s.axes[k].name
    ensures FirstNamed(Plants(s).axes, k) <==> FirstNamed(s.axes, k)
  {
    hide GuardAll, HeatAll;
  }

  lemma NextKeepsAxes(limits: AuditLimits, program: seq<Command>, s: ControllerState, input: Input)
    requires Sane(limits, program) && Inv(limits, program, s)
    ensures Inv(limits, program, Next(s, input))
  {
    hide Accept, StartFront, Plants, StartDue, AcceptAll, Sane, Follows, Starteds;
    match input
    case Elapse(deliveries) =>
      hide Inv;
      ghost var inv := (c: ControllerState) => Inv(limits, program, c);
      forall c: ControllerState, e: CommandEnvelope | inv(c)
        ensures inv(Accept(c, e))
      {
        AcceptKeepsAxes(limits, program, c, e);
      }
      forall c: ControllerState | inv(c) && c.queue != []
        ensures inv(StartFront(c))
      {
        StartKeepsAxes(limits, program, c);
      }
      var later := s.(now := s.now + STEP_TICKS);
      QuietKeepsAxes(limits, program, s, later);
      AcceptAllKeeps(inv, later, deliveries);
      StartDueKeeps(inv, AcceptAll(later, deliveries));
      PlantsKeepAxes(limits, program, StartDue(AcceptAll(later, deliveries)));
    case Receive(e) => AcceptKeepsAxes(limits, program, s, e);
    case ResetFault =>
      ResetKeepsAxes(limits, program, s);
    case SetWindow(w) => QuietKeepsAxes(limits, program, s, s.(window := w));
  }

  lemma QuietKeepsAxes(limits: AuditLimits, program: seq<Command>, s: ControllerState, next: ControllerState)
    requires Inv(limits, program, s)
    requires next.axes == s.axes && next.faulted == s.faulted && next.history == s.history && next.queue == s.queue
    ensures Inv(limits, program, next)
  {
    hide Starteds, Follows, AxesSafe;
    if Follows(limits, s.history, program) {
      SameAxesSafe(limits, s, next);
    }
  }

  lemma ResetKeepsAxes(limits: AuditLimits, program: seq<Command>, s: ControllerState)
    requires Inv(limits, program, s)
    ensures Inv(limits, program, Reset(s))
  {
    hide Starteds, Follows, Aimed, Within, FirstNamed;
    var next := Reset(s);
    assert forall k :: 0 <= k < |s.axes| && AxisSafe(limits, s, k) ==> AxisSafe(limits, next, k);
  }

  // ----- the theorem -----------------------------------------------------------------------------------

  lemma StartsAimed(limits: AuditLimits, program: seq<Command>, ambient: i64, heaters: seq<HeaterCfg>,
                    axes: seq<(Text, i64)>)
    requires BoundedLimits(limits)
    requires forall k :: 0 <= k < |axes| ==> axes[k].0 in limits.axes ==> axes[k].1 == 0
    ensures Inv(limits, program, New(ambient, heaters, axes))
  {
    var s := New(ambient, heaters, axes);
    assert CommandsOf(Starteds([])) == [];
    forall k | 0 <= k < |s.axes|
      ensures AxisSafe(limits, s, k)
    {
      assert s.axes[k] == Axis(axes[k].0, axes[k].1, None);
      if axes[k].0 in limits.axes {
        assert Bounded(limits.axes[axes[k].0]);
      }
    }
  }

  lemma RunKeepsAxes(limits: AuditLimits, program: seq<Command>, s: ControllerState, inputs: seq<Input>)
    requires Sane(limits, program) && Inv(limits, program, s)
    ensures Inv(limits, program, After(s, inputs))
  {
    hide Next, Inv, Sane;
    var step := (c: ControllerState, i: Input) => Next(c, i);
    ghost var inv := (c: ControllerState) => Inv(limits, program, c);
    forall c: ControllerState, i: Input | inv(c)
      ensures inv(step(c, i))
    {
      NextKeepsAxes(limits, program, c, i);
    }
    RunKeeps(step, inv, (i: Input) => true, s, inputs);
  }

  /** If the program passes its audit, its limits hold the home position, no rate
      is turned backward and the limited axes start at home, then in every run
      that has started only the beginning of the program, each command for a
      limited axis finding it at rest, every limited axis is inside its limits: on its way as well as on
      arrival, and whether or not a reset cut a motion short. At rest it is where
      the started commands lead, unless a reset intervened. */
  lemma AuditedRunsStayInside(limits: AuditLimits, program: seq<Command>, ambient: i64, heaters: seq<HeaterCfg>,
                              axes: seq<(Text, i64)>, inputs: seq<Input>, k: nat)
    requires Findings(limits, program) == [] && BoundedLimits(limits) && RatesForward(program)
    requires forall j :: 0 <= j < |axes| ==> axes[j].0 in limits.axes ==> axes[j].1 == 0
    ensures var end := After(New(ambient, heaters, axes), inputs);
      Follows(limits, end.history, program) && k < |end.axes| ==>
        var a := end.axes[k];
        && Within(limits, a.name, a.position)
        && (a.name in limits.axes && FirstNamed(end.axes, k) && a.motion.None? && !end.faulted ==>
              a.position == Replay(0, CommandsOf(Starteds(end.history)), a.name))
  {
    hide Replay, Starteds, Follows, After, Findings, Sane;
    var s := New(ambient, heaters, axes);
    StartsAimed(limits, program, ambient, heaters, axes);
    SaneFrom(limits, program);
    RunKeepsAxes(limits, program, s, inputs);
    var end := After(s, inputs);
    if Follows(limits, end.history, program) && k < |end.axes| {
      assert AxisSafe(limits, end, k);
    }
  }

  lemma SaneFrom(limits: AuditLimits, program: seq<Command>)
    requires Findings(limits, program) == [] && BoundedLimits(limits) && RatesForward(program)
    ensures Sane(limits, program)
  {
  }

  // ----- why each command must find its axis at rest ------------------------------------------

  const SHORT_AXIS := AuditLimits(map[X := AxisLimit(0, 10)], 0, map[])
  const OUT := Move(X, 10, 1000)
  const BACK := Move(X, -10, 10000)

  lemma OneReceived(s: ControllerState, command: Command)
    requires s.queue == [] && !s.faulted && s.capacity >= 1 && !command.Heartbeat?
    ensures var q := Queued(s.now, command, false);
      Next(s, Receive(CommandEnvelope(None, command))) == s.(queue := [q], history := s.history + [Accepted(s.now, q)])
  {
  }

  lemma OneStarted(s: ControllerState, q: Queued, a: Axis)
    requires s.heaters == [] && s.axes == [a] && s.queue == [q] && q.executeAt <= s.now
    requires q.command.Move? && q.command.axis == a.name
    ensures StartDue(s) == s.(queue := [], axes := [Moving(a, q.command.distanceUm, q.command.rateUmS)],
                              history := s.history + [StartEvent(s)])
  {
    hide MoveMotion, StartEvent;
    var m := MoveMotion(q.command.distanceUm, q.command.rateUmS);
    SetMotionReaches(s.axes, a.name, m, 0);
    assert SetMotion(s.axes, a.name, m) == [a.(motion := Some(m))];
    assert StartDue(s) == StartDue(StartFront(s));
    assert StartDue(StartFront(s)) == StartFront(s);
  }

  /** A command received by an idle controller starts in the next step, whatever the axis is doing. */
  lemma OneStep(s: ControllerState, command: Command, a: Axis)
    requires s.heaters == [] && s.axes == [a] && s.queue == [] && !s.faulted && s.capacity >= 1
    requires command.Move? && command.axis == a.name
    ensures var next := Next(Next(s, Receive(CommandEnvelope(None, command))), Elapse([]));
      && next.heaters == [] && next.queue == [] && !next.faulted && next.capacity == s.capacity
      && next.axes == [MoveAxis(Moving(a, command.distanceUm, command.rateUmS))]
      && Starteds(next.history) == Starteds(s.history) + [Queued(s.now, command, false)]
  {
    hide MoveAxis, Starteds, Moving, Accept, StartDue, AxisFree, Plants, GuardAll, HeatAll;
    var q := Queued(s.now, command, false);
    OneReceived(s, command);
    LogExtends(s.history, Accepted(s.now, q));
    var received := s.(queue := [q], history := s.history + [Accepted(s.now, q)]);
    var later := received.(now := received.now + STEP_TICKS);
    assert AcceptAll(later, []) == later;
    OneStarted(later, q, a);
    LogExtends(later.history, StartEvent(later));
    OnePlant(StartDue(later), Moving(a, command.distanceUm, command.rateUmS));
  }

  lemma OnePlant(s: ControllerState, a: Axis)
    requires s.heaters == [] && s.axes == [a]
    ensures Plants(s) == s.(axes := [MoveAxis(a)])
  {
    hide MoveAxis, Guard, Heat;
  }

  lemma OverlapAudit()
    ensures Findings(SHORT_AXIS, [OUT, BACK]) == []
  {
    var two, one := [OUT, BACK], [OUT];
    assert Init(two) == one && Init(one) == [] && Last(two) == BACK && Last(one) == OUT;
    assert Audited(one, X) == 10;
    assert Audited(two, X) == 0;
    assert LastFindings(SHORT_AXIS, one) == [] && LastFindings(SHORT_AXIS, two) == [];
    assert Findings(SHORT_AXIS, one) == [];
  }

  lemma OverlapMoves()
    ensures MoveAxis(Moving(Axis(X, 0, None), 10, 1000)) == Axis(X, 1, Some(Motion(1, 9, false)))
    ensures MoveAxis(Moving(Axis(X, 1, Some(Motion(1, 9, false))), -10, 10000)).position == -9
  {
  }

  /** A passing program carried out with a motion cut short by the next leaves its limits. */
  lemma OverlapEscapes()
    ensures Findings(SHORT_AXIS, [OUT, BACK]) == [] && BoundedLimits(SHORT_AXIS) && RatesForward([OUT, BACK])
    ensures exists inputs :: var end := After(New(0, [], [(X, 0)]), inputs);
      && CommandsOf(Starteds(end.history)) <= [OUT, BACK]
      && |end.axes| == 1 && !Within(SHORT_AXIS, X, end.axes[0].position)
  {
    hide Findings, MoveAxis, Moving, Next, After, Starteds;
    OverlapAudit();
    OverlapMoves();
    var s := New(0, [], [(X, 0)]);
    assert s.axes == [Axis(X, 0, None)] && s.heaters == [];
    OneStep(s, OUT, Axis(X, 0, None));
    var a := Receive(CommandEnvelope(None, OUT));
    var b := Receive(CommandEnvelope(None, BACK));
    var middle := Next(Next(s, a), Elapse([]));
    OneStep(middle, BACK, Axis(X, 1, Some(Motion(1, 9, false))));
    FourInputs(s, a, Elapse([]), b, Elapse([]));
    var inputs := [a, Elapse([]), b, Elapse([])];
    var end := After(s, inputs);
    NothingStarted();
    assert CommandsOf(Starteds(end.history)) == [OUT, BACK];
    assert end.axes[0].position == -9;
  }

  lemma NothingStarted()
    ensures Starteds([]) == []
  {
  }

  lemma FourInputs(s: ControllerState, a: Input, b: Input, c: Input, d: Input)
    ensures After(s, [a, b, c, d]) == Next(Next(Next(Next(s, a), b), c), d)
  {
    hide Next;
    var step := (c: ControllerState, i: Input) => Next(c, i);
    assert [a, b, c, d][1..] == [b, c, d] && [b, c, d][1..] == [c, d] && [c, d][1..] == [d];
    InputsHead(s, [a, b, c, d]);
    InputsHead(Next(s, a), [b, c, d]);
    InputsHead(Next(Next(s, a), b), [c, d]);
    RunOne(step, Next(Next(Next(s, a), b), c), d);
  }

  lemma InputsHead(s: ControllerState, inputs: seq<Input>)
    requires inputs != []
    ensures After(s, inputs) == After(Next(s, inputs[0]), inputs[1..])
  {
    hide Next;
  }

  // ----- heaters ---------------------------------------------------------------------------------------

  /** No heater is aimed above its ceiling, and one without a ceiling not above zero. */
  predicate Cool(limits: AuditLimits, h: Heater) {
    if h.cfg.name in limits.ceilings then h.target <= limits.ceilings[h.cfg.name] else h.target <= 0
  }

  predicate AllCool(limits: AuditLimits, heaters: seq<Heater>) {
    forall k :: 0 <= k < |heaters| ==> Cool(limits, heaters[k])
  }

  predicate WarmCeilings(limits: AuditLimits) {
    forall name: Text :: name in limits.ceilings ==> limits.ceilings[name] >= 0
  }

  ghost predicate Heeds(limits: AuditLimits, program: seq<Command>, s: ControllerState) {
    Leads(s.history, program) ==> AllCool(limits, s.heaters)
  }

  /** A passing program sets no heater above its ceiling and none it does not know. */
  lemma {:induction false} PassingTargets(limits: AuditLimits, program: seq<Command>, k: nat)
    requires Findings(limits, program) == [] && k < |program| && program[k].SetHeaterTarget?
    ensures program[k].heater in limits.ceilings && program[k].targetMilliC <= limits.ceilings[program[k].heater]
    decreases |program|
  {
    var before := Init(program);
    assert before == program[..|before|];
    if k < |before| {
      PrefixPasses(limits, program, |before|);
      PassingTargets(limits, before, k);
      assert before[k] == program[k];
    } else {
      assert program[k] == Last(program) && LastFindings(limits, program) == [];
    }
  }

  /** A started target reaches one heater of its name and no other. */
  lemma StartTargets(s: ControllerState, k: nat)
    requires s.queue != [] && k < |s.heaters|
    ensures var next := StartFront(s).heaters;
      var c := s.queue[0].command;
      |next| == |s.heaters| &&
      (next[k] == s.heaters[k] ||
       (c.SetHeaterTarget? && c.heater == s.heaters[k].cfg.name
        && next[k] == s.heaters[k].(target := c.targetMilliC, forcedSafe := false)))
  {
    hide FindHeater, FindAxis;
  }

  lemma StartHeeds(limits: AuditLimits, program: seq<Command>, s: ControllerState)
    requires Findings(limits, program) == [] && Heeds(limits, program, s) && s.queue != []
    ensures Heeds(limits, program, StartFront(s))
  {
    hide StartFront, Findings, Leads, Starteds, AxisFree, BoundedLimits;
    StartLogs(s);
    if Leads(StartFront(s).history, program) {
      LeadsEarlier(s.history, StartEvent(s), program);
      StartedLeadsOn(s, program);
      var done := CommandsOf(Starteds(s.history));
      if program[|done|].SetHeaterTarget? {
        PassingTargets(limits, program, |done|);
      }
      forall k | 0 <= k < |StartFront(s).heaters|
        ensures Cool(limits, StartFront(s).heaters[k])
      {
        StartKeepsHeaters(s);
        StartTargets(s, k);
      }
    }
  }

  lemma StartKeepsHeaters(s: ControllerState)
    requires s.queue != []
    ensures |StartFront(s).heaters| == |s.heaters|
  {
    hide FindHeater, FindAxis;
  }

  lemma AcceptLeads(s: ControllerState, e: CommandEnvelope, program: seq<Command>)
    ensures Leads(Accept(s, e).history, program) ==> Leads(s.history, program)
  {
    hide Leads;
    var next := Accept(s, e);
    if next.history != s.history && Leads(next.history, program) {
      assert next.history == s.history + [next.history[|s.history|]];
      LeadsEarlier(s.history, next.history[|s.history|], program);
    }
  }

  lemma AcceptHeeds(limits: AuditLimits, program: seq<Command>, s: ControllerState, e: CommandEnvelope)
    requires Heeds(limits, program, s)
    ensures Heeds(limits, program, Accept(s, e))
  {
    hide Insert, Starteds, Leads, Cool;
    AcceptLeads(s, e, program);
  }

  lemma PlantsHeed(limits: AuditLimits, program: seq<Command>, s: ControllerState)
    requires WarmCeilings(limits) && Heeds(limits, program, s)
    ensures Heeds(limits, program, Plants(s))
  {
    hide Leads, MoveAxis;
    var next := Plants(s);
    if Leads(s.history, program) {
      forall k | 0 <= k < |next.heaters|
        ensures Cool(limits, next.heaters[k])
      {
        PlantKeepsCool(limits, s.heaters[k], s.now, s.lastHeartbeat, s.ambient);
      }
    }
  }

  lemma PlantKeepsCool(limits: AuditLimits, h: Heater, now: nat, lastHeartbeat: nat, ambient: i64)
    requires WarmCeilings(limits) && Cool(limits, h)
    ensures Cool(limits, Heat(Guard(h, now, lastHeartbeat), ambient))
  {
    hide Truncate, HeartbeatLost;
  }

  lemma NextHeeds(limits: AuditLimits, program: seq<Command>, s: ControllerState, input: Input)
    requires Findings(limits, program) == [] && WarmCeilings(limits) && Heeds(limits, program, s)
    ensures Heeds(limits, program, Next(s, input))
  {
    hide Accept, StartFront, Plants, StartDue, AcceptAll, Findings, Leads, Starteds, WarmCeilings;
    match input
    case Elapse(deliveries) =>
      hide Cool;
      ghost var inv := (c: ControllerState) => Heeds(limits, program, c);
      forall c: ControllerState, e: CommandEnvelope | inv(c)
        ensures inv(Accept(c, e))
      {
        AcceptHeeds(limits, program, c, e);
      }
      forall c: ControllerState | inv(c) && c.queue != []
        ensures inv(StartFront(c))
      {
        StartHeeds(limits, program, c);
      }
      var later := s.(now := s.now + STEP_TICKS);
      AcceptAllKeeps(inv, later, deliveries);
      StartDueKeeps(inv, AcceptAll(later, deliveries));
      PlantsHeed(limits, program, StartDue(AcceptAll(later, deliveries)));
    case Receive(e) => AcceptHeeds(limits, program, s, e);
    case ResetFault => ResetHeeds(limits, s.heaters);
    case SetWindow(w) =>
  }

  lemma ResetHeeds(limits: AuditLimits, heaters: seq<Heater>)
    requires WarmCeilings(limits)
    ensures AllCool(limits, Map((h: Heater) => h.(target := 0, dutyOn := false, forcedSafe := false), heaters))
  {
  }

  /** If the program passes its audit and no ceiling is below zero, then in every run
      that has started only the beginning of the program no heater is aimed above
      its ceiling, and none that the audit does not know is heated at all. */
  lemma AuditedRunsStayCool(limits: AuditLimits, program: seq<Command>, ambient: i64, heaters: seq<HeaterCfg>,
                            axes: seq<(Text, i64)>, inputs: seq<Input>)
    requires Findings(limits, program) == [] && WarmCeilings(limits)
    ensures var end := After(New(ambient, heaters, axes), inputs);
      Leads(end.history, program) ==> AllCool(limits, end.heaters)
  {
    hide Next, Findings, WarmCeilings;
    var s := New(ambient, heaters, axes);
    NewIsCool(limits, ambient, heaters, axes);
    hide Heeds;
    var step := (c: ControllerState, i: Input) => Next(c, i);
    ghost var inv := (c: ControllerState) => Heeds(limits, program, c);
    forall c: ControllerState, i: Input | inv(c)
      ensures inv(step(c, i))
    {
      NextHeeds(limits, program, c, i);
    }
    assert inv(s) by { CoolHeeds(limits, program, s); }
    RunKeeps(step, inv, (i: Input) => true, s, inputs);
    HeedsCool(limits, program, After(s, inputs));
  }

  lemma NewIsCool(limits: AuditLimits, ambient: i64, heaters: seq<HeaterCfg>, axes: seq<(Text, i64)>)
    requires WarmCeilings(limits)
    ensures AllCool(limits, New(ambient, heaters, axes).heaters)
  {
  }

  lemma CoolHeeds(limits: AuditLimits, program: seq<Command>, s: ControllerState)
    requires AllCool(limits, s.heaters)
    ensures Heeds(limits, program, s)
  {
  }

  lemma HeedsCool(limits: AuditLimits, program: seq<Command>, s: ControllerState)
    requires Heeds(limits, program, s)
    ensures Leads(s.history, program) ==> AllCool(limits, s.heaters)
  {
  }
}
