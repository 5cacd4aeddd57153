// Starts that are far enough apart find every axis at rest: a condition on the
// distances between starts and on the commands alone.
module PacedRuns {
  import opened Prelude
  import opened Protocol
  import opened Runs
  import opened Controller
  import opened ControllerLaws
  import opened Scheduling
  import opened AxisMotion
  import opened Toolpath
  import opened ToolpathLaws
  import opened AuditedRuns

  // ----- how far apart the starts are -----------------------------------------------------

  function StartTimes(history: seq<Event>): seq<nat> {
    if history == [] then []
    else
      var last := history[|history| - 1];
      StartTimes(history[..|history| - 1]) + if last.Started? then [last.at] else []
  }

  predicate Apart(times: seq<nat>, gap: nat) {
    forall k :: 0 <= k < |times| - 1 ==> times[k] + gap <= times[k + 1]
  }

  /** Consecutive starts are at least that far apart. */
  predicate Paced(history: seq<Event>, gap: nat) {
    Apart(StartTimes(history), gap)
  }

  function LastStart(history: seq<Event>): Option<nat> {
    var times := StartTimes(history);
    if times == [] then None else Some(times[|times| - 1])
  }

  lemma TimesExtend(history: seq<Event>, e: Event)
    ensures StartTimes(history + [e]) == if e.Started? then StartTimes(history) + [e.at] else StartTimes(history)
  {
    assert (history + [e])[..|history|] == history;
  }

  lemma PacedEarlier(history: seq<Event>, e: Event, gap: nat)
    requires Paced(history + [e], gap)
    ensures Paced(history, gap)
    ensures e.Started? && LastStart(history).Some? ==> LastStart(history).value + gap <= e.at
  {
    hide StartTimes;
    TimesExtend(history, e);
    var before, after := StartTimes(history), StartTimes(history + [e]);
    forall k | 0 <= k < |before| - 1
      ensures before[k] + gap <= before[k + 1]
    {
      assert after[k] + gap <= after[k + 1];
    }
    if e.Started? && before != [] {
      assert after[|before| - 1] + gap <= after[(|before| - 1) + 1];
    }
  }

  lemma PacedByLess(history: seq<Event>, gap: nat, less: nat)
    requires Paced(history, gap) && less <= gap
    ensures Paced(history, less)
  {
    hide StartTimes;
    var times := StartTimes(history);
    forall k | 0 <= k < |times| - 1
      ensures times[k] + less <= times[k + 1]
    {
      assert times[k] + gap <= times[k + 1];
    }
  }

  // ----- how long a command takes -----------------------------------------------------------

  lemma {:induction false} GlideOn(a: Axis, n: nat)
    ensures Glide(MoveAxis(a), n) == Glide(a, n + 1) == MoveAxis(Glide(a, n))
  {
    hide MoveAxis;
    if n > 0 {
      GlideOn(a, n - 1);
    }
  }

  lemma {:induction false} GlideRests(a: Axis, n: nat)
    requires a.motion.None?
    ensures Glide(a, n) == a
  {
    if n > 0 {
      GlideRests(a, n - 1);
    }
  }

  /** The command is done after so many steps, from anywhere inside the limits of its axis. */
  ghost predicate DoneIn(limits: AuditLimits, c: Command, d: nat) {
    match c
    case Move(axis, distance, rate) => Glide(Moving(Axis(axis, 0, None), distance, rate), d).motion.None?
    case Home(axis, rate) =>
      forall at: int :: Within(limits, axis, at) ==> Glide(Homing(Axis(axis, at, None), rate), d).motion.None?
    case _ => true
  }

  /** Every command for an axis with limits takes at most so many steps. */
  ghost predicate Quick(limits: AuditLimits, commands: seq<Command>, d: nat) {
    forall k :: 0 <= k < |commands| && Concerns(limits, commands[k]) ==> DoneIn(limits, commands[k], d)
  }

  /** What that means for the rates and distances of the commands. */
  lemma DoneInExactly(limits: AuditLimits, c: Command, d: nat)
    requires Concerns(limits, c) && Forward(c.rateUmS) && BoundedLimits(limits)
    ensures DoneIn(limits, c, d) <==>
      d >= 1 && var v := Speed(c.rateUmS);
        if c.Move? then c.distanceUm == 0 || (v >= 1 && Abs(c.distanceUm) <= d * v)
        else limits.axes[c.axis].high <= d * v
  {
    hide Glide, Speed;
    SpeedMeaning(c.rateUmS);
    var v := Speed(c.rateUmS);
    if c.Move? {
      MoveArrives(Axis(c.axis, 0, None), c.distanceUm, c.rateUmS, d);
      if v >= 1 {
        CeilReached(Abs(c.distanceUm), v, d);
      }
    } else {
      var l := limits.axes[c.axis];
      assert Bounded(l);
      forall at: int | Within(limits, c.axis, at)
        ensures Glide(Homing(Axis(c.axis, at, None), c.rateUmS), d).motion.None? <==> d >= 1 && at <= d * v
      {
        HomeDone(Axis(c.axis, at, None), c.rateUmS, d);
      }
      assert Within(limits, c.axis, l.high);
    }
  }

  lemma HomeDone(a: Axis, rate: u64, d: nat)
    requires Forward(rate)
    ensures Glide(Homing(a, rate), d).motion.None? <==> d >= 1 && a.position <= d * Speed(rate)
  {
    hide Glide, Speed;
    SpeedMeaning(rate);
    var v := Speed(rate);
    HomeArrives(a, rate, d);
    if v >= 1 {
      CeilReached(a.position, v, d);
    } else {
      assert d * v == 0;
    }
  }

  lemma MoveAnywhere(a: Axis, distance: int, rate: u64, d: nat)
    requires Forward(rate)
    ensures Glide(Moving(a, distance, rate), d).motion == Glide(Moving(Axis(a.name, 0, None), distance, rate), d).motion
  {
    hide Glide, Speed;
    SpeedMeaning(rate);
    if d == 0 {
      GlideNone(Moving(a, distance, rate));
      GlideNone(Moving(Axis(a.name, 0, None), distance, rate));
    } else {
      MoveAfter(a, distance, rate, d);
      MoveAfter(Axis(a.name, 0, None), distance, rate, d);
    }
  }

  lemma HomeAnywhere(a: Axis, rate: u64)
    ensures Homing(a, rate) == Homing(Axis(a.name, a.position, None), rate)
  {
  }

  lemma MovingIsNamed(a: Axis, distance: int, rate: u64)
    ensures Moving(a, distance, rate).name == a.name && Homing(a, rate).name == a.name
  {
  }

  // ----- the invariant ---------------------------------------------------------------------------

  /** Every axis with limits is at rest after so many further steps. */
  predicate Resting(limits: AuditLimits, axes: seq<Axis>, left: nat) {
    forall k :: 0 <= k < |axes| && axes[k].name in limits.axes ==> Glide(axes[k], left).motion.None?
  }

  /** The steps that a command of `d` steps started last may still need; `lead` is
      one when the axes have already moved at this tick. */
  function Left(d: nat, now: nat, last: Option<nat>, lead: nat): nat
    requires last.Some? ==> last.value <= now
  {
    if last.None? then 0 else Max(0, d - ((now - last.value) / STEP_TICKS + lead))
  }

  predicate Timed(limits: AuditLimits, s: ControllerState, d: nat, lead: nat) {
    var last := LastStart(s.history);
    (last.Some? ==> last.value <= s.now) && Resting(limits, s.axes, Left(d, s.now, last, lead))
  }

  /** In a run that starts only the beginning of the program, at that pace. */
  ghost predicate Kept(limits: AuditLimits, program: seq<Command>, s: ControllerState, d: nat, lead: nat) {
    && Inv(limits, program, s)
    && (Leads(s.history, program) && Paced(s.history, d * STEP_TICKS) ==>
          IdleOn(limits, s.history) && Timed(limits, s, d, lead))
  }

  /** Nothing that starts nothing and moves nothing matters. */
  lemma QuietKeeps(limits: AuditLimits, program: seq<Command>, s: ControllerState, next: ControllerState, d: nat,
                   lead: nat)
    requires Kept(limits, program, s, d, lead) && Inv(limits, program, next)
    requires next.axes == s.axes && next.now == s.now
    requires next.history == s.history ||
      (|next.history| == |s.history| + 1 && next.history == s.history + [next.history[|s.history|]]
       && !next.history[|s.history|].Started?)
    ensures Kept(limits, program, next, d, lead)
  {
    hide Inv, Leads, Paced, IdleOn, Resting, StartTimes, Left;
    if next.history != s.history && Leads(next.history, program) && Paced(next.history, d * STEP_TICKS) {
      var e := next.history[|s.history|];
      LeadsEarlier(s.history, e, program);
      PacedEarlier(s.history, e, d * STEP_TICKS);
      IdleExtends(limits, s.history, e);
      TimesExtend(s.history, e);
    }
  }

  lemma AcceptLogs(s: ControllerState, e: CommandEnvelope)
    ensures var next := Accept(s, e);
      next.history == s.history ||
      (|next.history| == |s.history| + 1 && next.history == s.history + [next.history[|s.history|]]
       && !next.history[|s.history|].Started?)
  {
    hide Insert;
  }

  lemma AcceptKeeps(limits: AuditLimits, program: seq<Command>, s: ControllerState, e: CommandEnvelope, d: nat,
                    lead: nat)
    requires Kept(limits, program, s, d, lead)
    ensures Kept(limits, program, Accept(s, e), d, lead)
  {
    hide Kept, Inv, Accept;
    assert Inv(limits, program, s) by { KeptSafe(limits, program, s, d, lead); }
    AcceptKeepsAxes(limits, program, s, e);
    AcceptTouchesQueue(s, e);
    AcceptLogs(s, e);
    QuietKeeps(limits, program, s, Accept(s, e), d, lead);
  }

  lemma KeptSafe(limits: AuditLimits, program: seq<Command>, s: ControllerState, d: nat, lead: nat)
    requires Kept(limits, program, s, d, lead)
    ensures Inv(limits, program, s)
  {
  }

  lemma LaterKeeps(limits: AuditLimits, program: seq<Command>, s: ControllerState, d: nat)
    requires Kept(limits, program, s, d, 1)
    ensures Kept(limits, program, s.(now := s.now + STEP_TICKS), d, 0)
  {
    hide Inv, Leads, Paced, IdleOn, Resting, LastStart;
    hide Kept;
    KeptSafe(limits, program, s, d, 1);
    var later := s.(now := s.now + STEP_TICKS);
    QuietKeepsAxes(limits, program, s, later);
    KeptMeaning(limits, program, s, d, 1);
    if Leads(s.history, program) && Paced(s.history, d * STEP_TICKS) {
      TimedLater(limits, s, d);
    }
    KeptFrom(limits, program, later, d, 0);
  }

  lemma KeptMeaning(limits: AuditLimits, program: seq<Command>, s: ControllerState, d: nat, lead: nat)
    requires Kept(limits, program, s, d, lead)
    ensures Leads(s.history, program) && Paced(s.history, d * STEP_TICKS) ==>
              IdleOn(limits, s.history) && Timed(limits, s, d, lead)
  {
  }

  lemma KeptFrom(limits: AuditLimits, program: seq<Command>, s: ControllerState, d: nat, lead: nat)
    requires Inv(limits, program, s)
    requires Leads(s.history, program) && Paced(s.history, d * STEP_TICKS) ==>
               IdleOn(limits, s.history) && Timed(limits, s, d, lead)
    ensures Kept(limits, program, s, d, lead)
  {
  }

  lemma TimedLater(limits: AuditLimits, s: ControllerState, d: nat)
    requires Timed(limits, s, d, 1)
    ensures Timed(limits, s.(now := s.now + STEP_TICKS), d, 0)
  {
    hide Resting, LastStart;
  }

  /** Far enough behind the last start everything with limits is at rest. */
  lemma AllResting(limits: AuditLimits, s: ControllerState, d: nat)
    requires Timed(limits, s, d, 0)
    requires LastStart(s.history).Some? ==> LastStart(s.history).value + d * STEP_TICKS <= s.now
    ensures forall k :: 0 <= k < |s.axes| && s.axes[k].name in limits.axes ==> s.axes[k].motion.None?
  {
    hide LastStart;
    assert Left(d, s.now, LastStart(s.history), 0) == 0;
    forall k | 0 <= k < |s.axes| && s.axes[k].name in limits.axes
      ensures s.axes[k].motion.None?
    {
      GlideNone(s.axes[k]);
      assert Glide(s.axes[k], 0).motion.None?;
    }
  }

  lemma RestingIsFree(limits: AuditLimits, s: ControllerState)
    requires s.queue != []
    requires forall k :: 0 <= k < |s.axes| && s.axes[k].name in limits.axes ==> s.axes[k].motion.None?
    ensures Concerns(limits, s.queue[0].command) ==> StartEvent(s).idle
  {
    hide FindAxis;
  }

  /** One axis after a start on a machine at rest. */
  lemma StartedAxis(limits: AuditLimits, program: seq<Command>, s: ControllerState, d: nat, k: nat)
    requires Sane(limits, program) && Quick(limits, program, d) && s.queue != [] && k < |s.axes|
    requires s.axes[k].name in limits.axes && s.axes[k].motion.None? && AxisSafe(limits, s, k)
    requires s.queue[0].command in program
    ensures k < |StartFront(s).axes| && Glide(StartFront(s).axes[k], d).motion.None?
  {
    hide StartFront, Moving, Homing, Glide, FirstNamed, Aimed, Replay, Findings, BoundedLimits, AxisFree;
    StartReaches(s, k);
    var c, a := s.queue[0].command, s.axes[k];
    GlideRests(a, d);
    var i :| 0 <= i < |program| && program[i] == c;
    if Concerns(limits, c) {
      assert DoneIn(limits, c, d);
      if c.Move? && c.axis == a.name {
        MoveAnywhere(a, c.distanceUm, c.rateUmS, d);
      } else if c.Home? && c.axis == a.name {
        HomeAnywhere(a, c.rateUmS);
      }
    }
  }

  lemma StartKeeps(limits: AuditLimits, program: seq<Command>, s: ControllerState, d: nat)
    requires Sane(limits, program) && Quick(limits, program, d) && Kept(limits, program, s, d, 0) && s.queue != []
    ensures Kept(limits, program, StartFront(s), d, 0)
  {
    hide StartFront, Kept, Inv, Leads, Paced, IdleOn, Timed, Sane, Quick, StartTimes, Concerns, AxisFree;
    var next, e := StartFront(s), StartEvent(s);
    StartLogs(s);
    StartFields(s);
    KeptSafe(limits, program, s, d, 0);
    StartKeepsAxes(limits, program, s);
    if Leads(next.history, program) && Paced(next.history, d * STEP_TICKS) {
      LeadsEarlier(s.history, e, program);
      PacedEarlier(s.history, e, d * STEP_TICKS);
      KeptMeaning(limits, program, s, d, 0);
      AllResting(limits, s, d);
      RestingIsFree(limits, s);
      IdleExtends(limits, s.history, e);
      StartedLeadsOn(s, program);
      assert AxesSafe(limits, s) by { SafeNow(limits, program, s); }
      StartTimed(limits, program, s, d);
    }
    KeptFrom(limits, program, next, d, 0);
  }

  lemma SafeNow(limits: AuditLimits, program: seq<Command>, s: ControllerState)
    requires Inv(limits, program, s) && Leads(s.history, program) && IdleOn(limits, s.history)
    ensures AxesSafe(limits, s)
  {
    hide AxesSafe, Leads, IdleOn;
  }

  lemma StartTimed(limits: AuditLimits, program: seq<Command>, s: ControllerState, d: nat)
    requires Sane(limits, program) && Quick(limits, program, d) && s.queue != [] && AxesSafe(limits, s)
    requires forall k :: 0 <= k < |s.axes| && s.axes[k].name in limits.axes ==> s.axes[k].motion.None?
    requires s.queue[0].command in program
    ensures Timed(limits, StartFront(s), d, 0)
  {
    hide StartFront, AxisSafe, Sane, Quick, Glide, StartTimes, AxisFree;
    var next := StartFront(s);
    StartLogs(s);
    StartFields(s);
    TimesExtend(s.history, StartEvent(s));
    assert LastStart(next.history) == Some(s.now);
    assert Left(d, next.now, LastStart(next.history), 0) == d;
    forall k | 0 <= k < |next.axes| && next.axes[k].name in limits.axes
      ensures Glide(next.axes[k], d).motion.None?
    {
      StartKeepsNames(s, k);
      assert AxisSafe(limits, s, k);
      StartedAxis(limits, program, s, d, k);
    }
  }

  lemma StartKeepsNames(s: ControllerState, k: nat)
    requires s.queue != [] && k < |s.axes|
    ensures |StartFront(s).axes| == |s.axes| && StartFront(s).axes[k].name == s.axes[k].name
  {
    hide StartFront, Moving, Homing, FirstNamed, AxisFree;
    StartReaches(s, k);
    var c := s.queue[0].command;
    if c.Home? || c.Move? {
      MovingIsNamed(s.axes[k], if c.Move? then c.distanceUm else 0, c.rateUmS);
    }
  }

  lemma PlantsKeep(limits: AuditLimits, program: seq<Command>, s: ControllerState, d: nat)
    requires Sane(limits, program) && Kept(limits, program, s, d, 0)
    ensures Kept(limits, program, Plants(s), d, 1)
  {
    hide Plants, Kept, Inv, Leads, Paced, IdleOn, Timed, Sane;
    KeptSafe(limits, program, s, d, 0);
    PlantsKeepAxes(limits, program, s);
    KeptMeaning(limits, program, s, d, 0);
    PlantsFields(s);
    if Leads(s.history, program) && Paced(s.history, d * STEP_TICKS) {
      PlantsTimed(limits, s, d);
    }
    KeptFrom(limits, program, Plants(s), d, 1);
  }

  lemma PlantsFields(s: ControllerState)
    ensures Plants(s).history == s.history && Plants(s).now == s.now && |Plants(s).axes| == |s.axes|
  {
    hide MoveAxis, GuardAll, HeatAll;
  }

  lemma PlantsTimed(limits: AuditLimits, s: ControllerState, d: nat)
    requires Timed(limits, s, d, 0)
    ensures Timed(limits, Plants(s), d, 1)
  {
    hide Plants, MoveAxis, LastStart, Glide;
    PlantsFields(s);
    var last := LastStart(s.history);
    var left, less := Left(d, s.now, last, 0), Left(d, s.now, last, 1);
    assert left == less + 1 || left == less == 0;
    forall k | 0 <= k < |Plants(s).axes| && Plants(s).axes[k].name in limits.axes
      ensures Glide(Plants(s).axes[k], less).motion.None?
    {
      NamesKept(s, k);
      var a := s.axes[k];
      assert Glide(a, left).motion.None?;
      if left == 0 {
        GlideNone(a);
        RestStays(a);
      } else {
        GlideOn(a, less);
      }
    }
  }

  lemma ResetTimed(limits: AuditLimits, s: ControllerState, d: nat, lead: nat)
    requires Timed(limits, s, d, lead)
    ensures Timed(limits, Reset(s), d, lead)
  {
    hide LastStart, Glide, Left;
    var left := Left(d, s.now, LastStart(s.history), lead);
    forall k | 0 <= k < |Reset(s).axes|
      ensures Glide(Reset(s).axes[k], left).motion.None?
    {
      GlideRests(Reset(s).axes[k], left);
    }
  }

  lemma ResetKeeps(limits: AuditLimits, program: seq<Command>, s: ControllerState, d: nat)
    requires Kept(limits, program, s, d, 1)
    ensures Kept(limits, program, Reset(s), d, 1)
  {
    hide Kept, Inv, Leads, Paced, IdleOn, Timed;
    KeptSafe(limits, program, s, d, 1);
    ResetKeepsAxes(limits, program, s);
    KeptMeaning(limits, program, s, d, 1);
    if Leads(s.history, program) && Paced(s.history, d * STEP_TICKS) {
      ResetTimed(limits, s, d, 1);
    }
    KeptFrom(limits, program, Reset(s), d, 1);
  }

  lemma NextKeeps(limits: AuditLimits, program: seq<Command>, s: ControllerState, input: Input, d: nat)
    requires Sane(limits, program) && Quick(limits, program, d) && Kept(limits, program, s, d, 1)
    ensures Kept(limits, program, Next(s, input), d, 1)
  {
    hide Accept, StartFront, Plants, StartDue, AcceptAll, Sane, Quick, Kept, Inv, Reset;
    match input
    case Elapse(deliveries) =>
      ghost var inv := (c: ControllerState) => Kept(limits, program, c, d, 0);
      forall c: ControllerState, e: CommandEnvelope | inv(c)
        ensures inv(Accept(c, e))
      {
        AcceptKeeps(limits, program, c, e, d, 0);
      }
      forall c: ControllerState | inv(c) && c.queue != []
        ensures inv(StartFront(c))
      {
        StartKeeps(limits, program, c, d);
      }
      var later := s.(now := s.now + STEP_TICKS);
      LaterKeeps(limits, program, s, d);
      AcceptAllKeeps(inv, later, deliveries);
      StartDueKeeps(inv, AcceptAll(later, deliveries));
      PlantsKeep(limits, program, StartDue(AcceptAll(later, deliveries)), d);
    case Receive(e) => AcceptKeeps(limits, program, s, e, d, 1);
    case ResetFault => ResetKeeps(limits, program, s, d);
    case SetWindow(w) =>
      KeptSafe(limits, program, s, d, 1);
      QuietKeepsAxes(limits, program, s, s.(window := w));
      QuietKeeps(limits, program, s, s.(window := w), d, 1);
  }

  lemma NewIsKept(limits: AuditLimits, program: seq<Command>, ambient: i64, heaters: seq<HeaterCfg>,
                  axes: seq<(Text, i64)>, d: nat)
    requires BoundedLimits(limits)
    requires forall k :: 0 <= k < |axes| ==> axes[k].0 in limits.axes ==> axes[k].1 == 0
    ensures Kept(limits, program, New(ambient, heaters, axes), d, 1)
  {
    hide Inv, Leads, Glide;
    var s := New(ambient, heaters, axes);
    StartsAimed(limits, program, ambient, heaters, axes);
    assert StartTimes(s.history) == [];
    forall k | 0 <= k < |s.axes|
      ensures Glide(s.axes[k], 0).motion.None?
    {
      GlideRests(s.axes[k], 0);
    }
  }

  // ----- the theorem ------------------------------------------------------------------------------

  /** When a program passes its audit, moves forward and is done with every command
      for a limited axis in so many steps, then in every run that starts only the
      beginning of it, with starts at least as many steps apart, each such command
      finds its axis at rest, and every limited axis stays inside its limits and is
      at rest where the started commands lead. */
  lemma PacedRunsStayInside(limits: AuditLimits, program: seq<Command>, d: nat, ambient: i64, heaters: seq<HeaterCfg>,
                            axes: seq<(Text, i64)>, inputs: seq<Input>, k: nat)
    requires Findings(limits, program) == [] && BoundedLimits(limits) && RatesForward(program)
      && Quick(limits, program, d)
    requires forall j :: 0 <= j < |axes| ==> axes[j].0 in limits.axes ==> axes[j].1 == 0
    ensures var end := After(New(ambient, heaters, axes), inputs);
      Leads(end.history, program) && Paced(end.history, d * STEP_TICKS) ==>
        && IdleOn(limits, end.history)
        && (k < |end.axes| ==>
              var a := end.axes[k];
              && Within(limits, a.name, a.position)
              && (a.name in limits.axes && FirstNamed(end.axes, k) && a.motion.None? && !end.faulted ==>
                    a.position == Replay(0, CommandsOf(Starteds(end.history)), a.name)))
  {
    hide Replay, Starteds, Leads, IdleOn, Paced, After, Findings, Sane, Quick, Kept, Next, Timed;
    var s := New(ambient, heaters, axes);
    NewIsKept(limits, program, ambient, heaters, axes, d);
    SaneFrom(limits, program);
    PacedRun(limits, program, d, s, inputs);
    var end := After(s, inputs);
    KeptMeaning(limits, program, end, d, 1);
    AuditedRunsStayInside(limits, program, ambient, heaters, axes, inputs, k);
  }

  lemma PacedRun(limits: AuditLimits, program: seq<Command>, d: nat, s: ControllerState, inputs: seq<Input>)
    requires Sane(limits, program) && Quick(limits, program, d) && Kept(limits, program, s, d, 1)
    ensures Kept(limits, program, After(s, inputs), d, 1)
  {
    hide Next, Kept, Sane, Quick;
    var step := (c: ControllerState, i: Input) => Next(c, i);
    ghost var inv := (c: ControllerState) => Kept(limits, program, c, d, 1);
    forall c: ControllerState, i: Input | inv(c)
      ensures inv(step(c, i))
    {
      NextKeeps(limits, program, c, i, d);
    }
    RunKeeps(step, inv, (i: Input) => true, s, inputs);
  }
}
