// The spacing the runner keeps is exactly what its commands may take: with one step
// more some passing program leaves its limits.
module SpacingBound {
  import opened Prelude
  import opened Protocol
  import opened Runs
  import opened Controller
  import opened ControllerLaws
  import opened AxisMotion
  import opened Toolpath
  import opened ToolpathLaws
  import opened AuditedRuns
  import opened PacedRuns
  import opened Runner
  import opened ClosedLoop
  import opened PortionedAudit
  import opened StreamedProgram
  import opened LoopBound
  import opened Completion

  // ----- a bench with one axis ---------------------------------------------------------------

  predicate Bench(c: ControllerState) {
    c.heaters == [] && |c.axes| == 1 && !c.faulted
  }

  predicate NothingDue(c: ControllerState, now: nat) {
    c.queue == [] || c.queue[0].executeAt > now
  }

  lemma BenchPlants(c: ControllerState)
    requires Bench(c)
    ensures Plants(c) == c.(axes := [MoveAxis(c.axes[0])])
  {
    hide MoveAxis;
    OnePlant(c, c.axes[0]);
  }

  /** A step in which nothing is due. */
  lemma QuietStep(c: ControllerState)
    requires Bench(c) && NothingDue(c, c.now + STEP_TICKS)
    ensures Step(c, []) == c.(now := c.now + STEP_TICKS, axes := [MoveAxis(c.axes[0])])
  {
    hide StartFront, Plants, MoveAxis;
    var later := c.(now := c.now + STEP_TICKS);
    assert AcceptAll(later, []) == later;
    assert StartDue(later) == later;
    BenchPlants(later);
  }

  lemma {:induction false} QuietSteps(c: ControllerState, n: nat)
    requires Bench(c) && NothingDue(c, c.now + n * STEP_TICKS)
    ensures Steps(c, Quiet(n)) == c.(now := c.now + n * STEP_TICKS, axes := [Glide(c.axes[0], n)])
    decreases n
  {
    hide Step, MoveAxis;
    if n == 0 {
      assert Quiet(0) == [] && [c.axes[0]] == c.axes;
      assert Steps(c, []) == c;
    } else {
      QuietStep(c);
      assert Quiet(n)[0] == [] && Quiet(n)[1..] == Quiet(n - 1);
      QuietSteps(Step(c, []), n - 1);
      GlideOn(c.axes[0], n - 1);
    }
  }

  lemma StepsSplit(c: ControllerState, m: nat, n: nat)
    ensures Steps(c, Quiet(m + n)) == Steps(Steps(c, Quiet(m)), Quiet(n))
  {
    hide Step;
    assert Quiet(m + n)[..m] == Quiet(m) && Quiet(m + n)[m..] == Quiet(n);
    RunSplits((c: ControllerState, d: seq<CommandEnvelope>) => Step(c, d), c, Quiet(m + n), m);
  }

  lemma OneQuietStep(c: ControllerState)
    ensures Steps(c, Quiet(1)) == Step(c, [])
  {
    hide Step;
    assert Quiet(1) == [[]];
    RunOne((c: ControllerState, d: seq<CommandEnvelope>) => Step(c, d), c, []);
  }

  /** The move at the front of the queue starts. */
  lemma BenchStart(c: ControllerState)
    requires Bench(c) && c.queue != [] && c.queue[0].command.Move? && c.queue[0].command.axis == c.axes[0].name
    ensures var m := c.queue[0].command;
      StartFront(c) == c.(queue := c.queue[1..], axes := [Moving(c.axes[0], m.distanceUm, m.rateUmS)],
                          history := c.history + [StartEvent(c)])
  {
    hide MoveMotion, StartEvent;
    var m, a := c.queue[0].command, c.axes[0];
    SetMotionReaches(c.axes, a.name, MoveMotion(m.distanceUm, m.rateUmS), 0);
    assert SetMotion(c.axes, a.name, MoveMotion(m.distanceUm, m.rateUmS)) == [Moving(a, m.distanceUm, m.rateUmS)];
  }

  /** A step in which one move is due. */
  lemma StartingStep(c: ControllerState)
    requires Bench(c) && c.queue != [] && c.queue[0].command.Move? && c.queue[0].command.axis == c.axes[0].name
    requires c.queue[0].executeAt == c.now + STEP_TICKS
    requires |c.queue| > 1 ==> c.queue[1].executeAt > c.now + STEP_TICKS
    ensures var m, next := c.queue[0].command, Step(c, []);
      next == c.(now := c.now + STEP_TICKS, queue := c.queue[1..],
                 axes := [MoveAxis(Moving(c.axes[0], m.distanceUm, m.rateUmS))], history := next.history)
  {
    hide StartFront, Plants, MoveAxis, Moving, StartEvent;
    var later := c.(now := c.now + STEP_TICKS);
    assert AcceptAll(later, []) == later;
    BenchStart(later);
    assert StartDue(later) == StartDue(StartFront(later));
    assert StartDue(StartFront(later)) == StartFront(later);
    BenchPlants(StartFront(later));
  }

  /** A step in which two moves are due: the second replaces the first. */
  lemma ReplacingStep(c: ControllerState)
    requires Bench(c) && |c.queue| == 2
    requires c.queue[0].command.Move? && c.queue[0].command.axis == c.axes[0].name
    requires c.queue[1].command.Move? && c.queue[1].command.axis == c.axes[0].name
    requires c.queue[0].executeAt == c.queue[1].executeAt == c.now + STEP_TICKS
    ensures var m, next := c.queue[1].command, Step(c, []);
      next == c.(now := c.now + STEP_TICKS, queue := [],
                 axes := [MoveAxis(Moving(c.axes[0], m.distanceUm, m.rateUmS))], history := next.history)
  {
    hide StartFront, Plants, MoveAxis, StartEvent, MoveMotion;
    var later := c.(now := c.now + STEP_TICKS);
    assert AcceptAll(later, []) == later;
    BenchStart(later);
    var once := StartFront(later);
    BenchStart(once);
    assert StartDue(later) == StartDue(once);
    assert StartDue(once) == StartDue(StartFront(once));
    assert StartDue(StartFront(once)) == StartFront(once);
    BenchPlants(StartFront(once));
  }

  // ----- there and back ---------------------------------------------------------------------------

  /** A move of that many steps, and one that takes it back in a single step. */
  function Forth(n: nat): Command
    requires n < I64_LIMIT
  {
    Move(X, n, 1000)
  }

  function Return(n: nat): Command
    requires n * 1000 < I64_LIMIT
  {
    Move(X, 0 - n, n * 1000)
  }

  function Trip(n: nat): seq<Command>
    requires n * 1000 < I64_LIMIT
  {
    [Forth(n), Return(n)]
  }

  function Shelf(n: nat, maxFeed: u64): AuditLimits
    requires n * 1000 < I64_LIMIT
  {
    AuditLimits(map[X := AxisLimit(0, n)], maxFeed, map[])
  }

  lemma TripPasses(n: nat, maxFeed: u64)
    requires 1 <= n && n * 1000 < I64_LIMIT - 1000 && (maxFeed == 0 || n * 1000 <= maxFeed)
    ensures Findings(Shelf(n, maxFeed), Trip(n)) == [] && BoundedLimits(Shelf(n, maxFeed)) && RatesForward(Trip(n))
  {
    hide Findings, Audited;
    OneFinding(Shelf(n, maxFeed), Forth(n));
    TwoFindings(Shelf(n, maxFeed), Forth(n), Return(n));
  }

  lemma TripIsQuick(n: nat, maxFeed: u64, d: nat)
    requires 1 <= n <= d && n * 1000 < I64_LIMIT - 1000
    ensures Quick(Shelf(n, maxFeed), Trip(n), d)
  {
    hide DoneIn, Speed;
    var limits := Shelf(n, maxFeed);
    SpeedMeaning(1000);
    SpeedMeaning(n * 1000);
    assert BoundedLimits(limits);
    DoneInExactly(limits, Forth(n), d);
    DoneInExactly(limits, Return(n), d);
    assert d * n >= n;
  }

  /** The way out, and the one step back. */
  lemma ForthGlides(n: nat, g: nat)
    requires g < n && n * 1000 < I64_LIMIT - 1000
    ensures g >= 1 ==> Glide(MoveAxis(Moving(Axis(X, 0, None), n, 1000)), g - 1).position == g
    ensures g >= 1 ==> Glide(MoveAxis(Moving(Axis(X, 0, None), n, 1000)), g - 1).name == X
  {
    hide Glide, Speed, MoveMotion;
    if g >= 1 {
      var a := Axis(X, 0, None);
      SpeedMeaning(1000);
      GlideOn(Moving(a, n, 1000), g - 1);
      MoveAfter(a, n, 1000, g);
    }
  }

  lemma ReturnsAtOnce(a: Axis, n: nat)
    requires 1 <= n && n * 1000 < I64_LIMIT - 1000
    ensures MoveAxis(Moving(a, 0 - n, n * 1000)) == a.(position := a.position - n, motion := None)
  {
    hide Speed, MoveMotion;
    SpeedMeaning(n * 1000);
    MoveStarts(a, 0 - n, n * 1000);
  }

  // ----- the runner's side -------------------------------------------------------------------------

  /** Where a run of the trip stands. */
  predicate Stage(w: Loop, cfg: RunnerConfig, window: QueueWindow, now: nat, axis: Axis, queue: seq<Queued>,
                  jobs: seq<CommandEnvelope>, last: Option<u64>) {
    var c := w.controller;
    && w.runner.cfg == cfg && c.window == window && c.capacity == QUEUE_CAPACITY && !c.faulted && c.heaters == []
    && c.now == now && c.axes == [axis] && c.queue == queue
    && w.runner.jobs == jobs && w.runner.lastTick == last
    && w.runner.phase != Faulted && w.runner.phase != UnderrunWarning
  }

  lemma SendsCount(w: Loop, n: nat)
    requires Small(w) && !w.controller.faulted && w.runner.phase != Faulted && w.runner.phase != UnderrunWarning
    requires w.runner.jobs != [] && |w.controller.queue| < Horizon(w) && w.runner.cfg.maxBatch >= 1
    requires n == Min(Min(Horizon(w) - |w.controller.queue|, w.runner.cfg.maxBatch), |w.runner.jobs|)
    ensures var (runner, batch) := NextBatch(Observe(w.runner, StatusOf(w.controller, true)));
      var taken := TakeJobs(Observe(w.runner, StatusOf(w.controller, true)), n, Earliest(w.controller),
        Latest(w.controller));
      && batch == taken.batch && runner.jobs == w.runner.jobs[n..] && runner.lastTick == taken.runner.lastTick
      && runner.cfg == w.runner.cfg && runner.phase != Faulted && runner.phase != UnderrunWarning
  {
    hide Earliest, Latest, TakeJobs;
    var status := StatusOf(w.controller, true);
    var seen := Observe(w.runner, status);
    BatchShape(seen, status);
    TakeCounts(seen, n, status.earliest, status.latest);
  }

  lemma CycleTurns(w: Loop, steps: seq<seq<CommandEnvelope>>)
    ensures var (runner, batch) := NextBatch(Observe(w.runner, StatusOf(w.controller, true)));
      var next := Turned(w, Cycle(true, steps));
      && next.controller == Steps(AcceptAll(w.controller, batch), steps) && next.runner == runner
      && next.submitted == w.submitted
  {
    hide NextBatch, Observe, StatusOf, AcceptAll, Steps;
  }

  /** A job timed inside the window behind all that is queued. */
  lemma Received(c: ControllerState, e: CommandEnvelope)
    requires !c.faulted && |c.queue| < c.capacity && !e.command.Heartbeat? && e.executeAt.Some?
    requires e.executeAt.value % STEP_TICKS == 0 && Earliest(c) <= e.executeAt.value <= Latest(c)
    requires forall k :: 0 <= k < |c.queue| ==> c.queue[k].executeAt <= e.executeAt.value
    ensures Accept(c, e) == c.(queue := c.queue + [EntryOf(e)], history := c.history + [Accepted(c.now, EntryOf(e))])
  {
    hide Earliest, Latest, Insert;
    AppendsLast(c.queue, EntryOf(e));
  }

  function Due(tick: u64, command: Command): Queued {
    Queued(tick, command, true)
  }

  function Job(command: Command): CommandEnvelope {
    CommandEnvelope(None, command)
  }

  /** The settings of a run: whole spacing, and all ticks in range. */
  predicate Roomy(w: Loop) {
    && Compatible(w, ByRunner, 0) && Open(w) && w.controller.capacity == QUEUE_CAPACITY
    && w.controller.window.maxHorizon < I64_LIMIT / 2
  }

  lemma RoomySettings(w: Loop)
    requires Roomy(w)
    ensures Lead(w) % STEP_TICKS == 0 && Spacing(w) % STEP_TICKS == 0 && STEP_TICKS <= Lead(w)
    ensures Lead(w) <= w.controller.window.maxHorizon && Spacing(w) <= w.controller.window.maxHorizon
    ensures Horizon(w) >= 2 ==> Spacing(w) == Margin(w) && Lead(w) + Margin(w) <= w.controller.window.maxHorizon
    ensures Horizon(w) == 1 ==> Spacing(w) == Max(Lead(w), Margin(w))
  {
    SpreadPositive(Horizon(w), Margin(w));
    if Horizon(w) >= 2 {
      MoreSpread(Horizon(w), Margin(w));
    }
  }

  lemma MoreSpread(horizon: int, margin: int)
    requires horizon >= 2 && margin >= 0
    ensures (horizon - 1) * margin >= margin
  {
    SpreadPositive(horizon - 1, margin);
    assert (horizon - 1) * margin == (horizon - 2) * margin + margin;
  }

  // ----- the steps ---------------------------------------------------------------------------------

  const HERE := Axis(X, 0, None)

  function Leaving(n: nat): Axis
    requires n < I64_LIMIT
  {
    MoveAxis(Moving(HERE, n, 1000))
  }

  /** What a run changes on the bench. */
  predicate Ran(c: ControllerState, next: ControllerState, now: nat, axis: Axis, queue: seq<Queued>) {
    next == c.(now := now, axes := [axis], queue := queue, history := next.history)
  }

  /** The way out starts when its tick comes. */
  lemma OutSteps(c: ControllerState, l: nat, n: nat, rest: seq<Queued>)
    requires Bench(c) && c.axes == [HERE] && l >= 1 && n * 1000 < I64_LIMIT - 1000
    requires c.now + l * STEP_TICKS < U64_LIMIT
    requires c.queue == [Due(c.now + l * STEP_TICKS, Forth(n))] + rest
    requires rest != [] ==> rest[0].executeAt > c.now + l * STEP_TICKS
    ensures Ran(c, Steps(c, Quiet(l)), c.now + l * STEP_TICKS, Leaving(n), rest)
  {
    hide Step, MoveAxis, Moving;
    StepsSplit(c, l - 1, 1);
    QuietSteps(c, l - 1);
    GlideRests(HERE, l - 1);
    var before := Steps(c, Quiet(l - 1));
    OneQuietStep(before);
    StartingStep(before);
    assert before.queue[1..] == rest;
  }

  /** The way back replaces it, before it is done. */
  lemma BackSteps(c: ControllerState, g: nat, n: nat)
    requires Bench(c) && 1 <= g < n && n * 1000 < I64_LIMIT - 1000 && c.axes == [Leaving(n)]
    requires c.now + g * STEP_TICKS < U64_LIMIT
    requires c.queue == [Due(c.now + g * STEP_TICKS, Return(n))]
    ensures Ran(c, Steps(c, Quiet(g)), c.now + g * STEP_TICKS, Axis(X, g - n, None), [])
  {
    hide Step, MoveAxis, Moving, Glide;
    StepsSplit(c, g - 1, 1);
    QuietSteps(c, g - 1);
    ForthGlides(n, g);
    var before := Steps(c, Quiet(g - 1));
    OneQuietStep(before);
    StartingStep(before);
    ReturnsAtOnce(before.axes[0], n);
  }

  lemma RanOn(c: ControllerState, d: ControllerState, e: ControllerState, now: nat, a: Axis, q: seq<Queued>,
              later: nat, b: Axis, r: seq<Queued>)
    requires Ran(c, d, now, a, q) && Ran(d, e, later, b, r)
    ensures Ran(c, e, later, b, r)
  {
  }

  /** The trip of two queued commands. */
  lemma TripSteps(c: ControllerState, l: nat, g: nat, n: nat)
    requires Bench(c) && c.axes == [HERE] && l >= 1 && g < n && n * 1000 < I64_LIMIT - 1000
    requires c.now + l * STEP_TICKS + g * STEP_TICKS < U64_LIMIT
    requires c.queue == [Due(c.now + l * STEP_TICKS, Forth(n)), Due(c.now + l * STEP_TICKS + g * STEP_TICKS, Return(n))]
    ensures Ran(c, Steps(c, Quiet(l + g)), c.now + l * STEP_TICKS + g * STEP_TICKS, Axis(X, g - n, None), [])
  {
    hide Step, MoveAxis, Moving, Steps, Ran;
    var rest := [c.queue[1]];
    var tick := c.now + l * STEP_TICKS;
    assert c.queue == [c.queue[0]] + rest;
    if g == 0 {
      BothAtOnce(c, l, n);
    } else {
      OutSteps(c, l, n, rest);
      var middle := Steps(c, Quiet(l));
      RanMeans(c, middle, tick, Leaving(n), rest);
      BackSteps(middle, g, n);
      StepsSplit(c, l, g);
      RanOn(c, middle, Steps(middle, Quiet(g)), tick, Leaving(n), rest, tick + g * STEP_TICKS, Axis(X, g - n, None),
        []);
    }
  }

  lemma RanMeans(c: ControllerState, next: ControllerState, now: nat, axis: Axis, queue: seq<Queued>)
    requires Ran(c, next, now, axis, queue) && Bench(c)
    ensures Bench(next) && next.now == now && next.axes == [axis] && next.queue == queue
    ensures next.capacity == c.capacity && next.window == c.window
  {
  }

  lemma BothAtOnce(c: ControllerState, l: nat, n: nat)
    requires Bench(c) && c.axes == [HERE] && l >= 1 && 1 <= n && n * 1000 < I64_LIMIT - 1000
    requires c.now + l * STEP_TICKS < U64_LIMIT
    requires c.queue == [Due(c.now + l * STEP_TICKS, Forth(n)), Due(c.now + l * STEP_TICKS, Return(n))]
    ensures Ran(c, Steps(c, Quiet(l)), c.now + l * STEP_TICKS, Axis(X, 0 - n, None), [])
  {
    hide Step, MoveAxis, Moving;
    StepsSplit(c, l - 1, 1);
    QuietSteps(c, l - 1);
    GlideRests(HERE, l - 1);
    var before := Steps(c, Quiet(l - 1));
    OneQuietStep(before);
    ReplacingStep(before);
    ReturnsAtOnce(HERE, n);
  }

  // ----- the turns -----------------------------------------------------------------------------------

  lemma TakesOne(r: RunnerState, earliest: u64, latest: u64)
    requires r.jobs != [] && r.jobs[0].executeAt.None?
    ensures var tick := FirstTick(r.lastTick, r.cfg.leadMargin, earliest);
      var t := TakeJobs(r, 1, earliest, latest);
      t.batch == [CommandEnvelope(Some(tick), r.jobs[0].command)] && t.runner.lastTick == Some(tick)
  {
    hide FirstTick, Assign;
    UntimedTick(r.jobs[0], r.lastTick, r.cfg.leadMargin, earliest, latest);
    assert TakeJobs(r, 0, earliest, latest) == Taking(r, []);
  }

  lemma TakesTwo(r: RunnerState, earliest: u64, latest: u64)
    requires |r.jobs| == 2 && r.jobs[0].executeAt.None? && r.jobs[1].executeAt.None?
    ensures var tick := FirstTick(r.lastTick, r.cfg.leadMargin, earliest);
      var second := FirstTick(Some(tick), r.cfg.leadMargin, earliest);
      var t := TakeJobs(r, 2, earliest, latest);
      && t.batch == [CommandEnvelope(Some(tick), r.jobs[0].command), CommandEnvelope(Some(second), r.jobs[1].command)]
      && t.runner.lastTick == Some(second)
  {
    hide FirstTick, Assign;
    TakesOne(r, earliest, latest);
    TakeCounts(r, 1, earliest, latest);
    var one := TakeJobs(r, 1, earliest, latest);
    assert one.runner.jobs[0] == r.jobs[1];
    UntimedTick(r.jobs[1], one.runner.lastTick, r.cfg.leadMargin, earliest, latest);
  }

  /** One job dispatched and received, then time. */
  lemma OneJobCycle(w: Loop, cfg: RunnerConfig, window: QueueWindow, now: nat, axis: Axis, queue: seq<Queued>,
                    job: Command, rest: seq<CommandEnvelope>, last: Option<u64>, n: nat)
    requires Stage(w, cfg, window, now, axis, queue, [Job(job)] + rest, last)
    requires |queue| < Horizon(w) && w.runner.cfg.maxBatch >= 1 && !job.Heartbeat?
    requires rest == [] || Horizon(w) - |queue| == 1 || w.runner.cfg.maxBatch == 1
    requires now + window.maxHorizon < U64_LIMIT - 1 && window.minLead <= window.maxHorizon
    requires var tick := if last.Some? then Max(now + window.minLead, last.value + cfg.leadMargin)
      else now + window.minLead;
      && tick % STEP_TICKS == 0 && tick <= now + window.maxHorizon
      && forall k :: 0 <= k < |queue| ==> queue[k].executeAt <= tick
    ensures var tick := if last.Some? then Max(now + window.minLead, last.value + cfg.leadMargin)
      else now + window.minLead;
      var next := Turned(w, Cycle(true, Quiet(n)));
      var received := next.runner.lastTick;
      && received == Some(tick) && next.runner.jobs == rest && next.runner.cfg == cfg && next.submitted == w.submitted
      && next.runner.phase != Faulted && next.runner.phase != UnderrunWarning
      && exists c: ControllerState :: Ran(w.controller, c, now, axis, queue + [Due(tick, job)])
                                      && next.controller == Steps(c, Quiet(n))
  {
    hide NextBatch, Observe, StatusOf, AcceptAll, Steps, TakeJobs, Earliest, Latest, FirstTick, Accept;
    var c := w.controller;
    var tick := if last.Some? then Max(now + window.minLead, last.value + cfg.leadMargin) else now + window.minLead;
    WindowAhead(c);
    SendsCount(w, 1);
    var seen := Observe(w.runner, StatusOf(c, true));
    ObserveKeepsJobs(w.runner, StatusOf(c, true));
    TakesOne(seen, Earliest(c), Latest(c));
    FirstTickIs(last, cfg.leadMargin, Earliest(c), tick);
    var e := CommandEnvelope(Some(tick), job);
    CycleTurns(w, Quiet(n));
    Received(c, e);
    AcceptsOne(c, e);
    assert ([Job(job)] + rest)[1..] == rest;
    assert Ran(c, Accept(c, e), now, axis, queue + [Due(tick, job)]);
  }

  lemma WindowAhead(c: ControllerState)
    requires c.now + c.window.maxHorizon < U64_LIMIT - 1 && c.window.minLead <= c.window.maxHorizon
    ensures Earliest(c) == c.now + c.window.minLead && Latest(c) == c.now + c.window.maxHorizon
  {
  }

  lemma FirstTickIs(last: Option<u64>, margin: u64, earliest: u64, tick: int)
    requires tick < U64_LIMIT - 1 && tick == if last.Some? then Max(earliest, last.value + margin) else earliest
    ensures FirstTick(last, margin, earliest) == tick
  {
  }

  lemma AcceptsOne(c: ControllerState, e: CommandEnvelope)
    ensures AcceptAll(c, [e]) == Accept(c, e)
  {
    hide Accept;
    RunOne((c: ControllerState, e: CommandEnvelope) => Accept(c, e), c, e);
  }

  /** Both jobs dispatched at once and received, then time. */
  lemma BothJobsCycle(w: Loop, cfg: RunnerConfig, window: QueueWindow, a: Command, b: Command, n: nat)
    requires Stage(w, cfg, window, 0, HERE, [], [Job(a), Job(b)], None) && !a.Heartbeat? && !b.Heartbeat?
    requires Horizon(w) >= 2 && w.runner.cfg.maxBatch >= 2 && window.maxHorizon < U64_LIMIT - 1
    requires window.minLead % STEP_TICKS == 0 && (window.minLead + cfg.leadMargin) % STEP_TICKS == 0
    requires window.minLead + cfg.leadMargin <= window.maxHorizon
    ensures var next := Turned(w, Cycle(true, Quiet(n)));
      var second := window.minLead + cfg.leadMargin;
      && next.runner.jobs == [] && next.runner.cfg == cfg && next.submitted == w.submitted
      && next.runner.phase != Faulted && next.runner.phase != UnderrunWarning
      && exists c: ControllerState :: Ran(w.controller, c, 0, HERE, [Due(window.minLead, a), Due(second, b)])
                                      && next.controller == Steps(c, Quiet(n))
  {
    hide NextBatch, Observe, StatusOf, AcceptAll, Steps, TakeJobs, Earliest, Latest, FirstTick, Accept;
    var c := w.controller;
    var lead, second := window.minLead, window.minLead + cfg.leadMargin;
    WindowAhead(c);
    SendsCount(w, 2);
    var seen := Observe(w.runner, StatusOf(c, true));
    ObserveKeepsJobs(w.runner, StatusOf(c, true));
    TakesTwo(seen, Earliest(c), Latest(c));
    FirstTickIs(None, cfg.leadMargin, Earliest(c), lead);
    FirstTickIs(Some(lead), cfg.leadMargin, Earliest(c), second);
    var e, f := CommandEnvelope(Some(lead), a), CommandEnvelope(Some(second), b);
    CycleTurns(w, Quiet(n));
    Received(c, e);
    SameWindow(c, Accept(c, e));
    Received(Accept(c, e), f);
    AcceptsTwo(c, e, f);
    assert Ran(c, Accept(Accept(c, e), f), 0, HERE, [Due(lead, a), Due(second, b)]);
  }

  lemma AcceptsTwo(c: ControllerState, e: CommandEnvelope, f: CommandEnvelope)
    ensures AcceptAll(c, [e, f]) == Accept(Accept(c, e), f)
  {
    hide Accept;
    assert [e, f][1..] == [f];
    AcceptsOne(Accept(c, e), f);
  }

  // ----- the run ----------------------------------------------------------------------------------------

  function TripLoop(n: nat, maxFeed: u64, window: QueueWindow, cfg: RunnerConfig): Loop
    requires n * 1000 < I64_LIMIT
  {
    StreamLoop(0, [], [(X, 0)], window, cfg, Some(Shelf(n, maxFeed)))
  }

  /** The trip submitted to a new loop. */
  lemma TripSubmitted(n: nat, maxFeed: u64, window: QueueWindow, cfg: RunnerConfig)
    requires 1 <= n && n * 1000 < I64_LIMIT - 1000 && (maxFeed == 0 || n * 1000 <= maxFeed)
    ensures var next := Turned(TripLoop(n, maxFeed, window, cfg), Submit(JobsOf(Trip(n))));
      && Stage(next, cfg, window, 0, HERE, [], JobsOf(Trip(n)), None) && next.submitted == JobsOf(Trip(n))
      && CommandsIn(JobsOf(Trip(n))) == Trip(n)
  {
    hide Findings;
    TripPasses(n, maxFeed);
    var jobs := JobsOf(Trip(n));
    assert CommandsIn(jobs) == Trip(n);
    NoneSubmitted(jobs);
    assert TripLoop(n, maxFeed, window, cfg).controller.axes == [HERE];
  }

  /** Where the trip ends: back too early, and past the end of the axis. */
  predicate Escaped(w: Loop, cfg: RunnerConfig, window: QueueWindow, n: nat, g: nat)
    requires n * 1000 < I64_LIMIT
  {
    && w.submitted == JobsOf(Trip(n)) && w.runner.jobs == [] && w.controller.queue == [] && w.runner.cfg == cfg
    && w.controller.axes == [Axis(X, g - n, None)] && w.controller.window == window
    && w.controller.now <= 2 * window.maxHorizon && w.runner.phase != Faulted && w.runner.phase != UnderrunWarning
  }

  /** Settings of the trip, in steps. */
  predicate TripSettings(window: QueueWindow, cfg: RunnerConfig, horizon: nat, l: nat, g: nat) {
    && window.minLead == l * STEP_TICKS && l >= 1 && window.minLead <= window.maxHorizon < I64_LIMIT / 2
    && cfg.maxBatch >= 1 && horizon == Min(cfg.targetHorizon, QUEUE_CAPACITY)
    && if horizon == 1 then g * STEP_TICKS == Max(window.minLead, cfg.leadMargin) <= window.maxHorizon
       else horizon >= 2 && g * STEP_TICKS == cfg.leadMargin && window.minLead + cfg.leadMargin <= window.maxHorizon
  }

  lemma TwoSteps(l: nat, g: nat)
    ensures (l * STEP_TICKS) % STEP_TICKS == 0 && (l * STEP_TICKS + g * STEP_TICKS) % STEP_TICKS == 0
  {
  }

  lemma JobsOfTrip(n: nat)
    requires n * 1000 < I64_LIMIT
    ensures JobsOf(Trip(n)) == [Job(Forth(n))] + [Job(Return(n))] == [Job(Forth(n)), Job(Return(n))]
  {
  }

  /** With room for both, dispatched at once. */
  lemma TripAtOnce(w: Loop, n: nat, window: QueueWindow, cfg: RunnerConfig, l: nat, g: nat)
    requires 1 <= n && g < n && n * 1000 < I64_LIMIT - 1000 && TripSettings(window, cfg, Horizon(w), l, g)
    requires Stage(w, cfg, window, 0, HERE, [], JobsOf(Trip(n)), None) && w.submitted == JobsOf(Trip(n))
    requires Horizon(w) >= 2 && cfg.maxBatch >= 2
    ensures Escaped(Turned(w, Cycle(true, Quiet(l + g))), cfg, window, n, g)
  {
    hide Steps, Ran, Turned;
    JobsOfTrip(n);
    TwoSteps(l, g);
    BothJobsCycle(w, cfg, window, Forth(n), Return(n), l + g);
    var next := Turned(w, Cycle(true, Quiet(l + g)));
    var c: ControllerState :| Ran(w.controller, c, 0, HERE,
      [Due(l * STEP_TICKS, Forth(n)), Due(l * STEP_TICKS + g * STEP_TICKS, Return(n))])
                              && next.controller == Steps(c, Quiet(l + g));
    RanMeans(w.controller, c, 0, HERE, [Due(l * STEP_TICKS, Forth(n)),
      Due(l * STEP_TICKS + g * STEP_TICKS, Return(n))]);
    TripSteps(c, l, g, n);
    RanMeans(c, next.controller, l * STEP_TICKS + g * STEP_TICKS, Axis(X, g - n, None), []);
  }

  /** With room for both, dispatched one after the other. */
  lemma TripInTwo(w: Loop, n: nat, window: QueueWindow, cfg: RunnerConfig, l: nat, g: nat)
    requires 1 <= n && g < n && n * 1000 < I64_LIMIT - 1000 && TripSettings(window, cfg, Horizon(w), l, g)
    requires Stage(w, cfg, window, 0, HERE, [], JobsOf(Trip(n)), None) && w.submitted == JobsOf(Trip(n))
    requires Horizon(w) >= 2 && cfg.maxBatch == 1
    ensures Escaped(Turned(Turned(w, Cycle(true, Quiet(0))), Cycle(true, Quiet(l + g))), cfg, window, n, g)
  {
    hide Steps, Ran, Turned;
    JobsOfTrip(n);
    TwoSteps(l, g);
    var lead, tick := l * STEP_TICKS, l * STEP_TICKS + g * STEP_TICKS;
    NoneBefore(Due(lead, Forth(n)), Due(tick, Return(n)), Job(Return(n)));
    OneJobCycle(w, cfg, window, 0, HERE, [], Forth(n), [Job(Return(n))], None, 0);
    var one := Turned(w, Cycle(true, Quiet(0)));
    var c: ControllerState :| Ran(w.controller, c, 0, HERE, [] + [Due(lead, Forth(n))])
      && one.controller == Steps(c, Quiet(0));
    RanMeans(w.controller, c, 0, HERE, [Due(lead, Forth(n))]);
    NoSteps(c);
    assert Horizon(one) == Horizon(w);
    OneJobCycle(one, cfg, window, 0, HERE, [Due(lead, Forth(n))], Return(n), [], Some(lead), l + g);
    var two := Turned(one, Cycle(true, Quiet(l + g)));
    var d: ControllerState :|
      Ran(c, d, 0, HERE, [Due(lead, Forth(n))] + [Due(tick, Return(n))]) && two.controller == Steps(d, Quiet(l + g));
    RanMeans(c, d, 0, HERE, [Due(lead, Forth(n)), Due(tick, Return(n))]);
    TripSteps(d, l, g, n);
    RanMeans(d, two.controller, tick, Axis(X, g - n, None), []);
  }

  lemma NoneBefore(p: Queued, q: Queued, job: CommandEnvelope)
    ensures [] + [p] == [p] == [p] + [] && [] + [q] == [q] && [p] + [q] == [p, q] && [job] + [] == [job]
  {
  }

  lemma NoSteps(c: ControllerState)
    ensures Steps(c, Quiet(0)) == c
  {
    assert Quiet(0) == [];
  }

  /** With room for one, dispatched when the other has started. */
  lemma TripInTurn(w: Loop, n: nat, window: QueueWindow, cfg: RunnerConfig, l: nat, g: nat)
    requires 1 <= n && g < n && n * 1000 < I64_LIMIT - 1000 && TripSettings(window, cfg, Horizon(w), l, g)
    requires Stage(w, cfg, window, 0, HERE, [], JobsOf(Trip(n)), None) && w.submitted == JobsOf(Trip(n))
    requires Horizon(w) == 1
    ensures Escaped(Turned(Turned(w, Cycle(true, Quiet(l))), Cycle(true, Quiet(g))), cfg, window, n, g)
  {
    hide Steps, Ran, Turned, Leaving;
    JobsOfTrip(n);
    TwoSteps(l, g);
    var lead, tick := l * STEP_TICKS, l * STEP_TICKS + g * STEP_TICKS;
    NoneBefore(Due(lead, Forth(n)), Due(tick, Return(n)), Job(Return(n)));
    OneJobCycle(w, cfg, window, 0, HERE, [], Forth(n), [Job(Return(n))], None, l);
    var one := Turned(w, Cycle(true, Quiet(l)));
    var c: ControllerState :| Ran(w.controller, c, 0, HERE, [] + [Due(lead, Forth(n))])
      && one.controller == Steps(c, Quiet(l));
    RanMeans(w.controller, c, 0, HERE, [Due(lead, Forth(n))]);
    OutSteps(c, l, n, []);
    RanMeans(c, one.controller, lead, Leaving(n), []);
    assert Horizon(one) == Horizon(w);
    OneJobCycle(one, cfg, window, lead, Leaving(n), [], Return(n), [], Some(lead), g);
    var two := Turned(one, Cycle(true, Quiet(g)));
    var d: ControllerState :|
      Ran(one.controller, d, lead, Leaving(n), [] + [Due(tick, Return(n))]) && two.controller == Steps(d, Quiet(g));
    RanMeans(one.controller, d, lead, Leaving(n), [Due(tick, Return(n))]);
    BackSteps(d, g, n);
    RanMeans(d, two.controller, tick, Axis(X, g - n, None), []);
  }

  /** The cycles of the trip, by how many commands the queue and a batch hold. */
  function TripCycles(cfg: RunnerConfig, horizon: nat, l: nat, g: nat): seq<Turn> {
    if horizon == 1 then [Cycle(true, Quiet(l)), Cycle(true, Quiet(g))]
    else if cfg.maxBatch == 1 then [Cycle(true, Quiet(0)), Cycle(true, Quiet(l + g))]
    else [Cycle(true, Quiet(l + g))]
  }

  lemma TripRuns(w: Loop, n: nat, window: QueueWindow, cfg: RunnerConfig, l: nat, g: nat)
    requires 1 <= n && g < n && n * 1000 < I64_LIMIT - 1000 && TripSettings(window, cfg, Horizon(w), l, g)
    requires Stage(w, cfg, window, 0, HERE, [], JobsOf(Trip(n)), None) && w.submitted == JobsOf(Trip(n))
    ensures Escaped(Turns(w, TripCycles(cfg, Horizon(w), l, g)), cfg, window, n, g)
  {
    hide Turned, Stage, Escaped;
    if Horizon(w) == 1 {
      TripInTurn(w, n, window, cfg, l, g);
      TwoTurns(w, Cycle(true, Quiet(l)), Cycle(true, Quiet(g)));
    } else if cfg.maxBatch == 1 {
      TripInTwo(w, n, window, cfg, l, g);
      TwoTurns(w, Cycle(true, Quiet(0)), Cycle(true, Quiet(l + g)));
    } else {
      TripAtOnce(w, n, window, cfg, l, g);
      OneTurn(w, Cycle(true, Quiet(l + g)));
    }
  }

  function TripTurns(n: nat, cfg: RunnerConfig, horizon: nat, l: nat, g: nat): seq<Turn>
    requires n * 1000 < I64_LIMIT
  {
    [Submit(JobsOf(Trip(n)))] + TripCycles(cfg, horizon, l, g)
  }

  lemma TripIsOrderly(n: nat, cfg: RunnerConfig, horizon: nat, l: nat, g: nat)
    requires n * 1000 < I64_LIMIT
    ensures var turns := TripTurns(n, cfg, horizon, l, g);
      && turns[0] == Submit(JobsOf(Trip(n))) && turns[1..] == TripCycles(cfg, horizon, l, g)
      && (forall k :: 0 <= k < |turns| ==> Orderly(ByRunner, turns[k]))
      && (forall k :: 1 <= k < |turns| ==> turns[k].Cycle?)
  {
    JobsUntimed(Trip(n));
  }

  lemma QuietTrip(n: nat)
    requires n * 1000 < I64_LIMIT
    ensures Pulse(Trip(n)) == 0
  {
    assert Trip(n)[1..] == [Return(n)] && [Return(n)][1..] == [];
    assert Pulse([Return(n)]) == 0;
  }

  /** The loop after the trip, still calm. */
  lemma TripIsCalm(n: nat, maxFeed: u64, window: QueueWindow, cfg: RunnerConfig, l: nat, g: nat)
    requires 1 <= n && g < n && n * 1000 < I64_LIMIT - 1000 && (maxFeed == 0 || n * 1000 <= maxFeed)
    requires TripSettings(window, cfg, Min(cfg.targetHorizon, QUEUE_CAPACITY), l, g)
    requires Compatible(TripLoop(n, maxFeed, window, cfg), ByRunner, 0)
    ensures var w := Turns(TripLoop(n, maxFeed, window, cfg),
      TripTurns(n, cfg, Min(cfg.targetHorizon, QUEUE_CAPACITY), l, g));
      Escaped(w, cfg, window, n, g) && Between(w) && CommandsIn(w.submitted) == Trip(n) && Ranged(w.controller)
  {
    hide Turned, Compatible, Stage, Calm, Counted, Pulse, JobsOf, CommandsIn, Trip;
    var horizon := Min(cfg.targetHorizon, QUEUE_CAPACITY);
    var start := TripLoop(n, maxFeed, window, cfg);
    var turns := TripTurns(n, cfg, horizon, l, g);
    TripIsOrderly(n, cfg, horizon, l, g);
    TripSubmitted(n, maxFeed, window, cfg);
    var submitted := Turned(start, Submit(JobsOf(Trip(n))));
    TurnKeepsConfig(start, Submit(JobsOf(Trip(n))));
    assert Horizon(submitted) == horizon;
    TripRuns(submitted, n, window, cfg, l, g);
    TurnsHead(start, turns);
    QuietTrip(n);
    StartsCalm(New(0, [], [(X, 0)]).(window := window), cfg, Some(Shelf(n, maxFeed)), ByRunner, 0);
    TurnsKeep(start, turns, ByRunner, 0);
    ConfigStays(start, turns);
    CalmUnfaulted(Turns(start, turns));
  }

  /** A run that meets everything asked of a program but the pace: it passes its audit
      in one portion, is streamed to reported completion under compatible settings,
      and leaves the axis at rest past the end of its limits. */
  lemma TripEscapes(n: nat, maxFeed: u64, window: QueueWindow, cfg: RunnerConfig, l: nat, g: nat)
    returns (turns: seq<Turn>)
    requires 1 <= n && g < n && n * 1000 < I64_LIMIT - 1000 && (maxFeed == 0 || n * 1000 <= maxFeed)
    requires TripSettings(window, cfg, Min(cfg.targetHorizon, QUEUE_CAPACITY), l, g)
    requires Compatible(TripLoop(n, maxFeed, window, cfg), ByRunner, 0)
    ensures forall k :: 0 <= k < |turns| ==> Orderly(ByRunner, turns[k])
    ensures Portioned(Shelf(n, maxFeed), TripLoop(n, maxFeed, window, cfg), turns)
    ensures var end := Turns(TripLoop(n, maxFeed, window, cfg), turns);
      && Ranged(end.controller) && CommandsIn(end.submitted) == Trip(n) && end.runner.phase == Completed
      && end.controller.axes == [Axis(X, g - n, None)]
  {
    hide Turned, Compatible, Between, Portioned, JobsOf, CommandsIn, Trip;
    var horizon := Min(cfg.targetHorizon, QUEUE_CAPACITY);
    var start := TripLoop(n, maxFeed, window, cfg);
    var trip := TripTurns(n, cfg, horizon, l, g);
    var last := Cycle(true, []);
    TripIsOrderly(n, cfg, horizon, l, g);
    TripIsCalm(n, maxFeed, window, cfg, l, g);
    var done := Turns(start, trip);
    assert done.submitted != [] by { JobsOfTrip(n); }
    LastCycle(done);
    turns := trip + [last];
    TurnsAppend(start, trip, [last]);
    OneTurn(done, last);
    assert Orderly(ByRunner, last);
    var cycles := TripCycles(cfg, horizon, l, g) + [last];
    assert turns == [Submit(JobsOf(Trip(n)))] + cycles;
    OnePortion(Shelf(n, maxFeed), start, JobsOf(Trip(n)), cycles);
  }

  // ----- the theorem -------------------------------------------------------------------------------------

  /** Every run of a passing program that is done with each command for a limited axis
      in so many steps keeps every limited axis inside its limits. */
  ghost predicate StaysInside(limits: AuditLimits, ambient: i64, heaters: seq<HeaterCfg>, axes: seq<(Text, i64)>,
                              window: QueueWindow, cfg: RunnerConfig, beats: nat, d: nat, turns: seq<Turn>) {
    var start := StreamLoop(ambient, heaters, axes, window, cfg, Some(limits));
    var end := Turns(start, turns);
    var c, submitted := end.controller, CommandsIn(end.submitted);
    && BoundedLimits(limits) && (forall j :: 0 <= j < |axes| ==> axes[j].0 in limits.axes ==> axes[j].1 == 0)
    && (forall j :: 0 <= j < |turns| ==> Orderly(ByRunner, turns[j])) && Portioned(limits, start, turns)
    && Ranged(c) && Pulse(submitted) <= beats && RatesForward(submitted) && Quick(limits, submitted, d) ==>
      forall k :: 0 <= k < |c.axes| ==> Within(limits, c.axes[k].name, c.axes[k].position)
  }

  ghost predicate Contained(window: QueueWindow, cfg: RunnerConfig, beats: nat, d: nat) {
    forall limits: AuditLimits, ambient: i64, heaters: seq<HeaterCfg>, axes: seq<(Text, i64)>, turns: seq<Turn> ::
      StaysInside(limits, ambient, heaters, axes, window, cfg, beats, d, turns)
  }

  /** The loop's settings alone. */
  function Settings(window: QueueWindow, cfg: RunnerConfig): Loop {
    StreamLoop(0, [], [], window, cfg, None)
  }

  lemma SettingsOnly(ambient: i64, heaters: seq<HeaterCfg>, axes: seq<(Text, i64)>, window: QueueWindow,
                     cfg: RunnerConfig, limits: Option<AuditLimits>, beats: nat)
    ensures var w := StreamLoop(ambient, heaters, axes, window, cfg, limits);
      && Compatible(w, ByRunner, beats) == Compatible(Settings(window, cfg), ByRunner, beats)
      && Spacing(w) == Spacing(Settings(window, cfg))
  {
  }

  lemma FewerBeats(w: Loop, beats: nat)
    requires Compatible(w, ByRunner, beats)
    ensures Compatible(w, ByRunner, 0)
  {
    var m := Margin(w);
    assert (Horizon(w) - 1 + beats) * m == (Horizon(w) - 1 + 0) * m + beats * m;
    assert beats * m >= 0;
  }

  lemma QuickEnoughIsInside(limits: AuditLimits, ambient: i64, heaters: seq<HeaterCfg>, axes: seq<(Text, i64)>,
                            window: QueueWindow, cfg: RunnerConfig, beats: nat, d: nat, turns: seq<Turn>)
    requires Compatible(Settings(window, cfg), ByRunner, beats) && d * STEP_TICKS <= Spacing(Settings(window, cfg))
    ensures StaysInside(limits, ambient, heaters, axes, window, cfg, beats, d, turns)
  {
    hide Turns, Compatible, Spacing, BoundedLimits, Orderly, Portioned, Ranged, Pulse, RatesForward, Quick, Within,
      CommandsIn, Findings, Rejecteds, Beats, ExactStarts, Leads, IdleOn, WarmCeilings, AllCool, FirstNamed, Replay,
      Starteds;
    SettingsOnly(ambient, heaters, axes, window, cfg, Some(limits), beats);
    var start := StreamLoop(ambient, heaters, axes, window, cfg, Some(limits));
    var end := Turns(start, turns);
    var c, submitted := end.controller, CommandsIn(end.submitted);
    if BoundedLimits(limits) && (forall j :: 0 <= j < |axes| ==> axes[j].0 in limits.axes ==> axes[j].1 == 0)
       && (forall j :: 0 <= j < |turns| ==> Orderly(ByRunner, turns[j])) && Portioned(limits, start, turns)
       && Ranged(c) && Pulse(submitted) <= beats && RatesForward(submitted) && Quick(limits, submitted, d) {
      forall k | 0 <= k < |c.axes|
        ensures Within(limits, c.axes[k].name, c.axes[k].position)
      {
        StreamedProgramStaysInside(limits, d, beats, ambient, heaters, axes, window, cfg, turns, k);
      }
    }
  }

  lemma SlowEscapes(window: QueueWindow, cfg: RunnerConfig, beats: nat, d: nat)
    requires Compatible(Settings(window, cfg), ByRunner, beats) && Open(Settings(window, cfg))
    requires window.maxHorizon < I64_LIMIT / 2 && d * STEP_TICKS > Spacing(Settings(window, cfg))
    ensures !Contained(window, cfg, beats, d)
  {
    hide Turns, Compatible, BoundedLimits, Orderly, Portioned, Ranged, Pulse, RatesForward, Quick, CommandsIn,
      Findings, Trip, Spacing, Horizon;
    var w := Settings(window, cfg);
    FewerBeats(w, beats);
    RoomySettings(w);
    var l, g := window.minLead / STEP_TICKS, Spacing(w) / STEP_TICKS;
    var n := g + 1;
    SettingsInSteps(window, cfg, l, g);
    SettingsOnly(0, [], [(X, 0)], window, cfg, Some(Shelf(n, 0)), 0);
    var turns := TripEscapes(n, 0, window, cfg, l, g);
    TripPasses(n, 0);
    TripIsQuick(n, 0, d);
    QuietTrip(n);
    var end := Turns(TripLoop(n, 0, window, cfg), turns);
    assert !Within(Shelf(n, 0), end.controller.axes[0].name, end.controller.axes[0].position);
    assert !StaysInside(Shelf(n, 0), 0, [], [(X, 0)], window, cfg, beats, d, turns);
  }

  lemma SettingsInSteps(window: QueueWindow, cfg: RunnerConfig, l: nat, g: nat)
    requires Roomy(Settings(window, cfg))
    requires l == window.minLead / STEP_TICKS && g == Spacing(Settings(window, cfg)) / STEP_TICKS
    ensures TripSettings(window, cfg, Min(cfg.targetHorizon, QUEUE_CAPACITY), l, g)
    ensures (g + 1) * 1000 < I64_LIMIT - 1000
  {
    hide Compatible;
    RoomySettings(Settings(window, cfg));
  }

  /** Under compatible settings all passing programs whose commands for limited axes
      take at most so many steps stay inside their limits, in every run, if and only if
      the runner spaces commands by as many steps: by its margin, or by the larger of
      margin and lead when the queue holds one command. */
  lemma ContainedExactly(window: QueueWindow, cfg: RunnerConfig, beats: nat, d: nat)
    requires Compatible(Settings(window, cfg), ByRunner, beats) && Open(Settings(window, cfg))
    requires window.maxHorizon < I64_LIMIT / 2
    ensures Contained(window, cfg, beats, d) <==> d * STEP_TICKS <= Spacing(Settings(window, cfg))
  {
    hide Compatible, Open, Spacing, StaysInside, Settings;
    if d * STEP_TICKS <= Spacing(Settings(window, cfg)) {
      forall limits: AuditLimits, ambient: i64, heaters: seq<HeaterCfg>, axes: seq<(Text, i64)>, turns: seq<Turn>
        ensures StaysInside(limits, ambient, heaters, axes, window, cfg, beats, d, turns)
      {
        QuickEnoughIsInside(limits, ambient, heaters, axes, window, cfg, beats, d, turns);
      }
    } else {
      SlowEscapes(window, cfg, beats, d);
    }
  }

  // ----- from G-code ------------------------------------------------------------------------------------

  const OUT_LINE: Line := [Token('G', 0.0), Token('X', 0.01), Token('F', 60.0)]
  const BACK_LINE: Line := [Token('G', 0.0), Token('X', 0.0), Token('F', 600.0)]
  const NARROW := QueueWindow(1_000, 1_000_000)
  const SLOW_FEED: u64 := 10_000

  lemma LineNumbers()
    ensures ToU64(0.0) == 0 && ToI64(0.01 * 1000.0) == 10 && ToI64(0.0 * 1000.0) == 0
    ensures 60.0 * 1000.0 / 60.0 == 1000.0 && 600.0 * 1000.0 / 60.0 == 10000.0
    ensures ToU64(1000.0) == 1000 && ToU64(10000.0) == 10000
  {
  }

  lemma WordsMove(done: Lowered, value: real, feed: real, rate: u64, target: i64)
    requires ToI64(value * 1000.0) == target && feed * 1000.0 / 60.0 >= 1.0 && ToU64(feed * 1000.0 / 60.0) == rate
    requires done.state.absolute && InI64(target - Tracked(done.state.positions, X))
    ensures var words := [Token('X', value), Token('F', feed)];
      var delta := target - Tracked(done.state.positions, X);
      && FeedAfter(done.state.feed, words) == rate
      && MoveListed(done.(state := done.state.(feed := rate)), words) ==
         Ok(Lowered(LowererState(rate, true, done.state.positions[X := target]),
           done.commands + [Move(X, delta, rate)]))
  {
    hide ToI64, ToU64;
    var words := [Token('X', value), Token('F', feed)];
    var one := [Token('X', value)];
    assert Init(words) == one && Last(words) == Token('F', feed) && Init(one) == [] && Last(one) == Token('X', value);
    var fed := done.(state := done.state.(feed := rate));
    assert MoveListed(fed, []) == Ok(fed);
    assert MoveAxisName('X') == Some(X) && MoveAxisName('F') == None;
    assert MoveListed(fed, one) == MoveOn(fed, X, value);
  }

  lemma LineTravels(lowerer: LowererConfig, done: Lowered, value: real, feed: real, rate: u64, target: i64)
    requires ToI64(value * 1000.0) == target && feed * 1000.0 / 60.0 >= 1.0 && ToU64(feed * 1000.0 / 60.0) == rate
    requires done.state.absolute && InI64(target - Tracked(done.state.positions, X))
    ensures var line := [Token('G', 0.0), Token('X', value), Token('F', feed)];
      var delta := target - Tracked(done.state.positions, X);
      LowerLine(lowerer, done, line) ==
      Ok(Lowered(LowererState(rate, true, done.state.positions[X := target]), done.commands + [Move(X, delta, rate)]))
  {
    hide ToI64, FeedAfter, MoveListed;
    var line := [Token('G', 0.0), Token('X', value), Token('F', feed)];
    LineNumbers();
    assert line[1..] == [Token('X', value), Token('F', feed)];
    WordsMove(done, value, feed, rate, target);
  }

  lemma LinesLower(lowerer: LowererConfig)
    ensures var lowered := LowerLines(lowerer, FreshLowerer(lowerer), [OUT_LINE, BACK_LINE]);
      lowered.Ok? && lowered.value.commands == Trip(10) && lowered.value.state.positions == map[X := 0]
  {
    hide LowerLine, ToI64, ToU64;
    var from := FreshLowerer(lowerer);
    var two, one := [OUT_LINE, BACK_LINE], [OUT_LINE];
    assert Init(two) == one && Last(two) == BACK_LINE;
    LineNumbers();
    LowerOne(lowerer, from, OUT_LINE);
    LineTravels(lowerer, Lowered(from, []), 0.01, 60.0, 1000, 10);
    var done := Lowered(LowererState(1000, true, map[X := 10]), [Forth(10)]);
    assert [] + [Forth(10)] == [Forth(10)];
    assert LowerLines(lowerer, from, one) == Ok(done);
    LineTravels(lowerer, done, 0.0, 600.0, 10000, 0);
    assert [Forth(10)] + [Return(10)] == Trip(10);
  }

  /** The two lines G0 X0.01 F60 and G0 X0 F600, with the default runner and a lead of
      one step: lowered, audited, streamed to reported completion under compatible
      settings, they leave X at rest at -9, where they say 0 and 0 is its limit. */
  lemma EarlyReturnEscapes(lowerer: LowererConfig) returns (turns: seq<Turn>)
    ensures var lines := [OUT_LINE, BACK_LINE];
      var lowered := LowerLines(lowerer, FreshLowerer(lowerer), lines);
      var limits := Shelf(10, SLOW_FEED);
      var start := StreamLoop(0, [], [(X, 0)], NARROW, DEFAULT_RUNNER, Some(limits));
      var end := Turns(start, turns);
      && lowered.Ok? && BoundedLimits(limits) && Compatible(start, ByRunner, Polls(lines))
      && (forall k :: 0 <= k < |turns| ==> Orderly(ByRunner, turns[k])) && Portioned(limits, start, turns)
      && Ranged(end.controller) && CommandsIn(end.submitted) == lowered.value.commands && end.runner.phase == Completed
      && end.controller.axes == [Axis(X, -9, None)]
      && Meaning(true, 0, lines, X) == 0 && !Within(limits, X, -9)
  {
    hide Turns, LowerLines, Orderly, Portioned, CommandsIn, Trip, CodeOf, Meaning;
    var lines := [OUT_LINE, BACK_LINE];
    var start := TripLoop(10, SLOW_FEED, NARROW, DEFAULT_RUNNER);
    LinesLower(lowerer);
    NoPolls(lowerer);
    LoweringKeepsMeaning(lowerer, FreshLowerer(lowerer), lines, X);
    assert Compatible(start, ByRunner, 0);
    turns := TripEscapes(10, SLOW_FEED, NARROW, DEFAULT_RUNNER, 1, 1);
  }

  lemma NoPolls(lowerer: LowererConfig)
    ensures Polls([OUT_LINE, BACK_LINE]) == 0
  {
    hide LowerLines;
    LinesLower(lowerer);
    HeartbeatsArePolls(lowerer, FreshLowerer(lowerer), [OUT_LINE, BACK_LINE]);
    QuietTrip(10);
  }
}
