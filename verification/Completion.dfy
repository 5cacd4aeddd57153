// Which programs can be streamed to the end without a refusal.
module Completion {
  import opened Prelude
  import opened Protocol
  import opened Runs
  import opened Controller
  import opened ControllerLaws
  import opened Scheduling
  import opened Toolpath
  import opened Runner
  import opened ClosedLoop
  import opened LoopBound
  import opened PortionedAudit

  /** All of the program has been dispatched and has started, nothing was refused,
      and the runner reports it done. */
  predicate Streamed(w: Loop, program: seq<Command>) {
    && CommandsIn(w.submitted) == program && w.runner.jobs == [] && w.controller.queue == []
    && Rejecteds(w.controller.history) == []
    && (program != [] ==> w.runner.phase == Completed)
  }

  ghost predicate Streams(w: Loop, program: seq<Command>) {
    exists turns: seq<Turn> ::
      && (forall k :: 0 <= k < |turns| ==> Orderly(ByRunner, turns[k]))
      && Ranged(Turns(w, turns).controller)
      && Streamed(Turns(w, turns), program)
  }

  // ----- every heartbeat dispatched is refused -------------------------------------------------

  lemma AcceptLogs(c: ControllerState, e: CommandEnvelope)
    ensures |Rejecteds(Accept(c, e).history)|
            >= |Rejecteds(c.history)| + if e.executeAt.Some? && e.command.Heartbeat? then 1 else 0
  {
    hide Insert, Rejecteds;
    match Refusal(c, e)
    case Some(reason) => RejectedsExtend(c.history, Rejected(c.now, e, reason));
    case None =>
      if !e.command.Heartbeat? {
        RejectedsExtend(c.history, Accepted(c.now, Entry(c, e)));
      }
  }

  lemma {:induction false} BatchLogs(c: ControllerState, batch: seq<CommandEnvelope>)
    requires forall k :: 0 <= k < |batch| ==> batch[k].executeAt.Some?
    ensures |Rejecteds(AcceptAll(c, batch).history)| >= |Rejecteds(c.history)| + |Beats(batch)|
    decreases |batch|
  {
    hide Accept, Rejecteds;
    if batch != [] {
      AcceptLogs(c, batch[0]);
      BatchLogs(Accept(c, batch[0]), batch[1..]);
    }
  }

  lemma StepLogs(c: ControllerState, arrivals: seq<CommandEnvelope>)
    ensures |Rejecteds(Step(c, arrivals).history)| >= |Rejecteds(c.history)|
  {
    hide Accept, StartFront, StartDue, GuardAll, HeatAll, MoveAxis, Rejecteds;
    var later := c.(now := c.now + STEP_TICKS);
    var inv := (d: ControllerState) => |Rejecteds(d.history)| >= |Rejecteds(c.history)|;
    forall d: ControllerState, e: CommandEnvelope | inv(d)
      ensures inv(Accept(d, e))
    {
      AcceptLogs(d, e);
    }
    AcceptAllKeeps(inv, later, arrivals);
    forall d: ControllerState | inv(d) && d.queue != [] && d.queue[0].executeAt <= d.now
      ensures inv(StartFront(d))
    {
      StartFields(d);
      RejectedsExtend(d.history, StartEvent(d));
    }
    StartDueKeeps(inv, AcceptAll(later, arrivals));
  }

  lemma {:induction false} StepsLog(c: ControllerState, steps: seq<seq<CommandEnvelope>>)
    ensures |Rejecteds(Steps(c, steps).history)| >= |Rejecteds(c.history)|
    decreases |steps|
  {
    hide Step, Rejecteds;
    if steps != [] {
      StepLogs(c, steps[0]);
      StepsLog(Step(c, steps[0]), steps[1..]);
    }
  }

  /** The refusals cover the heartbeats dispatched, and nothing submitted is lost. */
  predicate Accounted(w: Loop) {
    && |Rejecteds(w.controller.history)| >= |Beats(w.dispatched)|
    && CommandsIn(w.submitted) == CommandsIn(w.dispatched) + CommandsIn(w.runner.jobs)
  }

  lemma TakenFrom(sent: seq<CommandEnvelope>, batch: seq<CommandEnvelope>, jobs: seq<CommandEnvelope>, n: nat)
    requires n <= |jobs| && CommandsIn(batch) == CommandsIn(jobs[..n])
    ensures CommandsIn(sent + batch) + CommandsIn(jobs[n..]) == CommandsIn(sent) + CommandsIn(jobs)
  {
    var f := (e: CommandEnvelope) => e.command;
    assert jobs == jobs[..n] + jobs[n..];
    MapAppends(f, jobs[..n], jobs[n..]);
    MapAppends(f, sent, batch);
    ConcatAssoc(CommandsIn(sent), CommandsIn(batch), CommandsIn(jobs[n..]));
  }

  lemma TurnAccounts(w: Loop, turn: Turn)
    requires Accounted(w)
    ensures Accounted(Turned(w, turn))
  {
    hide Rejecteds, Beats, AcceptAll, TakeJobs, Steps, CommandsIn, Report, Earliest, Latest, NextBatch, Observe, Count;
    var f := (e: CommandEnvelope) => e.command;
    match turn
    case Submit(jobs) =>
      assert w.runner.jobs + [] == w.runner.jobs && w.submitted + [] == w.submitted;
      AppendCommands(w.submitted, jobs);
      AppendCommands(w.runner.jobs, jobs);
      ConcatAssoc(CommandsIn(w.dispatched), CommandsIn(w.runner.jobs), CommandsIn(jobs));
    case Cycle(heartbeatOk, steps) =>
      var status := StatusOf(w.controller, heartbeatOk);
      var seen := Observe(w.runner, status);
      ObserveKeepsJobs(w.runner, status);
      ObserveKeepsConfig(w.runner, status);
      BatchShape(seen, status);
      var n := Count(seen, status);
      TakenCommands(seen, n, status.earliest, status.latest);
      TakeCounts(seen, n, status.earliest, status.latest);
      var (runner, batch) := NextBatch(seen);
      BatchLogs(w.controller, batch);
      BeatsAppend(w.dispatched, batch);
      StepsLog(AcceptAll(w.controller, batch), steps);
      TakenFrom(w.dispatched, batch, w.runner.jobs, n);
  }

  lemma AppendCommands(a: seq<CommandEnvelope>, b: seq<CommandEnvelope>)
    ensures CommandsIn(a + b) == CommandsIn(a) + CommandsIn(b)
  {
  }

  lemma {:induction false} TurnsAccount(w: Loop, turns: seq<Turn>)
    requires Accounted(w)
    ensures Accounted(Turns(w, turns))
    decreases |turns|
  {
    hide Turned, Accounted;
    if turns != [] {
      TurnAccounts(w, turns[0]);
      TurnsAccount(Turned(w, turns[0]), turns[1..]);
    }
  }

  /** In every run of every fresh loop, whatever its settings and whatever the host
      does, there are at least as many refusals as heartbeats dispatched. */
  lemma EveryHeartbeatIsRefused(c: ControllerState, cfg: RunnerConfig, limits: Option<AuditLimits>, turns: seq<Turn>)
    ensures var end := Turns(StartLoop(c, cfg, limits), turns);
      && |Rejecteds(end.controller.history)| >= |Beats(end.dispatched)|
      && CommandsIn(end.submitted) == CommandsIn(end.dispatched) + CommandsIn(end.runner.jobs)
  {
    hide Turns, Rejecteds;
    assert Accounted(StartLoop(c, cfg, limits));
    TurnsAccount(StartLoop(c, cfg, limits), turns);
  }

  lemma QuietWhenStreamed(w: Loop, program: seq<Command>)
    requires Accounted(w) && Streamed(w, program)
    ensures Pulse(program) == 0
  {
    hide Rejecteds, Beats, Pulse;
    SentCounts(w.dispatched);
    assert CommandsIn(w.dispatched) + [] == CommandsIn(w.dispatched);
  }

  /** So a program with a heartbeat cannot be streamed without a refusal. */
  lemma StreamedHasNoHeartbeat(c: ControllerState, cfg: RunnerConfig, limits: Option<AuditLimits>,
                               program: seq<Command>)
    requires Streams(StartLoop(c, cfg, limits), program)
    ensures Pulse(program) == 0
  {
    hide Turns, Rejecteds, Beats, Pulse, CommandsIn, Ranged, Streamed, Orderly;
    var w := StartLoop(c, cfg, limits);
    var turns: seq<Turn> :| Streamed(Turns(w, turns), program);
    EveryHeartbeatIsRefused(c, cfg, limits, turns);
    QuietWhenStreamed(Turns(w, turns), program);
  }

  // ----- draining the queue -----------------------------------------------------------------------

  /** Steps enough to pass any tick of the window. */
  function Enough(w: Loop): nat {
    w.controller.window.maxHorizon / STEP_TICKS + 1
  }

  /** The last tick dispatched is inside the window. */
  lemma LastWithin(w: Loop, timing: Timing, beats: nat)
    requires Calm(w, 1, timing, beats)
    ensures w.runner.lastTick.Some? ==> w.runner.lastTick.value <= w.controller.now + w.controller.window.maxHorizon
  {
    hide InLine, Entries, Starteds, CommandsIn, Rejecteds, Beats, Pulse, TimedAs, Timely, Split, Compatible, Tidy;
  }

  lemma {:induction false} StepsTake(c: ControllerState, steps: seq<seq<CommandEnvelope>>)
    ensures Steps(c, steps).now == c.now + |steps| * STEP_TICKS
    decreases |steps|
  {
    hide Step;
    if steps != [] {
      StepAdvances(c, steps[0]);
      StepsTake(Step(c, steps[0]), steps[1..]);
    }
  }

  lemma TimelyFront(c: ControllerState)
    requires Timely(c, 1) && c.queue != [] && c.queue[0].timed
    ensures c.queue[0].executeAt > c.now
  {
    assert OnTime(c.queue[0], c.now, 1);
  }

  /** A calm loop past the last tick it dispatched has nothing queued. */
  lemma PastLast(w: Loop, beats: nat)
    requires Calm(w, 1, ByRunner, beats)
    requires w.runner.lastTick.Some? ==> w.runner.lastTick.value <= w.controller.now
    ensures w.controller.queue == []
  {
    hide InLine, Entries, Starteds, CommandsIn, Rejecteds, Beats, Pulse, TimedAs, Compatible, Timely;
    var s: nat :| Steady(w, 1, ByRunner, beats, s);
    var queue := w.controller.queue;
    QueueBeforeLast(ByRunner, w.dispatched[s..], queue, w.runner.lastTick, w.controller.now, Lead(w), Margin(w));
    EntriesTimed(w.dispatched[s..]);
    if queue != [] {
      TimelyFront(w.controller);
      assert false;
    }
  }

  /** A loop between bursts: nothing queued, and nothing amiss. */
  ghost predicate Between(w: Loop) {
    && Calm(w, 1, ByRunner, 0) && Counted(w) && Open(w) && w.controller.queue == [] && !w.controller.faulted
    && w.runner.phase != Faulted && w.runner.phase != UnderrunWarning
  }

  function Burst(w: Loop): Turn {
    Cycle(true, Quiet(Enough(w)))
  }

  /** What a cycle dispatches to an empty queue. */
  lemma BurstSends(w: Loop)
    requires Between(w) && Ranged(w.controller)
    ensures var (runner, batch) := NextBatch(Observe(w.runner, StatusOf(w.controller, true)));
      && Calm(Send(w, runner, batch), 1, ByRunner, 0) && Counted(Send(w, runner, batch))
      && runner.phase != Faulted && runner.phase != UnderrunWarning && runner.cfg == w.runner.cfg
      && (w.runner.jobs == [] ==> runner.jobs == [] && batch == [])
      && (w.runner.jobs != [] ==> |runner.jobs| < |w.runner.jobs|)
  {
    hide Calm, Counted, TakeJobs, Earliest, Latest, Compatible, Assign;
    CycleSends(w, true, ByRunner, 0);
    CalmSettings(w);
    var status := StatusOf(w.controller, true);
    var seen := Observe(w.runner, status);
    BatchShape(seen, status);
    TakeCounts(seen, Count(seen, status), status.earliest, status.latest);
  }

  lemma CalmSettings(w: Loop)
    requires Calm(w, 1, ByRunner, 0)
    ensures Compatible(w, ByRunner, 0) && w.controller.capacity < U16_LIMIT
  {
    hide InLine, Entries, Starteds, CommandsIn, Rejecteds, Beats, Pulse, TimedAs, Timely, Split;
  }

  lemma BurstDrains(sent: Loop)
    requires Calm(sent, 1, ByRunner, 0) && Horizon(sent) >= 1
    ensures var next := sent.(controller := Steps(sent.controller, Quiet(Enough(sent))));
      && Calm(next, 1, ByRunner, 0) && next.controller.queue == [] && !next.controller.faulted
      && next.controller.now == sent.controller.now + Enough(sent) * STEP_TICKS
      && next.controller.window == sent.controller.window && next.controller.capacity == sent.controller.capacity
  {
    hide Steps, Steady, Horizon;
    var steps := Quiet(Enough(sent));
    LastWithin(sent, ByRunner, 0);
    StepsHold(sent, steps, ByRunner, 0);
    StepsAdvance(sent.controller, steps);
    StepsTake(sent.controller, steps);
    var next := sent.(controller := Steps(sent.controller, steps));
    PastLast(next, 0);
    CalmUnfaulted(next);
  }

  lemma CalmUnfaulted(w: Loop)
    requires Calm(w, 1, ByRunner, 0)
    ensures !w.controller.faulted
  {
    hide InLine, Entries, Starteds, CommandsIn, Rejecteds, Beats, Pulse, TimedAs, Timely, Split, Compatible;
  }

  /** A burst leaves the loop between bursts, with fewer jobs if it had any. */
  lemma BurstKeeps(w: Loop)
    requires Between(w) && Ranged(w.controller)
    ensures var next := Turned(w, Burst(w));
      && Between(next) && next.submitted == w.submitted && next.controller.window == w.controller.window
      && next.controller.now == w.controller.now + Enough(w) * STEP_TICKS
      && (w.runner.jobs == [] ==> next.runner.jobs == [])
      && (w.runner.jobs != [] ==> |next.runner.jobs| < |w.runner.jobs|)
  {
    hide Calm, NextBatch, Observe, Steps, AcceptAll, StatusOf, Quiet;
    BurstSends(w);
    var (runner, batch) := NextBatch(Observe(w.runner, StatusOf(w.controller, true)));
    var sent := Send(w, runner, batch);
    AcceptAllTouches(w.controller, batch);
    assert Horizon(sent) == Horizon(w);
    BurstDrains(sent);
    assert Enough(sent) == Enough(w);
  }

  /** With all jobs dispatched and started, the runner says so. */
  lemma LastCycle(w: Loop)
    requires Between(w) && w.runner.jobs == [] && w.submitted != []
    ensures Turned(w, Cycle(true, [])) == w.(runner := Turned(w, Cycle(true, [])).runner)
    ensures Turned(w, Cycle(true, [])).runner.phase == Completed && Turned(w, Cycle(true, [])).runner.jobs == []
  {
    hide Calm, Earliest, Latest, Compatible;
    CalmDispatched(w);
    assert w.dispatched + [] == w.dispatched;
    assert AcceptAll(w.controller, []) == w.controller;
    assert Steps(w.controller, []) == w.controller;
  }

  lemma CalmDispatched(w: Loop)
    requires Calm(w, 1, ByRunner, 0) && w.runner.jobs == []
    ensures |w.submitted| == |w.dispatched|
    ensures Rejecteds(w.controller.history) == []
  {
    hide InLine, Entries, Starteds, Rejecteds, Beats, Pulse, TimedAs, Timely, Split, Compatible;
    var s: nat :| Steady(w, 1, ByRunner, 0, s);
    assert |CommandsIn(w.submitted)| == |w.submitted| && |CommandsIn(w.dispatched)| == |w.dispatched|;
    assert CommandsIn(w.dispatched) + [] == CommandsIn(w.dispatched);
    SentCounts(w.dispatched);
  }

  lemma FewerJobs(left: nat, jobs: nat, each: nat)
    requires left < jobs
    ensures left * each + each <= jobs * each
  {
    assert jobs * each == left * each + each + (jobs - left - 1) * each;
    assert (jobs - left - 1) * each >= 0;
  }

  /** Bursts dispatch and start all jobs, in time proportional to their number. */
  lemma {:induction false} Drained(w: Loop) returns (turns: seq<Turn>)
    requires Between(w)
    requires w.controller.now + |w.runner.jobs| * (Enough(w) * STEP_TICKS) + w.controller.window.maxHorizon < U64_LIMIT
    ensures forall k :: 0 <= k < |turns| ==> Orderly(ByRunner, turns[k])
    ensures var end := Turns(w, turns);
      && Between(end) && end.submitted == w.submitted && end.runner.jobs == [] && Ranged(end.controller)
    decreases |w.runner.jobs|
  {
    hide Turned, Between, Quiet;
    turns := [];
    if w.runner.jobs != [] {
      var each := Enough(w) * STEP_TICKS;
      BurstKeeps(w);
      var next := Turned(w, Burst(w));
      FewerJobs(|next.runner.jobs|, |w.runner.jobs|, each);
      var rest := Drained(next);
      turns := [Burst(w)] + rest;
      assert turns[1..] == rest;
      TurnsHead(w, turns);
      assert Orderly(ByRunner, Burst(w)) by { BurstIsOrderly(w); }
    }
  }

  lemma BurstIsOrderly(w: Loop)
    ensures Orderly(ByRunner, Burst(w))
  {
  }

  // ----- the theorem ----------------------------------------------------------------------------------

  /** A program as jobs that leave their timing to the runner. */
  function JobsOf(program: seq<Command>): seq<CommandEnvelope> {
    Map((c: Command) => CommandEnvelope(None, c), program)
  }

  lemma FreshSubmit(c: ControllerState, cfg: RunnerConfig, limits: AuditLimits, program: seq<Command>)
    requires Ready(c) && Compatible(StartLoop(c, cfg, Some(limits)), ByRunner, 0)
      && Open(StartLoop(c, cfg, Some(limits)))
    requires program != [] && Findings(limits, program) == [] && Pulse(program) == 0
    ensures var next := Turned(StartLoop(c, cfg, Some(limits)), Submit(JobsOf(program)));
      && Between(next) && CommandsIn(next.submitted) == program && next.submitted != []
          && |next.runner.jobs| == |program| && next.controller == c
  {
    hide Calm, Findings, Compatible, Pulse;
    var w := StartLoop(c, cfg, Some(limits));
    var jobs := JobsOf(program);
    assert CommandsIn(jobs) == program;
    assert [] + jobs == jobs;
    StartsCalm(c, cfg, Some(limits), ByRunner, 0);
    SubmitKeeps(w, jobs, ByRunner, 0);
  }

  /** A program without heartbeats that passes its audit can be streamed. */
  lemma StreamsQuietly(c: ControllerState, cfg: RunnerConfig, limits: AuditLimits, program: seq<Command>)
    requires Ready(c) && Compatible(StartLoop(c, cfg, Some(limits)), ByRunner, 0)
      && Open(StartLoop(c, cfg, Some(limits)))
    requires Findings(limits, program) == [] && Pulse(program) == 0 && program != []
    requires c.now + |program| * (Enough(StartLoop(c, cfg, None)) * STEP_TICKS) + c.window.maxHorizon < U64_LIMIT
    ensures Streams(StartLoop(c, cfg, Some(limits)), program)
  {
    hide Turned, Turns, Compatible, Open, Findings, Pulse, CommandsIn, Rejecteds, JobsOf, Calm, Counted;
    var w := StartLoop(c, cfg, Some(limits));
    FreshSubmit(c, cfg, limits, program);
    var submitted := Turned(w, Submit(JobsOf(program)));
    var bursts := Drained(submitted);
    var done := Turns(submitted, bursts);
    LastCycle(done);
    CalmDispatched(done);
    var last := Cycle(true, []);
    var turns := [Submit(JobsOf(program))] + (bursts + [last]);
    assert turns[1..] == bursts + [last];
    TurnsHead(w, turns);
    TurnsAppend(submitted, bursts, [last]);
    OneTurn(done, last);
    assert Orderly(ByRunner, turns[0]) by { JobsUntimed(program); }
    assert Orderly(ByRunner, last);
    assert Streamed(Turns(w, turns), program);
  }

  lemma JobsUntimed(program: seq<Command>)
    ensures Orderly(ByRunner, Submit(JobsOf(program)))
  {
  }

  lemma OneTurn(w: Loop, turn: Turn)
    ensures Turns(w, [turn]) == Turned(w, turn)
  {
    hide Turned;
    RunOne((l: Loop, t: Turn) => Turned(l, t), w, turn);
  }

  lemma NothingToStream(w: Loop)
    requires w.submitted == [] && w.runner.jobs == [] && w.controller.queue == [] && w.controller.history == []
    requires Ranged(w.controller)
    ensures Streams(w, [])
  {
    assert Turns(w, []) == w;
    assert Streamed(Turns(w, []), []);
  }

  /** A program that passes its audit can be streamed to the end without a refusal,
      by some orderly run in the range of ticks, if and only if it has no heartbeat. */
  lemma StreamsExactly(c: ControllerState, cfg: RunnerConfig, limits: AuditLimits, program: seq<Command>)
    requires Ready(c) && Compatible(StartLoop(c, cfg, Some(limits)), ByRunner, 0)
      && Open(StartLoop(c, cfg, Some(limits)))
    requires Findings(limits, program) == []
    requires c.now + |program| * (Enough(StartLoop(c, cfg, None)) * STEP_TICKS) + c.window.maxHorizon < U64_LIMIT
    ensures Streams(StartLoop(c, cfg, Some(limits)), program) <==> Heartbeat !in program
  {
    hide Streams, Compatible, Open, Findings, Pulse;
    PulseNone(program);
    var w := StartLoop(c, cfg, Some(limits));
    if Streams(w, program) {
      StreamedHasNoHeartbeat(c, cfg, Some(limits), program);
    } else if program == [] {
      NothingToStream(w);
    } else if Pulse(program) == 0 {
      StreamsQuietly(c, cfg, limits, program);
    }
  }

  /** So a lowered program that passes its audit can be streamed without a refusal
      exactly when none of its lines polls the temperatures. */
  lemma ProgramStreamsExactly(lowerer: LowererConfig, lines: seq<Line>, c: ControllerState, cfg: RunnerConfig,
                              limits: AuditLimits)
    requires LowerLines(lowerer, FreshLowerer(lowerer), lines).Ok?
    requires Ready(c) && Compatible(StartLoop(c, cfg, Some(limits)), ByRunner, 0)
      && Open(StartLoop(c, cfg, Some(limits)))
    requires var program := LowerLines(lowerer, FreshLowerer(lowerer), lines).value.commands;
      && Findings(limits, program) == []
      && c.now + |program| * (Enough(StartLoop(c, cfg, None)) * STEP_TICKS) + c.window.maxHorizon < U64_LIMIT
    ensures Streams(StartLoop(c, cfg, Some(limits)),
      LowerLines(lowerer, FreshLowerer(lowerer), lines).value.commands) <==>
            forall k :: 0 <= k < |lines| ==> CodeOf(lines[k]) != Poll
  {
    hide LowerLines, Compatible, Open, Findings, Streams, CodeOf, Enough;
    HeartbeatIffPoll(lowerer, FreshLowerer(lowerer), lines);
    StreamsExactly(c, cfg, limits, LowerLines(lowerer, FreshLowerer(lowerer), lines).value.commands);
  }

  // ----- one poll -------------------------------------------------------------------------------------

  const POLL_LINE: Line := [Token('M', 105.0)]
  const POLL_LIMITS := AuditLimits(map[], 0, map[])

  lemma PollCode()
    ensures CodeOf(POLL_LINE) == Poll
  {
    assert ToU64(105.0) == 105;
  }

  lemma LowerOne(lowerer: LowererConfig, from: LowererState, line: Line)
    ensures LowerLines(lowerer, from, [line]) == LowerLine(lowerer, Lowered(from, []), line)
  {
    hide LowerLine;
    assert Init([line]) == [];
    assert LowerLines(lowerer, from, []) == Ok(Lowered(from, []));
  }

  lemma PollLowers(lowerer: LowererConfig)
    ensures LowerLines(lowerer, FreshLowerer(lowerer), [POLL_LINE]) == Ok(Lowered(FreshLowerer(lowerer), [Heartbeat]))
  {
    hide LowerLines, CodeOf, HomeListed, MoveListed, HomeEvery, FeedAfter, FirstS, ToI64, POLL_LINE;
    PollCode();
    var from := FreshLowerer(lowerer);
    LowerOne(lowerer, from, POLL_LINE);
    assert [] + [Heartbeat] == [Heartbeat];
    assert Lowered(from, []).(commands := [] + [Heartbeat]) == Lowered(from, [Heartbeat]);
  }

  lemma PollPasses()
    ensures Findings(POLL_LIMITS, [Heartbeat]) == []
  {
    assert Init([Heartbeat]) == [];
  }

  lemma PollTaken(r: RunnerState, earliest: u64, latest: u64)
    requires r.jobs == [BEAT] && r.lastTick.None?
    ensures TakeJobs(r, 1, earliest, latest) ==
            Taking(r.(jobs := [], lastTick := Some(earliest)), [CommandEnvelope(Some(earliest), Heartbeat)])
  {
    assert TakeJobs(r, 0, earliest, latest) == Taking(r, []);
    assert r.jobs[1..] == [];
  }

  /** The program of the one line M105 passes its audit; with the default settings
      of runner and controller the command it lowers to is refused, and the runner
      reports the program completed. */
  lemma PollIsRefused(lowerer: LowererConfig)
    ensures var w := StartLoop(New(0, [], []), DEFAULT_RUNNER, Some(POLL_LIMITS));
      var lowered := LowerLines(lowerer, FreshLowerer(lowerer), [POLL_LINE]);
      && lowered.Ok? && Findings(POLL_LIMITS, lowered.value.commands) == [] && Compatible(w, ByRunner, 0) && Open(w)
      && var end := Turned(Turned(Turned(w, Submit(JobsOf(lowered.value.commands))), Cycle(true, [])), Cycle(true, []));
         && end.controller.history == [Rejected(0, CommandEnvelope(Some(100_000), Heartbeat), ScheduledHeartbeat)]
         && end.runner.phase == Completed
  {
    hide LowerLines, Findings, TakeJobs, CodeOf, Steps, AcceptAll, NextBatch, POLL_LINE;
    PollLowers(lowerer);
    PollPasses();
    var w := StartLoop(New(0, [], []), DEFAULT_RUNNER, Some(POLL_LIMITS));
    assert JobsOf([Heartbeat]) == [BEAT] && CommandsIn([BEAT]) == [Heartbeat] && [] + [BEAT] == [BEAT];
    var submitted := Turned(w, Submit([BEAT]));
    assert submitted.runner.jobs == [BEAT];
    PollSent(submitted);
    var sent := Turned(submitted, Cycle(true, []));
    PollDone(sent);
  }

  lemma PollSent(w: Loop)
    requires w.runner.jobs == [BEAT] && w.runner.lastTick.None? && w.runner.phase == Running
      && w.runner.cfg == DEFAULT_RUNNER
    requires w.controller == New(0, [], []) && w.runner.dispatched == 0 && w.runner.enqueued == 1
    ensures var next := Turned(w, Cycle(true, []));
      && next.controller ==
           w.controller.(history := [Rejected(0, CommandEnvelope(Some(100_000), Heartbeat), ScheduledHeartbeat)])
      && next.runner.jobs == [] && next.runner.dispatched == 1 && next.runner.enqueued == 1
          && next.runner.phase == Running
  {
    hide TakeJobs;
    var status := StatusOf(w.controller, true);
    PollTaken(Observe(w.runner, status), status.earliest, status.latest);
    var e := CommandEnvelope(Some(100_000), Heartbeat);
    RunOne((c: ControllerState, e: CommandEnvelope) => Accept(c, e), w.controller, e);
    assert Steps(AcceptAll(w.controller, [e]), []) == AcceptAll(w.controller, [e]);
  }

  lemma PollDone(w: Loop)
    requires w.runner.jobs == [] && w.runner.dispatched == 1 && w.runner.enqueued == 1 && w.runner.phase == Running
    requires w.controller.queue == [] && !w.controller.faulted
    ensures var next := Turned(w, Cycle(true, []));
      next.controller == w.controller && next.runner.phase == Completed
  {
    hide Earliest, Latest;
    assert AcceptAll(w.controller, []) == w.controller;
    assert Steps(w.controller, []) == w.controller;
  }
}
