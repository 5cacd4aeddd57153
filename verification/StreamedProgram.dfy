// From the audit of a program to the machine that runs it: the loop's
// controller is a controller run, so a program that the runner audits and
// streams keeps every axis inside its limits.
module StreamedProgram {
  import opened Prelude
  import opened Protocol
  import opened Runs
  import opened Controller
  import opened ControllerLaws
  import opened Toolpath
  import opened ToolpathLaws
  import opened AuditedRuns
  import opened PacedRuns
  import opened Runner
  import opened ClosedLoop
  import opened PortionedAudit

  // ----- the loop's controller as a run ---------------------------------------------------

  function Receives(batch: seq<CommandEnvelope>): seq<Input> {
    Map((e: CommandEnvelope) => Receive(e), batch)
  }

  function Elapses(steps: seq<seq<CommandEnvelope>>): seq<Input> {
    Map((d: seq<CommandEnvelope>) => Elapse(d), steps)
  }

  lemma {:induction false} ReceivesAccept(c: ControllerState, batch: seq<CommandEnvelope>)
    ensures After(c, Receives(batch)) == AcceptAll(c, batch)
    decreases |batch|
  {
    hide Accept;
    if batch != [] {
      assert Receives(batch)[1..] == Receives(batch[1..]);
      ReceivesAccept(Accept(c, batch[0]), batch[1..]);
    }
  }

  lemma {:induction false} ElapsesStep(c: ControllerState, steps: seq<seq<CommandEnvelope>>)
    ensures After(c, Elapses(steps)) == Steps(c, steps)
    decreases |steps|
  {
    hide Step;
    if steps != [] {
      assert Elapses(steps)[1..] == Elapses(steps[1..]);
      ElapsesStep(Step(c, steps[0]), steps[1..]);
    }
  }

  lemma AfterAppends(c: ControllerState, a: seq<Input>, b: seq<Input>)
    ensures After(c, a + b) == After(After(c, a), b)
  {
    hide Next;
    assert (a + b)[..|a|] == a && (a + b)[|a|..] == b;
    RunSplits((c: ControllerState, i: Input) => Next(c, i), c, a + b, |a|);
  }

  /** The controller inputs of one turn. */
  function TurnInputs(w: Loop, turn: Turn): seq<Input> {
    match turn
    case Submit(_) => []
    case Cycle(heartbeatOk, steps) =>
      Receives(NextBatch(Observe(w.runner, StatusOf(w.controller, heartbeatOk))).1) + Elapses(steps)
  }

  function Inputs(w: Loop, turns: seq<Turn>): seq<Input>
    decreases |turns|
  {
    if turns == [] then [] else TurnInputs(w, turns[0]) + Inputs(Turned(w, turns[0]), turns[1..])
  }

  lemma TurnIsRun(w: Loop, turn: Turn)
    ensures Turned(w, turn).controller == After(w.controller, TurnInputs(w, turn))
  {
    hide NextBatch, Observe, StatusOf, Next, Steps, AcceptAll, Receives, Elapses;
    match turn
    case Submit(_) =>
    case Cycle(heartbeatOk, steps) =>
      var batch := NextBatch(Observe(w.runner, StatusOf(w.controller, heartbeatOk))).1;
      AfterAppends(w.controller, Receives(batch), Elapses(steps));
      ReceivesAccept(w.controller, batch);
      ElapsesStep(AcceptAll(w.controller, batch), steps);
  }

  /** Whatever the host does, the controller of the loop goes through a controller run. */
  lemma {:induction false} LoopIsRun(w: Loop, turns: seq<Turn>)
    ensures Turns(w, turns).controller == After(w.controller, Inputs(w, turns))
    decreases |turns|
  {
    hide Turned, TurnInputs, Next;
    if turns != [] {
      TurnIsRun(w, turns[0]);
      var next := Turned(w, turns[0]);
      LoopIsRun(next, turns[1..]);
      AfterAppends(w.controller, TurnInputs(w, turns[0]), Inputs(next, turns[1..]));
    }
  }

  // ----- what starts is the beginning of what was submitted ------------------------------------

  lemma {:induction false} EntryCommands(sent: seq<CommandEnvelope>)
    ensures CommandsOf(Entries(sent)) == Effective(CommandsIn(sent))
    decreases |sent|
  {
    if sent != [] {
      EntryCommands(sent[1..]);
      assert CommandsIn(sent)[1..] == CommandsIn(sent[1..]);
      var first := if sent[0].command.Heartbeat? then [] else [EntryOf(sent[0])];
      MapAppends((q: Queued) => q.command, first, Entries(sent[1..]));
    }
  }

  /** What has started, what waits and what is still to be dispatched make up what
      was submitted, heartbeats apart. */
  lemma StartedLead(submitted: seq<Command>, dispatched: seq<CommandEnvelope>, waiting: seq<Command>,
                    started: seq<Queued>, queue: seq<Queued>)
    requires submitted == CommandsIn(dispatched) + waiting && Entries(dispatched) == started + queue
    ensures Effective(submitted) == CommandsOf(started) + CommandsOf(queue) + Effective(waiting)
  {
    hide Entries, Effective, CommandsIn;
    EntryCommands(dispatched);
    EffectiveAppends(CommandsIn(dispatched), waiting);
    MapAppends((q: Queued) => q.command, started, queue);
  }

  // ----- what the runner's audits add up to ------------------------------------------------------

  /** What was submitted before each portion leaves the limited axes at zero. */
  predicate Portioned(limits: AuditLimits, w: Loop, turns: seq<Turn>)
    decreases |turns|
  {
    turns == [] ||
    (&& (turns[0].Submit? ==> Returned(limits, CommandsIn(w.submitted)))
     && Portioned(limits, Turned(w, turns[0]), turns[1..]))
  }

  lemma SubmitPasses(limits: AuditLimits, w: Loop, jobs: seq<CommandEnvelope>)
    requires w.runner.limits == Some(limits) && BoundedLimits(limits)
    requires Findings(limits, CommandsIn(w.submitted)) == [] && Returned(limits, CommandsIn(w.submitted))
    ensures Findings(limits, CommandsIn(Turned(w, Submit(jobs)).submitted)) == []
  {
    hide Findings, Returned, BoundedLimits;
    PortionsAgreeExactly(limits, CommandsIn(w.submitted));
    MapAppends((e: CommandEnvelope) => e.command, w.submitted, jobs);
    assert w.submitted + [] == w.submitted;
  }

  /** What the runner has accepted in portions would pass its audit as a whole. */
  lemma {:induction false} SubmittedPasses(limits: AuditLimits, w: Loop, turns: seq<Turn>)
    requires w.runner.limits == Some(limits) && BoundedLimits(limits)
    requires Findings(limits, CommandsIn(w.submitted)) == [] && Portioned(limits, w, turns)
    ensures Findings(limits, CommandsIn(Turns(w, turns).submitted)) == []
    decreases |turns|
  {
    hide Turned, Findings, Returned, BoundedLimits, CommandsIn;
    if turns != [] {
      match turns[0] {
        case Submit(jobs) => SubmitPasses(limits, w, jobs);
        case Cycle(heartbeatOk, steps) => CycleSubmitsNothing(w, heartbeatOk, steps);
      }
      TurnKeepsConfig(w, turns[0]);
      SubmittedPasses(limits, Turned(w, turns[0]), turns[1..]);
    }
  }

  lemma CycleSubmitsNothing(w: Loop, heartbeatOk: bool, steps: seq<seq<CommandEnvelope>>)
    ensures Turned(w, Cycle(heartbeatOk, steps)).submitted == w.submitted
  {
    hide NextBatch, Observe, StatusOf, Steps, AcceptAll;
  }

  /** A program submitted all at once to a fresh loop is always well portioned. */
  lemma OnePortion(limits: AuditLimits, w: Loop, jobs: seq<CommandEnvelope>, cycles: seq<Turn>)
    requires w.submitted == [] && forall k :: 0 <= k < |cycles| ==> cycles[k].Cycle?
    ensures Portioned(limits, w, [Submit(jobs)] + cycles)
  {
    hide Turned;
    assert ([Submit(jobs)] + cycles)[1..] == cycles;
    CyclesPortioned(limits, Turned(w, Submit(jobs)), cycles);
  }

  lemma {:induction false} CyclesPortioned(limits: AuditLimits, w: Loop, cycles: seq<Turn>)
    requires forall k :: 0 <= k < |cycles| ==> cycles[k].Cycle?
    ensures Portioned(limits, w, cycles)
    decreases |cycles|
  {
    hide Turned;
    if cycles != [] {
      CyclesPortioned(limits, Turned(w, cycles[0]), cycles[1..]);
    }
  }

  // ----- the pace of the starts --------------------------------------------------------------------

  lemma {:induction false} StartsOnTicks(history: seq<Event>)
    requires ExactStarts(history)
    ensures StartTimes(history) == Map((q: Queued) => q.executeAt, Starteds(history))
    decreases |history|
  {
    if history != [] {
      var before, last := history[..|history| - 1], history[|history| - 1];
      StartsOnTicks(before);
      assert history == before + [last];
      LogExtends(before, last);
    }
  }

  /** Commands that keep their distance in the queue and start on their ticks start at that pace. */
  lemma GappedIsPaced(history: seq<Event>, queue: seq<Queued>, gap: nat)
    requires ExactStarts(history) && Gapped(Starteds(history) + queue, gap)
    ensures Paced(history, gap)
  {
    hide ExactStarts, Starteds, StartTimes;
    StartsOnTicks(history);
    var started, times := Starteds(history), StartTimes(history);
    forall k | 0 <= k < |times| - 1
      ensures times[k] + gap <= times[k + 1]
    {
      var all := started + queue;
      assert all[k] == started[k] && all[k + 1] == started[k + 1];
      assert all[k].executeAt + gap <= all[k + 1].executeAt;
    }
  }

  lemma {:induction false} EffectiveIsQuick(limits: AuditLimits, commands: seq<Command>, d: nat)
    requires Quick(limits, commands, d)
    ensures Quick(limits, Effective(commands), d)
    decreases |commands|
  {
    hide DoneIn;
    if commands != [] {
      assert Quick(limits, commands[1..], d);
      EffectiveIsQuick(limits, commands[1..], d);
    }
  }

  // ----- the theorem ------------------------------------------------------------------------------

  /** The loop around a new controller with that window. */
  function StreamLoop(ambient: i64, heaters: seq<HeaterCfg>, axes: seq<(Text, i64)>, window: QueueWindow,
                      cfg: RunnerConfig, limits: Option<AuditLimits>): Loop {
    StartLoop(New(ambient, heaters, axes).(window := window), cfg, limits)
  }

  /** What the runner audits and streams, in portions that each begin with the
      limited axes back at zero, starts in order and on time. When every command for
      a limited axis is done in so many steps and the runner spaces commands at least
      as far, each of them finds its axis at rest, and every limited axis stays inside
      its limits and is at rest where the started commands lead; no heater is aimed
      above its ceiling. */
  lemma StreamedProgramStaysInside(limits: AuditLimits, d: nat, beats: nat, ambient: i64, heaters: seq<HeaterCfg>,
                                   axes: seq<(Text, i64)>, window: QueueWindow, cfg: RunnerConfig, turns: seq<Turn>,
                                   k: nat)
    requires BoundedLimits(limits)
    requires forall j :: 0 <= j < |axes| ==> axes[j].0 in limits.axes ==> axes[j].1 == 0
    requires Compatible(StreamLoop(ambient, heaters, axes, window, cfg, Some(limits)), ByRunner, beats)
    requires d * STEP_TICKS <= Spacing(StreamLoop(ambient, heaters, axes, window, cfg, Some(limits)))
    requires forall j :: 0 <= j < |turns| ==> Orderly(ByRunner, turns[j])
    requires Portioned(limits, StreamLoop(ambient, heaters, axes, window, cfg, Some(limits)), turns)
    ensures var end := Turns(StreamLoop(ambient, heaters, axes, window, cfg, Some(limits)), turns);
      var c, submitted := end.controller, CommandsIn(end.submitted);
      Ranged(c) && Pulse(submitted) <= beats && RatesForward(submitted) && Quick(limits, submitted, d) ==>
        && Findings(limits, submitted) == []
        && Rejecteds(c.history) == Beats(end.dispatched) && ExactStarts(c.history)
        && Leads(c.history, Effective(submitted)) && IdleOn(limits, c.history)
        && (WarmCeilings(limits) ==> AllCool(limits, c.heaters))
        && (k < |c.axes| ==>
              var a := c.axes[k];
              && Within(limits, a.name, a.position)
              && (a.name in limits.axes && FirstNamed(c.axes, k) && a.motion.None? ==>
                    a.position == Replay(0, CommandsOf(Starteds(c.history)), a.name)))
  {
    hide Turns, Inputs, Findings, Replay, FirstNamed, ExactStarts, IdleOn, Leads, After, Portioned, Turned, Paced,
      Gapped, BoundedLimits, RatesForward, Quick, Rejecteds, Beats, Entries, Effective, Pulse, CommandsIn, Compatible,
      Within, Ranged, Spacing, WarmCeilings, AllCool, Starteds;
    var begun := New(ambient, heaters, axes);
    var c := begun.(window := window);
    var w := StartLoop(c, cfg, Some(limits));
    var end := Turns(w, turns);
    var submitted := CommandsIn(end.submitted);
    var history := end.controller.history;
    if Ranged(end.controller) && Pulse(submitted) <= beats && RatesForward(submitted) && Quick(limits, submitted, d) {
      EveryLoopIsSound(c, cfg, Some(limits), ByRunner, beats, turns);
      StreamLeads(end);
      NothingFound(limits);
      SubmittedPasses(limits, w, turns);
      HeartbeatsAreQuiet(limits, submitted);
      EffectiveIsForward(submitted);
      EffectiveIsQuick(limits, submitted, d);
      GappedIsPaced(history, end.controller.queue, Spacing(w));
      PacedByLess(history, Spacing(w), d * STEP_TICKS);
      LoopIsRun(w, turns);
      WindowThen(begun, window, Inputs(w, turns));
      var inputs := [SetWindow(window)] + Inputs(w, turns);
      PacedRunsStayInside(limits, Effective(submitted), d, ambient, heaters, axes, inputs, k);
      if WarmCeilings(limits) {
        AuditedRunsStayCool(limits, Effective(submitted), ambient, heaters, axes, inputs);
      }
    }
  }

  lemma StreamLeads(w: Loop)
    requires Entries(w.dispatched) == Starteds(w.controller.history) + w.controller.queue
    requires CommandsIn(w.submitted) == CommandsIn(w.dispatched) + CommandsIn(w.runner.jobs)
    ensures Leads(w.controller.history, Effective(CommandsIn(w.submitted)))
  {
    hide Entries, Effective, CommandsIn, Starteds;
    StartedLead(CommandsIn(w.submitted), w.dispatched, CommandsIn(w.runner.jobs), Starteds(w.controller.history),
                w.controller.queue);
  }

  lemma NothingFound(limits: AuditLimits)
    ensures Findings(limits, CommandsIn([])) == []
  {
  }

  lemma WindowThen(c: ControllerState, window: QueueWindow, inputs: seq<Input>)
    ensures After(c, [SetWindow(window)] + inputs) == After(c.(window := window), inputs)
  {
    hide Accept, Step;
    assert ([SetWindow(window)] + inputs)[1..] == inputs;
  }

  /** From G-code to the machine: when a lowered program whose commands for limited
      axes are each done in so many steps, no more than the runner's spacing has, has
      been streamed to completion, exactly the temperature polls have been refused,
      everything else has started, every limited axis is inside its limits, and each
      one at rest is exactly where the G-code says. */
  lemma ProgramEndsAsMeant(lowerer: LowererConfig, lines: seq<Line>, limits: AuditLimits, d: nat, ambient: i64,
                           heaters: seq<HeaterCfg>, axes: seq<(Text, i64)>, window: QueueWindow, cfg: RunnerConfig,
                           turns: seq<Turn>, k: nat)
    requires LowerLines(lowerer, FreshLowerer(lowerer), lines).Ok?
    requires Quick(limits, LowerLines(lowerer, FreshLowerer(lowerer), lines).value.commands, d)
    requires BoundedLimits(limits) && 0 < limits.maxFeed < I64_LIMIT
    requires forall j :: 0 <= j < |axes| ==> axes[j].0 in limits.axes ==> axes[j].1 == 0
    requires Compatible(StreamLoop(ambient, heaters, axes, window, cfg, Some(limits)), ByRunner, Polls(lines))
    requires d * STEP_TICKS <= Spacing(StreamLoop(ambient, heaters, axes, window, cfg, Some(limits)))
    requires forall j :: 0 <= j < |turns| ==> Orderly(ByRunner, turns[j])
    requires Portioned(limits, StreamLoop(ambient, heaters, axes, window, cfg, Some(limits)), turns)
    ensures var program := LowerLines(lowerer, FreshLowerer(lowerer), lines).value.commands;
      var end := Turns(StreamLoop(ambient, heaters, axes, window, cfg, Some(limits)), turns);
      var c := end.controller;
      Ranged(c) && CommandsIn(end.submitted) == program && end.runner.phase == Completed ==>
        && |Rejecteds(c.history)| == Polls(lines) && Rejecteds(c.history) == Beats(end.dispatched)
        && CommandsOf(Starteds(c.history)) == Effective(program)
        && (k < |c.axes| ==>
              && Within(limits, c.axes[k].name, c.axes[k].position)
              && (c.axes[k].name in limits.axes && FirstNamed(c.axes, k) && c.axes[k].motion.None? ==>
                    c.axes[k].position == Meaning(true, 0, lines, c.axes[k].name)))
  {
    hide Turns, Findings, Replay, FirstNamed, IdleOn, Leads, Starteds, BoundedLimits, RatesForward, LowerLines,
      Meaning, ExactStarts, Compatible, Within, Portioned, Rejecteds, Beats, Entries, Effective, Pulse, Polls,
      CommandsIn, Ranged, Turned, Quick, Spacing, Gapped;
    var program := LowerLines(lowerer, FreshLowerer(lowerer), lines).value.commands;
    var c := New(ambient, heaters, axes).(window := window);
    var w := StartLoop(c, cfg, Some(limits));
    var end := Turns(w, turns);
    if Ranged(end.controller) && CommandsIn(end.submitted) == program && end.runner.phase == Completed {
      HeartbeatsArePolls(lowerer, FreshLowerer(lowerer), lines);
      NothingFound(limits);
      SubmittedPasses(limits, w, turns);
      FeedLimitKeepsForward(limits, program);
      EveryLoopIsSound(c, cfg, Some(limits), ByRunner, Polls(lines), turns);
      StreamedProgramStaysInside(limits, d, Polls(lines), ambient, heaters, axes, window, cfg, turns, k);
      AllDispatched(end, program);
      HeartbeatsAreQuiet(limits, program);
      if k < |end.controller.axes| {
        LoweringKeepsMeaning(lowerer, FreshLowerer(lowerer), lines, end.controller.axes[k].name);
      }
    }
  }

  /** When nothing is left to dispatch and nothing queued, everything but the heartbeats has started. */
  lemma AllDispatched(w: Loop, program: seq<Command>)
    requires w.runner.jobs == [] && w.controller.queue == []
    requires program == CommandsIn(w.dispatched) + CommandsIn(w.runner.jobs)
    requires Entries(w.dispatched) == Starteds(w.controller.history) + w.controller.queue
    ensures CommandsOf(Starteds(w.controller.history)) == Effective(program)
    ensures |Beats(w.dispatched)| == Pulse(program)
  {
    hide Entries, Effective, Pulse, Beats, Starteds;
    assert CommandsIn(w.runner.jobs) == [] && CommandsOf(w.controller.queue) == [];
    assert program == CommandsIn(w.dispatched);
    assert CommandsIn(w.dispatched) == CommandsIn(w.dispatched) + [];
    StartedLead(program, w.dispatched, [], Starteds(w.controller.history), w.controller.queue);
    EffectiveOfNone();
    SentCounts(w.dispatched);
  }
}
