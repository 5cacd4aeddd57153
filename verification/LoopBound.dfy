// The closed loop needs the settings it is given: under any others some run is
// refused a command that is no heartbeat.
module LoopBound {
  import opened Prelude
  import opened Protocol
  import opened Runs
  import opened Controller
  import opened ControllerLaws
  import opened Scheduling
  import opened Runner
  import opened ClosedLoop

  /** A capacity that the wire carries whole. */
  predicate Small(w: Loop) {
    w.controller.capacity < U16_LIMIT
  }

  predicate WholeLead(w: Loop) {
    Lead(w) >= 1 && Lead(w) % STEP_TICKS == 0 && Small(w)
  }

  /** Something can be dispatched at all. */
  predicate Open(w: Loop) {
    Horizon(w) >= 1 && w.runner.cfg.maxBatch >= 1
  }

  /** A command other than a heartbeat was refused. */
  predicate Refused(c: ControllerState) {
    exists k :: 0 <= k < |c.history| && c.history[k].Rejected? && !c.history[k].envelope.command.Heartbeat?
  }

  /** Some orderly run in the range of ticks, with jobs timed that way and no more
      heartbeats among them, is refused a command other than these. */
  ghost predicate Refuses(w: Loop, timing: Timing, beats: nat) {
    exists turns: seq<Turn> ::
      && (forall k :: 0 <= k < |turns| ==> Orderly(timing, turns[k]))
      && Ranged(Turns(w, turns).controller)
      && Pulse(CommandsIn(Turns(w, turns).submitted)) <= beats
      && Refused(Turns(w, turns).controller)
  }

  const JOB := CommandEnvelope(None, Home([], 0))

  const BEAT := CommandEnvelope(None, Heartbeat)

  function Jobs(n: nat): (jobs: seq<CommandEnvelope>)
    ensures |jobs| == n && TimedAs(ByRunner, jobs) && forall k :: 0 <= k < n ==> jobs[k] == JOB
  {
    seq(n, _ => JOB)
  }

  /** The heartbeats first, then the jobs. */
  function Load(beats: nat, n: nat): (jobs: seq<CommandEnvelope>)
    ensures |jobs| == beats + n && TimedAs(ByRunner, jobs) && (n > 0 ==> jobs[|jobs| - 1] == JOB)
  {
    seq(beats, _ => BEAT) + Jobs(n)
  }

  lemma {:induction false} BeatsCount(n: nat)
    ensures var beats := CommandsIn(seq(n, _ => BEAT));
      Pulse(beats) == n && Effective(beats) == []
  {
    if n > 0 {
      BeatsCount(n - 1);
      assert CommandsIn(seq(n, _ => BEAT))[1..] == CommandsIn(seq(n - 1, _ => BEAT));
    }
  }

  lemma {:induction false} JobsCount(n: nat)
    ensures Pulse(CommandsIn(Jobs(n))) == 0 && |Effective(CommandsIn(Jobs(n)))| == n
  {
    if n > 0 {
      JobsCount(n - 1);
      assert CommandsIn(Jobs(n))[1..] == CommandsIn(Jobs(n - 1));
    }
  }

  lemma LoadCounts(beats: nat, n: nat)
    ensures Pulse(CommandsIn(Load(beats, n))) == beats && |Effective(CommandsIn(Load(beats, n)))| == n
  {
    hide Pulse, Effective;
    BeatsCount(beats);
    JobsCount(n);
    var first := seq(beats, _ => BEAT);
    MapAppends((e: CommandEnvelope) => e.command, first, Jobs(n));
    PulseAppends(CommandsIn(first), CommandsIn(Jobs(n)));
    EffectiveAppends(CommandsIn(first), CommandsIn(Jobs(n)));
  }

  // ----- the ticks of a batch ---------------------------------------------------------------------

  /** The last tick after dispatching all of the jobs at one moment, in however many batches. */
  function Ticked(jobs: seq<CommandEnvelope>, last: Option<u64>, margin: u64, earliest: u64, latest: u64): Option<u64> {
    if jobs == [] then last
    else Ticked(jobs[1..], Some(Assign(jobs[0], last, margin, earliest, latest)), margin, earliest, latest)
  }

  lemma {:induction false} TickedAppends(a: seq<CommandEnvelope>, b: seq<CommandEnvelope>, last: Option<u64>,
                                         margin: u64, earliest: u64, latest: u64)
    ensures Ticked(a + b, last, margin, earliest, latest)
            == Ticked(b, Ticked(a, last, margin, earliest, latest), margin, earliest, latest)
    decreases |a|
  {
    hide Assign;
    if a == [] {
      assert a + b == b;
    } else {
      assert (a + b)[0] == a[0] && (a + b)[1..] == a[1..] + b;
      TickedAppends(a[1..], b, Some(Assign(a[0], last, margin, earliest, latest)), margin, earliest, latest);
    }
  }

  lemma TickedOne(e: CommandEnvelope, last: Option<u64>, margin: u64, earliest: u64, latest: u64)
    ensures Ticked([e], last, margin, earliest, latest) == Some(Assign(e, last, margin, earliest, latest))
  {
    hide Assign;
    assert [e][1..] == [];
  }

  lemma TickedTwo(a: CommandEnvelope, b: CommandEnvelope, last: Option<u64>, margin: u64, earliest: u64, latest: u64)
    ensures Ticked([a, b], last, margin, earliest, latest)
            == Some(Assign(b, Some(Assign(a, last, margin, earliest, latest)), margin, earliest, latest))
  {
    hide Assign;
    assert [a, b][1..] == [b];
    TickedOne(b, Some(Assign(a, last, margin, earliest, latest)), margin, earliest, latest);
  }

  /** A batch ends on that tick, with the last job taken. */
  lemma {:induction false} TakenTicks(r: RunnerState, n: nat, earliest: u64, latest: u64)
    requires n <= |r.jobs|
    ensures var t := TakeJobs(r, n, earliest, latest);
      && t.runner.lastTick == Ticked(r.jobs[..n], r.lastTick, r.cfg.leadMargin, earliest, latest)
      && (n > 0 ==> |t.batch| == n && t.runner.lastTick.Some?
                    && t.batch[n - 1] == CommandEnvelope(t.runner.lastTick, r.jobs[n - 1].command))
  {
    hide Assign, Ticked;
    if n == 0 {
      NothingTicked(r.jobs[..0], r.lastTick, r.cfg.leadMargin, earliest, latest);
    } else {
      TakenTicks(r, n - 1, earliest, latest);
      TakeCounts(r, n - 1, earliest, latest);
      var before := TakeJobs(r, n - 1, earliest, latest);
      assert before.runner.jobs[0] == r.jobs[n - 1];
      assert r.jobs[..n] == r.jobs[..n - 1] + [r.jobs[n - 1]];
      TickedAppends(r.jobs[..n - 1], [r.jobs[n - 1]], r.lastTick, r.cfg.leadMargin, earliest, latest);
      TickedOne(r.jobs[n - 1], before.runner.lastTick, r.cfg.leadMargin, earliest, latest);
    }
  }

  lemma NothingTicked(jobs: seq<CommandEnvelope>, last: Option<u64>, margin: u64, earliest: u64, latest: u64)
    requires jobs == []
    ensures Ticked(jobs, last, margin, earliest, latest) == last
  {
  }

  function FirstTick(last: Option<u64>, margin: u64, earliest: u64): u64 {
    if last.Some? then Max(earliest, SatAdd(last.value, margin)) else earliest
  }

  lemma UntimedTick(e: CommandEnvelope, last: Option<u64>, margin: u64, earliest: u64, latest: u64)
    requires e.executeAt.None?
    ensures Assign(e, last, margin, earliest, latest) == FirstTick(last, margin, earliest)
  {
  }

  lemma Spread(first: u64, n: nat, margin: u64, last: u64, earliest: u64)
    requires last >= Min(first + n * margin, U64_LIMIT - 1)
    ensures FirstTick(Some(last), margin, earliest) >= Min(first + (n + 1) * margin, U64_LIMIT - 1)
  {
    assert (n + 1) * margin == n * margin + margin;
  }

  /** Of untimed jobs each gets a tick a margin after the one before, up to saturation. */
  lemma {:induction false} UntimedTicks(jobs: seq<CommandEnvelope>, last: Option<u64>, margin: u64, earliest: u64,
                                        latest: u64)
    requires TimedAs(ByRunner, jobs) && jobs != []
    ensures var t := Ticked(jobs, last, margin, earliest, latest);
      t.Some? && t.value >= Min(FirstTick(last, margin, earliest) + (|jobs| - 1) * margin, U64_LIMIT - 1)
    decreases |jobs|
  {
    hide Assign, FirstTick, Ticked;
    var n := |jobs|;
    var before, final := jobs[..n - 1], jobs[n - 1];
    assert jobs == before + [final] && JobFits(ByRunner, final);
    var reached := Ticked(before, last, margin, earliest, latest);
    TickedAppends(before, [final], last, margin, earliest, latest);
    TickedOne(final, reached, margin, earliest, latest);
    UntimedTick(final, reached, margin, earliest, latest);
    if n == 1 {
      NothingTicked(before, last, margin, earliest, latest);
    } else {
      UntimedTicks(before, last, margin, earliest, latest);
      Spread(FirstTick(last, margin, earliest), n - 2, margin, reached.value, earliest);
    }
  }

  /** A batch holds the commands of the first jobs, each with a tick. */
  lemma {:induction false} TakenCommands(r: RunnerState, n: nat, earliest: u64, latest: u64)
    requires n <= |r.jobs|
    ensures var batch := TakeJobs(r, n, earliest, latest).batch;
      && CommandsIn(batch) == CommandsIn(r.jobs[..n])
      && forall k :: 0 <= k < |batch| ==> batch[k].executeAt.Some?
  {
    hide Assign;
    if n > 0 {
      TakenCommands(r, n - 1, earliest, latest);
      TakeCounts(r, n - 1, earliest, latest);
      assert r.jobs[..n] == r.jobs[..n - 1] + [r.jobs[n - 1]];
    }
  }

  // ----- a refusal --------------------------------------------------------------------------------

  /** No scheduled command is accepted for such a tick. */
  predicate Bad(c: ControllerState, tick: Option<u64>) {
    tick.Some? && (tick.value % STEP_TICKS != 0 || tick.value < Earliest(c) || tick.value > Latest(c))
  }

  lemma BadIsRefused(c: ControllerState, batch: seq<CommandEnvelope>)
    requires !c.faulted && batch != []
    requires !batch[|batch| - 1].command.Heartbeat? && Bad(c, batch[|batch| - 1].executeAt)
    ensures Refused(AcceptAll(c, batch))
  {
    hide Accept, Refused, Earliest, Latest;
    var n := |batch| - 1;
    var e := batch[n];
    assert batch == batch[..n] + [e];
    AcceptAllSnoc(c, batch[..n], e);
    AcceptAllTouches(c, batch[..n]);
    SameWindow(c, AcceptAll(c, batch[..n]));
    RefusedLast(AcceptAll(c, batch[..n]), e);
  }

  lemma AcceptAllUnfaulted(c: ControllerState, batch: seq<CommandEnvelope>)
    requires !c.faulted
    ensures !AcceptAll(c, batch).faulted
  {
    hide Accept;
    var inv := (d: ControllerState) => !d.faulted;
    forall d: ControllerState, e: CommandEnvelope | inv(d)
      ensures inv(Accept(d, e))
    {
      AcceptTouchesQueue(d, e);
    }
    AcceptAllKeeps(inv, c, batch);
  }

  lemma RefusedLast(c: ControllerState, e: CommandEnvelope)
    requires !e.command.Heartbeat? && Bad(c, e.executeAt)
    ensures Refused(Accept(c, e))
  {
    hide Earliest, Latest;
    var next := Accept(c, e);
    assert next.history[|c.history|].Rejected?;
  }

  /** The queue grows by no more than the commands that are no heartbeats. */
  lemma {:induction false} QueueGrowth(c: ControllerState, batch: seq<CommandEnvelope>)
    ensures |AcceptAll(c, batch).queue| <= |c.queue| + |Effective(CommandsIn(batch))|
    decreases |batch|
  {
    hide Refusal;
    if batch != [] {
      QueueGrowth(Accept(c, batch[0]), batch[1..]);
      assert CommandsIn(batch)[1..] == CommandsIn(batch[1..]);
    }
  }

  lemma {:induction false} EffectiveFits(commands: seq<Command>)
    ensures |Effective(commands)| <= |commands|
    ensures commands != [] && !commands[|commands| - 1].Heartbeat? ==> |Effective(commands)| >= 1
    decreases |commands|
  {
    if commands != [] {
      EffectiveFits(commands[1..]);
    }
  }

  // ----- jobs that cannot all be accepted ------------------------------------------------------

  function EndTick(w: Loop): Option<u64> {
    TicksInRange(w.controller);
    Ticked(w.runner.jobs, w.runner.lastTick, Margin(w), Earliest(w.controller), Latest(w.controller))
  }

  /** The queue has room for all jobs, and the last of them, no heartbeat, has a bad tick to come. */
  predicate Doomed(w: Loop) {
    var jobs := w.runner.jobs;
    && Small(w) && Open(w) && jobs != [] && !jobs[|jobs| - 1].command.Heartbeat?
    && |w.controller.queue| + |Effective(CommandsIn(jobs))| <= Horizon(w)
    && !w.controller.faulted && w.runner.phase != Faulted
    && Bad(w.controller, EndTick(w))
  }

  lemma TicksInRange(c: ControllerState)
    ensures 0 <= Earliest(c) < U64_LIMIT && 0 <= Latest(c) < U64_LIMIT
  {
  }

  lemma SameWindow(c: ControllerState, d: ControllerState)
    requires c.now == d.now && c.window == d.window
    ensures Earliest(c) == Earliest(d) && Latest(c) == Latest(d)
  {
  }

  lemma ObserveKeepsJobs(r: RunnerState, status: SessionStatus)
    ensures var seen := Observe(r, status);
      seen.jobs == r.jobs && seen.lastTick == r.lastTick && seen.cfg == r.cfg
  {
  }

  lemma LastCommand(jobs: seq<CommandEnvelope>)
    requires jobs != []
    ensures |CommandsIn(jobs)| == |jobs| && CommandsIn(jobs)[|jobs| - 1] == jobs[|jobs| - 1].command
  {
  }

  lemma JobsSplit(jobs: seq<CommandEnvelope>, n: nat)
    requires n <= |jobs|
    ensures Effective(CommandsIn(jobs)) == Effective(CommandsIn(jobs[..n])) + Effective(CommandsIn(jobs[n..]))
  {
    hide Effective;
    assert jobs == jobs[..n] + jobs[n..];
    MapAppends((e: CommandEnvelope) => e.command, jobs[..n], jobs[n..]);
    EffectiveAppends(CommandsIn(jobs[..n]), CommandsIn(jobs[n..]));
  }

  /** What the batch of one cycle is and leaves. */
  lemma CycleShape(w: Loop)
    requires Doomed(w)
    ensures var c := w.controller;
      var (runner, batch) := NextBatch(Observe(w.runner, StatusOf(c, true)));
      var n := |batch|;
      && 1 <= n <= |w.runner.jobs|
      && runner.jobs == w.runner.jobs[n..] && runner.cfg == w.runner.cfg && runner.phase != Faulted
      && runner.lastTick == Ticked(w.runner.jobs[..n], w.runner.lastTick, Margin(w), Earliest(c), Latest(c))
      && batch[n - 1] == CommandEnvelope(runner.lastTick, w.runner.jobs[n - 1].command)
      && CommandsIn(batch) == CommandsIn(w.runner.jobs[..n])
  {
    hide TakeJobs, Earliest, Latest, NextBatch, Ticked, Effective, CommandsIn, Assign, Bad, EndTick;
    var c := w.controller;
    var status := StatusOf(c, true);
    var seen := Observe(w.runner, status);
    EffectiveFits(CommandsIn(w.runner.jobs));
    LastCommand(w.runner.jobs);
    assert status.capacity == c.capacity;
    assert |c.queue| < Horizon(w);
    assert status.fill == |c.queue|;
    BatchShape(seen, status);
    var n := Count(seen, status);
    assert n >= 1;
    TakeCounts(seen, n, status.earliest, status.latest);
    TakenTicks(seen, n, status.earliest, status.latest);
    TakenCommands(seen, n, status.earliest, status.latest);
  }

  function Cycled(w: Loop): Loop {
    Turned(w, Cycle(true, []))
  }

  lemma CycledController(w: Loop)
    ensures var (runner, batch) := NextBatch(Observe(w.runner, StatusOf(w.controller, true)));
      var next := Cycled(w);
      && next.controller == AcceptAll(w.controller, batch) && next.runner == runner && next.submitted == w.submitted
  {
    hide NextBatch, Observe, StatusOf, AcceptAll;
  }

  /** A cycle in which no time passes refuses the last job or leaves less of the same. */
  lemma CycleDoomed(w: Loop)
    requires Doomed(w)
    ensures var next := Cycled(w);
      && next.submitted == w.submitted
      && next.controller.now == w.controller.now && next.controller.window == w.controller.window
      && (Refused(next.controller) || (Doomed(next) && |next.runner.jobs| < |w.runner.jobs|))
  {
    hide Earliest, Latest, NextBatch, Observe, Effective, CommandsIn, AcceptAll, Refused, StatusOf, Ticked, Bad, Cycled;
    CycleShape(w);
    CycledController(w);
    var c := w.controller;
    var (runner, batch) := NextBatch(Observe(w.runner, StatusOf(c, true)));
    var n, jobs := |batch|, w.runner.jobs;
    var next := Cycled(w);
    AcceptAllTouches(c, batch);
    TicksInRange(c);
    if n == |jobs| {
      assert jobs[..n] == jobs;
      BadIsRefused(c, batch);
    } else {
      AcceptAllUnfaulted(c, batch);
      QueueGrowth(c, batch);
      JobsSplit(jobs, n);
      assert jobs == jobs[..n] + jobs[n..];
      TickedAppends(jobs[..n], jobs[n..], w.runner.lastTick, Margin(w), Earliest(c), Latest(c));
      SameWindow(c, next.controller);
      BadByWindow(c, next.controller, EndTick(w));
    }
  }

  lemma BadByWindow(c: ControllerState, d: ControllerState, tick: Option<u64>)
    requires c.now == d.now && c.window == d.window
    ensures Bad(c, tick) <==> Bad(d, tick)
  {
  }

  /** Cycles in which no time passes end in a refusal. */
  lemma {:induction false} CyclesRefuse(w: Loop) returns (turns: seq<Turn>)
    requires Doomed(w)
    ensures forall k :: 0 <= k < |turns| ==> turns[k] == Cycle(true, [])
    ensures var end := Turns(w, turns);
      && end.submitted == w.submitted && Refused(end.controller)
      && end.controller.now == w.controller.now && end.controller.window == w.controller.window
    decreases |w.runner.jobs|
  {
    hide Turned, Doomed, Refused;
    CycleDoomed(w);
    var next := Cycled(w);
    var rest := [];
    if !Refused(next.controller) {
      rest := CyclesRefuse(next);
    }
    turns := [Cycle(true, [])] + rest;
    assert turns[1..] == rest;
    TurnsHead(w, turns);
  }

  lemma TurnsHead(w: Loop, turns: seq<Turn>)
    requires turns != []
    ensures Turns(w, turns) == Turns(Turned(w, turns[0]), turns[1..])
  {
    hide Turned;
  }

  /** A loop at rest whose runner has no jobs left and sees an empty, healthy controller. */
  predicate AtRest(w: Loop) {
    && w.runner.jobs == [] && w.controller.queue == [] && !w.controller.faulted
    && w.runner.phase != Faulted && w.runner.limits == None
  }

  lemma SubmitAtRest(w: Loop, jobs: seq<CommandEnvelope>)
    requires AtRest(w) && jobs != []
    ensures var next := Turned(w, Submit(jobs));
      && next.controller == w.controller && next.submitted == w.submitted + jobs
      && next.runner.jobs == jobs && next.runner.cfg == w.runner.cfg && next.runner.lastTick == w.runner.lastTick
      && next.runner.phase != Faulted
  {
    NoneSubmitted(jobs);
  }

  /** Jobs that a loop at rest cannot have accepted: few enough for the queue, the last
      of them no heartbeat, with a bad tick. */
  predicate Hopeless(w: Loop, jobs: seq<CommandEnvelope>) {
    && jobs != [] && !jobs[|jobs| - 1].command.Heartbeat? && |Effective(CommandsIn(jobs))| <= Horizon(w)
    && Bad(w.controller, EndTick(w.(runner := w.runner.(jobs := jobs))))
  }

  /** Submitted, they end in a refusal. */
  lemma HopelessRefused(w: Loop, jobs: seq<CommandEnvelope>, timing: Timing) returns (turns: seq<Turn>)
    requires AtRest(w) && Small(w) && Open(w) && Hopeless(w, jobs) && TimedAs(timing, jobs)
    ensures forall k :: 0 <= k < |turns| ==> Orderly(timing, turns[k])
    ensures var end := Turns(w, turns);
      && end.submitted == w.submitted + jobs && Refused(end.controller)
      && end.controller.now == w.controller.now && end.controller.window == w.controller.window
  {
    hide Latest, Earliest, Refused, Turns, Turned, Effective, CommandsIn, TimedAs, Bad, Ticked;
    SubmitAtRest(w, jobs);
    var submitted := Turned(w, Submit(jobs));
    assert EndTick(submitted) == EndTick(w.(runner := w.runner.(jobs := jobs)));
    assert Horizon(submitted) == Horizon(w);
    var rest := CyclesRefuse(submitted);
    turns := [Submit(jobs)] + rest;
    assert turns[1..] == rest;
    TurnsHead(w, turns);
    assert Orderly(timing, Submit(jobs)) && Orderly(timing, Cycle(true, []));
  }

  /** A refusal after an orderly run. */
  lemma RefusesAfter(w: Loop, before: seq<Turn>, rest: Loop, timing: Timing, beats: nat, jobs: seq<CommandEnvelope>)
    requires rest == Turns(w, before) && (forall k :: 0 <= k < |before| ==> Orderly(timing, before[k]))
    requires AtRest(rest) && Small(rest) && Open(rest) && Hopeless(rest, jobs) && TimedAs(timing, jobs)
    requires Pulse(CommandsIn(rest.submitted)) + Pulse(CommandsIn(jobs)) <= beats && Ranged(rest.controller)
    ensures Refuses(w, timing, beats)
  {
    hide Turned, Turns, Refused, AtRest, Open, Small, Pulse, CommandsIn, Hopeless, TimedAs;
    var load := HopelessRefused(rest, jobs, timing);
    TurnsAppend(w, before, load);
    PulseJoins(rest.submitted, jobs);
    assert Ranged(Turns(w, before + load).controller);
  }

  lemma PulseJoins(a: seq<CommandEnvelope>, b: seq<CommandEnvelope>)
    ensures Pulse(CommandsIn(a + b)) == Pulse(CommandsIn(a)) + Pulse(CommandsIn(b))
  {
    hide Pulse;
    MapAppends((e: CommandEnvelope) => e.command, a, b);
    PulseAppends(CommandsIn(a), CommandsIn(b));
  }

  /** A refusal of jobs submitted to a fresh loop. */
  lemma RefusesAtOnce(w: Loop, timing: Timing, beats: nat, jobs: seq<CommandEnvelope>)
    requires AtRest(w) && Small(w) && Open(w) && Hopeless(w, jobs) && TimedAs(timing, jobs)
    requires w.submitted == [] && Pulse(CommandsIn(jobs)) <= beats && Ranged(w.controller)
    ensures Refuses(w, timing, beats)
  {
    hide AtRest, Small, Open, Hopeless, TimedAs, Ranged, Refuses;
    assert Turns(w, []) == w;
    assert Pulse(CommandsIn(w.submitted)) == 0;
    RefusesAfter(w, [], w, timing, beats, jobs);
  }

  // ----- the command before the batch ---------------------------------------------------------------

  lemma StepWaits(c: ControllerState, q: Queued)
    requires c.queue == [q] && !c.faulted
    ensures var next := Step(c, []);
      && next.now == c.now + STEP_TICKS && next.window == c.window && next.capacity == c.capacity && !next.faulted
      && next.queue == (if q.executeAt <= next.now then [] else [q])
  {
    hide StartFront, GuardAll, HeatAll, MoveAxis;
    var later := c.(now := c.now + STEP_TICKS);
    assert AcceptAll(later, []) == later;
    if q.executeAt <= later.now {
      StartFields(later);
      assert StartDue(later) == StartDue(StartFront(later));
      assert StartDue(StartFront(later)) == StartFront(later);
    } else {
      assert StartDue(later) == later;
    }
  }

  function Quiet(n: nat): (steps: seq<seq<CommandEnvelope>>)
    ensures |steps| == n && forall k :: 0 <= k < n ==> Heartbeats(steps[k])
  {
    seq(n, _ => [])
  }

  /** A single waiting command has started when its tick comes. */
  lemma {:induction false} WaitOut(c: ControllerState, q: Queued, n: nat)
    requires c.queue == [q] && !c.faulted && n >= 1 && q.executeAt == c.now + n * STEP_TICKS
    ensures var next := Steps(c, Quiet(n));
      && next.now == q.executeAt && next.window == c.window && next.capacity == c.capacity && !next.faulted
      && next.queue == []
    decreases n
  {
    hide Step;
    StepWaits(c, q);
    assert Quiet(n)[0] == [] && Quiet(n)[1..] == Quiet(n - 1);
    if n > 1 {
      WaitOut(Step(c, []), q, n - 1);
    } else {
      assert Steps(Step(c, []), []) == Step(c, []);
    }
  }

  /** One job dispatched to a fresh loop is timed a lead ahead. */
  lemma FirstBatch(w: Loop)
    requires AtRest(w) && WholeLead(w) && Open(w) && w.runner.lastTick.None?
    ensures var (runner, batch) := NextBatch(Observe(Turned(w, Submit(Jobs(1))).runner, StatusOf(w.controller, true)));
      && batch == [CommandEnvelope(Some(Earliest(w.controller)), JOB.command)]
      && runner.jobs == [] && runner.lastTick == Some(Earliest(w.controller)) && runner.cfg == w.runner.cfg
      && runner.phase != Faulted && runner.limits == None
  {
    hide Assign, TakeJobs, NextBatch, TimedAs, Earliest, Latest;
    var submitted := Turned(w, Submit(Jobs(1)));
    assert submitted.runner.jobs == Jobs(1) && submitted.controller == w.controller;
    var status := StatusOf(w.controller, true);
    var seen := Observe(submitted.runner, status);
    assert status.capacity == w.controller.capacity && status.fill == 0;
    BatchShape(seen, status);
    assert Count(seen, status) == 1;
    OneTaken(seen, status.earliest, status.latest);
  }

  /** It starts on its tick, and then the loop is at rest again. */
  lemma FirstJob(w: Loop)
    requires AtRest(w) && WholeLead(w) && Open(w) && w.runner.lastTick.None? && Ranged(w.controller)
    requires w.controller.now % STEP_TICKS == 0 && Lead(w) <= w.controller.window.maxHorizon
    ensures var end := Turned(Turned(w, Submit(Jobs(1))), Cycle(true, Quiet(Lead(w) / STEP_TICKS)));
      && AtRest(end) && WholeLead(end) && Open(end) && Horizon(end) == Horizon(w)
      && Lead(end) == Lead(w) && Margin(end) == Margin(w) && end.submitted == w.submitted + Jobs(1)
      && end.controller.now == w.controller.now + Lead(w) && end.controller.window == w.controller.window
      && end.runner.lastTick == Some(end.controller.now)
  {
    hide NextBatch, Observe, StatusOf, Steps, AcceptAll, Jobs, Quiet;
    var c := w.controller;
    var submitted := Turned(w, Submit(Jobs(1)));
    assert submitted.controller == c;
    FirstBatch(w);
    var sent := CommandEnvelope(Some(c.now + Lead(w)), JOB.command);
    assert (c.now + Lead(w)) % STEP_TICKS == 0;
    OneAccepted(c, sent);
    var received := AcceptAll(c, [sent]);
    assert received.queue[0].executeAt == received.now + (Lead(w) / STEP_TICKS) * STEP_TICKS;
    WaitOut(received, received.queue[0], Lead(w) / STEP_TICKS);
  }

  lemma OneTaken(r: RunnerState, earliest: u64, latest: u64)
    requires r.jobs == Jobs(1) && r.lastTick.None?
    ensures var t := TakeJobs(r, 1, earliest, latest);
      && t.batch == [CommandEnvelope(Some(earliest), JOB.command)]
      && t.runner == r.(jobs := [], lastTick := Some(earliest))
  {
    assert TakeJobs(r, 0, earliest, latest) == Taking(r, []);
    assert r.jobs[1..] == [];
  }

  lemma OneAccepted(c: ControllerState, e: CommandEnvelope)
    requires !c.faulted && c.queue == [] && c.capacity >= 1 && !e.command.Heartbeat?
    requires e.executeAt.Some? && e.executeAt.value % STEP_TICKS == 0 && Earliest(c) <= e.executeAt.value <= Latest(c)
    ensures var next := AcceptAll(c, [e]);
      && next.queue == [Queued(e.executeAt.value, e.command, true)]
      && next.now == c.now && next.window == c.window && next.capacity == c.capacity && !next.faulted
  {
    RunOne((c: ControllerState, e: CommandEnvelope) => Accept(c, e), c, e);
  }

  // ----- what each setting rules out ---------------------------------------------------------------

  lemma WindowEnds(c: ControllerState)
    requires c.now + c.window.minLead + c.window.maxHorizon < U64_LIMIT - 1
    ensures Earliest(c) == c.now + c.window.minLead && Latest(c) == c.now + c.window.maxHorizon
  {
  }

  lemma SpreadPositive(horizon: int, margin: int)
    requires horizon >= 1 && margin >= 0
    ensures (horizon - 1) * margin >= 0
  {
  }

  lemma NoneSubmitted(jobs: seq<CommandEnvelope>)
    ensures [] + jobs == jobs
  {
  }

  lemma TurnsAppend(w: Loop, a: seq<Turn>, b: seq<Turn>)
    ensures Turns(w, a + b) == Turns(Turns(w, a), b)
  {
    hide Turned;
    assert (a + b)[..|a|] == a && (a + b)[|a|..] == b;
    RunSplits((l: Loop, t: Turn) => Turned(l, t), w, a + b, |a|);
  }

  lemma TwoTurns(w: Loop, a: Turn, b: Turn)
    ensures Turns(w, [a, b]) == Turned(Turned(w, a), b)
  {
    hide Turned;
    assert [a, b][1..] == [b];
    RunOne((l: Loop, t: Turn) => Turned(l, t), Turned(w, a), b);
  }

  /** What holds of a fresh loop that can dispatch. */
  predicate Fresh(w: Loop) {
    && AtRest(w) && Small(w) && Open(w) && w.runner.lastTick.None? && w.submitted == []
    && w.controller.now % STEP_TICKS == 0
    && w.controller.now + Lead(w) + w.controller.window.maxHorizon < U64_LIMIT - 1
  }

  const LATE := CommandEnvelope(Some(0), Home([], 0))

  lemma OneJob(e: CommandEnvelope)
    requires !e.command.Heartbeat?
    ensures Pulse(CommandsIn([e])) == 0 && |Effective(CommandsIn([e]))| == 1
  {
    assert CommandsIn([e]) == [e.command] && [e.command][1..] == [];
  }

  lemma TwoJobs(a: CommandEnvelope, b: CommandEnvelope)
    requires !b.command.Heartbeat?
    ensures Pulse(CommandsIn([a, b])) == (if a.command.Heartbeat? then 1 else 0)
    ensures |Effective(CommandsIn([a, b]))| == (if a.command.Heartbeat? then 1 else 2)
  {
    var commands := CommandsIn([a, b]);
    assert commands[0] == a.command && commands[1..] == [b.command];
    assert [b.command][1..] == [] && Pulse([b.command]) == 0 && Effective([b.command]) == [b.command];
    assert Effective(commands) == (if a.command.Heartbeat? then [] else [a.command]) + Effective(commands[1..]);
  }

  /** One job alone is too much when the lead is no whole number of steps or longer than the window. */
  lemma LeadRefuses(w: Loop, timing: Timing, beats: nat)
    requires Fresh(w) && (Lead(w) % STEP_TICKS != 0 || Lead(w) > w.controller.window.maxHorizon)
    requires timing.ByRunner? || Lead(w) > w.controller.window.maxHorizon
    ensures Refuses(w, timing, beats)
  {
    hide Turned, Turns, Refused, Refuses, Earliest, Latest, AtRest, Pulse, CommandsIn, Effective, Ticked;
    var job := if timing.ByRunner? then JOB else LATE;
    WindowEnds(w.controller);
    OneJob(job);
    TickedOne(job, None, Margin(w), Earliest(w.controller), Latest(w.controller));
    RefusesAtOnce(w, timing, beats, [job]);
  }

  /** Two jobs, the first a heartbeat unless the queue has room for both. */
  lemma PairRefuses(w: Loop, timing: Timing, beats: nat, at: Option<u64>)
    requires Fresh(w) && !Single(w, beats)
    requires JobFits(timing, CommandEnvelope(at, Heartbeat)) && timing != ByJob
    requires var (earliest, latest) := (w.controller.now + Lead(w), w.controller.now + w.controller.window.maxHorizon);
      var first := Assign(CommandEnvelope(at, Heartbeat), None, Margin(w), earliest, latest);
      Bad(w.controller, Some(FirstTick(Some(first), Margin(w), earliest)))
    ensures Refuses(w, timing, beats)
  {
    hide Turned, Turns, Refused, Refuses, Earliest, Latest, AtRest, Pulse, CommandsIn, Effective, Ticked, FirstTick,
      Bad;
    var first := CommandEnvelope(at, if beats >= 1 then Heartbeat else JOB.command);
    WindowEnds(w.controller);
    TwoJobs(first, JOB);
    SameAssign(CommandEnvelope(at, Heartbeat), first, Margin(w), Earliest(w.controller), Latest(w.controller));
    TickedTwo(first, JOB, None, Margin(w), Earliest(w.controller), Latest(w.controller));
    var tick := Assign(first, None, Margin(w), Earliest(w.controller), Latest(w.controller));
    UntimedTick(JOB, Some(tick), Margin(w), Earliest(w.controller), Latest(w.controller));
    RefusesAtOnce(w, timing, beats, [first, JOB]);
  }

  lemma SameAssign(a: CommandEnvelope, b: CommandEnvelope, margin: u64, earliest: u64, latest: u64)
    requires a.executeAt == b.executeAt
    ensures Assign(a, None, margin, earliest, latest) == Assign(b, None, margin, earliest, latest)
  {
  }

  /** A margin that is no whole number of steps shows between two jobs. */
  lemma SkewRefuses(w: Loop, beats: nat)
    requires Fresh(w) && !Single(w, beats) && Lead(w) % STEP_TICKS == 0 && Margin(w) % STEP_TICKS != 0
    ensures Refuses(w, ByRunner, beats)
  {
    hide Refuses, Earliest, Latest, AtRest, Horizon;
    var earliest := w.controller.now + Lead(w);
    NextOffStep(earliest, Margin(w));
    PairRefuses(w, ByRunner, beats, None);
  }

  lemma NextOffStep(earliest: u64, margin: u64)
    requires earliest % STEP_TICKS == 0 && margin % STEP_TICKS != 0
    ensures FirstTick(Some(earliest), margin, earliest) % STEP_TICKS != 0
  {
  }

  /** After a job timed at the end of the window there is no tick for an untimed one. */
  lemma EndRefuses(w: Loop, beats: nat)
    requires Fresh(w) && !Single(w, beats) && Margin(w) > 0 && WholeWindow(w)
      && Lead(w) <= w.controller.window.maxHorizon
    ensures Refuses(w, Either, beats)
  {
    hide Refuses, Earliest, AtRest, Horizon;
    var latest := w.controller.now + w.controller.window.maxHorizon;
    PairRefuses(w, Either, beats, Some(latest));
  }

  /** When a waiting job has started just as the next is dispatched, the margin decides. */
  lemma MarginRefuses(w: Loop, timing: Timing, beats: nat, jobs: seq<CommandEnvelope>)
    requires Fresh(w) && WholeLead(w) && Lead(w) <= w.controller.window.maxHorizon && !timing.ByJob?
    requires TimedAs(ByRunner, jobs) && Pulse(CommandsIn(jobs)) <= beats
    requires forall rest: Loop | Rested(w, rest) :: Hopeless(rest, jobs)
    ensures Refuses(w, timing, beats)
  {
    hide Turned, Turns, Horizon, Earliest, Latest, AtRest, Open, Refuses, Jobs, Quiet, Pulse, CommandsIn, Hopeless,
      TimedAs;
    FirstJob(w);
    var first, wait := Submit(Jobs(1)), Cycle(true, Quiet(Lead(w) / STEP_TICKS));
    TwoTurns(w, first, wait);
    var rest := Turns(w, [first, wait]);
    NoneSubmitted(Jobs(1));
    JobsCount(1);
    assert Rested(w, rest);
    UntimedFits(timing, Jobs(1));
    UntimedFits(timing, jobs);
    assert Orderly(timing, first) && Orderly(timing, wait);
    assert Ranged(rest.controller);
    RefusesAfter(w, [first, wait], rest, timing, beats, jobs);
  }

  lemma UntimedFits(timing: Timing, jobs: seq<CommandEnvelope>)
    requires TimedAs(ByRunner, jobs) && !timing.ByJob?
    ensures TimedAs(timing, jobs)
  {
    forall k | 0 <= k < |jobs|
      ensures JobFits(timing, jobs[k])
    {
      assert JobFits(ByRunner, jobs[k]);
    }
  }

  /** The loop after its first job has started. */
  predicate Rested(w: Loop, rest: Loop) {
    && Horizon(rest) == Horizon(w) && Margin(rest) == Margin(w)
    && rest.controller.now == w.controller.now + Lead(w) && rest.controller.window == w.controller.window
    && rest.runner.lastTick == Some(rest.controller.now)
  }

  lemma LateSum(now: u64, window: nat, margin: u64, spread: int, earliest: u64)
    requires margin + spread > window && spread >= 0 && now + window < U64_LIMIT - 1
    ensures Min(FirstTick(Some(now), margin, earliest) + spread, U64_LIMIT - 1) > now + window
  {
  }

  /** A horizon of jobs behind the heartbeats, when the margin decides its first tick. */
  lemma LoadRefuses(w: Loop, beats: nat)
    requires Fresh(w) && WholeLead(w) && Lead(w) <= w.controller.window.maxHorizon
    requires Reach(w, beats) > w.controller.window.maxHorizon && Lead(w) < Margin(w)
    ensures Refuses(w, ByRunner, beats)
  {
    hide Refuses, Earliest, Latest, AtRest, Load, Effective, Pulse, CommandsIn, TimedAs, Hopeless, FirstTick, Horizon;
    var jobs := Load(beats, Horizon(w));
    LoadCounts(beats, Horizon(w));
    var spread := (Horizon(w) - 1 + beats) * Margin(w);
    SpreadPositive(Horizon(w) + beats, Margin(w));
    forall rest: Loop | Rested(w, rest)
      ensures Hopeless(rest, jobs)
    {
      LateSum(rest.controller.now, w.controller.window.maxHorizon, Margin(w), spread, rest.controller.now + Lead(w));
      LoadHopeless(rest, beats);
    }
    MarginRefuses(w, ByRunner, beats, jobs);
  }

  /** The jobs of a whole horizon, the heartbeats first, reach past the window. */
  lemma LoadHopeless(w: Loop, beats: nat)
    requires Horizon(w) >= 1
    requires w.controller.now + Lead(w) < U64_LIMIT && w.controller.now + w.controller.window.maxHorizon < U64_LIMIT - 1
    requires var first := FirstTick(w.runner.lastTick, Margin(w), w.controller.now + Lead(w));
             Min(first + (Horizon(w) - 1 + beats) * Margin(w), U64_LIMIT - 1)
             > w.controller.now + w.controller.window.maxHorizon
    ensures Hopeless(w, Load(beats, Horizon(w)))
  {
    hide Load, Effective, Pulse, CommandsIn, TimedAs, Ticked, FirstTick, Horizon;
    var jobs := Load(beats, Horizon(w));
    LoadCounts(beats, Horizon(w));
    TicksInRange(w.controller);
    UntimedTicks(jobs, w.runner.lastTick, Margin(w), Earliest(w.controller), Latest(w.controller));
  }

  /** A horizon of jobs behind the heartbeats, when the lead decides its first tick. */
  lemma LoadAtOnceRefuses(w: Loop, beats: nat)
    requires Fresh(w) && Reach(w, beats) > w.controller.window.maxHorizon && Margin(w) <= Lead(w)
    ensures Refuses(w, ByRunner, beats)
  {
    hide Refuses, Earliest, Latest, AtRest, Load, Effective, Pulse, CommandsIn, TimedAs, Hopeless;
    var jobs := Load(beats, Horizon(w));
    LoadCounts(beats, Horizon(w));
    LoadHopeless(w, beats);
    RefusesAtOnce(w, ByRunner, beats, jobs);
  }

  /** A second job behind one that has just started, when its margin is bad. */
  lemma SecondRefuses(w: Loop, timing: Timing, beats: nat)
    requires Fresh(w) && WholeLead(w) && Lead(w) <= w.controller.window.maxHorizon && !timing.ByJob?
      && Lead(w) < Margin(w)
    requires Margin(w) % STEP_TICKS != 0 || Margin(w) > w.controller.window.maxHorizon
    ensures Refuses(w, timing, beats)
  {
    hide Refuses, AtRest, Effective, Pulse, CommandsIn, Hopeless, Horizon;
    OneJob(JOB);
    OpenHorizon(w);
    LastAligned(w);
    forall rest: Loop | Rested(w, rest)
      ensures Hopeless(rest, [JOB])
    {
      SecondHopeless(rest);
    }
    MarginRefuses(w, timing, beats, [JOB]);
  }

  lemma OpenHorizon(w: Loop)
    requires Open(w)
    ensures Horizon(w) >= 1
  {
  }

  lemma LastAligned(w: Loop)
    requires w.controller.now % STEP_TICKS == 0 && Lead(w) % STEP_TICKS == 0
    ensures (w.controller.now + Lead(w)) % STEP_TICKS == 0
  {
  }

  lemma SecondHopeless(w: Loop)
    requires w.runner.lastTick == Some(w.controller.now) && w.controller.now % STEP_TICKS == 0 && Lead(w) < Margin(w)
    requires Margin(w) % STEP_TICKS != 0 || Margin(w) > w.controller.window.maxHorizon
    requires w.controller.now + w.controller.window.maxHorizon < U64_LIMIT - 1 && Horizon(w) >= 1
    ensures Hopeless(w, [JOB])
  {
    hide Effective, Pulse, CommandsIn, Horizon, Earliest, Latest, Bad, Ticked, Assign;
    OneJob(JOB);
    TicksInRange(w.controller);
    TickedOne(JOB, w.runner.lastTick, Margin(w), Earliest(w.controller), Latest(w.controller));
    SecondIsBad(w);
  }

  lemma SecondIsBad(w: Loop)
    requires w.runner.lastTick == Some(w.controller.now) && w.controller.now % STEP_TICKS == 0 && Lead(w) < Margin(w)
    requires Margin(w) % STEP_TICKS != 0 || Margin(w) > w.controller.window.maxHorizon
    requires w.controller.now + w.controller.window.maxHorizon < U64_LIMIT - 1
    ensures Bad(w.controller, Some(Assign(JOB, w.runner.lastTick, Margin(w), Earliest(w.controller),
      Latest(w.controller))))
  {
    hide Assign, FirstTick;
    var c := w.controller;
    TicksInRange(c);
    UntimedTick(JOB, w.runner.lastTick, Margin(w), Earliest(c), Latest(c));
    MarginDecides(c.now, Lead(w), Margin(w), Earliest(c));
    OffStep(c.now, Margin(w));
  }

  lemma MarginDecides(now: u64, lead: nat, margin: u64, earliest: u64)
    requires lead < margin && earliest <= now + lead
    ensures FirstTick(Some(now), margin, earliest) == Min(now + margin, U64_LIMIT - 1)
  {
  }

  lemma OffStep(now: nat, margin: nat)
    requires now % STEP_TICKS == 0
    ensures margin % STEP_TICKS != 0 ==> (now + margin) % STEP_TICKS != 0
  {
  }

  // ----- the failing input --------------------------------------------------------------------

  const AT_THE_END := CommandEnvelope(Some(1_000_000), Home([], 0))

  lemma EndTaken(r: RunnerState)
    requires r.jobs == [AT_THE_END, JOB] && r.lastTick.None? && r.cfg == DEFAULT_RUNNER
    ensures TakeJobs(r, 2, 100_000, 1_000_000) ==
            Taking(r.(jobs := [], lastTick := Some(1_001_000)),
              [AT_THE_END, CommandEnvelope(Some(1_001_000), JOB.command)])
  {
    assert TakeJobs(r, 0, 100_000, 1_000_000) == Taking(r, []);
    assert r.jobs[1..] == [JOB] && [JOB][1..] == [];
    assert TakeJobs(r, 1, 100_000, 1_000_000) ==
           Taking(r.(jobs := [JOB], lastTick := Some(1_000_000)), [AT_THE_END]);
  }

  /** With the default settings of runner and controller a job timed at the end of the
      window is accepted, and an untimed one after it is refused as too late. */
  lemma UntimedAfterTheEnd()
    ensures var w := StartLoop(New(0, [], []), DEFAULT_RUNNER, None);
      var end := Turned(Turned(w, Submit([AT_THE_END, JOB])), Cycle(true, []));
      end.controller.history ==
        [Accepted(0, Queued(1_000_000, JOB.command, true)),
         Rejected(0, CommandEnvelope(Some(1_001_000), JOB.command), TooLate)]
  {
    hide TakeJobs, AcceptAll, NextBatch;
    var w := StartLoop(New(0, [], []), DEFAULT_RUNNER, None);
    var jobs := [AT_THE_END, JOB];
    NoneSubmitted(jobs);
    var submitted := Turned(w, Submit(jobs));
    assert submitted.runner.jobs == jobs && submitted.controller == w.controller;
    var seen := Observe(submitted.runner, StatusOf(w.controller, true));
    BatchShape(seen, StatusOf(w.controller, true));
    assert Count(seen, StatusOf(w.controller, true)) == 2;
    EndTaken(seen);
    CycledController(submitted);
    EndReceived(w.controller);
  }

  lemma EndReceived(c: ControllerState)
    requires c == New(0, [], [])
    ensures AcceptAll(c, [AT_THE_END, CommandEnvelope(Some(1_001_000), JOB.command)]).history ==
            [Accepted(0, Queued(1_000_000, JOB.command, true)),
             Rejected(0, CommandEnvelope(Some(1_001_000), JOB.command), TooLate)]
  {
    var late := CommandEnvelope(Some(1_001_000), JOB.command);
    var batch := [AT_THE_END, late];
    assert batch[1..] == [late];
    var first := Accept(c, AT_THE_END);
    assert first.history == [Accepted(0, Queued(1_000_000, JOB.command, true))];
    RunOne((c: ControllerState, e: CommandEnvelope) => Accept(c, e), first, late);
    assert AcceptAll(c, batch) == AcceptAll(first, [late]);
  }

  // ----- a loop that dispatches nothing ---------------------------------------------------------

  lemma HeartbeatRefusesNone(c: ControllerState, e: CommandEnvelope)
    requires !Refused(c) && e == BEAT
    ensures !Refused(Accept(c, e))
  {
  }

  lemma StartRefusesNone(c: ControllerState)
    requires !Refused(c) && c.queue != []
    ensures !Refused(StartFront(c))
  {
    hide AxisFree;
    StartFields(c);
  }

  lemma StepRefusesNone(c: ControllerState, arrivals: seq<CommandEnvelope>)
    requires !Refused(c) && Heartbeats(arrivals)
    ensures !Refused(Step(c, arrivals))
  {
    hide Accept, StartFront, StartDue, GuardAll, HeatAll, MoveAxis;
    var later := c.(now := c.now + STEP_TICKS);
    var inv := (d: ControllerState) => !Refused(d);
    forall d: ControllerState, e: CommandEnvelope | inv(d) && e == BEAT
      ensures inv(Accept(d, e))
    {
      HeartbeatRefusesNone(d, e);
    }
    var step := (c: ControllerState, e: CommandEnvelope) => Accept(c, e);
    RunKeeps(step, inv, (e: CommandEnvelope) => e == BEAT, later, arrivals);
    forall d: ControllerState | inv(d) && d.queue != [] && d.queue[0].executeAt <= d.now
      ensures inv(StartFront(d))
    {
      StartRefusesNone(d);
    }
    StartDueKeeps(inv, AcceptAll(later, arrivals));
  }

  lemma {:induction false} StepsRefuseNone(c: ControllerState, steps: seq<seq<CommandEnvelope>>)
    requires !Refused(c) && forall k :: 0 <= k < |steps| ==> Heartbeats(steps[k])
    ensures !Refused(Steps(c, steps))
    decreases |steps|
  {
    hide Step, Refused, Heartbeats;
    if steps != [] {
      StepRefusesNone(c, steps[0]);
      StepsRefuseNone(Step(c, steps[0]), steps[1..]);
    }
  }

  lemma ClosedTurn(w: Loop, timing: Timing, turn: Turn)
    requires Small(w) && !Open(w) && !Refused(w.controller) && Orderly(timing, turn)
    ensures !Refused(Turned(w, turn).controller)
  {
    hide Refused, Earliest, Latest, Steps, Report, TakeJobs;
    match turn
    case Submit(_) =>
    case Cycle(heartbeatOk, steps) =>
      var seen := Observe(w.runner, StatusOf(w.controller, heartbeatOk));
      assert NextBatch(seen).1 == [];
      assert AcceptAll(w.controller, []) == w.controller;
      StepsRefuseNone(w.controller, steps);
  }

  lemma TurnKeepsSettings(w: Loop, turn: Turn)
    ensures Small(Turned(w, turn)) == Small(w) && Open(Turned(w, turn)) == Open(w)
  {
    hide Turned;
    TurnKeepsConfig(w, turn);
    TurnAdvances(w, turn);
  }

  lemma {:induction false} ClosedRefusesNone(w: Loop, timing: Timing, turns: seq<Turn>)
    requires Small(w) && !Open(w) && !Refused(w.controller) && forall k :: 0 <= k < |turns| ==>
      Orderly(timing, turns[k])
    ensures !Refused(Turns(w, turns).controller)
    decreases |turns|
  {
    hide Turned, Refused, Small, Open;
    if turns != [] {
      assert Orderly(timing, turns[0]);
      ClosedTurn(w, timing, turns[0]);
      TurnKeepsSettings(w, turns[0]);
      ClosedRefusesNone(Turned(w, turns[0]), timing, turns[1..]);
    }
  }

  // ----- the theorem --------------------------------------------------------------------------------

  lemma {:induction false} RejectedIsListed(history: seq<Event>, k: nat)
    requires k < |history| && history[k].Rejected?
    ensures history[k].envelope in Rejecteds(history)
    decreases |history|
  {
    if k < |history| - 1 {
      RejectedIsListed(history[..|history| - 1], k);
    }
  }

  lemma {:induction false} BeatsAreHeartbeats(sent: seq<CommandEnvelope>)
    ensures forall e :: e in Beats(sent) ==> e.command.Heartbeat?
    decreases |sent|
  {
    if sent != [] {
      BeatsAreHeartbeats(sent[1..]);
    }
  }

  lemma OnlyBeatsRefused(history: seq<Event>, sent: seq<CommandEnvelope>, c: ControllerState)
    requires Rejecteds(history) == Beats(sent) && c.history == history
    ensures !Refused(c)
  {
    BeatsAreHeartbeats(sent);
    forall k | 0 <= k < |history| && history[k].Rejected?
      ensures history[k].envelope.command.Heartbeat?
    {
      RejectedIsListed(history, k);
    }
  }

  lemma CompatibleIsSound(c: ControllerState, cfg: RunnerConfig, timing: Timing, beats: nat, turns: seq<Turn>)
    requires Ready(c) && Compatible(StartLoop(c, cfg, None), timing, beats)
    requires forall k :: 0 <= k < |turns| ==> Orderly(timing, turns[k])
    ensures var end := Turns(StartLoop(c, cfg, None), turns);
      Ranged(end.controller) && Pulse(CommandsIn(end.submitted)) <= beats ==> !Refused(end.controller)
  {
    hide Turns, ExactStarts, Orderly, Ranged, Pulse, CommandsIn, Refused, Rejecteds, Beats, Entries, Starteds,
      Compatible, Gapped;
    var end := Turns(StartLoop(c, cfg, None), turns);
    EveryLoopIsSound(c, cfg, None, timing, beats, turns);
    if Ranged(end.controller) && Pulse(CommandsIn(end.submitted)) <= beats {
      OnlyBeatsRefused(end.controller.history, end.dispatched, end.controller);
    }
  }

  lemma NothingRefused(c: ControllerState)
    requires c.history == []
    ensures !Refused(c)
  {
  }

  lemma IncompatibleRefuses(w: Loop, timing: Timing, beats: nat)
    requires Fresh(w) && Lead(w) >= 1 && !Compatible(w, timing, beats)
    requires timing.ByRunner? || (WholeWindow(w) && Lead(w) % STEP_TICKS == 0)
    ensures Refuses(w, timing, beats)
  {
    hide Refuses, AtRest;
    var horizon := w.controller.window.maxHorizon;
    if Lead(w) % STEP_TICKS != 0 || Lead(w) > horizon {
      LeadRefuses(w, timing, beats);
    } else {
      match timing
      case ByRunner =>
        if Reach(w, beats) > horizon {
          if Margin(w) <= Lead(w) {
            LoadAtOnceRefuses(w, beats);
          } else {
            LoadRefuses(w, beats);
          }
        } else if Single(w, beats) {
          SecondRefuses(w, ByRunner, beats);
        } else {
          SkewRefuses(w, beats);
        }
      case ByJob =>
      case Either =>
        if Single(w, beats) {
          SecondRefuses(w, Either, beats);
        } else {
          EndRefuses(w, beats);
        }
    }
  }

  /** A fresh loop refuses some orderly run, with jobs timed that way and so many
      heartbeats among them, a command other than these if and only if it can dispatch
      at all and its settings are not compatible. */
  lemma NoRefusalExactly(c: ControllerState, cfg: RunnerConfig, timing: Timing, beats: nat)
    requires Ready(c) && Small(StartLoop(c, cfg, None)) && Lead(StartLoop(c, cfg, None)) >= 1
    requires timing.ByRunner? || (WholeWindow(StartLoop(c, cfg, None))
      && Lead(StartLoop(c, cfg, None)) % STEP_TICKS == 0)
    requires c.now + c.window.minLead + c.window.maxHorizon < U64_LIMIT - 1
    ensures Refuses(StartLoop(c, cfg, None), timing, beats) <==>
            Open(StartLoop(c, cfg, None)) && !Compatible(StartLoop(c, cfg, None), timing, beats)
  {
    hide Turns, Orderly, Ranged, Pulse, CommandsIn, Open, Refused, Compatible, WholeWindow;
    var w := StartLoop(c, cfg, None);
    if !Open(w) {
      NothingRefused(c);
      forall turns: seq<Turn> | forall k :: 0 <= k < |turns| ==> Orderly(timing, turns[k])
        ensures !Refused(Turns(w, turns).controller)
      {
        ClosedRefusesNone(w, timing, turns);
      }
    } else if Compatible(w, timing, beats) {
      forall turns: seq<Turn> |
        && (forall k :: 0 <= k < |turns| ==> Orderly(timing, turns[k]))
        && Ranged(Turns(w, turns).controller)
        && Pulse(CommandsIn(Turns(w, turns).submitted)) <= beats
        ensures !Refused(Turns(w, turns).controller)
      {
        CompatibleIsSound(c, cfg, timing, beats, turns);
      }
    } else {
      IncompatibleRefuses(w, timing, beats);
    }
  }
}
