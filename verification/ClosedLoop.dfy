// The runner feeding the controller: status, dispatch, acceptance and time, in
// a loop. Only heartbeats are ever refused, and the rest starts on its tick.
module ClosedLoop {
  import opened Prelude
  import opened Protocol
  import opened Runs
  import opened Controller
  import opened ControllerLaws
  import opened Scheduling
  import opened Runner
  import opened Toolpath

  /** Controller and runner, with what was submitted and what was dispatched so far. */
  datatype Loop = Loop(
    controller: ControllerState,
    runner: RunnerState,
    submitted: seq<CommandEnvelope>,
    dispatched: seq<CommandEnvelope>)

  /** One turn of the host: more jobs, or a cycle of status, update, dispatch and
      any number of controller steps with what else arrives in them. */
  datatype Turn =
    | Submit(jobs: seq<CommandEnvelope>)
    | Cycle(heartbeatOk: bool, steps: seq<seq<CommandEnvelope>>)

  /** The session status the host derives from the controller's queue status. */
  function StatusOf(c: ControllerState, heartbeatOk: bool): SessionStatus {
    SessionStatus(c.capacity % U16_LIMIT, |c.queue| % U16_LIMIT, Earliest(c), Latest(c), c.faulted, heartbeatOk)
  }

  function Steps(c: ControllerState, steps: seq<seq<CommandEnvelope>>): ControllerState {
    Run((c: ControllerState, d: seq<CommandEnvelope>) => Step(c, d), c, steps)
  }

  function Send(w: Loop, runner: RunnerState, batch: seq<CommandEnvelope>): Loop {
    w.(controller := AcceptAll(w.controller, batch), runner := runner, dispatched := w.dispatched + batch)
  }

  function Turned(w: Loop, turn: Turn): Loop {
    match turn
    case Submit(jobs) =>
      var (runner, outcome) := EnqueueAll(w.runner, jobs);
      if outcome.Ok? then w.(runner := runner, submitted := w.submitted + jobs) else w
    case Cycle(heartbeatOk, steps) =>
      var (runner, batch) := NextBatch(Observe(w.runner, StatusOf(w.controller, heartbeatOk)));
      var sent := Send(w, runner, batch);
      sent.(controller := Steps(sent.controller, steps))
  }

  function Turns(w: Loop, turns: seq<Turn>): Loop {
    Run((l: Loop, t: Turn) => Turned(l, t), w, turns)
  }

  // ----- the conditions ---------------------------------------------------------------------

  function Horizon(w: Loop): nat {
    Min(w.runner.cfg.targetHorizon, w.controller.capacity)
  }

  function Lead(w: Loop): nat {
    w.controller.window.minLead
  }

  function Margin(w: Loop): nat {
    w.runner.cfg.leadMargin
  }

  /** How jobs are timed: by the runner, each by its own time, or either way. */
  datatype Timing = ByRunner | ByJob | Either

  /** A job with its own time asks for a step boundary. */
  predicate JobFits(timing: Timing, job: CommandEnvelope) {
    && (timing.ByRunner? ==> job.executeAt.None?)
    && (timing.ByJob? ==> job.executeAt.Some?)
    && (job.executeAt.Some? ==> job.executeAt.value % STEP_TICKS == 0)
  }

  predicate TimedAs(timing: Timing, jobs: seq<CommandEnvelope>) {
    forall k :: 0 <= k < |jobs| ==> JobFits(timing, jobs[k])
  }

  /** How far ahead the last command of a full horizon can be due when the runner
      times the jobs, heartbeats before it included: each takes a tick of its own. */
  function Reach(w: Loop, beats: nat): int {
    Max(Lead(w), Margin(w)) + (Horizon(w) - 1 + beats) * Margin(w)
  }

  /** Every job is dispatched to an empty queue, and nothing is ahead of it. */
  predicate Single(w: Loop, beats: nat) {
    Horizon(w) <= 1 && beats == 0
  }

  /** The settings under which nothing but heartbeats is refused. Jobs timed by the
      runner need a window that reaches a full horizon of margins. Jobs with their
      own times are moved back into the window, but a job after one at its end has
      no room for a margin. */
  predicate Compatible(w: Loop, timing: Timing, beats: nat) {
    var horizon := w.controller.window.maxHorizon;
    && Lead(w) >= 1 && Lead(w) % STEP_TICKS == 0 && w.controller.capacity < U16_LIMIT
    && match timing
       case ByRunner =>
         && Reach(w, beats) <= horizon
         && (Margin(w) % STEP_TICKS == 0 || (Single(w, beats) && Margin(w) <= Lead(w)))
       case ByJob => WholeWindow(w) && Lead(w) <= horizon
       case Either =>
         && WholeWindow(w) && Lead(w) <= horizon
         && (Margin(w) == 0 || (Single(w, beats) && Margin(w) <= horizon))
  }

  predicate WholeWindow(w: Loop) {
    Margin(w) % STEP_TICKS == 0 && w.controller.window.maxHorizon % STEP_TICKS == 0
  }

  predicate Heartbeats(arrivals: seq<CommandEnvelope>) {
    forall k :: 0 <= k < |arrivals| ==> arrivals[k] == CommandEnvelope(None, Heartbeat)
  }

  predicate Orderly(timing: Timing, turn: Turn) {
    match turn
    case Submit(jobs) => TimedAs(timing, jobs)
    case Cycle(_, steps) => forall k :: 0 <= k < |steps| ==> Heartbeats(steps[k])
  }

  // ----- heartbeats among the jobs ---------------------------------------------------------------

  /** How many of the commands are heartbeats. */
  function Pulse(commands: seq<Command>): nat {
    if commands == [] then 0
    else (if commands[0].Heartbeat? then 1 else 0) + Pulse(commands[1..])
  }

  /** The commands that are not. */
  function Effective(commands: seq<Command>): seq<Command> {
    if commands == [] then []
    else (if commands[0].Heartbeat? then [] else [commands[0]]) + Effective(commands[1..])
  }

  function EntryOf(e: CommandEnvelope): Queued {
    Queued(if e.executeAt.Some? then e.executeAt.value else 0, e.command, true)
  }

  /** The queue entries that dispatched envelopes become: the controller refuses
      a heartbeat with a tick. */
  function Entries(sent: seq<CommandEnvelope>): seq<Queued> {
    if sent == [] then []
    else (if sent[0].command.Heartbeat? then [] else [EntryOf(sent[0])]) + Entries(sent[1..])
  }

  function Beats(sent: seq<CommandEnvelope>): seq<CommandEnvelope> {
    if sent == [] then []
    else (if sent[0].command.Heartbeat? then [sent[0]] else []) + Beats(sent[1..])
  }

  function Rejecteds(history: seq<Event>): seq<CommandEnvelope> {
    if history == [] then []
    else
      var last := history[|history| - 1];
      Rejecteds(history[..|history| - 1]) + if last.Rejected? then [last.envelope] else []
  }

  lemma RejectedsExtend(history: seq<Event>, e: Event)
    ensures Rejecteds(history + [e]) == if e.Rejected? then Rejecteds(history) + [e.envelope] else Rejecteds(history)
  {
    assert (history + [e])[..|history|] == history;
  }

  lemma {:induction false} PulseAppends(a: seq<Command>, b: seq<Command>)
    ensures Pulse(a + b) == Pulse(a) + Pulse(b)
    decreases |a|
  {
    if a == [] {
      assert a + b == b;
    } else {
      assert (a + b)[0] == a[0] && (a + b)[1..] == a[1..] + b;
      PulseAppends(a[1..], b);
    }
  }

  lemma {:induction false} EffectiveAppends(a: seq<Command>, b: seq<Command>)
    ensures Effective(a + b) == Effective(a) + Effective(b)
    decreases |a|
  {
    if a == [] {
      assert a + b == b;
    } else {
      assert (a + b)[0] == a[0] && (a + b)[1..] == a[1..] + b;
      EffectiveAppends(a[1..], b);
      ConcatAssoc(if a[0].Heartbeat? then [] else [a[0]], Effective(a[1..]), Effective(b));
    }
  }

  lemma {:induction false} EntriesAppend(a: seq<CommandEnvelope>, b: seq<CommandEnvelope>)
    ensures Entries(a + b) == Entries(a) + Entries(b)
    decreases |a|
  {
    hide EntryOf;
    if a == [] {
      assert a + b == b;
    } else {
      assert (a + b)[0] == a[0] && (a + b)[1..] == a[1..] + b;
      EntriesAppend(a[1..], b);
      ConcatAssoc(if a[0].command.Heartbeat? then [] else [EntryOf(a[0])], Entries(a[1..]), Entries(b));
    }
  }

  lemma {:induction false} BeatsAppend(a: seq<CommandEnvelope>, b: seq<CommandEnvelope>)
    ensures Beats(a + b) == Beats(a) + Beats(b)
    decreases |a|
  {
    if a == [] {
      assert a + b == b;
    } else {
      assert (a + b)[0] == a[0] && (a + b)[1..] == a[1..] + b;
      BeatsAppend(a[1..], b);
      ConcatAssoc(if a[0].command.Heartbeat? then [a[0]] else [], Beats(a[1..]), Beats(b));
    }
  }

  /** What is dispatched is either queued or a heartbeat. */
  lemma {:induction false} SentCounts(sent: seq<CommandEnvelope>)
    ensures |sent| == |Entries(sent)| + |Beats(sent)|
    ensures |Beats(sent)| == Pulse(CommandsIn(sent))
    decreases |sent|
  {
    if sent != [] {
      SentCounts(sent[1..]);
      assert CommandsIn(sent)[1..] == CommandsIn(sent[1..]);
    }
  }

  lemma OneSent(e: CommandEnvelope)
    ensures Entries([e]) == (if e.command.Heartbeat? then [] else [EntryOf(e)])
    ensures Beats([e]) == (if e.command.Heartbeat? then [e] else [])
    ensures Pulse([e.command]) == (if e.command.Heartbeat? then 1 else 0)
  {
    hide EntryOf;
    assert [e][1..] == [] && [e.command][1..] == [];
  }

  // ----- the invariant -------------------------------------------------------------------------

  /** The first entry is at most the larger of lead and margin ahead; each next
      one a margin after the last or a lead ahead, whichever is later. */
  predicate Spaced(line: seq<Queued>, now: nat, lead: nat, margin: nat) {
    && (line != [] ==> line[0].executeAt <= now + Max(lead, margin))
    && forall k :: 0 <= k < |line| - 1 ==> line[k + 1].executeAt <= Max(now + lead, line[k].executeAt + margin)
  }

  predicate LastKnown(line: seq<Queued>, last: Option<u64>, now: nat) {
    if line == [] then last.Some? ==> last.value <= now
    else last == Some(line[|line| - 1].executeAt)
  }

  /** The dispatched envelopes whose ticks may lie ahead: ordered, spaced when the
      runner timed them, and the last of them the runner's last tick. */
  ghost predicate InLine(timing: Timing, line: seq<Queued>, last: Option<u64>, now: nat, lead: nat, margin: nat) {
    (timing.ByRunner? ==> Spaced(line, now, lead, margin)) && Sorted(line) && LastKnown(line, last, now)
  }

  function LineOf(sent: seq<CommandEnvelope>): seq<Queued> {
    Map(EntryOf, sent)
  }

  /** The first `s` dispatched envelopes are behind: their commands have started.
      Those of the rest wait in the queue. */
  ghost predicate Split(sent: seq<CommandEnvelope>, s: nat, started: seq<Queued>, queue: seq<Queued>) {
    s <= |sent| && Entries(sent[..s]) == started && Entries(sent[s..]) == queue
  }

  /** The distance that jobs timed by the runner keep. */
  function Spacing(w: Loop): nat {
    if Horizon(w) == 1 then Max(Lead(w), Margin(w)) else Margin(w)
  }

  function Gap(w: Loop, timing: Timing): nat {
    if timing.ByRunner? then Spacing(w) else 0
  }

  predicate Gapped(entries: seq<Queued>, gap: nat) {
    forall k :: 0 <= k < |entries| - 1 ==> entries[k].executeAt + gap <= entries[k + 1].executeAt
  }

  predicate DueBy(entries: seq<Queued>, tick: nat) {
    forall q :: q in entries ==> q.executeAt <= tick
  }

  /** What was queued keeps its distance, up to the last tick; what has started was due. */
  predicate Tidy(sent: seq<CommandEnvelope>, started: seq<Queued>, last: Option<u64>, now: nat, gap: nat) {
    && Gapped(Entries(sent), gap)
    && (Entries(sent) != [] ==> last.Some? && DueBy(Entries(sent), last.value))
    && DueBy(started, now)
  }

  /** What holds of the queue and the logs at every point of a turn. */
  ghost predicate Steady(w: Loop, lead: nat, timing: Timing, beats: nat, s: nat) {
    var c, last := w.controller, w.runner.lastTick;
    && Compatible(w, timing, beats)
    && Timely(c, lead) && !c.faulted && |c.queue| <= Horizon(w)
    && Split(w.dispatched, s, Starteds(c.history), c.queue)
    && InLine(timing, LineOf(w.dispatched[s..]), last, c.now, Lead(w), Margin(w))
    && Tidy(w.dispatched, Starteds(c.history), last, c.now, Gap(w, timing))
    && (last.Some? ==> last.value % STEP_TICKS == 0 && last.value <= c.now + c.window.maxHorizon)
    && Rejecteds(c.history) == Beats(w.dispatched)
    && CommandsIn(w.submitted) == CommandsIn(w.dispatched) + CommandsIn(w.runner.jobs)
    && Pulse(CommandsIn(w.submitted)) <= beats
    && TimedAs(timing, w.runner.jobs)
  }

  ghost predicate Calm(w: Loop, lead: nat, timing: Timing, beats: nat) {
    exists s: nat :: Steady(w, lead, timing, beats, s)
  }

  /** The runner's counters and phase agree with the logs. */
  predicate Counted(w: Loop) {
    && w.runner.dispatched == |w.dispatched| && w.runner.enqueued == |w.submitted|
    && (w.runner.phase == Completed ==> w.runner.jobs == [] && w.controller.queue == [])
  }

  // ----- one job ------------------------------------------------------------------------------------

  lemma AppendsLast(queue: seq<Queued>, q: Queued)
    requires forall k :: 0 <= k < |queue| ==> queue[k].executeAt <= q.executeAt
    ensures Insert(queue, q) == queue + [q]
  {
    InsertSplits(queue, q, |queue|);
    assert queue[..|queue|] == queue && queue[|queue|..] == [];
  }

  /** Entry `k` is at most `k` margins past the bound of the first. */
  lemma {:induction false} SpacedBound(line: seq<Queued>, now: nat, lead: nat, margin: nat, k: nat)
    requires Spaced(line, now, lead, margin) && k < |line|
    ensures line[k].executeAt <= now + Max(lead, margin) + k * margin
  {
    if k > 0 {
      SpacedBound(line, now, lead, margin, k - 1);
      assert line[(k - 1) + 1] == line[k];
      assert k * margin == (k - 1) * margin + margin && (k - 1) * margin >= 0;
    }
  }

  lemma ReachRoom(f: nat, most: int, margin: nat)
    requires f <= most
    ensures 0 <= f * margin <= most * margin
  {
  }

  /** No more lies ahead than what is queued and the heartbeats. */
  lemma AheadBound(sent: seq<CommandEnvelope>, s: nat, submitted: seq<Command>, jobs: seq<Command>)
    requires s <= |sent| && submitted == CommandsIn(sent) + jobs
    ensures |sent[s..]| <= |Entries(sent[s..])| + Pulse(submitted)
  {
    assert sent == sent[..s] + sent[s..];
    BeatsAppend(sent[..s], sent[s..]);
    SentCounts(sent[s..]);
    SentCounts(sent);
    PulseAppends(CommandsIn(sent), jobs);
  }

  lemma WindowIs(w: Loop, timing: Timing, beats: nat, s: nat)
    requires Steady(w, 1, timing, beats, s) && |w.controller.queue| < Horizon(w) && Ranged(w.controller)
    ensures var c := w.controller;
      && Earliest(c) == c.now + Lead(w) && Latest(c) == c.now + c.window.maxHorizon && Earliest(c) <= Latest(c)
  {
    hide Timely, TimedAs, Entries, Beats, Pulse, Rejecteds, Starteds, Sorted, CommandsIn, InLine, Tidy, Split;
    if timing.ByRunner? {
      ReachRoom(0, Horizon(w) - 1 + beats, Margin(w));
    }
  }

  lemma OneMargin(f: nat, margin: int)
    requires f >= 1
    ensures f * margin == (f - 1) * margin + margin
  {
  }

  lemma LineFits(line: seq<Queued>, last: Option<u64>, now: nat, lead: nat, margin: nat, most: int, window: nat)
    requires Spaced(line, now, lead, margin) && LastKnown(line, last, now) && |line| <= most
    requires Max(lead, margin) + most * margin <= window
    ensures last.Some? ==> last.value + margin <= now + window
  {
    var f := |line|;
    ReachRoom(f, most, margin);
    if f > 0 {
      SpacedBound(line, now, lead, margin, f - 1);
      OneMargin(f, margin);
    }
  }

  /** The next tick of the runner is inside the window whatever was dispatched before it. */
  lemma TickFits(w: Loop, beats: nat, s: nat)
    requires Steady(w, 1, ByRunner, beats, s) && |w.controller.queue| < Horizon(w)
    ensures var c, last := w.controller, w.runner.lastTick;
      last.Some? ==> last.value + Margin(w) <= c.now + c.window.maxHorizon
  {
    hide Timely, TimedAs, Entries, Beats, Pulse, Rejecteds, Starteds, Sorted, CommandsIn, Tidy, Spaced, LastKnown, Max;
    var c := w.controller;
    var line := LineOf(w.dispatched[s..]);
    AheadBound(w.dispatched, s, CommandsIn(w.submitted), CommandsIn(w.runner.jobs));
    LineFits(line, w.runner.lastTick, c.now, Lead(w), Margin(w), Horizon(w) - 1 + beats, c.window.maxHorizon);
  }

  /** Where every job meets an empty queue, nothing dispatched is still ahead. */
  lemma NothingAhead(w: Loop, timing: Timing, beats: nat, s: nat)
    requires Steady(w, 1, timing, beats, s) && |w.controller.queue| < Horizon(w) && Single(w, beats)
    ensures w.runner.lastTick.Some? ==> w.runner.lastTick.value <= w.controller.now
  {
    hide Timely, TimedAs, Entries, Beats, Pulse, Rejecteds, Starteds, Sorted, CommandsIn, Tidy, Compatible, Spaced;
    AheadBound(w.dispatched, s, CommandsIn(w.submitted), CommandsIn(w.runner.jobs));
    assert LineOf(w.dispatched[s..]) == [];
  }

  predicate Ranged(c: ControllerState) {
    c.now + c.window.maxHorizon < U64_LIMIT
  }

  function NextTick(w: Loop): u64
    requires w.runner.jobs != []
  {
    Assign(w.runner.jobs[0], w.runner.lastTick, w.runner.cfg.leadMargin, Earliest(w.controller), Latest(w.controller))
  }

  function NextEnvelope(w: Loop): CommandEnvelope
    requires w.runner.jobs != []
  {
    CommandEnvelope(Some(NextTick(w)), w.runner.jobs[0].command)
  }

  /** The front job dispatched and received. */
  function SendOne(w: Loop): Loop
    requires w.runner.jobs != []
  {
    Loop(Accept(w.controller, NextEnvelope(w)),
         w.runner.(jobs := w.runner.jobs[1..], lastTick := Some(NextTick(w))),
         w.submitted,
         w.dispatched + [NextEnvelope(w)])
  }

  lemma TimedJobAligned(e: CommandEnvelope, last: Option<u64>, margin: u64, earliest: u64, latest: u64)
    requires e.executeAt.Some? && e.executeAt.value % STEP_TICKS == 0
    requires earliest % STEP_TICKS == 0 && latest % STEP_TICKS == 0 && margin % STEP_TICKS == 0 && 0 < latest
    requires last.Some? ==> last.value % STEP_TICKS == 0
    ensures Assign(e, last, margin, earliest, latest) % STEP_TICKS == 0
  {
    if last.Some? {
      SumAligned(last.value, margin);
    }
  }

  lemma UntimedAssign(e: CommandEnvelope, last: Option<u64>, margin: u64, earliest: u64, latest: u64)
    requires e.executeAt.None? && (last.Some? ==> last.value + margin <= latest)
    ensures Assign(e, last, margin, earliest, latest) == if last.Some? then Max(earliest, last.value + margin)
      else earliest
  {
  }

  lemma SumAligned(a: nat, b: nat)
    requires a % STEP_TICKS == 0 && b % STEP_TICKS == 0
    ensures (a + b) % STEP_TICKS == 0
  {
  }

  /** Where a margin counted from the last tick ends on a step boundary or does not decide. */
  lemma MarginAligned(now: nat, lead: nat, margin: nat, last: nat)
    requires now % STEP_TICKS == 0 && lead % STEP_TICKS == 0 && last % STEP_TICKS == 0
    requires margin % STEP_TICKS == 0 || (last <= now && margin <= lead)
    ensures Max(now + lead, last + margin) % STEP_TICKS == 0
  {
    if now + lead < last + margin {
      SumAligned(last, margin);
    } else {
      SumAligned(now, lead);
    }
  }

  /** A margin past the last tick is inside the window. */
  lemma MarginFits(w: Loop, timing: Timing, beats: nat, s: nat)
    requires Steady(w, 1, timing, beats, s) && |w.controller.queue| < Horizon(w) && !timing.ByJob?
    requires w.runner.lastTick.Some?
    ensures var c, last := w.controller, w.runner.lastTick.value;
      && last + Margin(w) <= c.now + c.window.maxHorizon
      && (Margin(w) % STEP_TICKS == 0 || (last <= c.now && Margin(w) <= Lead(w)))
  {
    hide Split, InLine, Rejecteds, Beats, Pulse, CommandsIn, Tidy, Reach, Timely, TimedAs, Starteds, Horizon;
    if timing.ByRunner? {
      TickFits(w, beats, s);
    }
    if Single(w, beats) {
      NothingAhead(w, timing, beats, s);
    }
  }

  lemma BoundariesAligned(w: Loop, timing: Timing, beats: nat, s: nat)
    requires Steady(w, 1, timing, beats, s)
    ensures w.controller.now % STEP_TICKS == 0 && Lead(w) % STEP_TICKS == 0
    ensures w.runner.lastTick.Some? ==>
      && w.runner.lastTick.value % STEP_TICKS == 0
      && w.runner.lastTick.value <= w.controller.now + w.controller.window.maxHorizon
    ensures timing.ByRunner? || (WholeWindow(w) && 1 <= w.controller.window.maxHorizon)
  {
    hide Split, InLine, Rejecteds, Beats, Pulse, CommandsIn, Tidy, Reach, TimedAs, Starteds, Horizon;
  }

  /** The tick of an untimed job. */
  lemma RunnerTick(w: Loop, timing: Timing, beats: nat, s: nat)
    requires Steady(w, 1, timing, beats, s) && |w.controller.queue| < Horizon(w) && Ranged(w.controller)
    requires w.runner.jobs != [] && w.runner.jobs[0].executeAt.None?
    ensures var c, last := w.controller, w.runner.lastTick;
      && NextTick(w) == (if last.Some? then Max(c.now + Lead(w), last.value + Margin(w)) else c.now + Lead(w))
      && NextTick(w) % STEP_TICKS == 0 && NextTick(w) <= Latest(c)
  {
    hide Steady, Earliest, Latest, Assign, Max;
    var c, job, last := w.controller, w.runner.jobs[0], w.runner.lastTick;
    WindowIs(w, timing, beats, s);
    BoundariesAligned(w, timing, beats, s);
    NotByJob(w, timing, beats, s);
    if last.Some? {
      MarginFits(w, timing, beats, s);
      MarginAligned(c.now, Lead(w), Margin(w), last.value);
    } else {
      SumAligned(c.now, Lead(w));
    }
    UntimedAssign(job, last, Margin(w), Earliest(c), Latest(c));
    MaxWithin(c.now + Lead(w), if last.Some? then last.value + Margin(w) else 0, Latest(c));
  }

  lemma MaxWithin(a: int, b: int, limit: int)
    ensures a <= limit && b <= limit ==> Max(a, b) <= limit
  {
  }

  lemma NotByJob(w: Loop, timing: Timing, beats: nat, s: nat)
    requires Steady(w, 1, timing, beats, s) && w.runner.jobs != [] && w.runner.jobs[0].executeAt.None?
    ensures !timing.ByJob?
  {
    hide Steady;
    FrontFits(w, timing, beats, s);
  }

  lemma FrontFits(w: Loop, timing: Timing, beats: nat, s: nat)
    requires Steady(w, 1, timing, beats, s) && w.runner.jobs != []
    ensures JobFits(timing, w.runner.jobs[0])
  {
    hide Split, InLine, Rejecteds, Beats, Pulse, CommandsIn, Tidy, Compatible, Timely, Starteds, JobFits;
  }

  /** The tick of a job with its own time. */
  lemma JobTick(w: Loop, timing: Timing, beats: nat, s: nat)
    requires Steady(w, 1, timing, beats, s) && |w.controller.queue| < Horizon(w) && Ranged(w.controller)
    requires w.runner.jobs != [] && w.runner.jobs[0].executeAt.Some?
    ensures var c, last := w.controller, w.runner.lastTick;
      && NextTick(w) % STEP_TICKS == 0 && Earliest(c) <= NextTick(w) <= Latest(c)
      && (last.Some? ==> last.value <= NextTick(w))
  {
    hide Steady, Earliest, Latest, Assign;
    var c, job := w.controller, w.runner.jobs[0];
    WindowIs(w, timing, beats, s);
    BoundariesAligned(w, timing, beats, s);
    JobTimed(w, timing, beats, s);
    SumAligned(c.now, Lead(w));
    SumAligned(c.now, c.window.maxHorizon);
    TimedJobFits(job, w.runner.lastTick, Margin(w), Earliest(c), Latest(c));
    TimedJobAligned(job, w.runner.lastTick, Margin(w), Earliest(c), Latest(c));
  }

  lemma JobTimed(w: Loop, timing: Timing, beats: nat, s: nat)
    requires Steady(w, 1, timing, beats, s) && w.runner.jobs != [] && w.runner.jobs[0].executeAt.Some?
    ensures !timing.ByRunner? && w.runner.jobs[0].executeAt.value % STEP_TICKS == 0
  {
    hide Steady;
    FrontFits(w, timing, beats, s);
  }

  lemma TickMeaning(w: Loop, timing: Timing, beats: nat, s: nat)
    requires Steady(w, 1, timing, beats, s) && |w.controller.queue| < Horizon(w) && Ranged(w.controller)
    requires w.runner.jobs != []
    ensures var c, last, t := w.controller, w.runner.lastTick, NextTick(w);
      && t % STEP_TICKS == 0 && Earliest(c) <= t <= Latest(c) == c.now + c.window.maxHorizon
      && (last.Some? ==> last.value <= t)
      && (timing.ByRunner? ==>
            t == if last.Some? then Max(c.now + Lead(w), last.value + Margin(w)) else c.now + Lead(w))
  {
    hide Steady, Earliest, Latest, NextTick;
    WindowIs(w, timing, beats, s);
    FrontFits(w, timing, beats, s);
    if w.runner.jobs[0].executeAt.Some? {
      JobTick(w, timing, beats, s);
    } else {
      RunnerTick(w, timing, beats, s);
    }
  }

  /** Everything queued is in the line. */
  lemma {:induction false} EntriesInLine(sent: seq<CommandEnvelope>)
    ensures forall q :: q in Entries(sent) ==> q in LineOf(sent)
    decreases |sent|
  {
    hide EntryOf;
    if sent != [] {
      EntriesInLine(sent[1..]);
      assert LineOf(sent)[1..] == LineOf(sent[1..]);
      assert LineOf(sent)[0] == EntryOf(sent[0]);
      forall q | q in Entries(sent)
        ensures q in LineOf(sent)
      {
        if q in Entries(sent[1..]) {
          assert q in LineOf(sent)[1..];
        }
      }
    }
  }

  lemma InLineBeforeLast(timing: Timing, line: seq<Queued>, q: Queued, last: Option<u64>, now: nat, lead: nat,
                         margin: nat)
    requires InLine(timing, line, last, now, lead, margin) && q in line
    ensures last.Some? && q.executeAt <= last.value
  {
    hide Spaced;
    var i :| 0 <= i < |line| && line[i] == q;
    if i < |line| - 1 {
      assert line[i].executeAt <= line[|line| - 1].executeAt;
    }
  }

  /** Nothing queued is due after the last dispatched tick. */
  lemma QueueBeforeLast(timing: Timing, sent: seq<CommandEnvelope>, queue: seq<Queued>, last: Option<u64>, now: nat,
                        lead: nat, margin: nat)
    requires Entries(sent) == queue && InLine(timing, LineOf(sent), last, now, lead, margin)
    ensures forall q :: q in queue ==> last.Some? && q.executeAt <= last.value
  {
    hide Entries, InLine;
    EntriesInLine(sent);
    forall q | q in queue
      ensures last.Some? && q.executeAt <= last.value
    {
      InLineBeforeLast(timing, LineOf(sent), q, last, now, lead, margin);
    }
  }

  /** A heartbeat with a tick is refused; anything else joins the end of the queue. */
  lemma SendOneReceived(w: Loop, timing: Timing, beats: nat, s: nat)
    requires Steady(w, 1, timing, beats, s) && w.runner.jobs != [] && |w.controller.queue| < Horizon(w)
      && Ranged(w.controller)
    ensures var e := NextEnvelope(w);
      var c := w.controller;
      SendOne(w).controller ==
        if e.command.Heartbeat? then c.(history := c.history + [Rejected(c.now, e, ScheduledHeartbeat)])
        else c.(queue := c.queue + [EntryOf(e)], history := c.history + [Accepted(c.now, EntryOf(e))])
  {
    hide Spaced, Insert, LastKnown, NextTick, Entries, Rejecteds, Beats, Pulse, CommandsIn, Sorted;
    TickMeaning(w, timing, beats, s);
    QueueBeforeLast(timing, w.dispatched[s..], w.controller.queue, w.runner.lastTick, w.controller.now, Lead(w),
      Margin(w));
    if !w.runner.jobs[0].command.Heartbeat? {
      AppendsLast(w.controller.queue, EntryOf(NextEnvelope(w)));
    }
  }

  lemma SpacedGrows(line: seq<Queued>, last: Option<u64>, now: nat, lead: nat, margin: nat, q: Queued)
    requires Spaced(line, now, lead, margin) && LastKnown(line, last, now)
    requires q.executeAt == if last.Some? then Max(now + lead, last.value + margin) else now + lead
    ensures Spaced(line + [q], now, lead, margin)
  {
    var next := line + [q];
    forall k | 0 <= k < |next| - 1
      ensures next[k + 1].executeAt <= Max(now + lead, next[k].executeAt + margin)
    {
      if k < |line| - 1 {
        assert line[k + 1].executeAt <= Max(now + lead, line[k].executeAt + margin);
      }
    }
  }

  lemma LineGrows(timing: Timing, line: seq<Queued>, last: Option<u64>, now: nat, lead: nat, margin: nat, q: Queued)
    requires InLine(timing, line, last, now, lead, margin)
    requires last.Some? ==> last.value <= q.executeAt
    requires timing.ByRunner? ==>
      q.executeAt == if last.Some? then Max(now + lead, last.value + margin) else now + lead
    requires q.executeAt < U64_LIMIT
    ensures InLine(timing, line + [q], Some(q.executeAt), now, lead, margin)
  {
    var next := line + [q];
    if timing.ByRunner? {
      SpacedGrows(line, last, now, lead, margin, q);
    }
    hide Spaced;
    forall i, j | 0 <= i < j < |next|
      ensures next[i].executeAt <= next[j].executeAt
    {
      if j == |line| && i < |line| - 1 {
        assert line[i].executeAt <= line[|line| - 1].executeAt;
      }
    }
  }

  lemma JobMoves(submitted: seq<CommandEnvelope>, sent: seq<CommandEnvelope>, jobs: seq<CommandEnvelope>,
                 e: CommandEnvelope)
    requires jobs != [] && e.command == jobs[0].command
    requires CommandsIn(submitted) == CommandsIn(sent) + CommandsIn(jobs)
    ensures CommandsIn(submitted) == CommandsIn(sent + [e]) + CommandsIn(jobs[1..])
  {
    var f := (e: CommandEnvelope) => e.command;
    assert jobs == [jobs[0]] + jobs[1..];
    MapAppends(f, [jobs[0]], jobs[1..]);
    MapAppends(f, sent, [e]);
    assert CommandsIn([jobs[0]]) == CommandsIn([e]);
    ConcatAssoc(CommandsIn(sent), CommandsIn([e]), CommandsIn(jobs[1..]));
  }

  lemma SplitGrows(sent: seq<CommandEnvelope>, s: nat, started: seq<Queued>, queue: seq<Queued>, e: CommandEnvelope)
    requires Split(sent, s, started, queue)
    ensures Split(sent + [e], s, started, if e.command.Heartbeat? then queue else queue + [EntryOf(e)])
    ensures LineOf((sent + [e])[s..]) == LineOf(sent[s..]) + [EntryOf(e)]
    ensures Beats(sent + [e]) == if e.command.Heartbeat? then Beats(sent) + [e] else Beats(sent)
  {
    hide Entries, Beats, EntryOf;
    assert (sent + [e])[..s] == sent[..s] && (sent + [e])[s..] == sent[s..] + [e];
    EntriesAppend(sent[s..], [e]);
    BeatsAppend(sent, [e]);
    OneSent(e);
    MapAppends(EntryOf, sent[s..], [e]);
    assert queue + [] == queue && Beats(sent) + [] == Beats(sent);
  }

  lemma SplitBound(sent: seq<CommandEnvelope>, s: nat, started: seq<Queued>, queue: seq<Queued>)
    requires Split(sent, s, started, queue)
    ensures s <= |sent|
  {
  }

  lemma GapGrows(entries: seq<Queued>, gap: nat, q: Queued)
    requires Gapped(entries, gap) && forall p :: p in entries ==> p.executeAt + gap <= q.executeAt
    ensures Gapped(entries + [q], gap)
  {
    var after := entries + [q];
    forall k | 0 <= k < |after| - 1
      ensures after[k].executeAt + gap <= after[k + 1].executeAt
    {
      if k == |entries| - 1 {
        assert entries[k] in entries;
      }
    }
  }

  lemma DueGrows(entries: seq<Queued>, gap: nat, q: Queued)
    requires forall p :: p in entries ==> p.executeAt + gap <= q.executeAt
    ensures DueBy(entries + [q], q.executeAt) && DueBy(entries, q.executeAt)
  {
  }

  lemma TidyGrows(sent: seq<CommandEnvelope>, started: seq<Queued>, last: Option<u64>, now: nat, gap: nat,
                  e: CommandEnvelope)
    requires Tidy(sent, started, last, now, gap) && e.executeAt.Some?
    requires forall q :: q in Entries(sent) ==> q.executeAt + gap <= e.executeAt.value
    ensures Tidy(sent + [e], started, e.executeAt, now, gap)
  {
    hide Entries, Gapped, DueBy;
    EntriesAppend(sent, [e]);
    OneSent(e);
    GapGrows(Entries(sent), gap, EntryOf(e));
    DueGrows(Entries(sent), gap, EntryOf(e));
    assert Entries(sent) + [] == Entries(sent);
  }

  /** The next tick keeps the distance to all that was queued before it. */
  lemma EntriesFar(w: Loop, timing: Timing, beats: nat, s: nat)
    requires Steady(w, 1, timing, beats, s) && w.runner.jobs != [] && |w.controller.queue| < Horizon(w)
    requires Ranged(w.controller)
    ensures forall q :: q in Entries(w.dispatched) ==> q.executeAt + Gap(w, timing) <= NextTick(w)
  {
    hide InLine, Timely, NextTick, Starteds, CommandsIn, Rejecteds, Beats, Pulse, LineOf, Entries, Gapped, Latest,
      TimedAs, Compatible;
    TickMeaning(w, timing, beats, s);
    WindowIs(w, timing, beats, s);
    AllSent(w.dispatched, s, Starteds(w.controller.history), w.controller.queue);
    forall q | q in Entries(w.dispatched)
      ensures q.executeAt + Gap(w, timing) <= NextTick(w)
    {
      if timing.ByRunner? && Horizon(w) == 1 {
        assert q in Starteds(w.controller.history);
      }
    }
  }

  lemma SendOneKeeps(w: Loop, timing: Timing, beats: nat, s: nat)
    requires Steady(w, 1, timing, beats, s) && w.runner.jobs != [] && |w.controller.queue| < Horizon(w)
      && Ranged(w.controller)
    ensures Steady(SendOne(w), 1, timing, beats, s)
    ensures |SendOne(w).controller.queue| <= |w.controller.queue| + 1
  {
    hide Split, InLine, Timely, Accept, NextTick, Accepteds, Starteds, CommandsIn, Rejecteds, Beats, Pulse, LineOf,
      EntryOf, Tidy;
    SplitBound(w.dispatched, s, Starteds(w.controller.history), w.controller.queue);
    var e := NextEnvelope(w);
    var c := w.controller;
    TickMeaning(w, timing, beats, s);
    SendOneReceived(w, timing, beats, s);
    SplitGrows(w.dispatched, s, Starteds(c.history), c.queue, e);
    EntryTick(e);
    LineGrows(timing, LineOf(w.dispatched[s..]), w.runner.lastTick, c.now, Lead(w), Margin(w), EntryOf(e));
    EntriesFar(w, timing, beats, s);
    TidyGrows(w.dispatched, Starteds(c.history), w.runner.lastTick, c.now, Gap(w, timing), e);
    JobMoves(w.submitted, w.dispatched, w.runner.jobs, e);
    AcceptIsTimely(c, e, 1);
    var logged := if e.command.Heartbeat? then Rejected(c.now, e, ScheduledHeartbeat) else Accepted(c.now, EntryOf(e));
    LogExtends(c.history, logged);
    RejectedsExtend(c.history, logged);
  }

  lemma EntryTick(e: CommandEnvelope)
    requires e.executeAt.Some?
    ensures EntryOf(e).executeAt == e.executeAt.value
  {
  }

  // ----- one batch -----------------------------------------------------------------------------------

  lemma AcceptAllSnoc(c: ControllerState, batch: seq<CommandEnvelope>, e: CommandEnvelope)
    ensures AcceptAll(c, batch + [e]) == Accept(AcceptAll(c, batch), e)
  {
    hide Accept;
    var step := (c: ControllerState, e: CommandEnvelope) => Accept(c, e);
    assert (batch + [e])[..|batch|] == batch && (batch + [e])[|batch|..] == [e];
    RunSplits(step, c, batch + [e], |batch|);
    RunOne(step, AcceptAll(c, batch), e);
  }

  /** Dispatching `n` jobs and receiving them. */
  function Batched(w: Loop, n: nat): Loop {
    var t := TakeJobs(w.runner, n, Earliest(w.controller), Latest(w.controller));
    Send(w, t.runner, t.batch)
  }

  lemma BatchedNext(w: Loop, n: nat)
    requires n < |w.runner.jobs|
    requires Batched(w, n).controller.now == w.controller.now && Batched(w, n).controller.window == w.controller.window
    ensures Batched(w, n).runner.jobs != [] && Batched(w, n + 1) == SendOne(Batched(w, n))
  {
    hide Accept, Assign, AcceptAll;
    TakeCounts(w.runner, n, Earliest(w.controller), Latest(w.controller));
    var t := TakeJobs(w.runner, n, Earliest(w.controller), Latest(w.controller));
    AcceptAllSnoc(w.controller, t.batch, NextEnvelope(Batched(w, n)));
  }

  lemma SendOneFields(w: Loop)
    requires w.runner.jobs != []
    ensures SendOne(w).controller.now == w.controller.now && SendOne(w).controller.window == w.controller.window
    ensures SendOne(w).controller.capacity == w.controller.capacity && SendOne(w).runner.cfg == w.runner.cfg
  {
    hide Accept;
    AcceptTouchesQueue(w.controller, NextEnvelope(w));
  }

  lemma {:induction false} BatchKeeps(w: Loop, n: nat, timing: Timing, beats: nat, s: nat)
    requires Steady(w, 1, timing, beats, s) && n <= |w.runner.jobs| && |w.controller.queue| + n <= Horizon(w)
      && Ranged(w.controller)
    ensures var next := Batched(w, n);
      && Steady(next, 1, timing, beats, s)
      && |next.controller.queue| <= |w.controller.queue| + n
      && next.controller.now == w.controller.now && next.controller.window == w.controller.window
      && next.controller.capacity == w.controller.capacity && next.runner.cfg == w.runner.cfg
  {
    hide Steady, Accept, SendOne;
    if n == 0 {
      assert Batched(w, 0) == w.(dispatched := w.dispatched + []);
      assert w.dispatched + [] == w.dispatched;
    } else {
      BatchKeeps(w, n - 1, timing, beats, s);
      BatchedNext(w, n - 1);
      SendOneFields(Batched(w, n - 1));
      SendOneKeeps(Batched(w, n - 1), timing, beats, s);
    }
  }

  // ----- time passing -----------------------------------------------------------------------------------

  /** What a step may do to the controller under a calm loop. */
  ghost predicate Holds(w: Loop, c: ControllerState, lead: nat, timing: Timing, beats: nat, now: nat) {
    Calm(w.(controller := c), lead, timing, beats) && c.now == now
    && c.window == w.controller.window && c.capacity == w.controller.capacity
    && |c.queue| <= |w.controller.queue|
  }

  lemma HeartbeatHolds(w: Loop, c: ControllerState, e: CommandEnvelope, timing: Timing, beats: nat, now: nat)
    requires Holds(w, c, 0, timing, beats, now) && e == CommandEnvelope(None, Heartbeat)
    ensures Holds(w, Accept(c, e), 0, timing, beats, now)
  {
    hide Split, InLine, Starteds, CommandsIn, Rejecteds, Beats, Pulse;
    var s: nat :| Steady(w.(controller := c), 0, timing, beats, s);
    AcceptIsTimely(c, e, 0);
    assert Steady(w.(controller := Accept(c, e)), 0, timing, beats, s);
  }

  lemma SpacedPops(line: seq<Queued>, now: nat, lead: nat, margin: nat)
    requires Spaced(line, now, lead, margin) && line != [] && line[0].executeAt <= now
    ensures Spaced(line[1..], now, lead, margin)
  {
    var rest := line[1..];
    forall k | 0 <= k < |rest| - 1
      ensures rest[k + 1].executeAt <= Max(now + lead, rest[k].executeAt + margin)
    {
      assert rest[k + 1] == line[(k + 1) + 1];
    }
    if rest != [] {
      assert rest[0] == line[0 + 1];
    }
  }

  lemma PopLine(timing: Timing, line: seq<Queued>, last: Option<u64>, now: nat, lead: nat, margin: nat)
    requires InLine(timing, line, last, now, lead, margin) && line != [] && line[0].executeAt <= now
    ensures InLine(timing, line[1..], last, now, lead, margin)
  {
    hide Spaced;
    if timing.ByRunner? {
      SpacedPops(line, now, lead, margin);
    }
  }

  /** When the front of the queue starts, it falls behind with the heartbeats before it. */
  lemma {:induction false} PopThrough(timing: Timing, sent: seq<CommandEnvelope>, s: nat, started: seq<Queued>,
                                      queue: seq<Queued>, last: Option<u64>, now: nat, lead: nat, margin: nat)
    returns (next: nat)
    requires Split(sent, s, started, queue) && InLine(timing, LineOf(sent[s..]), last, now, lead, margin)
    requires queue != [] && queue[0].executeAt <= now
    ensures Split(sent, next, started + [queue[0]], queue[1..])
    ensures InLine(timing, LineOf(sent[next..]), last, now, lead, margin)
    decreases |sent| - s
  {
    hide InLine, Entries;
    assert sent[s..] != [] by { NothingSent(); }
    var e := sent[s];
    assert sent[s..][0] == e && sent[s..][1..] == sent[s + 1..];
    assert LineOf(sent[s..])[1..] == LineOf(sent[s + 1..]) && LineOf(sent[s..])[0] == EntryOf(e);
    assert sent[..s + 1] == sent[..s] + [e] && sent[s..] == [e] + sent[s + 1..];
    EntriesAppend(sent[..s], [e]);
    EntriesAppend([e], sent[s + 1..]);
    OneSent(e);
    FrontIsDue(timing, sent[s..], queue, last, now, lead, margin);
    PopLine(timing, LineOf(sent[s..]), last, now, lead, margin);
    if e.command.Heartbeat? {
      assert started + [] == started && [] + Entries(sent[s + 1..]) == Entries(sent[s + 1..]);
      next := PopThrough(timing, sent, s + 1, started, queue, last, now, lead, margin);
    } else {
      assert queue == [EntryOf(e)] + Entries(sent[s + 1..]);
      next := s + 1;
    }
  }

  lemma NothingSent()
    ensures Entries([]) == []
  {
  }

  /** Nothing in the line is due after what is queued first, up to it. */
  lemma FrontIsDue(timing: Timing, sent: seq<CommandEnvelope>, queue: seq<Queued>, last: Option<u64>, now: nat,
                   lead: nat, margin: nat)
    requires sent != [] && Entries(sent) == queue && queue != [] && queue[0].executeAt <= now
    requires InLine(timing, LineOf(sent), last, now, lead, margin)
    ensures LineOf(sent)[0].executeAt <= now
  {
    hide Entries, Spaced;
    EntriesInLine(sent);
    assert queue[0] in LineOf(sent);
  }

  lemma SameSetting(w: Loop, c: ControllerState, d: ControllerState, timing: Timing, beats: nat)
    requires c.window == d.window && c.capacity == d.capacity
    ensures Compatible(w.(controller := c), timing, beats) <==> Compatible(w.(controller := d), timing, beats)
    ensures Horizon(w.(controller := c)) == Horizon(w.(controller := d))
    ensures Lead(w.(controller := c)) == Lead(w.(controller := d))
      && Margin(w.(controller := c)) == Margin(w.(controller := d))
  {
  }

  lemma StartHolds(w: Loop, c: ControllerState, timing: Timing, beats: nat, now: nat)
    requires Holds(w, c, 0, timing, beats, now) && c.queue != [] && c.queue[0].executeAt <= now
    ensures Holds(w, StartFront(c), 0, timing, beats, now)
  {
    hide StartFront, Timely, Starteds, CommandsIn, AxisFree, Split, InLine, TimedAs, Compatible, Lead, Margin, Horizon,
      Rejecteds, Beats, Pulse, LineOf;
    var was := w.(controller := c);
    var s: nat :| Steady(was, 0, timing, beats, s);
    StartIsTimely(c);
    StartFields(c);
    SameSetting(w, c, StartFront(c), timing, beats);
    LogExtends(c.history, StartEvent(c));
    RejectedsExtend(c.history, StartEvent(c));
    var next := PopThrough(timing, w.dispatched, s, Starteds(c.history), c.queue, w.runner.lastTick, now, Lead(was),
      Margin(was));
    assert Steady(w.(controller := StartFront(c)), 0, timing, beats, next);
  }

  lemma SpacedLater(line: seq<Queued>, now: nat, later: nat, lead: nat, margin: nat)
    requires Spaced(line, now, lead, margin) && now <= later
    ensures Spaced(line, later, lead, margin)
  {
    forall k | 0 <= k < |line| - 1
      ensures line[k + 1].executeAt <= Max(later + lead, line[k].executeAt + margin)
    {
      assert line[k + 1].executeAt <= Max(now + lead, line[k].executeAt + margin);
    }
  }

  lemma LineLater(timing: Timing, line: seq<Queued>, last: Option<u64>, now: nat, later: nat, lead: nat, margin: nat)
    requires InLine(timing, line, last, now, lead, margin) && now <= later
    ensures InLine(timing, line, last, later, lead, margin)
  {
    hide Spaced;
    if timing.ByRunner? {
      SpacedLater(line, now, later, lead, margin);
    }
  }

  lemma LaterHolds(w: Loop, timing: Timing, beats: nat)
    requires Calm(w, 1, timing, beats)
    ensures Holds(w, w.controller.(now := w.controller.now + STEP_TICKS), 0, timing, beats,
      w.controller.now + STEP_TICKS)
  {
    hide Timely, Starteds, CommandsIn, Split, InLine, Rejecteds, Beats, Pulse, LineOf;
    var s: nat :| Steady(w, 1, timing, beats, s);
    var c := w.controller;
    var later := c.(now := c.now + STEP_TICKS);
    TimelyLater(c);
    SplitBound(w.dispatched, s, Starteds(c.history), c.queue);
    LineLater(timing, LineOf(w.dispatched[s..]), w.runner.lastTick, c.now, later.now, Lead(w), Margin(w));
    assert Steady(w.(controller := later), 0, timing, beats, s);
  }

  lemma TimelyLater(c: ControllerState)
    requires Timely(c, 1)
    ensures Timely(c.(now := c.now + STEP_TICKS), 0)
  {
    TimePasses(c, false);
  }

  lemma PlantsHold(w: Loop, c: ControllerState, timing: Timing, beats: nat, now: nat)
    requires Holds(w, c, 0, timing, beats, now) && (c.queue == [] || c.queue[0].executeAt > c.now)
    ensures Holds(w, Plants(c), 1, timing, beats, now)
  {
    hide Split, InLine, Starteds, CommandsIn, Rejecteds, Beats, Pulse, GuardAll, HeatAll, MoveAxis, Timely;
    var s: nat :| Steady(w.(controller := c), 0, timing, beats, s);
    PlantsAreTimely(c);
    assert Steady(w.(controller := Plants(c)), 1, timing, beats, s);
  }

  lemma PlantsAreTimely(c: ControllerState)
    requires Timely(c, 0) && (c.queue == [] || c.queue[0].executeAt > c.now)
    ensures Timely(Plants(c), 1)
  {
    hide Plants;
    PlantsAreScheduled(c, false);
  }

  lemma StepHolds(w: Loop, arrivals: seq<CommandEnvelope>, timing: Timing, beats: nat)
    requires Calm(w, 1, timing, beats) && Heartbeats(arrivals)
    ensures Holds(w, Step(w.controller, arrivals), 1, timing, beats, w.controller.now + STEP_TICKS)
  {
    hide Calm, Accept, StartFront, Plants, StartDue;
    var now := w.controller.now + STEP_TICKS;
    var later := w.controller.(now := now);
    ghost var inv := (c: ControllerState) => Holds(w, c, 0, timing, beats, now);
    LaterHolds(w, timing, beats);
    var step := (c: ControllerState, e: CommandEnvelope) => Accept(c, e);
    ghost var enabled := (e: CommandEnvelope) => e == CommandEnvelope(None, Heartbeat);
    forall c: ControllerState, e: CommandEnvelope | inv(c) && enabled(e)
      ensures inv(step(c, e))
    {
      HeartbeatHolds(w, c, e, timing, beats, now);
    }
    RunKeeps(step, inv, enabled, later, arrivals);
    forall c: ControllerState | inv(c) && c.queue != [] && c.queue[0].executeAt <= c.now
      ensures inv(StartFront(c))
    {
      StartHolds(w, c, timing, beats, now);
    }
    var received := AcceptAll(later, arrivals);
    StartDueKeeps(inv, received);
    PlantsHold(w, StartDue(received), timing, beats, now);
  }

  /** A step moves the clock on and leaves the configuration alone, whatever arrives. */
  lemma StepAdvances(c: ControllerState, arrivals: seq<CommandEnvelope>)
    ensures var next := Step(c, arrivals);
      next.now == c.now + STEP_TICKS && next.window == c.window && next.capacity == c.capacity
  {
    hide Accept, StartFront, StartDue, AcceptAll, GuardAll, HeatAll, MoveAxis;
    var later := c.(now := c.now + STEP_TICKS);
    var inv := (d: ControllerState) => d.now == later.now && d.window == c.window && d.capacity == c.capacity;
    forall d: ControllerState, e: CommandEnvelope | inv(d)
      ensures inv(Accept(d, e))
    {
      AcceptTouchesQueue(d, e);
    }
    forall d: ControllerState | inv(d) && d.queue != []
      ensures inv(StartFront(d))
    {
      StartFields(d);
    }
    AcceptAllKeeps(inv, later, arrivals);
    StartDueKeeps(inv, AcceptAll(later, arrivals));
  }

  lemma {:induction false} StepsAdvance(c: ControllerState, steps: seq<seq<CommandEnvelope>>)
    ensures var next := Steps(c, steps);
      next.now >= c.now && next.window == c.window && next.capacity == c.capacity
    decreases |steps|
  {
    hide Step;
    if steps != [] {
      StepAdvances(c, steps[0]);
      StepsAdvance(Step(c, steps[0]), steps[1..]);
    }
  }

  lemma {:induction false} StepsHold(w: Loop, steps: seq<seq<CommandEnvelope>>, timing: Timing, beats: nat)
    requires Calm(w, 1, timing, beats) && forall k :: 0 <= k < |steps| ==> Heartbeats(steps[k])
    ensures Calm(w.(controller := Steps(w.controller, steps)), 1, timing, beats)
    ensures |Steps(w.controller, steps).queue| <= |w.controller.queue|
    decreases |steps|
  {
    hide Calm, Step, Heartbeats;
    if steps == [] {
      assert w.(controller := w.controller) == w;
    } else {
      StepHolds(w, steps[0], timing, beats);
      StepsHold(w.(controller := Step(w.controller, steps[0])), steps[1..], timing, beats);
    }
  }

  // ----- one turn ------------------------------------------------------------------------------------------

  /** Only the jobs, the last tick and the configuration of the runner matter to the queue. */
  lemma OtherFieldsFree(w: Loop, runner: RunnerState, timing: Timing, beats: nat, s: nat)
    requires Steady(w, 1, timing, beats, s)
    requires runner.jobs == w.runner.jobs && runner.lastTick == w.runner.lastTick && runner.cfg == w.runner.cfg
    ensures Steady(w.(runner := runner), 1, timing, beats, s)
  {
    hide Split, InLine, Starteds, CommandsIn, Rejecteds, Beats, Pulse, Timely, TimedAs;
  }

  /** How many jobs the runner dispatches after this status. */
  function Count(r: RunnerState, status: SessionStatus): nat {
    var horizon := Min(r.cfg.targetHorizon, status.capacity);
    if r.phase == Faulted || r.jobs == [] || !status.heartbeatOk || status.fill >= horizon then 0
    else BatchCount(r, horizon, status.fill)
  }

  lemma BatchShape(r: RunnerState, status: SessionStatus)
    requires r.status == Some(status)
    ensures var n := Count(r, status);
      var taken := TakeJobs(r, n, status.earliest, status.latest);
      var (next, batch) := NextBatch(r);
      && n <= |r.jobs| && (n > 0 ==> status.fill + n <= Min(r.cfg.targetHorizon, status.capacity))
      && batch == taken.batch && |batch| == n
      && next == taken.runner.(dispatched := r.dispatched + n, phase := next.phase)
      && (next.phase == Faulted ==> r.phase == Faulted || !status.heartbeatOk)
      && (next.phase == Completed ==>
            n == 0 && (r.phase == Completed || (r.jobs == [] && r.completed == r.dispatched)))
  {
    hide Assign;
    var n := Count(r, status);
    TakeCounts(r, n, status.earliest, status.latest);
  }

  /** The count of completed commands in the runner is the number that have started
      or were heartbeats, and completion means that nothing is left. */
  lemma CompletedCountsStarts(w: Loop, heartbeatOk: bool, timing: Timing, beats: nat)
    requires Calm(w, 1, timing, beats) && Counted(w)
    ensures var seen := Observe(w.runner, StatusOf(w.controller, heartbeatOk));
      && seen.completed == |Starteds(w.controller.history)| + |Beats(w.dispatched)|
      && seen.completed == seen.dispatched - |w.controller.queue|
      && (seen.phase == Completed ==> w.runner.jobs == [] && w.controller.queue == [])
  {
    hide InLine, Entries, Starteds, CommandsIn, Rejecteds, Beats, Pulse, Timely, TimedAs, Earliest, Latest, Tidy;
    var s: nat :| Steady(w, 1, timing, beats, s);
    AllSent(w.dispatched, s, Starteds(w.controller.history), w.controller.queue);
    SentCounts(w.dispatched);
  }

  lemma AllSent(sent: seq<CommandEnvelope>, s: nat, started: seq<Queued>, queue: seq<Queued>)
    requires Split(sent, s, started, queue)
    ensures Entries(sent) == started + queue
  {
    hide Entries;
    assert sent == sent[..s] + sent[s..];
    EntriesAppend(sent[..s], sent[s..]);
  }

  lemma StatusFits(w: Loop, heartbeatOk: bool, timing: Timing, beats: nat, s: nat)
    requires Steady(w, 1, timing, beats, s)
    ensures var status := StatusOf(w.controller, heartbeatOk);
      && status.capacity == w.controller.capacity && status.fill == |w.controller.queue|
      && Min(w.runner.cfg.targetHorizon, status.capacity) == Horizon(w)
      && |w.controller.queue| <= Horizon(w)
  {
    hide Split, InLine, Starteds, CommandsIn, Rejecteds, Beats, Pulse, Timely, TimedAs, Earliest, Latest, Tidy;
  }

  lemma CycleSends(w: Loop, heartbeatOk: bool, timing: Timing, beats: nat)
    requires Calm(w, 1, timing, beats) && Counted(w) && Ranged(w.controller)
    ensures var (runner, batch) := NextBatch(Observe(w.runner, StatusOf(w.controller, heartbeatOk)));
      Calm(Send(w, runner, batch), 1, timing, beats) && Counted(Send(w, runner, batch))
  {
    hide Steady, NextBatch, TakeJobs, AcceptAll, Starteds, Beats, Earliest, Latest, Count, Horizon;
    var s: nat :| Steady(w, 1, timing, beats, s);
    var status := StatusOf(w.controller, heartbeatOk);
    var seen := Observe(w.runner, status);
    var ready := w.(runner := seen);
    OtherFieldsFree(w, seen, timing, beats, s);
    StatusFits(w, heartbeatOk, timing, beats, s);
    CompletedCountsStarts(w, heartbeatOk, timing, beats);
    BatchShape(seen, status);
    var n := Count(seen, status);
    assert Horizon(ready) == Horizon(w) by { SameHorizon(w, seen); }
    BatchKeeps(ready, n, timing, beats, s);
    var sent := Batched(ready, n);
    var (runner, batch) := NextBatch(seen);
    TakeCounts(seen, n, status.earliest, status.latest);
    OtherFieldsFree(sent, runner, timing, beats, s);
    assert Send(w, runner, batch) == sent.(runner := runner);
  }

  lemma SameHorizon(w: Loop, runner: RunnerState)
    requires runner.cfg == w.runner.cfg
    ensures Horizon(w.(runner := runner)) == Horizon(w)
  {
  }

  lemma CycleKeeps(w: Loop, heartbeatOk: bool, steps: seq<seq<CommandEnvelope>>, timing: Timing, beats: nat)
    requires Calm(w, 1, timing, beats) && Counted(w) && Ranged(w.controller)
    requires forall k :: 0 <= k < |steps| ==> Heartbeats(steps[k])
    ensures Calm(Turned(w, Cycle(heartbeatOk, steps)), 1, timing, beats)
      && Counted(Turned(w, Cycle(heartbeatOk, steps)))
  {
    hide Calm, NextBatch, Observe, Steps, Send, StatusOf;
    CycleSends(w, heartbeatOk, timing, beats);
    var (runner, batch) := NextBatch(Observe(w.runner, StatusOf(w.controller, heartbeatOk)));
    StepsHold(Send(w, runner, batch), steps, timing, beats);
  }

  lemma SubmitKeeps(w: Loop, jobs: seq<CommandEnvelope>, timing: Timing, beats: nat)
    requires Calm(w, 1, timing, beats) && Counted(w) && TimedAs(timing, jobs)
    requires Pulse(CommandsIn(Turned(w, Submit(jobs)).submitted)) <= beats
    ensures Calm(Turned(w, Submit(jobs)), 1, timing, beats) && Counted(Turned(w, Submit(jobs)))
  {
    hide Split, InLine, Starteds, Rejecteds, Beats, Pulse, Timely, Report;
    var s: nat :| Steady(w, 1, timing, beats, s);
    var f := (e: CommandEnvelope) => e.command;
    MapAppends(f, w.submitted, jobs);
    MapAppends(f, w.runner.jobs, jobs);
    ConcatAssoc(CommandsIn(w.dispatched), CommandsIn(w.runner.jobs), CommandsIn(jobs));
    assert w.submitted + [] == w.submitted;
    assert Steady(Turned(w, Submit(jobs)), 1, timing, beats, s);
  }

  // ----- every run ----------------------------------------------------------------------------------------------

  lemma AcceptAllTouches(c: ControllerState, batch: seq<CommandEnvelope>)
    ensures var next := AcceptAll(c, batch);
      next.now == c.now && next.window == c.window && next.capacity == c.capacity
  {
    hide Accept;
    var inv := (d: ControllerState) => d.now == c.now && d.window == c.window && d.capacity == c.capacity;
    forall d: ControllerState, e: CommandEnvelope | inv(d)
      ensures inv(Accept(d, e))
    {
      AcceptTouchesQueue(d, e);
    }
    AcceptAllKeeps(inv, c, batch);
  }

  lemma TurnAdvances(w: Loop, turn: Turn)
    ensures Turned(w, turn).controller.now >= w.controller.now
    ensures Turned(w, turn).controller.window == w.controller.window
    ensures w.submitted <= Turned(w, turn).submitted
  {
    hide NextBatch, Observe, Steps, AcceptAll, StatusOf, EnqueueAll;
    match turn
    case Submit(_) =>
    case Cycle(heartbeatOk, steps) =>
      var (runner, batch) := NextBatch(Observe(w.runner, StatusOf(w.controller, heartbeatOk)));
      AcceptAllTouches(w.controller, batch);
      StepsAdvance(AcceptAll(w.controller, batch), steps);
  }

  lemma {:induction false} TurnsAdvance(w: Loop, turns: seq<Turn>)
    ensures Turns(w, turns).controller.now >= w.controller.now
    ensures Turns(w, turns).controller.window == w.controller.window
    ensures w.submitted <= Turns(w, turns).submitted
    decreases |turns|
  {
    hide Turned;
    if turns != [] {
      TurnAdvances(w, turns[0]);
      TurnsAdvance(Turned(w, turns[0]), turns[1..]);
    }
  }

  lemma PulseOfPrefix(a: seq<CommandEnvelope>, b: seq<CommandEnvelope>)
    requires a <= b
    ensures Pulse(CommandsIn(a)) <= Pulse(CommandsIn(b))
  {
    hide Pulse;
    assert CommandsIn(b) == CommandsIn(a) + CommandsIn(b[|a|..]);
    PulseAppends(CommandsIn(a), CommandsIn(b[|a|..]));
  }

  lemma {:induction false} TurnsKeep(w: Loop, turns: seq<Turn>, timing: Timing, beats: nat)
    requires Calm(w, 1, timing, beats) && Counted(w) && Ranged(Turns(w, turns).controller)
    requires Pulse(CommandsIn(Turns(w, turns).submitted)) <= beats
    requires forall k :: 0 <= k < |turns| ==> Orderly(timing, turns[k])
    ensures Calm(Turns(w, turns), 1, timing, beats) && Counted(Turns(w, turns))
    decreases |turns|
  {
    hide Calm, Turned, Counted, Pulse, CommandsIn;
    if turns != [] {
      var next := Turned(w, turns[0]);
      TurnsAdvance(w, turns);
      TurnsAdvance(next, turns[1..]);
      PulseOfPrefix(next.submitted, Turns(w, turns).submitted);
      assert Orderly(timing, turns[0]);
      match turns[0] {
        case Submit(jobs) => SubmitKeeps(w, jobs, timing, beats);
        case Cycle(heartbeatOk, steps) => CycleKeeps(w, heartbeatOk, steps, timing, beats);
      }
      TurnsKeep(next, turns[1..], timing, beats);
    }
  }

  /** A controller at a step boundary that has nothing behind it. */
  predicate Ready(c: ControllerState) {
    c.now % STEP_TICKS == 0 && !c.faulted && c.queue == [] && c.history == []
  }

  function StartLoop(c: ControllerState, cfg: RunnerConfig, limits: Option<AuditLimits>): Loop {
    Loop(c, NewRunner(cfg).(limits := limits), [], [])
  }

  lemma {:induction false} StartedIsListed(history: seq<Event>, k: nat)
    requires k < |history| && history[k].Started?
    ensures history[k].entry in Starteds(history)
    decreases |history|
  {
    if k < |history| - 1 {
      StartedIsListed(history[..|history| - 1], k);
    }
  }

  /** Every start is of a scheduled command, on exactly the tick it was given. */
  predicate ExactStarts(history: seq<Event>) {
    forall k :: 0 <= k < |history| && history[k].Started? ==>
      history[k].entry.timed && history[k].at == history[k].entry.executeAt
  }

  lemma {:induction false} EntriesTimed(sent: seq<CommandEnvelope>)
    ensures forall q :: q in Entries(sent) ==> q.timed
    decreases |sent|
  {
    if sent != [] {
      EntriesTimed(sent[1..]);
    }
  }

  lemma CalmIsExact(w: Loop, timing: Timing, beats: nat)
    requires Calm(w, 1, timing, beats)
    ensures ExactStarts(w.controller.history)
  {
    hide InLine, Entries, Starteds, CommandsIn, Rejecteds, Beats, Pulse, TimedAs, Compatible, Tidy;
    var s: nat :| Steady(w, 1, timing, beats, s);
    var history := w.controller.history;
    EntriesTimed(w.dispatched[..s]);
    forall k | 0 <= k < |history| && history[k].Started?
      ensures history[k].entry.timed && history[k].at == history[k].entry.executeAt
    {
      StartedIsListed(history, k);
      assert StartedOnTime(history[k]);
    }
  }

  /** In every run of the loop within the range of ticks and with no more heartbeats
      among its jobs than the settings allow: exactly the heartbeats are refused; the
      controller never holds more than the horizon; every other command starts in the
      order of submission, exactly on the tick the runner gave it; jobs timed by the
      runner keep their spacing; and when the runner says it has completed, nothing is
      left to dispatch or start. */
  lemma EveryLoopIsSound(c: ControllerState, cfg: RunnerConfig, limits: Option<AuditLimits>, timing: Timing,
                         beats: nat, turns: seq<Turn>)
    requires Ready(c) && Compatible(StartLoop(c, cfg, limits), timing, beats)
    requires forall k :: 0 <= k < |turns| ==> Orderly(timing, turns[k])
    ensures var start := StartLoop(c, cfg, limits);
      var end := Turns(start, turns);
      Ranged(end.controller) && Pulse(CommandsIn(end.submitted)) <= beats ==>
        && !end.controller.faulted
        && Rejecteds(end.controller.history) == Beats(end.dispatched)
        && |end.controller.queue| <= Min(cfg.targetHorizon, c.capacity)
        && Entries(end.dispatched) == Starteds(end.controller.history) + end.controller.queue
        && Gapped(Entries(end.dispatched), Gap(start, timing))
        && CommandsIn(end.submitted) == CommandsIn(end.dispatched) + CommandsIn(end.runner.jobs)
        && ExactStarts(end.controller.history)
        && (end.runner.phase == Completed ==> end.runner.jobs == [] && end.controller.queue == [])
  {
    hide Turned, ExactStarts, Entries, Gapped, Starteds;
    var start := StartLoop(c, cfg, limits);
    var end := Turns(start, turns);
    if Ranged(end.controller) && Pulse(CommandsIn(end.submitted)) <= beats {
      StartsCalm(c, cfg, limits, timing, beats);
      hide Calm, Compatible, Turns;
      TurnsKeep(start, turns, timing, beats);
      CalmIsExact(end, timing, beats);
      ConfigStays(start, turns);
      TurnsAdvance(start, turns);
      CalmSummary(end, timing, beats);
    }
  }

  lemma StartsCalm(c: ControllerState, cfg: RunnerConfig, limits: Option<AuditLimits>, timing: Timing, beats: nat)
    requires Ready(c) && Compatible(StartLoop(c, cfg, limits), timing, beats)
    ensures Calm(StartLoop(c, cfg, limits), 1, timing, beats) && Counted(StartLoop(c, cfg, limits))
  {
    var w := StartLoop(c, cfg, limits);
    assert w.dispatched[..0] == [] && w.dispatched[0..] == [];
    assert LineOf([]) == [] && CommandsIn([]) == [];
    assert Steady(w, 1, timing, beats, 0);
  }

  lemma CalmSummary(w: Loop, timing: Timing, beats: nat)
    requires Calm(w, 1, timing, beats) && Counted(w)
    ensures !w.controller.faulted && |w.controller.queue| <= Horizon(w)
    ensures Rejecteds(w.controller.history) == Beats(w.dispatched)
    ensures Entries(w.dispatched) == Starteds(w.controller.history) + w.controller.queue
    ensures Gapped(Entries(w.dispatched), Gap(w, timing))
    ensures CommandsIn(w.submitted) == CommandsIn(w.dispatched) + CommandsIn(w.runner.jobs)
    ensures w.runner.phase == Completed ==> w.runner.jobs == [] && w.controller.queue == []
  {
    hide InLine, Entries, Starteds, Timely, TimedAs, Compatible, Rejecteds, Beats, Pulse, Gapped, DueBy;
    var s: nat :| Steady(w, 1, timing, beats, s);
    AllSent(w.dispatched, s, Starteds(w.controller.history), w.controller.queue);
  }

  lemma TurnKeepsConfig(w: Loop, turn: Turn)
    ensures Turned(w, turn).runner.cfg == w.runner.cfg && Turned(w, turn).runner.limits == w.runner.limits
    ensures Turned(w, turn).controller.capacity == w.controller.capacity
  {
    hide Observe, Steps, AcceptAll, StatusOf, Report;
    match turn
    case Submit(_) =>
    case Cycle(heartbeatOk, steps) =>
      var status := StatusOf(w.controller, heartbeatOk);
      var seen := Observe(w.runner, status);
      ObserveKeepsConfig(w.runner, status);
      hide NextBatch;
      BatchShape(seen, status);
      TakeCounts(seen, Count(seen, status), status.earliest, status.latest);
      var (runner, batch) := NextBatch(seen);
      AcceptAllTouches(w.controller, batch);
      StepsAdvance(AcceptAll(w.controller, batch), steps);
  }

  lemma ObserveKeepsConfig(r: RunnerState, status: SessionStatus)
    ensures Observe(r, status).cfg == r.cfg && Observe(r, status).limits == r.limits
    ensures Observe(r, status).status == Some(status)
  {
  }

  lemma {:induction false} ConfigStays(w: Loop, turns: seq<Turn>)
    ensures Turns(w, turns).runner.cfg == w.runner.cfg
    ensures Turns(w, turns).controller.capacity == w.controller.capacity
    decreases |turns|
  {
    hide Turned;
    if turns != [] {
      TurnKeepsConfig(w, turns[0]);
      ConfigStays(Turned(w, turns[0]), turns[1..]);
    }
  }

  // ----- a lost heartbeat ----------------------------------------------------------------------------------------

  predicate Stopped(w: Loop, dispatched: seq<CommandEnvelope>) {
    w.runner.phase == Faulted && w.dispatched == dispatched
  }

  lemma LossStops(w: Loop, steps: seq<seq<CommandEnvelope>>)
    ensures Stopped(Turned(w, Cycle(false, steps)), w.dispatched)
  {
    hide AcceptAll, Steps, Earliest, Latest;
    assert w.dispatched + [] == w.dispatched;
  }

  lemma StoppedStays(w: Loop, turn: Turn)
    requires w.runner.phase == Faulted
    ensures Stopped(Turned(w, turn), w.dispatched)
  {
    hide AcceptAll, Steps, Earliest, Latest, Report;
    assert w.dispatched + [] == w.dispatched;
  }

  /** Once the host has seen a heartbeat lost, the runner dispatches nothing again,
      whatever is submitted and however healthy the later reports. */
  lemma {:induction false} HeartbeatLossIsFinal(w: Loop, steps: seq<seq<CommandEnvelope>>, turns: seq<Turn>)
    ensures Stopped(Turns(Turned(w, Cycle(false, steps)), turns), w.dispatched)
  {
    hide Turned, Stopped;
    var stopped := Turned(w, Cycle(false, steps));
    LossStops(w, steps);
    var step := (l: Loop, t: Turn) => Turned(l, t);
    var inv := (l: Loop) => Stopped(l, w.dispatched);
    forall l: Loop, t: Turn | inv(l)
      ensures inv(step(l, t))
    {
      StoppedTurn(l, t, w.dispatched);
    }
    RunKeeps(step, inv, (t: Turn) => true, stopped, turns);
  }

  lemma StoppedTurn(w: Loop, turn: Turn, dispatched: seq<CommandEnvelope>)
    requires Stopped(w, dispatched)
    ensures Stopped(Turned(w, turn), dispatched)
  {
    hide Turned;
    StoppedStays(w, turn);
  }
}
