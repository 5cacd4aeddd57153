// What the job runner makes of status reports, and how much and when it dispatches:
// over every run, in terms of its counters and of the calls made so far.
module RunnerLaws {
  import opened Prelude
  import opened Protocol
  import opened Toolpath
  import opened Runner

  // ----- one report --------------------------------------------------------------------------

  /** Everything submitted was dispatched and has left the controller's queue. */
  predicate AllDone(r: RunnerState, s: SessionStatus) {
    r.jobs == [] && s.fill == 0 && r.dispatched == r.enqueued > 0
  }

  /** A report that lost its heartbeat faults the runner for good; short of that an
      underrun is counted and warned of; short of that a warning stays, a finished
      runner completes, and a throttled one goes on once there is room. */
  lemma ReportExactly(r: RunnerState, s: SessionStatus)
    ensures var next := Observe(r, s);
      && next == r.(status := Some(s), underruns := next.underruns, completed := next.completed, phase := next.phase)
      && next.underruns == r.underruns + (if s.heartbeatOk && s.underrun then 1 else 0)
      && next.completed == Max(0, r.dispatched - s.fill)
      && (next.phase == Faulted <==> r.phase == Faulted || !s.heartbeatOk)
      && (next.phase == UnderrunWarning <==>
            r.phase != Faulted && s.heartbeatOk && (s.underrun || r.phase == UnderrunWarning))
      && (next.phase != Faulted && next.phase != UnderrunWarning ==>
            && (next.phase == Completed <==> AllDone(r, s) || r.phase == Completed)
            && (next.phase == Throttled <==> !AllDone(r, s) && r.phase == Throttled && s.fill >= r.cfg.targetHorizon)
            && (next.phase == Idle <==> !AllDone(r, s) && r.phase == Idle))
  {
  }

  /** A batch is taken whole, behind the jobs there are, if it is empty or no auditor is
      set or the audit finds nothing, and refused with the report otherwise. Taking one
      wakes an idle or finished runner and changes no other phase. */
  lemma SubmitExactly(r: RunnerState, items: seq<CommandEnvelope>)
    ensures var (next, answer) := EnqueueAll(r, items);
      var passes := items == [] || r.limits.None? || Findings(r.limits.value, CommandsIn(items)) == [];
      && (answer.Ok? <==> passes)
      && (passes ==> answer == Ok(|items|))
      && (!passes ==> answer.error.diagnostics == Findings(r.limits.value, CommandsIn(items))
                      && answer.error.audited == |items| && !answer.error.passed)
      && next == r.(jobs := if passes then r.jobs + items else r.jobs,
                    enqueued := if passes then r.enqueued + |items| else r.enqueued,
                    phase := if passes && items != [] && r.phase in {Idle, Completed} then Running else r.phase)
  {
    hide Findings;
    assert items == [] ==> r.jobs + items == r.jobs;
  }

  // ----- one batch -----------------------------------------------------------------------------

  /** The tick is the first that keeps these bounds, or the end of the window for a
      job that came with its own time and would miss it. */
  ghost predicate TickOf(e: CommandEnvelope, last: Option<u64>, margin: u64, earliest: u64, latest: u64, t: u64) {
    exists first: u64 ::
      && FirstTick(e, last, margin, earliest, first)
      && t == (if e.executeAt.Some? && latest > 0 && first > latest then latest else first)
  }

  /** Not before the window, the job's own time, or the margin after the last tick; and one of these. */
  predicate FirstTick(e: CommandEnvelope, last: Option<u64>, margin: u64, earliest: u64, first: u64) {
    && first >= earliest
    && (e.executeAt.Some? ==> first >= e.executeAt.value)
    && (last.Some? ==> first >= Min(last.value + margin, 0xffff_ffff_ffff_ffff))
    && (|| first == earliest || e.executeAt == Some(first)
        || (last.Some? && first == Min(last.value + margin, 0xffff_ffff_ffff_ffff)))
  }

  /** The tick of the job before this one of the batch. */
  function Preceding(batch: seq<CommandEnvelope>, last: Option<u64>, k: nat): Option<u64>
    requires k <= |batch|
  {
    if k == 0 then last else batch[k - 1].executeAt
  }

  ghost predicate Scheduled(jobs: seq<CommandEnvelope>, batch: seq<CommandEnvelope>, last: Option<u64>, margin: u64,
                            earliest: u64, latest: u64) {
    && |batch| <= |jobs|
    && forall k :: 0 <= k < |batch| ==>
         && batch[k].command == jobs[k].command && batch[k].executeAt.Some?
         && TickOf(jobs[k], Preceding(batch, last, k), margin, earliest, latest, batch[k].executeAt.value)
  }

  lemma AssignTick(e: CommandEnvelope, last: Option<u64>, margin: u64, earliest: u64, latest: u64)
    ensures TickOf(e, last, margin, earliest, latest, Assign(e, last, margin, earliest, latest))
  {
    var asked: u64 := if e.executeAt.Some? then Max(e.executeAt.value, earliest) else earliest;
    var first: u64 := if last.Some? then Max(asked, SatAdd(last.value, margin)) else asked;
    assert FirstTick(e, last, margin, earliest, first);
  }

  lemma ScheduledGrows(jobs: seq<CommandEnvelope>, batch: seq<CommandEnvelope>, last: Option<u64>, margin: u64,
                       earliest: u64, latest: u64, t: u64)
    requires Scheduled(jobs, batch, last, margin, earliest, latest) && |batch| < |jobs|
    requires TickOf(jobs[|batch|], Preceding(batch, last, |batch|), margin, earliest, latest, t)
    ensures Scheduled(jobs, batch + [CommandEnvelope(Some(t), jobs[|batch|].command)], last, margin, earliest, latest)
  {
    hide TickOf;
    var next := batch + [CommandEnvelope(Some(t), jobs[|batch|].command)];
    forall k | 0 <= k < |next|
      ensures next[k].command == jobs[k].command && next[k].executeAt.Some?
      ensures TickOf(jobs[k], Preceding(next, last, k), margin, earliest, latest, next[k].executeAt.value)
    {
      if 0 < k {
        assert next[k - 1] == batch[k - 1];
      }
      if k < |batch| {
        assert next[k] == batch[k];
      }
    }
  }

  lemma {:induction false} TakeJobsScheduled(r: RunnerState, n: nat, earliest: u64, latest: u64)
    requires n <= |r.jobs|
    ensures var t := TakeJobs(r, n, earliest, latest);
      && |t.batch| == n && t.runner == r.(jobs := r.jobs[n..], lastTick := t.runner.lastTick)
      && Scheduled(r.jobs, t.batch, r.lastTick, r.cfg.leadMargin, earliest, latest)
      && t.runner.lastTick == if n == 0 then r.lastTick else t.batch[n - 1].executeAt
  {
    hide Assign, TickOf, Scheduled;
    TakeCounts(r, n, earliest, latest);
    if n == 0 {
      NothingScheduled(r.jobs, r.lastTick, r.cfg.leadMargin, earliest, latest);
    } else {
      TakeJobsScheduled(r, n - 1, earliest, latest);
      TakeCounts(r, n - 1, earliest, latest);
      var before := TakeJobs(r, n - 1, earliest, latest);
      AssignTick(r.jobs[n - 1], before.runner.lastTick, r.cfg.leadMargin, earliest, latest);
      var tick := Assign(r.jobs[n - 1], before.runner.lastTick, r.cfg.leadMargin, earliest, latest);
      var batch := TakeJobs(r, n, earliest, latest).batch;
      assert batch == before.batch + [CommandEnvelope(Some(tick), r.jobs[n - 1].command)];
      ScheduledGrows(r.jobs, before.batch, r.lastTick, r.cfg.leadMargin, earliest, latest, tick);
    }
  }

  /** What a dispatch may use: the last status or, before any, the configuration. */
  function Allowance(r: RunnerState): (a: SessionStatus) {
    if r.status.Some? then r.status.value else SessionStatus(r.cfg.targetHorizon, 0, 0, 0, false, true)
  }

  /** A batch is as long as the room under the horizon, the batch limit and the jobs
      left allow, and empty once faulted or without a heartbeat. Its commands are those
      of the first jobs in order, each at its tick, and the phase says why it ended. */
  lemma BatchExactly(r: RunnerState)
    ensures var (next, batch) := NextBatch(r);
      var a := Allowance(r);
      var dead := r.phase == Faulted || (r.jobs != [] && !a.heartbeatOk);
      var room := Max(0, Min(r.cfg.targetHorizon, a.capacity) - a.fill);
      && |batch| == (if dead then 0 else Min(Min(room, r.cfg.maxBatch), |r.jobs|))
      && Scheduled(r.jobs, batch, r.lastTick, r.cfg.leadMargin, a.earliest, a.latest)
      && next == r.(jobs := r.jobs[|batch|..], dispatched := r.dispatched + |batch|, phase := next.phase,
                    lastTick := if batch == [] then r.lastTick else batch[|batch| - 1].executeAt)
      && (next.phase == Faulted <==> dead)
      && (!dead && r.jobs == [] ==>
            && (next.phase == Completed <==> r.completed == r.dispatched > 0)
            && (next.phase == UnderrunWarning <==>
                  !(r.completed == r.dispatched > 0) && r.phase == UnderrunWarning)
            && next.phase in {Completed, UnderrunWarning, Idle})
      && (!dead && r.jobs != [] ==>
            next.phase == if room == 0 then Throttled else if batch == [] then r.phase
                          else if r.phase == UnderrunWarning then UnderrunWarning else Running)
  {
    hide TakeJobs, Scheduled, Assign;
    var a := Allowance(r);
    NothingScheduled(r.jobs, r.lastTick, r.cfg.leadMargin, a.earliest, a.latest);
    assert r.jobs[0..] == r.jobs;
    var horizon := Min(r.cfg.targetHorizon, a.capacity);
    if r.phase != Faulted && r.jobs != [] && a.heartbeatOk && a.fill < horizon {
      TakeJobsScheduled(r, BatchCount(r, horizon, a.fill), a.earliest, a.latest);
    }
  }

  lemma NothingScheduled(jobs: seq<CommandEnvelope>, last: Option<u64>, margin: u64, earliest: u64, latest: u64)
    ensures Scheduled(jobs, [], last, margin, earliest, latest)
  {
  }

  // ----- whole runs ------------------------------------------------------------------------------

  datatype Call = Submit(items: seq<CommandEnvelope>) | Report(status: SessionStatus) | Take

  /** A runner with what it was given and what it gave out. */
  datatype Run = Run(runner: RunnerState, taken: seq<CommandEnvelope>, sent: seq<CommandEnvelope>)

  function Next(w: Run, c: Call): Run {
    match c
    case Submit(items) =>
      var (r, answer) := EnqueueAll(w.runner, items);
      Run(r, if answer.Ok? then w.taken + items else w.taken, w.sent)
    case Report(status) => w.(runner := Observe(w.runner, status))
    case Take =>
      var (r, batch) := NextBatch(w.runner);
      Run(r, w.taken, w.sent + batch)
  }

  function After(first: RunnerState, calls: seq<Call>): Run {
    if calls == [] then Run(first, [], [])
    else Next(After(first, Init(calls)), Last(calls))
  }

  function Underruns(calls: seq<Call>): nat {
    if calls == [] then 0
    else
      Underruns(Init(calls))
      + match Last(calls)
        case Report(s) => if s.heartbeatOk && s.underrun then 1 else 0
        case _ => 0
  }

  predicate LosesHeartbeat(c: Call) {
    c.Report? && !c.status.heartbeatOk
  }

  predicate LastReport(calls: seq<Call>, status: Option<SessionStatus>) {
    match status
    case None => forall k :: 0 <= k < |calls| ==> !calls[k].Report?
    case Some(s) =>
      exists k :: 0 <= k < |calls| && calls[k] == Report(s) && forall j :: k < j < |calls| ==> !calls[j].Report?
  }

  ghost predicate Kept(w: Run, calls: seq<Call>) {
    && w.runner.underruns == Underruns(calls)
    && (w.runner.phase == Faulted <==> exists k :: 0 <= k < |calls| && LosesHeartbeat(calls[k]))
    && LastReport(calls, w.runner.status)
    && w.runner.enqueued == |w.taken| && w.runner.dispatched == |w.sent|
    && CommandsIn(w.taken) == CommandsIn(w.sent) + CommandsIn(w.runner.jobs)
  }

  lemma NextKeeps(w: Run, calls: seq<Call>, c: Call)
    requires Kept(w, calls)
    ensures Kept(Next(w, c), calls + [c])
  {
    hide Assign, TakeJobs, Scheduled, Findings, CommandsIn;
    var next := calls + [c];
    assert Init(next) == calls && Last(next) == c;
    LossLast(calls, c);
    ReportLast(calls, c, w.runner.status);
    match c
    case Submit(items) =>
      CommandsAppend(w.taken, items);
      CommandsAppend(w.runner.jobs, items);
      ConcatAssoc(CommandsIn(w.sent), CommandsIn(w.runner.jobs), CommandsIn(items));
      assert items == [] ==> w.taken + items == w.taken;
    case Report(status) => ReportExactly(w.runner, status);
    case Take =>
      BatchExactly(w.runner);
      FaultedBefore(w, calls);
      var (r, batch) := NextBatch(w.runner);
      BatchCommands(w.runner);
      CommandsAppend(w.sent, batch);
      ConcatAssoc(CommandsIn(w.sent), CommandsIn(batch), CommandsIn(r.jobs));
  }

  lemma CommandsAppend(a: seq<CommandEnvelope>, b: seq<CommandEnvelope>)
    ensures CommandsIn(a + b) == CommandsIn(a) + CommandsIn(b)
  {
    MapAppends((e: CommandEnvelope) => e.command, a, b);
  }

  /** A batch and what is left of the jobs are the jobs. */
  lemma BatchCommands(r: RunnerState)
    ensures var (next, batch) := NextBatch(r);
      CommandsIn(r.jobs) == CommandsIn(batch) + CommandsIn(next.jobs)
  {
    hide NextBatch, TickOf;
    BatchExactly(r);
    var (next, batch) := NextBatch(r);
    assert r.jobs == r.jobs[..|batch|] + next.jobs;
    CommandsAppend(r.jobs[..|batch|], next.jobs);
    assert CommandsIn(r.jobs[..|batch|]) == CommandsIn(batch);
  }

  lemma LossLast(calls: seq<Call>, c: Call)
    ensures (exists k :: 0 <= k < |calls + [c]| && LosesHeartbeat((calls + [c])[k])) <==>
            LosesHeartbeat(c) || exists k :: 0 <= k < |calls| && LosesHeartbeat(calls[k])
  {
    hide LosesHeartbeat;
    assert (calls + [c])[|calls|] == c;
    if k :| 0 <= k < |calls| && LosesHeartbeat(calls[k]) {
      assert LosesHeartbeat((calls + [c])[k]);
    }
  }

  lemma ReportLast(calls: seq<Call>, c: Call, status: Option<SessionStatus>)
    requires LastReport(calls, status)
    ensures LastReport(calls + [c], if c.Report? then Some(c.status) else status)
  {
    var next := calls + [c];
    assert next[|calls|] == c;
    if status.Some? && !c.Report? {
      var k :| 0 <= k < |calls| && calls[k] == Report(status.value)
               && forall j :: k < j < |calls| ==> !calls[j].Report?;
      assert next[k] == calls[k];
    }
  }

  /** A status without a heartbeat can only stand in a faulted runner. */
  lemma FaultedBefore(w: Run, calls: seq<Call>)
    requires Kept(w, calls)
    ensures w.runner.status.Some? && !w.runner.status.value.heartbeatOk ==> w.runner.phase == Faulted
  {
    if w.runner.status.Some? && !w.runner.status.value.heartbeatOk {
      var k :| 0 <= k < |calls| && calls[k] == Report(w.runner.status.value);
      assert LosesHeartbeat(calls[k]);
    }
  }

  /** In every run of a runner: it is faulted if and only if some report lost its
      heartbeat; it has counted each underrun reported with one; it knows the last
      report; and what it accepted is what it sent, in order, and then its jobs. */
  lemma {:induction false} EveryRunCounts(cfg: RunnerConfig, limits: Option<AuditLimits>, calls: seq<Call>)
    ensures Kept(After(NewRunner(cfg).(limits := limits), calls), calls)
    decreases |calls|
  {
    hide Kept, Next;
    if calls == [] {
      NothingYet(cfg, limits);
    } else {
      EveryRunCounts(cfg, limits, Init(calls));
      NextKeeps(After(NewRunner(cfg).(limits := limits), Init(calls)), Init(calls), Last(calls));
      assert Init(calls) + [Last(calls)] == calls;
    }
  }

  lemma NothingYet(cfg: RunnerConfig, limits: Option<AuditLimits>)
    ensures Kept(Run(NewRunner(cfg).(limits := limits), [], []), [])
  {
  }
}
