// The streaming job runner of crates/workflow-runner/src/lib.rs.
module Runner {
  import opened Prelude
  import opened Protocol
  import opened Toolpath

  datatype RunnerConfig = RunnerConfig(targetHorizon: u16, minThreshold: u16, maxBatch: nat, leadMargin: u64)

  const DEFAULT_RUNNER := RunnerConfig(16, 4, 8, 1_000)

  datatype Phase = Idle | Running | Throttled | UnderrunWarning | Faulted | Completed

  /** What the daemon reports of one controller session. */
  datatype SessionStatus = SessionStatus(
    capacity: u16,
    fill: u16,
    earliest: u64,
    latest: u64,
    underrun: bool,
    heartbeatOk: bool)

  datatype RunnerState = RunnerState(
    cfg: RunnerConfig,
    limits: Option<AuditLimits>,
    jobs: seq<CommandEnvelope>,
    status: Option<SessionStatus>,
    enqueued: nat,
    dispatched: nat,
    completed: nat,
    underruns: nat,
    lastTick: Option<u64>,
    phase: Phase)

  /** The one error of enqueueing: the audit's report. */
  type Enqueued = Result<nat, AuditReport>

  function NewRunner(cfg: RunnerConfig): RunnerState {
    RunnerState(cfg, None, [], None, 0, 0, 0, 0, None, Idle)
  }

  function CommandsIn(envelopes: seq<CommandEnvelope>): seq<Command> {
    Map((e: CommandEnvelope) => e.command, envelopes)
  }

  function Report(limits: AuditLimits, commands: seq<Command>): AuditReport {
    AuditReport(Findings(limits, commands) == [], |commands|, Findings(limits, commands))
  }

  function EnqueueAll(r: RunnerState, items: seq<CommandEnvelope>): (RunnerState, Enqueued) {
    if items == [] then (r, Ok(0))
    else if r.limits.Some? && !Report(r.limits.value, CommandsIn(items)).passed then
      (r, Err(Report(r.limits.value, CommandsIn(items))))
    else
      (r.(jobs := r.jobs + items, enqueued := r.enqueued + |items|,
          phase := if r.phase == Idle || r.phase == Completed then Running else r.phase),
       Ok(|items|))
  }

  function Observe(r: RunnerState, status: SessionStatus): RunnerState {
    var warned :=
      if !status.heartbeatOk then r.(phase := Faulted)
      else if status.underrun then
        r.(underruns := r.underruns + 1, phase := if r.phase == Faulted then Faulted else UnderrunWarning)
      else r;
    var completed := if status.fill <= r.dispatched then r.dispatched - status.fill else 0;
    var phase :=
      if r.jobs == [] && status.fill == 0 && r.dispatched == r.enqueued && r.enqueued > 0
         && warned.phase != Faulted && warned.phase != UnderrunWarning then Completed
      else if warned.phase == Throttled && status.fill < r.cfg.targetHorizon then Running
      else warned.phase;
    warned.(completed := completed, phase := phase, status := Some(status))
  }

  /** The tick a job is scheduled for, given the one dispatched before it. */
  function Assign(e: CommandEnvelope, last: Option<u64>, margin: u64, earliest: u64, latest: u64): u64 {
    var asked := if e.executeAt.Some? then Max(e.executeAt.value, earliest) else earliest;
    var spaced := if last.Some? then Max(asked, SatAdd(last.value, margin)) else asked;
    if e.executeAt.Some? && latest > 0 && spaced > latest then latest else spaced
  }

  /** A runner part-way through a batch. */
  datatype Taking = Taking(runner: RunnerState, batch: seq<CommandEnvelope>)

  function TakeJob(t: Taking, earliest: u64, latest: u64): Taking {
    if t.runner.jobs == [] then t
    else
      var job := t.runner.jobs[0];
      var tick := Assign(job, t.runner.lastTick, t.runner.cfg.leadMargin, earliest, latest);
      Taking(t.runner.(jobs := t.runner.jobs[1..], lastTick := Some(tick)),
             t.batch + [CommandEnvelope(Some(tick), job.command)])
  }

  function TakeJobs(r: RunnerState, n: nat, earliest: u64, latest: u64): Taking {
    if n == 0 then Taking(r, []) else TakeJob(TakeJobs(r, n - 1, earliest, latest), earliest, latest)
  }

  function BatchCount(r: RunnerState, horizon: nat, fill: nat): nat
    requires fill < horizon
  {
    Min(Min(horizon - fill, r.cfg.maxBatch), |r.jobs|)
  }

  function Dispatch(r: RunnerState, capacity: u16, fill: u16, earliest: u64, latest: u64)
    : (RunnerState, seq<CommandEnvelope>)
  {
    var horizon := Min(r.cfg.targetHorizon, capacity);
    if fill >= horizon then (r.(phase := Throttled), [])
    else
      var n := BatchCount(r, horizon, fill);
      if n == 0 then (r, [])
      else
        var taken := TakeJobs(r, n, earliest, latest);
        (taken.runner.(dispatched := r.dispatched + |taken.batch|,
                       phase := if r.phase == UnderrunWarning then UnderrunWarning else Running),
         taken.batch)
  }

  function NextBatch(r: RunnerState): (RunnerState, seq<CommandEnvelope>) {
    if r.phase == Faulted then (r, [])
    else if r.jobs == [] then
      (r.(phase := if r.completed == r.dispatched && r.dispatched > 0 then Completed
                   else if r.phase == UnderrunWarning then UnderrunWarning else Idle), [])
    else
      match r.status
      case None => Dispatch(r, r.cfg.targetHorizon, 0, 0, 0)
      case Some(s) =>
        if !s.heartbeatOk then (r.(phase := Faulted), [])
        else Dispatch(r, s.capacity, s.fill, s.earliest, s.latest)
  }

  lemma {:induction false} TakeCounts(r: RunnerState, n: nat, earliest: u64, latest: u64)
    requires n <= |r.jobs|
    ensures var t := TakeJobs(r, n, earliest, latest);
      |t.batch| == n && t.runner == r.(jobs := r.jobs[n..], lastTick := t.runner.lastTick)
  {
    hide Assign;
    if n > 0 {
      TakeCounts(r, n - 1, earliest, latest);
    }
  }

  /** A job follows the one before it by the margin exactly unless it came with its
      own time and the end of the window is nearer than the margin. */
  lemma SpacingKeptExactly(e: CommandEnvelope, last: u64, margin: u64, earliest: u64, latest: u64)
    ensures Assign(e, Some(last), margin, earliest, latest) >= SatAdd(last, margin) <==>
            !(e.executeAt.Some? && 0 < latest < SatAdd(last, margin))
  {
  }

  /** A job that came with its own time is scheduled inside the window, and at that
      time when the window and the job before it allow. */
  lemma TimedJobFits(e: CommandEnvelope, last: Option<u64>, margin: u64, earliest: u64, latest: u64)
    requires e.executeAt.Some? && earliest <= latest
    ensures var asked, t := e.executeAt.value, Assign(e, last, margin, earliest, latest);
      && (latest > 0 ==> earliest <= t <= latest)
      && (earliest <= asked <= latest && (last.Some? ==> SatAdd(last.value, margin) <= asked) ==> t == asked)
      && (last.Some? && last.value <= latest ==> last.value <= t)
  {
  }

  class WorkflowRunner {
    const cfg: RunnerConfig
    var auditor: Option<ToolpathAuditor>
    var jobs: seq<CommandEnvelope>
    var status: Option<SessionStatus>
    var enqueued: nat
    var dispatched: nat
    var completed: nat
    var underruns: nat
    var lastTick: Option<u64>
    var phase: Phase

    ghost function State(): RunnerState
      reads this
    {
      RunnerState(cfg, if auditor.Some? then Some(auditor.value.limits) else None,
                  jobs, status, enqueued, dispatched, completed, underruns, lastTick, phase)
    }

    constructor (cfg: RunnerConfig)
      ensures State() == NewRunner(cfg)
    {
      this.cfg := cfg;
      auditor, jobs, status, lastTick, phase := None, [], None, None, Idle;
      enqueued, dispatched, completed, underruns := 0, 0, 0, 0;
    }

    method SetAuditor(limits: AuditLimits)
      modifies this
      ensures State() == old(State()).(limits := Some(limits))
    {
      var a := new ToolpathAuditor(limits);
      auditor := Some(a);
    }

    method EnqueueBatch(items: seq<CommandEnvelope>) returns (r: Enqueued)
      modifies this
      ensures (State(), r) == EnqueueAll(old(State()), items)
    {
      hide Findings, CommandsIn;
      if items == [] {
        return Ok(0);
      }
      if auditor.Some? {
        var report := auditor.value.Audit(CommandsIn(items));
        if !report.passed {
          return Err(report);
        }
      }
      jobs := jobs + items;
      enqueued := enqueued + |items|;
      if phase == Idle || phase == Completed {
        phase := Running;
      }
      r := Ok(|items|);
    }

    method UpdateControllerStatus(report: SessionStatus)
      modifies this
      ensures State() == Observe(old(State()), report)
      ensures underruns == old(underruns) + if report.heartbeatOk && report.underrun then 1 else 0
      ensures completed == Max(0, dispatched - report.fill)
      ensures phase == Faulted <==> old(phase) == Faulted || !report.heartbeatOk
    {
      if !report.heartbeatOk {
        phase := Faulted;
      } else if report.underrun {
        underruns := underruns + 1;
        if phase != Faulted {
          phase := UnderrunWarning;
        }
      }
      completed := if report.fill <= dispatched then dispatched - report.fill else 0;
      if jobs == [] && report.fill == 0 && dispatched == enqueued && enqueued > 0
         && phase != Faulted && phase != UnderrunWarning {
        phase := Completed;
      } else if phase == Throttled && report.fill < cfg.targetHorizon {
        phase := Running;
      }
      status := Some(report);
    }

    /** Pop that many jobs and give each its tick. */
    method PopJobs(count: nat, earliest: u64, latest: u64) returns (batch: seq<CommandEnvelope>)
      requires count <= |jobs|
      modifies this
      ensures Taking(State(), batch) == TakeJobs(old(State()), count, earliest, latest)
    {
      hide Assign;
      batch := [];
      var i := 0;
      while i < count
        invariant i <= count
        invariant Taking(State(), batch) == TakeJobs(old(State()), i, earliest, latest)
      {
        TakeCounts(old(State()), i, earliest, latest);
        var job := jobs[0];
        var tick := Assign(job, lastTick, cfg.leadMargin, earliest, latest);
        jobs := jobs[1..];
        lastTick := Some(tick);
        batch := batch + [job.(executeAt := Some(tick))];
        i := i + 1;
      }
    }

    /** Dispatch within what the last status, or failing that the configuration, allows. */
    method NextDispatchBatch() returns (batch: seq<CommandEnvelope>)
      modifies this
      ensures (State(), batch) == NextBatch(old(State()))
    {
      hide Assign, TakeJobs;
      if phase == Faulted {
        return [];
      }
      if jobs == [] {
        if completed == dispatched && dispatched > 0 {
          phase := Completed;
        } else if phase != Faulted && phase != UnderrunWarning {
          phase := Idle;
        }
        return [];
      }
      var capacity, fill, earliest, latest := cfg.targetHorizon, 0, 0, 0;
      if status.Some? {
        if !status.value.heartbeatOk {
          phase := Faulted;
          return [];
        }
        capacity, fill := status.value.capacity, status.value.fill;
        earliest, latest := status.value.earliest, status.value.latest;
      }
      var horizon := Min(cfg.targetHorizon, capacity);
      if fill >= horizon {
        phase := Throttled;
        return [];
      }
      var count := Min(Min(horizon - fill, cfg.maxBatch), |jobs|);
      if count == 0 {
        return [];
      }
      TakeCounts(State(), count, earliest, latest);
      batch := PopJobs(count, earliest, latest);
      dispatched := dispatched + |batch|;
      if phase != UnderrunWarning && phase != Faulted {
        phase := Running;
      }
    }
  }
}
