// Exact, stable, lossless scheduling in every run of the simulated controller.
module Scheduling {
  import opened Prelude
  import opened Protocol
  import opened Runs
  import opened Controller
  import opened ControllerLaws

  ghost predicate Sorted(queue: seq<Queued>) {
    forall i, j :: 0 <= i < j < |queue| ==> queue[i].executeAt <= queue[j].executeAt
  }

  /** The entries for one tick, in order. */
  function DueAt(entries: seq<Queued>, t: nat): seq<Queued> {
    if entries == [] then []
    else (if entries[0].executeAt == t then [entries[0]] else []) + DueAt(entries[1..], t)
  }

  lemma {:induction false} DueAtAppends(a: seq<Queued>, b: seq<Queued>, t: nat)
    ensures DueAt(a + b, t) == DueAt(a, t) + DueAt(b, t)
    decreases |a|
  {
    if a == [] {
      assert a + b == b;
    } else {
      var head := if a[0].executeAt == t then [a[0]] else [];
      assert (a + b)[0] == a[0] && (a + b)[1..] == a[1..] + b;
      DueAtAppends(a[1..], b, t);
      ConcatAssoc(head, DueAt(a[1..], t), DueAt(b, t));
    }
  }

  lemma DueAtOne(q: Queued, t: nat)
    ensures DueAt([q], t) == if q.executeAt == t then [q] else []
  {
    assert [q][1..] == [];
  }

  lemma {:induction false} NoneDue(queue: seq<Queued>, t: nat)
    requires forall k :: 0 <= k < |queue| ==> queue[k].executeAt > t
    ensures DueAt(queue, t) == []
    decreases |queue|
  {
    if queue != [] {
      NoneDue(queue[1..], t);
    }
  }

  lemma {:induction false} InsertHolds(queue: seq<Queued>, q: Queued)
    ensures forall x :: x in Insert(queue, q) <==> x in queue || x == q
    decreases |queue|
  {
    if queue != [] && queue[0].executeAt <= q.executeAt {
      InsertHolds(queue[1..], q);
      assert queue == [queue[0]] + queue[1..];
    }
  }

  lemma {:induction false} InsertSorts(queue: seq<Queued>, q: Queued)
    requires Sorted(queue)
    ensures Sorted(Insert(queue, q))
    decreases |queue|
  {
    if queue != [] && queue[0].executeAt <= q.executeAt {
      InsertSorts(queue[1..], q);
      InsertHolds(queue[1..], q);
      var rest := Insert(queue[1..], q);
      assert forall k :: 0 <= k < |rest| ==> rest[k] in rest;
    }
  }

  /** Insertion goes behind every entry for the same tick and disturbs no other. */
  lemma {:induction false} InsertIsStable(queue: seq<Queued>, q: Queued, t: nat)
    requires Sorted(queue)
    ensures DueAt(Insert(queue, q), t) == DueAt(queue, t) + if q.executeAt == t then [q] else []
    decreases |queue|
  {
    if queue == [] {
    } else if queue[0].executeAt > q.executeAt {
      assert ([q] + queue)[1..] == queue;
      if q.executeAt == t {
        NoneDue(queue, t);
      }
    } else {
      InsertIsStable(queue[1..], q, t);
      assert Insert(queue, q)[1..] == Insert(queue[1..], q);
    }
  }

  // ----- the invariant ---------------------------------------------------------------------------

  /** Where an entry may stand: `lead` is one between steps and zero inside one. */
  predicate OnTime(q: Queued, now: nat, lead: nat) {
    if q.timed then q.executeAt % STEP_TICKS == 0 && now + lead <= q.executeAt
    else now - (1 - lead) * STEP_TICKS <= q.executeAt <= now
  }

  /** A scheduled command starts exactly on its tick, an immediate one within a step. */
  predicate StartedOnTime(e: Event) {
    e.Started? ==>
      if e.entry.timed then e.at == e.entry.executeAt
      else e.entry.executeAt <= e.at <= e.entry.executeAt + STEP_TICKS
  }

  /** For every tick: what was accepted for it is what has started, then what still waits, in order. */
  ghost predicate Conserved(s: ControllerState) {
    forall t: nat :: DueAt(Accepteds(s.history), t) == DueAt(Starteds(s.history), t) + DueAt(s.queue, t)
  }

  ghost predicate Timely(s: ControllerState, lead: nat) {
    && lead <= 1
    && s.now % STEP_TICKS == 0
    && s.window.minLead >= 1
    && Sorted(s.queue) && |s.queue| <= s.capacity
    && (forall k :: 0 <= k < |s.queue| ==> OnTime(s.queue[k], s.now, lead))
    && (forall k :: 0 <= k < |s.history| ==> StartedOnTime(s.history[k]))
  }

  lemma AcceptIsTimely(s: ControllerState, e: CommandEnvelope, lead: nat)
    requires Timely(s, lead)
    ensures Timely(Accept(s, e), lead) && Accept(s, e).now == s.now
  {
    hide Insert;
    var next := Accept(s, e);
    if Refusal(s, e).None? && !e.command.Heartbeat? {
      var q := Entry(s, e);
      assert OnTime(q, s.now, lead);
      InsertHolds(s.queue, q);
      InsertSorts(s.queue, q);
      forall k | 0 <= k < |next.queue|
        ensures OnTime(next.queue[k], s.now, lead)
      {
        assert next.queue[k] in next.queue;
      }
    }
  }

  lemma AcceptConserves(s: ControllerState, e: CommandEnvelope)
    requires Sorted(s.queue) && Conserved(s)
    ensures Conserved(Accept(s, e))
  {
    hide Insert, Accepteds, Starteds;
    var next := Accept(s, e);
    if next.history != s.history {
      var logged := next.history[|s.history|];
      assert next.history == s.history + [logged];
      LogExtends(s.history, logged);
      forall t: nat
        ensures DueAt(Accepteds(next.history), t) == DueAt(Starteds(next.history), t) + DueAt(next.queue, t)
      {
        assert DueAt(Accepteds(s.history), t) == DueAt(Starteds(s.history), t) + DueAt(s.queue, t);
        if logged.Accepted? {
          DueAtOne(logged.entry, t);
          DueAtAppends(Accepteds(s.history), [logged.entry], t);
          InsertIsStable(s.queue, logged.entry, t);
        }
      }
    }
  }

  lemma StartFields(s: ControllerState)
    requires s.queue != []
    ensures var next := StartFront(s);
      && next.now == s.now && next.window == s.window && next.capacity == s.capacity
      && next.queue == s.queue[1..] && next.faulted == s.faulted
      && next.history == s.history + [StartEvent(s)]
  {
    hide SetTarget, SetMotion;
  }

  lemma StartIsTimely(s: ControllerState)
    requires Timely(s, 0) && s.queue != [] && s.queue[0].executeAt <= s.now
    ensures Timely(StartFront(s), 0)
  {
    hide StartFront;
    StartFields(s);
    assert OnTime(s.queue[0], s.now, 0);
    assert StartedOnTime(StartEvent(s));
  }

  lemma FrontMovesAcross(accepted: seq<Queued>, started: seq<Queued>, queue: seq<Queued>, t: nat)
    requires queue != [] && DueAt(accepted, t) == DueAt(started, t) + DueAt(queue, t)
    ensures DueAt(accepted, t) == DueAt(started + [queue[0]], t) + DueAt(queue[1..], t)
  {
    hide DueAt;
    var front := [queue[0]];
    DueAtAppends(started, front, t);
    assert front + queue[1..] == queue;
    DueAtAppends(front, queue[1..], t);
    ConcatAssoc(DueAt(started, t), DueAt(front, t), DueAt(queue[1..], t));
  }

  lemma StartConserves(s: ControllerState)
    requires Conserved(s) && s.queue != []
    ensures Conserved(StartFront(s))
  {
    hide StartFront, Accepteds, Starteds, DueAt, AxisFree;
    StartFields(s);
    LogExtends(s.history, StartEvent(s));
    forall t: nat
      ensures DueAt(Accepteds(StartFront(s).history), t)
              == DueAt(Starteds(StartFront(s).history), t) + DueAt(StartFront(s).queue, t)
    {
      FrontMovesAcross(Accepteds(s.history), Starteds(s.history), s.queue, t);
    }
  }

  /** Timely, and lossless when nothing was reset. */
  ghost predicate Scheduled(s: ControllerState, lead: nat, lossless: bool) {
    Timely(s, lead) && (lossless ==> Conserved(s))
  }

  lemma StepIsScheduled(s: ControllerState, deliveries: seq<CommandEnvelope>, lossless: bool)
    requires Scheduled(s, 1, lossless)
    ensures Scheduled(Step(s, deliveries), 1, lossless)
    ensures Step(s, deliveries).now == s.now + STEP_TICKS
    ensures forall k :: 0 <= k < |Step(s, deliveries).queue| ==>
      Step(s, deliveries).queue[k].executeAt > Step(s, deliveries).now
  {
    hide Accept, StartFront, StartDue, AcceptAll, Conserved, GuardAll, HeatAll, MoveAxis;
    var now := s.now + STEP_TICKS;
    ghost var inv := (c: ControllerState) => Scheduled(c, 0, lossless) && c.now == now;
    forall c: ControllerState, e: CommandEnvelope | inv(c)
      ensures inv(Accept(c, e))
    {
      AcceptIsTimely(c, e, 0);
      if lossless {
        AcceptConserves(c, e);
      }
    }
    forall c: ControllerState | inv(c) && c.queue != [] && c.queue[0].executeAt <= c.now
      ensures inv(StartFront(c))
    {
      StartIsTimely(c);
      StartFields(c);
      if lossless {
        StartConserves(c);
      }
    }
    var later := s.(now := now);
    TimePasses(s, lossless);
    AcceptAllKeeps(inv, later, deliveries);
    StartDueKeeps(inv, AcceptAll(later, deliveries));
    PlantsAreScheduled(StartDue(AcceptAll(later, deliveries)), lossless);
  }

  lemma TimePasses(s: ControllerState, lossless: bool)
    requires Scheduled(s, 1, lossless)
    ensures Scheduled(s.(now := s.now + STEP_TICKS), 0, lossless)
  {
    var later := s.(now := s.now + STEP_TICKS);
    assert lossless ==> Conserved(later);
    forall k | 0 <= k < |s.queue|
      ensures OnTime(later.queue[k], later.now, 0)
    {
      assert OnTime(s.queue[k], s.now, 1);
    }
  }

  lemma PlantsAreScheduled(s: ControllerState, lossless: bool)
    requires Scheduled(s, 0, lossless)
    requires s.queue == [] || s.queue[0].executeAt > s.now
    ensures Scheduled(Plants(s), 1, lossless)
    ensures Plants(s).now == s.now && Plants(s).queue == s.queue
    ensures forall k :: 0 <= k < |s.queue| ==> s.queue[k].executeAt > s.now
  {
    hide GuardAll, HeatAll, MoveAxis;
    var next := Plants(s);
    assert lossless ==> Conserved(next);
    forall k | 0 <= k < |s.queue|
      ensures OnTime(s.queue[k], s.now, 1)
    {
      assert OnTime(s.queue[k], s.now, 0) && s.queue[0].executeAt <= s.queue[k].executeAt;
    }
  }

  predicate Permitted(input: Input, lossless: bool) {
    && (input.SetWindow? ==> input.window.minLead >= 1)
    && (lossless ==> !input.ResetFault?)
  }

  lemma NextIsScheduled(s: ControllerState, input: Input, lossless: bool)
    requires Scheduled(s, 1, lossless) && Permitted(input, lossless)
    ensures Scheduled(Next(s, input), 1, lossless)
  {
    hide Step, Accept, OnTime, StartedOnTime;
    match input
    case Elapse(deliveries) => StepIsScheduled(s, deliveries, lossless);
    case Receive(e) =>
      AcceptIsTimely(s, e, 1);
      if lossless {
        AcceptConserves(s, e);
      }
    case ResetFault =>
    case SetWindow(w) =>
      assert lossless ==> Conserved(Next(s, input));
  }

  /** In every run whose windows keep a lead: the queue is sorted and within its
      capacity, every scheduled command that starts does so exactly on its tick,
      and unless a reset intervened nothing is lost, repeated or overtaken by a
      later command for the same tick. */
  lemma EveryRunSchedules(s: ControllerState, inputs: seq<Input>, lossless: bool)
    requires Scheduled(s, 1, lossless)
    requires forall i :: i in inputs ==> Permitted(i, lossless)
    ensures Scheduled(After(s, inputs), 1, lossless)
  {
    hide Next, Scheduled;
    var step := (c: ControllerState, i: Input) => Next(c, i);
    ghost var inv := (c: ControllerState) => Scheduled(c, 1, lossless);
    ghost var enabled := (i: Input) => Permitted(i, lossless);
    forall c: ControllerState, i: Input | inv(c) && enabled(i)
      ensures inv(step(c, i))
    {
      NextIsScheduled(c, i, lossless);
    }
    RunKeeps(step, inv, enabled, s, inputs);
  }

  lemma StartsScheduled(ambient: i64, heaters: seq<HeaterCfg>, axes: seq<(Text, i64)>, w: QueueWindow)
    requires w.minLead >= 1
    ensures Scheduled(New(ambient, heaters, axes).(window := w), 1, true)
  {
  }

  /** When a tick has passed in a run without resets, exactly the commands
      accepted for it have started, in the order they were accepted. */
  lemma PassedTicksAreServed(s: ControllerState, inputs: seq<Input>, deliveries: seq<CommandEnvelope>, t: nat)
    requires Scheduled(s, 1, true)
    requires forall i :: i in inputs ==> Permitted(i, true)
    ensures var end := Step(After(s, inputs), deliveries);
      t <= end.now ==> DueAt(Starteds(end.history), t) == DueAt(Accepteds(end.history), t)
  {
    hide Step, Timely, After, Accepteds, Starteds;
    EveryRunSchedules(s, inputs, true);
    var reached := After(s, inputs);
    StepIsScheduled(reached, deliveries, true);
    var end := Step(reached, deliveries);
    if t <= end.now {
      NoneDue(end.queue, t);
      assert Conserved(end);
    }
  }

  // ----- the lead is needed -----------------------------------------------------------------------

  /** With this window no run starts a scheduled command off its tick. */
  ghost predicate StartsExactly(w: QueueWindow) {
    forall ambient: i64, heaters: seq<HeaterCfg>, axes: seq<(Text, i64)>, inputs: seq<Input>, k: nat ::
      var end := After(New(ambient, heaters, axes).(window := w), inputs);
      (forall i :: i in inputs ==> !i.SetWindow?) && k < |end.history| ==> StartedOnTime(end.history[k])
  }

  lemma ExactnessNeedsLead(w: QueueWindow)
    ensures StartsExactly(w) <==> w.minLead >= 1
  {
    if w.minLead >= 1 {
      forall ambient: i64, heaters: seq<HeaterCfg>, axes: seq<(Text, i64)>, inputs: seq<Input>, k: nat |
        (forall i :: i in inputs ==> !i.SetWindow?) &&
        k < |After(New(ambient, heaters, axes).(window := w), inputs).history|
        ensures StartedOnTime(After(New(ambient, heaters, axes).(window := w), inputs).history[k])
      {
        hide After;
        StartsScheduled(ambient, heaters, axes, w);
        EveryRunSchedules(New(ambient, heaters, axes).(window := w), inputs, false);
      }
    } else {
      LateStart(w);
    }
  }

  /** Without a lead a command for the current tick starts one step late. */
  lemma LateStart(w: QueueWindow)
    requires w.minLead == 0
    ensures !StartsExactly(w)
  {
    hide FindHeater, FindAxis, GuardAll, HeatAll, MoveAxis;
    var s := New(0, [], []).(window := w);
    var late := CommandEnvelope(Some(0), SetHeaterTarget([], 0));
    var q := Queued(0, late.command, true);
    var accepted := Next(s, Receive(late));
    assert accepted.queue == [q];
    var later := accepted.(now := STEP_TICKS);
    assert AcceptAll(later, []) == later;
    StartFields(later);
    var started := StartFront(later);
    assert started.queue == [] && StartDue(started) == started;
    assert StartDue(later) == started;
    var end := Next(accepted, Elapse([]));
    assert end.history == accepted.history + [Started(STEP_TICKS, q, true)];
    var step := (c: ControllerState, i: Input) => Next(c, i);
    var inputs := [Receive(late), Elapse([])];
    assert inputs[1..] == [Elapse([])];
    RunOne(step, accepted, Elapse([]));
    assert After(s, inputs) == end;
    assert !StartedOnTime(end.history[|accepted.history|]);
  }

  // ----- the window is kept -----------------------------------------------------------------------

  /** A scheduled command was admitted on a step boundary inside the window of its moment. */
  predicate AdmittedInWindow(e: Event, w: QueueWindow) {
    e.Accepted? && e.entry.timed ==>
      && e.entry.executeAt % STEP_TICKS == 0
      && e.at + w.minLead <= e.entry.executeAt <= e.at + w.maxHorizon
  }

  ghost predicate Admissions(s: ControllerState, w: QueueWindow) {
    s.window == w && forall k :: 0 <= k < |s.history| ==> AdmittedInWindow(s.history[k], w)
  }

  lemma AcceptAdmits(s: ControllerState, e: CommandEnvelope, w: QueueWindow)
    requires Admissions(s, w)
    ensures Admissions(Accept(s, e), w)
  {
    hide Insert;
  }

  lemma NextAdmits(s: ControllerState, input: Input, w: QueueWindow)
    requires Admissions(s, w) && !input.SetWindow?
    ensures Admissions(Next(s, input), w)
  {
    hide Accept, StartFront, StartDue, AcceptAll, AdmittedInWindow, GuardAll, HeatAll, MoveAxis;
    match input
    case Elapse(deliveries) =>
      ghost var inv := (c: ControllerState) => Admissions(c, w);
      forall c: ControllerState, e: CommandEnvelope | inv(c)
        ensures inv(Accept(c, e))
      {
        AcceptAdmits(c, e, w);
      }
      forall c: ControllerState | inv(c) && c.queue != []
        ensures inv(StartFront(c))
      {
        StartFields(c);
        StartIsNoAdmission(c, w);
      }
      var later := s.(now := s.now + STEP_TICKS);
      AcceptAllKeeps(inv, later, deliveries);
      StartDueKeeps(inv, AcceptAll(later, deliveries));
    case Receive(e) => AcceptAdmits(s, e, w);
    case ResetFault =>
  }

  lemma StartIsNoAdmission(s: ControllerState, w: QueueWindow)
    requires s.queue != []
    ensures AdmittedInWindow(StartEvent(s), w)
  {
  }

  /** In every run under one window, every scheduled command was admitted inside
      it, whether or not saturation cut the window short. */
  lemma EveryAdmissionInWindow(ambient: i64, heaters: seq<HeaterCfg>, axes: seq<(Text, i64)>, w: QueueWindow,
                               inputs: seq<Input>)
    requires forall i :: i in inputs ==> !i.SetWindow?
    ensures Admissions(After(New(ambient, heaters, axes).(window := w), inputs), w)
  {
    hide Next, Admissions;
    var s := New(ambient, heaters, axes).(window := w);
    NothingAdmitted(ambient, heaters, axes, w);
    var step := (c: ControllerState, i: Input) => Next(c, i);
    ghost var inv := (c: ControllerState) => Admissions(c, w);
    var enabled := (i: Input) => !i.SetWindow?;
    forall c: ControllerState, i: Input | inv(c) && enabled(i)
      ensures inv(step(c, i))
    {
      NextAdmits(c, i, w);
    }
    RunKeeps(step, inv, enabled, s, inputs);
  }

  lemma NothingAdmitted(ambient: i64, heaters: seq<HeaterCfg>, axes: seq<(Text, i64)>, w: QueueWindow)
    ensures Admissions(New(ambient, heaters, axes).(window := w), w)
  {
  }
}
