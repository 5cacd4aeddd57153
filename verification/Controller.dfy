// The simulated controller of crates/simulator/src/lib.rs: a timestamp-ordered
// queue, heaters behind a heartbeat guard, and constant-rate axes.
module Controller {
  import opened Prelude
  import opened Protocol
  import opened Runs
  import ClockArithmetic

  const STEP_TICKS: nat := 1000

  datatype HeaterCfg = HeaterCfg(name: Text, gainMilliC: i64, tauMs: u64, heartbeatTimeout: Option<u64>)

  datatype Heater = Heater(cfg: HeaterCfg, milliC: real, target: i64, dutyOn: bool, forcedSafe: bool)

  datatype Motion = Motion(perMs: int, remaining: int, homing: bool)

  datatype Axis = Axis(name: Text, position: int, motion: Option<Motion>)

  datatype QueueWindow = QueueWindow(minLead: u64, maxHorizon: u64)

  const QUEUE_CAPACITY: nat := 16
  const DEFAULT_WINDOW := QueueWindow(100_000, 1_000_000)

  /** A queue entry. `timed` records that the sender gave the timestamp; no
      operation branches on it. */
  datatype Queued = Queued(executeAt: nat, command: Command, timed: bool)

  datatype Reason =
    | FaultLatched
    | ScheduledHeartbeat
    | Misaligned
    | TooEarly
    | TooLate
    | NoRoom

  /** The part of the trace that concerns commands, and when each left the queue.
      `idle` says whether the axis it names, if any, was at rest by then. */
  datatype Event =
    | Accepted(at: nat, entry: Queued)
    | Rejected(at: nat, envelope: CommandEnvelope, reason: Reason)
    | Started(at: nat, entry: Queued, idle: bool)

  /** `now` counts microseconds; ticks past the range of u64 are not modelled. */
  datatype ControllerState = ControllerState(
    now: nat,
    ambient: i64,
    heaters: seq<Heater>,
    axes: seq<Axis>,
    queue: seq<Queued>,
    capacity: nat,
    window: QueueWindow,
    lastHeartbeat: nat,
    faulted: bool,
    history: seq<Event>)

  // ----- acceptance --------------------------------------------------------------------

  /** `now.saturating_add(lead)` for a tick in range. */
  function Ahead(now: nat, lead: nat): nat {
    Min(now + lead, U64_LIMIT - 1)
  }

  function Earliest(s: ControllerState): nat {
    Ahead(s.now, s.window.minLead)
  }

  function Latest(s: ControllerState): nat {
    Ahead(s.now, s.window.maxHorizon)
  }

  /** Why a command may not enter the queue. */
  function Refusal(s: ControllerState, e: CommandEnvelope): Option<Reason> {
    if s.faulted then Some(FaultLatched)
    else if e.command.Heartbeat? then
      if e.executeAt.Some? then Some(ScheduledHeartbeat) else None
    else if e.executeAt.Some? && e.executeAt.value % STEP_TICKS != 0 then Some(Misaligned)
    else if e.executeAt.Some? && e.executeAt.value < Earliest(s) then Some(TooEarly)
    else if e.executeAt.Some? && e.executeAt.value > Latest(s) then Some(TooLate)
    else if |s.queue| >= s.capacity then Some(NoRoom)
    else None
  }

  function Entry(s: ControllerState, e: CommandEnvelope): Queued {
    match e.executeAt
    case Some(t) => Queued(t, e.command, true)
    case None => Queued(s.now, e.command, false)
  }

  /** After every entry due no later, before every entry due later. */
  function Insert(queue: seq<Queued>, q: Queued): (r: seq<Queued>)
    ensures |r| == |queue| + 1
  {
    if queue == [] then [q]
    else if queue[0].executeAt > q.executeAt then [q] + queue
    else [queue[0]] + Insert(queue[1..], q)
  }

  function Accept(s: ControllerState, e: CommandEnvelope): ControllerState {
    match Refusal(s, e)
    case Some(reason) => s.(history := s.history + [Rejected(s.now, e, reason)])
    case None =>
      if e.command.Heartbeat? then s.(lastHeartbeat := s.now)
      else
        var q := Entry(s, e);
        s.(queue := Insert(s.queue, q), history := s.history + [Accepted(s.now, q)])
  }

  function AcceptAll(s: ControllerState, envelopes: seq<CommandEnvelope>): ControllerState {
    Run((c: ControllerState, e: CommandEnvelope) => Accept(c, e), s, envelopes)
  }

  // ----- starting commands ---------------------------------------------------------------

  /** `rate as i64`. */
  function AsI64(rate: u64): i64 {
    if rate >= I64_LIMIT then rate - U64_LIMIT else rate
  }

  function Signum(d: int): int {
    if d > 0 then 1 else if d < 0 then -1 else 0
  }

  function HomeMotion(rate: u64): Motion {
    Motion(-ClockArithmetic.TruncDiv(AsI64(rate), 1000), 0, true)
  }

  function MoveMotion(distance: int, rate: u64): Motion {
    Motion(ClockArithmetic.TruncDiv(Signum(distance) * AsI64(rate), 1000), distance, false)
  }

  function FindHeater(heaters: seq<Heater>, name: Text): (i: Option<nat>)
    ensures i.Some? ==> i.value < |heaters| && heaters[i.value].cfg.name == name
                        && forall k :: 0 <= k < i.value ==> heaters[k].cfg.name != name
    ensures i.None? ==> forall k :: 0 <= k < |heaters| ==> heaters[k].cfg.name != name
  {
    if heaters == [] then None
    else if heaters[0].cfg.name == name then Some(0)
    else
      match FindHeater(heaters[1..], name)
      case None => None
      case Some(i) => Some(i + 1)
  }

  function FindAxis(axes: seq<Axis>, name: Text): (i: Option<nat>)
    ensures i.Some? ==> i.value < |axes| && axes[i.value].name == name
                        && forall k :: 0 <= k < i.value ==> axes[k].name != name
    ensures i.None? ==> forall k :: 0 <= k < |axes| ==> axes[k].name != name
  {
    if axes == [] then None
    else if axes[0].name == name then Some(0)
    else
      match FindAxis(axes[1..], name)
      case None => None
      case Some(i) => Some(i + 1)
  }

  function SetTarget(heaters: seq<Heater>, name: Text, target: i64): seq<Heater> {
    match FindHeater(heaters, name)
    case None => heaters
    case Some(i) => heaters[i := heaters[i].(target := target, forcedSafe := false)]
  }

  function SetMotion(axes: seq<Axis>, name: Text, motion: Motion): seq<Axis> {
    match FindAxis(axes, name)
    case None => axes
    case Some(i) => axes[i := axes[i].(motion := Some(motion))]
  }

  function Begin(s: ControllerState, command: Command): ControllerState {
    match command
    case Heartbeat => s
    case SetHeaterTarget(heater, target) => s.(heaters := SetTarget(s.heaters, heater, target))
    case Home(axis, rate) => s.(axes := SetMotion(s.axes, axis, HomeMotion(rate)))
    case Move(axis, distance, rate) => s.(axes := SetMotion(s.axes, axis, MoveMotion(distance, rate)))
  }

  predicate AtRest(axes: seq<Axis>, name: Text) {
    var i := FindAxis(axes, name);
    i.Some? ==> axes[i.value].motion.None?
  }

  predicate AxisFree(s: ControllerState, command: Command) {
    match command
    case Home(axis, _) => AtRest(s.axes, axis)
    case Move(axis, _, _) => AtRest(s.axes, axis)
    case _ => true
  }

  function StartEvent(s: ControllerState): Event
    requires s.queue != []
  {
    Started(s.now, s.queue[0], AxisFree(s, s.queue[0].command))
  }

  /** The front of the queue leaves it. */
  function StartFront(s: ControllerState): ControllerState
    requires s.queue != []
  {
    Begin(s, s.queue[0].command).(queue := s.queue[1..], history := s.history + [StartEvent(s)])
  }

  function StartDue(s: ControllerState): ControllerState
    decreases |s.queue|
  {
    if s.queue != [] && s.queue[0].executeAt <= s.now then StartDue(StartFront(s)) else s
  }

  // ----- the plants -------------------------------------------------------------------------

  /** Truncation toward zero, as a cast of a float to an integer. */
  function Truncate(x: real): int {
    if x >= 0.0 then x.Floor else -((-x).Floor)
  }

  predicate HeartbeatLost(h: Heater, now: nat, lastHeartbeat: nat) {
    h.cfg.heartbeatTimeout.Some? && now - lastHeartbeat > h.cfg.heartbeatTimeout.value
  }

  function Guard(h: Heater, now: nat, lastHeartbeat: nat): Heater {
    if HeartbeatLost(h, now, lastHeartbeat) && !h.forcedSafe && h.target > 0 then
      h.(target := 0, dutyOn := false, forcedSafe := true)
    else h
  }

  /** One millisecond of the first-order plant under bang-bang control. */
  function Heat(h: Heater, ambient: i64): Heater {
    var dutyOn := !h.forcedSafe && Truncate(h.milliC) < h.target;
    var drive := if dutyOn then h.cfg.gainMilliC as real else 0.0;
    var rate := if h.cfg.tauMs == 0 then 0.0 else 1.0 / (h.cfg.tauMs as real);
    h.(dutyOn := dutyOn, milliC := h.milliC + (drive - (h.milliC - ambient as real)) * rate)
  }

  function MoveAxis(a: Axis): Axis {
    match a.motion
    case None => a
    case Some(m) =>
      if m.homing then
        if a.position + m.perMs <= 0 then a.(position := 0, motion := None)
        else a.(position := a.position + m.perMs)
      else
        var step := if Abs(m.perMs) >= Abs(m.remaining) then m.remaining else m.perMs;
        a.(position := a.position + step,
           motion := if m.remaining == step then None else Some(m.(remaining := m.remaining - step)))
  }

  function GuardAll(heaters: seq<Heater>, now: nat, lastHeartbeat: nat): seq<Heater> {
    Map((h: Heater) => Guard(h, now, lastHeartbeat), heaters)
  }

  function HeatAll(heaters: seq<Heater>, ambient: i64): seq<Heater> {
    Map((h: Heater) => Heat(h, ambient), heaters)
  }

  function Plants(s: ControllerState): ControllerState {
    s.(heaters := HeatAll(GuardAll(s.heaters, s.now, s.lastHeartbeat), s.ambient),
       axes := Map(MoveAxis, s.axes))
  }

  /** One turn of the run loop with whatever the transport delivers in it. */
  function Step(s: ControllerState, deliveries: seq<CommandEnvelope>): ControllerState {
    Plants(StartDue(AcceptAll(s.(now := s.now + STEP_TICKS), deliveries)))
  }

  function Reset(s: ControllerState): ControllerState {
    s.(heaters := Map((h: Heater) => h.(target := 0, dutyOn := false, forcedSafe := false), s.heaters),
       axes := Map((a: Axis) => a.(motion := None), s.axes),
       queue := [],
       faulted := true)
  }

  function NewHeater(cfg: HeaterCfg, ambient: i64): Heater {
    Heater(cfg, ambient as real, 0, false, false)
  }

  function New(ambient: i64, heaters: seq<HeaterCfg>, axes: seq<(Text, i64)>): ControllerState {
    ControllerState(0, ambient,
          Map((cfg: HeaterCfg) => NewHeater(cfg, ambient), heaters),
          Map((a: (Text, i64)) => Axis(a.0, a.1, None), axes),
          [], QUEUE_CAPACITY, DEFAULT_WINDOW, 0, false, [])
  }

  /** Everything that can happen to a controller. */
  datatype Input =
    | Elapse(deliveries: seq<CommandEnvelope>)
    | Receive(envelope: CommandEnvelope)
    | ResetFault
    | SetWindow(window: QueueWindow)

  function Next(s: ControllerState, input: Input): ControllerState {
    match input
    case Elapse(deliveries) => Step(s, deliveries)
    case Receive(envelope) => Accept(s, envelope)
    case ResetFault => Reset(s)
    case SetWindow(window) => s.(window := window)
  }

  // ----- the controller as it runs -----------------------------------------------------------

  /** Insertion splits the queue at its first later entry. */
  lemma {:induction false} InsertSplits(queue: seq<Queued>, q: Queued, at: nat)
    requires at <= |queue|
    requires forall k :: 0 <= k < at ==> queue[k].executeAt <= q.executeAt
    requires at < |queue| ==> queue[at].executeAt > q.executeAt
    ensures Insert(queue, q) == queue[..at] + [q] + queue[at..]
    decreases |queue|
  {
    if queue != [] && at > 0 {
      assert queue[1..][..at - 1] == queue[1..at];
      InsertSplits(queue[1..], q, at - 1);
    }
  }

  class SimController {
    var now: nat
    const ambient: i64
    var heaters: seq<Heater>
    var axes: seq<Axis>
    var queue: seq<Queued>
    const capacity: nat
    var window: QueueWindow
    var lastHeartbeat: nat
    var faulted: bool
    ghost var history: seq<Event>

    ghost function State(): ControllerState
      reads this
    {
      ControllerState(now, ambient, heaters, axes, queue, capacity, window, lastHeartbeat, faulted, history)
    }

    constructor (ambient: i64, heaters: seq<HeaterCfg>, axes: seq<(Text, i64)>)
      ensures State() == New(ambient, heaters, axes)
    {
      now, lastHeartbeat, faulted := 0, 0, false;
      this.ambient := ambient;
      this.heaters := Map((cfg: HeaterCfg) => NewHeater(cfg, ambient), heaters);
      this.axes := Map((a: (Text, i64)) => Axis(a.0, a.1, None), axes);
      queue, capacity, window := [], QUEUE_CAPACITY, DEFAULT_WINDOW;
      history := [];
    }

    /** The status as it goes on the wire. */
    method Status() returns (status: QueueStatus)
      ensures status == QueueStatus(capacity % U16_LIMIT, |queue| % U16_LIMIT, Earliest(State()), Latest(State()),
        faulted)
    {
      status := QueueStatus(capacity % U16_LIMIT, |queue| % U16_LIMIT,
                            Ahead(now, window.minLead), Ahead(now, window.maxHorizon), faulted);
    }

    method SetQueueWindow(window: QueueWindow)
      modifies this
      ensures State() == Next(old(State()), SetWindow(window))
    {
      this.window := window;
    }

    method Reject(envelope: CommandEnvelope, reason: Reason)
      modifies `history
      ensures State() == old(State()).(history := old(history) + [Rejected(now, envelope, reason)])
    {
      history := history + [Rejected(now, envelope, reason)];
    }

    method AcceptCommand(envelope: CommandEnvelope)
      modifies this
      ensures State() == Accept(old(State()), envelope)
    {
      if faulted {
        Reject(envelope, FaultLatched);
        return;
      }
      if envelope.command.Heartbeat? {
        if envelope.executeAt.Some? {
          Reject(envelope, ScheduledHeartbeat);
          return;
        }
        lastHeartbeat := now;
        return;
      }
      var scheduledFor := if envelope.executeAt.Some? then envelope.executeAt.value else now;
      if envelope.executeAt.Some? {
        if scheduledFor % STEP_TICKS != 0 {
          Reject(envelope, Misaligned);
          return;
        }
        if scheduledFor < Ahead(now, window.minLead) {
          Reject(envelope, TooEarly);
          return;
        }
        if scheduledFor > Ahead(now, window.maxHorizon) {
          Reject(envelope, TooLate);
          return;
        }
      }
      if |queue| >= capacity {
        Reject(envelope, NoRoom);
        return;
      }
      var queued := Queued(scheduledFor, envelope.command, envelope.executeAt.Some?);
      var insertAt := 0;
      while insertAt < |queue| && queue[insertAt].executeAt <= scheduledFor
        invariant insertAt <= |queue|
        invariant forall k :: 0 <= k < insertAt ==> queue[k].executeAt <= scheduledFor
      {
        insertAt := insertAt + 1;
      }
      InsertSplits(queue, queued, insertAt);
      queue := queue[..insertAt] + [queued] + queue[insertAt..];
      history := history + [Accepted(now, queued)];
    }

    /** Start every command at the front of the queue that is due. */
    method StartDueCommands()
      modifies this
      ensures State() == StartDue(old(State()))
    {
      hide FindHeater, FindAxis;
      while queue != [] && queue[0].executeAt <= now
        invariant StartDue(State()) == StartDue(old(State()))
        decreases |queue|
      {
        ghost var before := State();
        assert StartDue(before) == StartDue(StartFront(before));
        var queued := queue[0];
        queue := queue[1..];
        match queued.command {
          case Heartbeat =>
          case SetHeaterTarget(heater, target) =>
            var i := FindHeater(heaters, heater);
            if i.Some? {
              heaters := heaters[i.value := heaters[i.value].(target := target, forcedSafe := false)];
            }
          case Home(axis, rate) =>
            var i := FindAxis(axes, axis);
            if i.Some? {
              axes := axes[i.value := axes[i.value].(motion := Some(HomeMotion(rate)))];
            }
          case Move(axis, distance, rate) =>
            var i := FindAxis(axes, axis);
            if i.Some? {
              axes := axes[i.value := axes[i.value].(motion := Some(MoveMotion(distance, rate)))];
            }
        }
        history := history + [StartEvent(before)];
        assert State() == StartFront(before);
      }
    }

    /** Heartbeat loss forces declared safe states. */
    method EnforceHeartbeat()
      modifies `heaters
      ensures heaters == GuardAll(old(heaters), now, lastHeartbeat)
      ensures forall k :: 0 <= k < |heaters| ==>
        var h, timeout := old(heaters)[k], old(heaters)[k].cfg.heartbeatTimeout;
        heaters[k] == if h.target > 0 && !h.forcedSafe && timeout.Some? && lastHeartbeat + timeout.value < now
                      then h.(target := 0, dutyOn := false, forcedSafe := true) else h
    {
      var i := 0;
      while i < |heaters|
        invariant i <= |heaters| == |old(heaters)|
        invariant forall k :: 0 <= k < i ==> heaters[k] == Guard(old(heaters)[k], now, lastHeartbeat)
        invariant forall k :: i <= k < |heaters| ==> heaters[k] == old(heaters)[k]
      {
        var h := heaters[i];
        if h.cfg.heartbeatTimeout.Some? {
          if !h.forcedSafe && h.target > 0 && now - lastHeartbeat > h.cfg.heartbeatTimeout.value {
            heaters := heaters[i := h.(target := 0, dutyOn := false, forcedSafe := true)];
          }
        }
        i := i + 1;
      }
    }

    method IntegrateHeaters()
      modifies `heaters
      ensures heaters == HeatAll(old(heaters), ambient)
    {
      var i := 0;
      while i < |heaters|
        invariant i <= |heaters| == |old(heaters)|
        invariant forall k :: 0 <= k < i ==> heaters[k] == Heat(old(heaters)[k], ambient)
        invariant forall k :: i <= k < |heaters| ==> heaters[k] == old(heaters)[k]
      {
        heaters := heaters[i := Heat(heaters[i], ambient)];
        i := i + 1;
      }
    }

    method AdvanceAxes()
      modifies `axes
      ensures axes == Map(MoveAxis, old(axes))
    {
      var i := 0;
      while i < |axes|
        invariant i <= |axes| == |old(axes)|
        invariant forall k :: 0 <= k < i ==> axes[k] == MoveAxis(old(axes)[k])
        invariant forall k :: i <= k < |axes| ==> axes[k] == old(axes)[k]
      {
        var a := axes[i];
        if a.motion.Some? {
          var m := a.motion.value;
          if m.homing {
            a := a.(position := a.position + m.perMs);
            if a.position <= 0 {
              a := a.(position := 0, motion := None);
            }
          } else {
            var step := if Abs(m.perMs) >= Abs(m.remaining) then m.remaining else m.perMs;
            m := m.(remaining := m.remaining - step);
            a := a.(position := a.position + step, motion := if m.remaining == 0 then None else Some(m));
          }
        }
        axes := axes[i := a];
        i := i + 1;
      }
    }

    /** One turn of the run loop; `deliveries` is what the transport yields in it. */
    method RunStep(deliveries: seq<CommandEnvelope>)
      modifies this
      ensures State() == Step(old(State()), deliveries)
    {
      hide Accept, StartDue, MoveAxis, Heat, Guard;
      now := now + STEP_TICKS;
      ghost var began := State();
      var i := 0;
      while i < |deliveries|
        invariant i <= |deliveries|
        invariant AcceptAll(began, deliveries) == AcceptAll(State(), deliveries[i..])
      {
        assert deliveries[i..][1..] == deliveries[i + 1..];
        AcceptCommand(deliveries[i]);
        i := i + 1;
      }
      StartDueCommands();
      ghost var started := State();
      EnforceHeartbeat();
      IntegrateHeaters();
      AdvanceAxes();
      assert State() == Plants(started);
    }

    /** Fault injection: outputs safe, queue and motions cleared, a fault latched. */
    method ResetFault()
      modifies this
      ensures State() == Reset(old(State()))
    {
      heaters := Map((h: Heater) => h.(target := 0, dutyOn := false, forcedSafe := false), heaters);
      axes := Map((a: Axis) => a.(motion := None), axes);
      queue := [];
      faulted := true;
    }
  }
}
