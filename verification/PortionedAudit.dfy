// The runner audits every portion afresh, from zero. When that amounts to an
// audit of the whole, and what an audit has to say about heartbeats.
module PortionedAudit {
  import opened Prelude
  import opened Protocol
  import opened Toolpath
  import opened ToolpathLaws
  import opened AxisMotion
  import opened AuditedRuns
  import opened ClosedLoop

  // ----- two portions ---------------------------------------------------------------------

  /** The commands leave every limited axis where an audit starts: at zero. */
  predicate Returned(limits: AuditLimits, commands: seq<Command>) {
    forall axis: Text :: axis in limits.axes ==> Replay(0, commands, axis) == 0
  }

  lemma InitAppends<T>(a: seq<T>, b: seq<T>)
    requires b != []
    ensures Init(a + b) == a + Init(b) && Last(a + b) == Last(b)
  {
  }

  lemma {:induction false} ReplayAppends(start: int, a: seq<Command>, b: seq<Command>, axis: Text)
    ensures Replay(start, a + b, axis) == Replay(Replay(start, a, axis), b, axis)
    decreases |b|
  {
    if b == [] {
      assert a + b == a;
    } else {
      InitAppends(a, b);
      ReplayAppends(start, a, Init(b), axis);
    }
  }

  lemma {:induction false} AuditedAppends(a: seq<Command>, b: seq<Command>, axis: Text)
    requires Audited(a, axis) == 0
    ensures Audited(a + b, axis) == Audited(b, axis)
    decreases |b|
  {
    hide SatAddI64;
    if b == [] {
      assert a + b == a;
    } else {
      InitAppends(a, b);
      AuditedAppends(a, Init(b), axis);
    }
  }

  lemma LastAlone(limits: AuditLimits, a: seq<Command>, b: seq<Command>)
    requires b != [] && forall axis: Text :: axis in limits.axes ==> Audited(a, axis) == 0
    ensures LastFindings(limits, a + b) == [] <==> LastFindings(limits, b) == []
  {
    hide Audited;
    InitAppends(a, b);
    forall axis: Text | axis in limits.axes
      ensures Audited(a + b, axis) == Audited(b, axis)
    {
      AuditedAppends(a, b, axis);
    }
  }

  lemma {:induction false} FindingsAppend(limits: AuditLimits, a: seq<Command>, b: seq<Command>)
    requires forall axis: Text :: axis in limits.axes ==> Audited(a, axis) == 0
    ensures Findings(limits, a + b) == [] <==> Findings(limits, a) == [] && Findings(limits, b) == []
    decreases |b|
  {
    hide Audited, LastFindings;
    if b == [] {
      assert a + b == a;
    } else {
      InitAppends(a, b);
      LastAlone(limits, a, b);
      FindingsAppend(limits, a, Init(b));
    }
  }

  lemma ReturnedAudited(limits: AuditLimits, a: seq<Command>)
    requires Findings(limits, a) == [] && BoundedLimits(limits)
    ensures Returned(limits, a) <==> forall axis: Text :: axis in limits.axes ==> Audited(a, axis) == 0
  {
    hide Findings, Replay, Audited, BoundedLimits;
    forall axis: Text | axis in limits.axes
      ensures Audited(a, axis) == Replay(0, a, axis)
    {
      PassingStaysInside(limits, a, axis);
    }
  }

  /** The one move that takes an axis to a limit passes an audit of its own. */
  lemma ToTheLimit(limits: AuditLimits, axis: Text, at: i64)
    requires axis in limits.axes && limits.axes[axis].low <= at <= limits.axes[axis].high
    ensures Findings(limits, [Move(axis, at, 0)]) == []
  {
    var one := [Move(axis, at, 0)];
    assert Init(one) == [] && Last(one) == one[0];
    assert Audited([], axis) == 0;
    assert Audited(one, axis) == at;
    assert Findings(limits, one) == Findings(limits, []) + LastFindings(limits, one);
  }

  /** After a portion that leaves an axis away from zero, it does not pass as a whole. */
  lemma PastTheLimit(limits: AuditLimits, a: seq<Command>, axis: Text)
    requires Findings(limits, a) == [] && BoundedLimits(limits) && axis in limits.axes && Replay(0, a, axis) != 0
    ensures var l := limits.axes[axis];
      var b := [Move(axis, if Replay(0, a, axis) > 0 then l.high else l.low, 0)];
      Findings(limits, a + b) != [] && Findings(limits, b) == []
  {
    hide Findings, Replay, Audited;
    var l := limits.axes[axis];
    assert Bounded(l);
    var at := if Replay(0, a, axis) > 0 then l.high else l.low;
    var b := [Move(axis, at, 0)];
    ToTheLimit(limits, axis, at);
    if Findings(limits, a + b) == [] {
      PassingStaysInside(limits, a + b, axis);
      ReplayLast(0, a, b[0], axis);
      assert false;
    }
  }

  /** After a portion that passes, for whatever follows the audit of the rest alone
      and the audit of the whole agree if and only if the portion leaves every
      limited axis at zero. */
  lemma PortionsAgreeExactly(limits: AuditLimits, a: seq<Command>)
    requires Findings(limits, a) == [] && BoundedLimits(limits)
    ensures (forall b :: Findings(limits, a + b) == [] <==> Findings(limits, b) == []) <==> Returned(limits, a)
  {
    hide Findings, Replay, Audited, BoundedLimits;
    if Returned(limits, a) {
      ReturnedAudited(limits, a);
      forall b: seq<Command>
        ensures Findings(limits, a + b) == [] <==> Findings(limits, b) == []
      {
        FindingsAppend(limits, a, b);
      }
    } else {
      var axis: Text :| axis in limits.axes && Replay(0, a, axis) != 0;
      PastTheLimit(limits, a, axis);
    }
  }

  const FORTH := Move(X, 10, 1000)
  const HOMEWARD := Move(X, -10, 1000)

  lemma OneFinding(limits: AuditLimits, c: Command)
    ensures Findings(limits, [c]) == LastFindings(limits, [c])
    ensures c.Move? ==> Audited([c], c.axis) == SatAddI64(0, c.distanceUm)
  {
    assert Init([c]) == [];
  }

  lemma TwoFindings(limits: AuditLimits, c: Command, d: Command)
    ensures Findings(limits, [c, d]) == Findings(limits, [c]) + LastFindings(limits, [c, d])
    ensures d.Move? ==> Audited([c, d], d.axis) == SatAddI64(Audited([c], d.axis), d.distanceUm)
  {
    assert Init([c, d]) == [c];
  }

  /** Neither audit implies the other: a program that passes can have a portion that
      is refused, and portions that pass can make up a program that does not. */
  lemma PortionsDisagree()
    ensures Findings(SHORT_AXIS, [FORTH] + [HOMEWARD]) == [] && Findings(SHORT_AXIS, [HOMEWARD]) != []
    ensures Findings(SHORT_AXIS, [FORTH]) == [] && Findings(SHORT_AXIS, [FORTH] + [FORTH]) != []
  {
    hide Findings, Audited;
    assert [FORTH] + [HOMEWARD] == [FORTH, HOMEWARD] && [FORTH] + [FORTH] == [FORTH, FORTH];
    OneFinding(SHORT_AXIS, FORTH);
    OneFinding(SHORT_AXIS, HOMEWARD);
    TwoFindings(SHORT_AXIS, FORTH, HOMEWARD);
    TwoFindings(SHORT_AXIS, FORTH, FORTH);
  }

  // ----- heartbeats ------------------------------------------------------------------------

  lemma EffectiveSnoc(commands: seq<Command>)
    requires commands != []
    ensures Effective(commands) ==
            Effective(Init(commands)) + if Last(commands).Heartbeat? then [] else [Last(commands)]
  {
    var last := [Last(commands)];
    assert commands == Init(commands) + last && last[1..] == [];
    EffectiveAppends(Init(commands), last);
    assert Effective(last) == if Last(commands).Heartbeat? then [] else last;
  }

  /** Heartbeats move nothing, and no audit has anything to say about them. */
  lemma {:induction false} HeartbeatsAreQuiet(limits: AuditLimits, commands: seq<Command>)
    ensures forall axis: Text, start: int :: Replay(start, Effective(commands), axis) == Replay(start, commands, axis)
    ensures forall axis: Text :: Audited(Effective(commands), axis) == Audited(commands, axis)
    ensures Findings(limits, Effective(commands)) == [] <==> Findings(limits, commands) == []
    decreases |commands|
  {
    hide Effective, SatAddI64, RateFinding, BoundsFinding;
    if commands == [] {
      assert Effective(commands) == [] by { EffectiveOfNone(); }
    } else {
      HeartbeatsAreQuiet(limits, Init(commands));
      EffectiveSnoc(commands);
      if Last(commands).Heartbeat? {
        assert Effective(commands) == Effective(Init(commands));
      } else {
        InitAppends(Effective(Init(commands)), [Last(commands)]);
        assert Init([Last(commands)]) == [];
        LastOfEffective(limits, commands);
      }
    }
  }

  lemma EffectiveOfNone()
    ensures Effective([]) == []
  {
  }

  lemma LastOfEffective(limits: AuditLimits, commands: seq<Command>)
    requires commands != [] && !Last(commands).Heartbeat?
    requires Effective(commands) == Effective(Init(commands)) + [Last(commands)]
    requires forall axis: Text :: Audited(Effective(Init(commands)), axis) == Audited(Init(commands), axis)
    ensures LastFindings(limits, Effective(commands)) == [] <==> LastFindings(limits, commands) == []
    ensures forall axis: Text :: Audited(Effective(commands), axis) == Audited(commands, axis)
  {
    hide Effective, SatAddI64, LastFindings;
    var kept := Effective(commands);
    assert Init(kept) == Effective(Init(commands)) && Last(kept) == Last(commands);
    SameFindings(limits, kept, commands);
  }

  /** The findings of a last command do not depend on how many went before it. */
  lemma SameFindings(limits: AuditLimits, a: seq<Command>, b: seq<Command>)
    requires a != [] && b != [] && Last(a) == Last(b)
    requires forall axis: Text :: Audited(a, axis) == Audited(b, axis)
    ensures LastFindings(limits, a) == [] <==> LastFindings(limits, b) == []
  {
    hide Audited;
  }

  lemma {:induction false} EffectiveIsForward(commands: seq<Command>)
    requires RatesForward(commands)
    ensures RatesForward(Effective(commands))
    decreases |commands|
  {
    hide Forward;
    if commands != [] {
      assert RatesForward(commands[1..]);
      EffectiveIsForward(commands[1..]);
    }
  }

  // ----- heartbeats of a program -------------------------------------------------------------

  /** The lines of a program that poll the temperatures. */
  function Polls(lines: seq<Line>): nat {
    if lines == [] then 0 else Polls(Init(lines)) + if CodeOf(Last(lines)) == Poll then 1 else 0
  }

  lemma PulseSnoc(commands: seq<Command>, c: Command)
    ensures Pulse(commands + [c]) == Pulse(commands) + if c.Heartbeat? then 1 else 0
  {
    PulseAppends(commands, [c]);
    assert [c][1..] == [];
    assert Pulse([c]) == if c.Heartbeat? then 1 else 0;
  }

  lemma {:induction false} HomeListedPulse(done: Lowered, words: Line)
    ensures Pulse(HomeListed(done, words).commands) == Pulse(done.commands)
    decreases |words|
  {
    hide Pulse, LinearAxis;
    if words != [] {
      HomeListedPulse(done, Init(words));
      var before := HomeListed(done, Init(words));
      match LinearAxis(Last(words).letter)
      case Some(axis) => PulseSnoc(before.commands, Home(axis, before.state.feed));
      case None =>
    }
  }

  lemma HomeEveryPulse(done: Lowered)
    ensures Pulse(HomeEvery(done).commands) == Pulse(done.commands)
  {
    hide Pulse;
    PulseSnoc(done.commands, Home(X, done.state.feed));
    var x := HomeOn(done, X);
    PulseSnoc(x.commands, Home(Y, x.state.feed));
    var y := HomeOn(x, Y);
    PulseSnoc(y.commands, Home(Z, y.state.feed));
  }

  lemma MoveOnPulse(done: Lowered, axis: Text, value: real)
    requires MoveOn(done, axis, value).Ok?
    ensures Pulse(MoveOn(done, axis, value).value.commands) == Pulse(done.commands)
  {
    hide Pulse, ToI64;
    PulseSnoc(done.commands, Last(MoveOn(done, axis, value).value.commands));
  }

  lemma {:induction false} MoveListedPulse(done: Lowered, words: Line)
    requires MoveListed(done, words).Ok?
    ensures Pulse(MoveListed(done, words).value.commands) == Pulse(done.commands)
    decreases |words|
  {
    hide Pulse, MoveOn;
    if words != [] {
      MoveListedPulse(done, Init(words));
      var before := MoveListed(done, Init(words)).value;
      match MoveAxisName(Last(words).letter)
      case Some(axis) => MoveOnPulse(before, axis, Last(words).value);
      case None =>
    }
  }

  lemma LinePulse(cfg: LowererConfig, done: Lowered, line: Line)
    requires LowerLine(cfg, done, line).Ok?
    ensures Pulse(LowerLine(cfg, done, line).value.commands)
            == Pulse(done.commands) + if CodeOf(line) == Poll then 1 else 0
  {
    hide Pulse, HomeListed, HomeEvery, MoveListed, FeedAfter, FirstS, ToI64;
    match CodeOf(line)
    case HomeAxes =>
      HomeListedPulse(done, line[1..]);
      HomeEveryPulse(done);
    case Travel =>
      MoveListedPulse(done.(state := done.state.(feed := FeedAfter(done.state.feed, line[1..]))), line[1..]);
    case HeatHotend =>
      if FirstS(line).Some? {
        PulseSnoc(done.commands, SetHeaterTarget(cfg.hotend, ToI64(FirstS(line).value * 1000.0)));
      }
    case HeatBed =>
      if FirstS(line).Some? {
        PulseSnoc(done.commands, SetHeaterTarget(cfg.bed, ToI64(FirstS(line).value * 1000.0)));
      }
    case Poll => PulseSnoc(done.commands, Heartbeat);
    case _ =>
  }

  /** A lowered program has exactly one heartbeat for every line that polls. */
  lemma {:induction false} HeartbeatsArePolls(cfg: LowererConfig, from: LowererState, lines: seq<Line>)
    requires LowerLines(cfg, from, lines).Ok?
    ensures Pulse(LowerLines(cfg, from, lines).value.commands) == Polls(lines)
    decreases |lines|
  {
    hide LowerLine, CodeOf;
    if lines != [] {
      HeartbeatsArePolls(cfg, from, Init(lines));
      LinePulse(cfg, LowerLines(cfg, from, Init(lines)).value, Last(lines));
    }
  }

  lemma {:induction false} PollsNone(lines: seq<Line>)
    ensures Polls(lines) == 0 <==> forall k :: 0 <= k < |lines| ==> CodeOf(lines[k]) != Poll
    decreases |lines|
  {
    hide CodeOf;
    if lines != [] {
      PollsNone(Init(lines));
      forall k | 0 <= k < |lines| - 1
        ensures lines[k] == Init(lines)[k]
      {
      }
    }
  }

  lemma {:induction false} PulseNone(commands: seq<Command>)
    ensures Pulse(commands) == 0 <==> Heartbeat !in commands
    decreases |commands|
  {
    if commands != [] {
      PulseNone(commands[1..]);
      assert commands == [commands[0]] + commands[1..];
    }
  }

  /** A lowered program holds a heartbeat if and only if one of its lines polls. */
  lemma HeartbeatIffPoll(cfg: LowererConfig, from: LowererState, lines: seq<Line>)
    requires LowerLines(cfg, from, lines).Ok?
    ensures Heartbeat in LowerLines(cfg, from, lines).value.commands <==>
      exists k :: 0 <= k < |lines| && CodeOf(lines[k]) == Poll
  {
    hide LowerLines, Pulse, Polls, CodeOf;
    HeartbeatsArePolls(cfg, from, lines);
    PollsNone(lines);
    PulseNone(LowerLines(cfg, from, lines).value.commands);
  }
}
