// Lowering of tokenised G-code to commands (crates/gcode-lowerer/src/lib.rs)
// and the pre-flight audit of commands (crates/toolpath-auditor/src/lib.rs).
module Toolpath {
  import opened Prelude
  import opened Protocol

  // ----- casts from floating point, on exact values ---------------------------------------

  function ToI64(x: real): i64 {
    var n := if x >= 0.0 then x.Floor else -((-x).Floor);
    if n >= I64_LIMIT then I64_LIMIT - 1 else if n < -I64_LIMIT then -I64_LIMIT else n
  }

  function ToU64(x: real): u64 {
    if x < 0.0 then 0 else if x.Floor >= U64_LIMIT then U64_LIMIT - 1 else x.Floor
  }

  // ----- lines -----------------------------------------------------------------------------

  /** A word of a cleaned line: an upper-case letter and its number. */
  datatype Token = Token(letter: char, value: real)

  type Line = seq<Token>

  const X: Text := [0x78]
  const Y: Text := [0x79]
  const Z: Text := [0x7a]
  const E: Text := [0x65]

  function LinearAxis(letter: char): Option<Text> {
    match letter
    case 'X' => Some(X)
    case 'Y' => Some(Y)
    case 'Z' => Some(Z)
    case _ => None
  }

  function MoveAxisName(letter: char): Option<Text> {
    if letter == 'E' then Some(E) else LinearAxis(letter)
  }

  datatype Code = Absolute | Relative | HomeAxes | Travel | HeatHotend | HeatBed | Poll | Ignored

  function CodeOf(line: Line): Code {
    if line == [] then Ignored
    else
      match (line[0].letter, ToU64(line[0].value))
      case ('G', n) =>
        if n == 90 then Absolute else if n == 91 then Relative
        else if n == 28 then HomeAxes else if n == 0 || n == 1 then Travel else Ignored
      case ('M', n) =>
        if n == 104 || n == 109 then HeatHotend else if n == 140 || n == 190 then HeatBed
        else if n == 105 then Poll else Ignored
      case _ => Ignored
  }

  function Init<T>(s: seq<T>): seq<T>
    requires s != []
  {
    s[..|s| - 1]
  }

  function Last<T>(s: seq<T>): T
    requires s != []
  {
    s[|s| - 1]
  }

  // ----- lowering -----------------------------------------------------------------------------

  /** `i64` subtraction or addition left its range. */
  datatype LoweringError = Overflow

  datatype LowererConfig = LowererConfig(defaultFeed: u64, hotend: Text, bed: Text)

  datatype LowererState = LowererState(feed: u64, absolute: bool, positions: map<Text, i64>)

  datatype Lowered = Lowered(state: LowererState, commands: seq<Command>)

  type Lowering = Result<Lowered, LoweringError>

  function FreshLowerer(cfg: LowererConfig): LowererState {
    LowererState(cfg.defaultFeed, true, map[])
  }

  function Tracked(positions: map<Text, i64>, axis: Text): i64 {
    if axis in positions then positions[axis] else 0
  }

  function HomeOn(done: Lowered, axis: Text): Lowered {
    Lowered(done.state.(positions := done.state.positions[axis := 0]), done.commands + [Home(axis, done.state.feed)])
  }

  function HomeListed(done: Lowered, words: Line): Lowered {
    if words == [] then done
    else
      var before := HomeListed(done, Init(words));
      match LinearAxis(Last(words).letter)
      case Some(axis) => HomeOn(before, axis)
      case None => before
  }

  function HomeEvery(done: Lowered): Lowered {
    HomeOn(HomeOn(HomeOn(done, X), Y), Z)
  }

  /** The last feed word of the line wins. */
  function FeedAfter(feed: u64, words: Line): u64 {
    if words == [] then feed
    else if Last(words).letter == 'F' then
      var rate := Last(words).value * 1000.0 / 60.0;
      ToU64(if rate >= 1.0 then rate else 1.0)
    else FeedAfter(feed, Init(words))
  }

  function MoveOn(done: Lowered, axis: Text, value: real): Lowering {
    var target := ToI64(value * 1000.0);
    var current := Tracked(done.state.positions, axis);
    var delta := if done.state.absolute then target - current else target;
    if !InI64(delta) || !InI64(current + delta) then Err(Overflow)
    else
      Ok(Lowered(done.state.(positions := done.state.positions[axis := current + delta]),
                 done.commands + [Move(axis, delta, done.state.feed)]))
  }

  function MoveListed(done: Lowered, words: Line): Lowering {
    if words == [] then Ok(done)
    else
      var before :- MoveListed(done, Init(words));
      match MoveAxisName(Last(words).letter)
      case Some(axis) => MoveOn(before, axis, Last(words).value)
      case None => Ok(before)
  }

  function FirstS(words: Line): Option<real> {
    if words == [] then None
    else if words[0].letter == 'S' then Some(words[0].value)
    else FirstS(words[1..])
  }

  function HeatTo(done: Lowered, heater: Text, setting: Option<real>): Lowered {
    match setting
    case Some(value) => done.(commands := done.commands + [SetHeaterTarget(heater, ToI64(value * 1000.0))])
    case None => done
  }

  function LowerLine(cfg: LowererConfig, done: Lowered, line: Line): Lowering {
    match CodeOf(line)
    case Absolute => Ok(done.(state := done.state.(absolute := true)))
    case Relative => Ok(done.(state := done.state.(absolute := false)))
    case HomeAxes =>
      var homed := HomeListed(done, line[1..]);
      Ok(if homed.commands == done.commands then HomeEvery(done) else homed)
    case Travel => MoveListed(done.(state := done.state.(feed := FeedAfter(done.state.feed, line[1..]))), line[1..])
    case HeatHotend => Ok(HeatTo(done, cfg.hotend, FirstS(line)))
    case HeatBed => Ok(HeatTo(done, cfg.bed, FirstS(line)))
    case Poll => Ok(done.(commands := done.commands + [Heartbeat]))
    case Ignored => Ok(done)
  }

  function LowerLines(cfg: LowererConfig, start: LowererState, lines: seq<Line>): Lowering {
    if lines == [] then Ok(Lowered(start, []))
    else
      var before :- LowerLines(cfg, start, Init(lines));
      LowerLine(cfg, before, Last(lines))
  }

  lemma InitOfPrefix<T>(s: seq<T>, i: nat)
    requires i < |s|
    ensures Init(s[..i + 1]) == s[..i] && Last(s[..i + 1]) == s[i]
  {
  }

  /** An error among the first words stays an error. */
  lemma {:induction false} MoveListedFails(done: Lowered, words: Line, i: nat)
    requires i <= |words| && MoveListed(done, words[..i]).Err?
    ensures MoveListed(done, words) == MoveListed(done, words[..i])
    decreases |words|
  {
    if i == |words| {
      assert words[..i] == words;
    } else {
      assert Init(words)[..i] == words[..i];
      MoveListedFails(done, Init(words), i);
    }
  }

  lemma {:induction false} LowerLinesFails(cfg: LowererConfig, start: LowererState, lines: seq<Line>, i: nat)
    requires i <= |lines| && LowerLines(cfg, start, lines[..i]).Err?
    ensures LowerLines(cfg, start, lines) == LowerLines(cfg, start, lines[..i])
    decreases |lines|
  {
    if i == |lines| {
      assert lines[..i] == lines;
    } else {
      assert Init(lines)[..i] == lines[..i];
      LowerLinesFails(cfg, start, Init(lines), i);
    }
  }

  class GcodeLowerer {
    const config: LowererConfig
    var feed: u64
    var absolute: bool
    var positions: map<Text, i64>

    ghost function State(): LowererState
      reads this
    {
      LowererState(feed, absolute, positions)
    }

    constructor (config: LowererConfig)
      ensures State() == FreshLowerer(config) && this.config == config
    {
      this.config := config;
      feed, absolute, positions := config.defaultFeed, true, map[];
    }

    method LowerHome(words: Line, before: seq<Command>) returns (commands: seq<Command>)
      modifies this
      ensures var homed := HomeListed(old(Lowered(State(), before)), words);
        Lowered(State(), commands) == if homed.commands == before then HomeEvery(old(Lowered(State(), before)))
          else homed
    {
      commands := before;
      var homed := false;
      var i := 0;
      while i < |words|
        invariant i <= |words|
        invariant Lowered(State(), commands) == HomeListed(old(Lowered(State(), before)), words[..i])
        invariant |before| <= |commands| && (homed <==> |commands| > |before|)
        invariant !homed ==> commands == before && State() == old(State())
      {
        InitOfPrefix(words, i);
        var axis := LinearAxis(words[i].letter);
        if axis.Some? {
          commands := commands + [Home(axis.value, feed)];
          positions := positions[axis.value := 0];
          homed := true;
        }
        i := i + 1;
      }
      assert words[..|words|] == words;
      if !homed {
        commands := commands + [Home(X, feed)];
        positions := positions[X := 0];
        commands := commands + [Home(Y, feed)];
        positions := positions[Y := 0];
        commands := commands + [Home(Z, feed)];
        positions := positions[Z := 0];
      }
    }

    method ReadFeed(words: Line)
      modifies this
      ensures State() == old(State()).(feed := FeedAfter(old(feed), words))
    {
      var newFeed := None;
      var i := 0;
      while i < |words|
        invariant i <= |words|
        invariant State() == old(State())
        invariant FeedAfter(feed, words[..i]) == if newFeed.Some? then newFeed.value else feed
      {
        InitOfPrefix(words, i);
        if words[i].letter == 'F' {
          var rate := words[i].value * 1000.0 / 60.0;
          newFeed := Some(ToU64(if rate >= 1.0 then rate else 1.0));
        }
        i := i + 1;
      }
      assert words[..|words|] == words;
      assert FeedAfter(feed, words) == if newFeed.Some? then newFeed.value else feed;
      if newFeed.Some? {
        feed := newFeed.value;
      }
    }

    method LowerMove(axis: Text, value: real, before: seq<Command>) returns (r: Result<seq<Command>, LoweringError>)
      modifies this
      ensures var moved := MoveOn(old(Lowered(State(), before)), axis, value);
        if r.Ok? then moved == Ok(Lowered(State(), r.value)) else moved == Err(Overflow)
    {
      hide ToI64;
      var target := ToI64(value * 1000.0);
      var current := if axis in positions then positions[axis] else 0;
      var delta: int := if absolute then target - current else target;
      if !InI64(delta) || !InI64(current + delta) {
        return Err(Overflow);
      }
      positions := positions[axis := if absolute then target else current + delta];
      r := Ok(before + [Move(axis, delta, feed)]);
    }

    method LowerMoves(words: Line, before: seq<Command>) returns (r: Result<seq<Command>, LoweringError>)
      modifies this
      ensures var moved := MoveListed(old(Lowered(State(), before)), words);
        if r.Ok? then moved == Ok(Lowered(State(), r.value)) else moved == Err(Overflow)
    {
      hide MoveOn, MoveAxisName;
      ghost var start := Lowered(State(), before);
      var commands := before;
      var i := 0;
      while i < |words|
        invariant i <= |words|
        invariant MoveListed(start, words[..i]) == Ok(Lowered(State(), commands))
      {
        InitOfPrefix(words, i);
        var axis := MoveAxisName(words[i].letter);
        if axis.Some? {
          var moved := LowerMove(axis.value, words[i].value, commands);
          if moved.Err? {
            MoveListedFails(start, words, i + 1);
            return moved;
          }
          commands := moved.value;
        }
        i := i + 1;
      }
      assert words[..|words|] == words;
      r := Ok(commands);
    }

    method LowerSource(lines: seq<Line>) returns (r: Result<seq<Command>, LoweringError>)
      modifies this
      ensures var lowered := LowerLines(config, old(State()), lines);
        if r.Ok? then lowered == Ok(Lowered(State(), r.value)) else lowered == Err(Overflow)
    {
      hide HomeListed, MoveListed, FeedAfter, ToI64, ToU64, HomeEvery;
      ghost var start := State();
      var commands := [];
      var i := 0;
      while i < |lines|
        invariant i <= |lines|
        invariant LowerLines(config, start, lines[..i]) == Ok(Lowered(State(), commands))
      {
        var line := lines[i];
        InitOfPrefix(lines, i);
        assert LowerLines(config, start, lines[..i + 1]) == LowerLine(config, Lowered(State(), commands), line);
        match CodeOf(line) {
          case Absolute => absolute := true;
          case Relative => absolute := false;
          case HomeAxes => commands := LowerHome(line[1..], commands);
          case Travel =>
            ReadFeed(line[1..]);
            var moved := LowerMoves(line[1..], commands);
            if moved.Err? {
              LowerLinesFails(config, start, lines, i + 1);
              return Err(Overflow);
            }
            commands := moved.value;
          case HeatHotend =>
            var setting := FirstS(line);
            if setting.Some? {
              commands := commands + [SetHeaterTarget(config.hotend, ToI64(setting.value * 1000.0))];
            }
          case HeatBed =>
            var setting := FirstS(line);
            if setting.Some? {
              commands := commands + [SetHeaterTarget(config.bed, ToI64(setting.value * 1000.0))];
            }
          case Poll => commands := commands + [Heartbeat];
          case Ignored =>
        }
        i := i + 1;
      }
      assert lines[..|lines|] == lines;
      r := Ok(commands);
    }
  }

  // ----- the audit -----------------------------------------------------------------------------

  datatype AxisLimit = AxisLimit(low: i64, high: i64)

  datatype AuditLimits = AuditLimits(axes: map<Text, AxisLimit>, maxFeed: u64, ceilings: map<Text, i64>)

  datatype AuditCode = OutsideBounds | TooFast | TooHot | UnknownHeater

  datatype AuditDiagnostic = AuditDiagnostic(code: AuditCode, index: nat)

  datatype AuditReport = AuditReport(passed: bool, audited: nat, diagnostics: seq<AuditDiagnostic>)

  /** `i64::saturating_add`. */
  function SatAddI64(a: i64, b: i64): i64 {
    Max(-I64_LIMIT, Min(I64_LIMIT - 1, a + b))
  }

  /** Where the audit believes an axis is after the commands. */
  function Audited(commands: seq<Command>, axis: Text): i64 {
    if commands == [] then 0
    else
      match Last(commands)
      case Home(name, _) => if name == axis then 0 else Audited(Init(commands), axis)
      case Move(name, distance, _) =>
        if name == axis then SatAddI64(Audited(Init(commands), axis), distance) else Audited(Init(commands), axis)
      case _ => Audited(Init(commands), axis)
  }

  function RateFinding(limits: AuditLimits, rate: u64, index: nat): seq<AuditDiagnostic> {
    if limits.maxFeed > 0 && rate > limits.maxFeed then [AuditDiagnostic(TooFast, index)] else []
  }

  function BoundsFinding(limits: AuditLimits, axis: Text, at: int, index: nat): seq<AuditDiagnostic> {
    if axis in limits.axes && (at < limits.axes[axis].low || at > limits.axes[axis].high)
    then [AuditDiagnostic(OutsideBounds, index)] else []
  }

  /** What the audit reports of the last command. */
  function LastFindings(limits: AuditLimits, commands: seq<Command>): seq<AuditDiagnostic>
    requires commands != []
  {
    var index := |commands| - 1;
    match Last(commands)
    case Heartbeat => []
    case SetHeaterTarget(heater, target) =>
      if heater !in limits.ceilings then [AuditDiagnostic(UnknownHeater, index)]
      else if target > limits.ceilings[heater] then [AuditDiagnostic(TooHot, index)] else []
    case Home(_, rate) => RateFinding(limits, rate, index)
    case Move(axis, _, rate) =>
      RateFinding(limits, rate, index) + BoundsFinding(limits, axis, Audited(commands, axis), index)
  }

  function Findings(limits: AuditLimits, commands: seq<Command>): seq<AuditDiagnostic> {
    if commands == [] then [] else Findings(limits, Init(commands)) + LastFindings(limits, commands)
  }

  lemma NothingAudited(limits: AuditLimits)
    ensures Findings(limits, []) == [] && forall a: Text :: Audited([], a) == 0
  {
  }

  lemma FindingsOfLast(limits: AuditLimits, commands: seq<Command>)
    requires commands != []
    ensures Findings(limits, commands) == Findings(limits, Init(commands)) + LastFindings(limits, commands)
    ensures !Last(commands).Home? && !Last(commands).Move? ==>
      forall a: Text :: Audited(commands, a) == Audited(Init(commands), a)
  {
    hide LastFindings;
  }

  /** The position an audit records for the axis of its last command. */
  lemma AuditedRecords(commands: seq<Command>, positions: map<Text, i64>, axis: Text, at: i64)
    requires commands != []
    requires forall a: Text :: Tracked(positions, a) == Audited(Init(commands), a)
    requires match Last(commands)
      case Home(name, _) => name == axis && at == 0
      case Move(name, distance, _) => name == axis && at == SatAddI64(Tracked(positions, axis), distance)
      case _ => false
    ensures forall a: Text :: Tracked(positions[axis := at], a) == Audited(commands, a)
  {
  }

  class ToolpathAuditor {
    const limits: AuditLimits

    constructor (limits: AuditLimits)
      ensures this.limits == limits
    {
      this.limits := limits;
    }

    method Audit(commands: seq<Command>) returns (report: AuditReport)
      ensures report == AuditReport(Findings(limits, commands) == [], |commands|, Findings(limits, commands))
    {
      hide Audited, SatAddI64, Findings;
      var diagnostics := [];
      var positions: map<Text, i64> := map[];
      NothingAudited(limits);
      var index := 0;
      while index < |commands|
        invariant index <= |commands|
        invariant diagnostics == Findings(limits, commands[..index])
        invariant forall axis: Text :: Tracked(positions, axis) == Audited(commands[..index], axis)
      {
        InitOfPrefix(commands, index);
        ghost var prefix := commands[..index + 1];
        ghost var before := diagnostics;
        match commands[index] {
          case Heartbeat =>
          case SetHeaterTarget(heater, target) =>
            if heater !in limits.ceilings {
              diagnostics := diagnostics + [AuditDiagnostic(UnknownHeater, index)];
            } else if target > limits.ceilings[heater] {
              diagnostics := diagnostics + [AuditDiagnostic(TooHot, index)];
            }
          case Home(axis, rate) =>
            if limits.maxFeed > 0 && rate > limits.maxFeed {
              diagnostics := diagnostics + [AuditDiagnostic(TooFast, index)];
            }
            AuditedRecords(prefix, positions, axis, 0);
            positions := positions[axis := 0];
          case Move(axis, distance, rate) =>
            if limits.maxFeed > 0 && rate > limits.maxFeed {
              diagnostics := diagnostics + [AuditDiagnostic(TooFast, index)];
            }
            assert diagnostics == before + RateFinding(limits, rate, index);
            var current := if axis in positions then positions[axis] else 0;
            assert current == Tracked(positions, axis);
            var at := SatAddI64(current, distance);
            AuditedRecords(prefix, positions, axis, at);
            positions := positions[axis := at];
            if axis in limits.axes {
              if at < limits.axes[axis].low || at > limits.axes[axis].high {
                diagnostics := diagnostics + [AuditDiagnostic(OutsideBounds, index)];
              }
            }
        }
        assert diagnostics == before + LastFindings(limits, prefix);
        FindingsOfLast(limits, prefix);
        index := index + 1;
      }
      assert commands[..|commands|] == commands;
      report := AuditReport(diagnostics == [], |commands|, diagnostics);
    }
  }
}
