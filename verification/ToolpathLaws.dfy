// Lowering keeps the meaning of G-code, and the audit follows it exactly.
module ToolpathLaws {
  import opened Prelude
  import opened Protocol
  import opened Toolpath

  // ----- replaying commands --------------------------------------------------------------

  /** Where the commands, carried out one after another, take an axis. */
  function Replay(start: int, commands: seq<Command>, axis: Text): int {
    if commands == [] then start
    else
      var before := Replay(start, Init(commands), axis);
      match Last(commands)
      case Home(name, _) => if name == axis then 0 else before
      case Move(name, distance, _) => if name == axis then before + distance else before
      case _ => before
  }

  /** No prefix of the commands takes the axis out of the range of `i64`. */
  ghost predicate InRange(start: int, commands: seq<Command>, axis: Text) {
    forall i :: 0 <= i <= |commands| ==> InI64(Replay(start, commands[..i], axis))
  }

  lemma InRangeGrows(start: int, commands: seq<Command>, c: Command, axis: Text)
    requires InRange(start, commands, axis) && InI64(Replay(start, commands + [c], axis))
    ensures InRange(start, commands + [c], axis)
  {
    hide Replay;
    forall i | 0 <= i <= |commands| + 1
      ensures InI64(Replay(start, (commands + [c])[..i], axis))
    {
      if i <= |commands| {
        assert (commands + [c])[..i] == commands[..i];
      } else {
        assert (commands + [c])[..i] == commands + [c];
      }
    }
  }

  lemma ReplayLast(start: int, commands: seq<Command>, c: Command, axis: Text)
    ensures var before := Replay(start, commands, axis);
      Replay(start, commands + [c], axis) ==
        if c.Home? && c.axis == axis then 0
        else if c.Move? && c.axis == axis then before + c.distanceUm
        else before
  {
    assert Init(commands + [c]) == commands && Last(commands + [c]) == c;
  }

  // ----- the audit against the exact replay --------------------------------------------------

  ghost predicate AuditExact(commands: seq<Command>, axis: Text) {
    forall i :: 0 <= i <= |commands| ==> Audited(commands[..i], axis) == Replay(0, commands[..i], axis)
  }

  /** The audit follows an axis exactly when exact positions fit in `i64`, and
      from the first that does not its saturating sum is wrong. */
  lemma AuditFollows(commands: seq<Command>, axis: Text)
    ensures AuditExact(commands, axis) <==> InRange(0, commands, axis)
  {
    hide Replay, Audited;
    if InRange(0, commands, axis) {
      forall i | 0 <= i <= |commands|
        ensures Audited(commands[..i], axis) == Replay(0, commands[..i], axis)
      {
        AuditFollowsPrefix(commands, axis, i);
      }
    } else {
      var i :| 0 <= i <= |commands| && !InI64(Replay(0, commands[..i], axis));
      assert InI64(Audited(commands[..i], axis));
    }
  }

  const FARTHEST: i64 := I64_LIMIT - 1
  const FAR := Move(X, FARTHEST, 1000)

  /** Two of the longest moves leave the range: the audit stays at its end. */
  lemma SaturationLosesTrack()
    ensures Replay(0, [FAR, FAR], X) == 2 * FARTHEST && Audited([FAR, FAR], X) == FARTHEST
    ensures !AuditExact([FAR, FAR], X) && !InRange(0, [FAR, FAR], X)
  {
    var one, two := [FAR], [FAR, FAR];
    assert Init(two) == one && Last(two) == FAR && Init(one) == [] && Last(one) == FAR;
    assert Replay(0, one, X) == FARTHEST && Audited(one, X) == FARTHEST;
    assert two[..2] == two;
  }

  lemma {:induction false} AuditFollowsPrefix(commands: seq<Command>, axis: Text, i: nat)
    requires i <= |commands| && InRange(0, commands, axis)
    ensures Audited(commands[..i], axis) == Replay(0, commands[..i], axis)
  {
    if i > 0 {
      AuditFollowsPrefix(commands, axis, i - 1);
      InitOfPrefix(commands, i - 1);
      assert InI64(Replay(0, commands[..i], axis));
      assert InI64(Replay(0, commands[..i - 1], axis));
    }
  }

  // ----- what G-code means ---------------------------------------------------------------------

  /** Whether coordinates are absolute after the lines. */
  function ModeAfter(absolute: bool, lines: seq<Line>): bool {
    if lines == [] then absolute
    else
      match CodeOf(Last(lines))
      case Absolute => true
      case Relative => false
      case _ => ModeAfter(absolute, Init(lines))
  }

  /** Where the words of one travel line leave an axis. */
  function TravelTo(absolute: bool, at: int, words: Line, axis: Text): int {
    if words == [] then at
    else
      var before := TravelTo(absolute, at, Init(words), axis);
      if MoveAxisName(Last(words).letter) != Some(axis) then before
      else if absolute then ToI64(Last(words).value * 1000.0)
      else before + ToI64(Last(words).value * 1000.0)
  }

  predicate Names(words: Line, axis: Text) {
    exists k :: 0 <= k < |words| && LinearAxis(words[k].letter) == Some(axis)
  }

  predicate NamesNone(words: Line) {
    forall k :: 0 <= k < |words| ==> LinearAxis(words[k].letter).None?
  }

  /** A homing line homes the axes it names, or all three when it names none. */
  predicate Homes(words: Line, axis: Text) {
    if NamesNone(words) then axis == X || axis == Y || axis == Z else Names(words, axis)
  }

  /** Where a program takes an axis, read directly off its lines. */
  function Meaning(absolute: bool, start: int, lines: seq<Line>, axis: Text): int {
    if lines == [] then start
    else
      var before := Meaning(absolute, start, Init(lines), axis);
      var line := Last(lines);
      match CodeOf(line)
      case HomeAxes => if Homes(line[1..], axis) then 0 else before
      case Travel => TravelTo(ModeAfter(absolute, Init(lines)), before, line[1..], axis)
      case _ => before
  }

  // ----- lowering keeps it ----------------------------------------------------------------------

  /** The commands so far take the axis where the lowerer tracks it, never out of range. */
  ghost predicate Faithful(start: int, done: Lowered, axis: Text) {
    && Replay(start, done.commands, axis) == Tracked(done.state.positions, axis)
    && InRange(start, done.commands, axis)
  }

  lemma HomeOnKeeps(start: int, done: Lowered, home: Text, axis: Text)
    requires Faithful(start, done, axis)
    ensures var next := HomeOn(done, home);
      && Faithful(start, next, axis)
      && Tracked(next.state.positions, axis) == if home == axis then 0 else Tracked(done.state.positions, axis)
  {
    hide Replay, InRange;
    var c := Home(home, done.state.feed);
    ReplayLast(start, done.commands, c, axis);
    InRangeGrows(start, done.commands, c, axis);
  }

  lemma MoveOnKeeps(start: int, done: Lowered, name: Text, value: real, axis: Text)
    requires Faithful(start, done, axis) && MoveOn(done, name, value).Ok?
    ensures var next := MoveOn(done, name, value).value;
      && Faithful(start, next, axis)
      && next.state.absolute == done.state.absolute
      && Tracked(next.state.positions, axis) ==
         if name != axis then Tracked(done.state.positions, axis)
         else if done.state.absolute then ToI64(value * 1000.0)
         else Tracked(done.state.positions, axis) + ToI64(value * 1000.0)
  {
    hide Replay, InRange, ToI64;
    var c := Last(MoveOn(done, name, value).value.commands);
    ReplayLast(start, done.commands, c, axis);
    InRangeGrows(start, done.commands, c, axis);
  }

  lemma QuietKeeps(start: int, done: Lowered, c: Command, axis: Text)
    requires Faithful(start, done, axis) && !c.Home? && !c.Move?
    ensures Faithful(start, done.(commands := done.commands + [c]), axis)
  {
    hide Replay, InRange;
    ReplayLast(start, done.commands, c, axis);
    InRangeGrows(start, done.commands, c, axis);
  }

  lemma {:induction false} HomeListedKeeps(start: int, done: Lowered, words: Line, axis: Text)
    requires Faithful(start, done, axis)
    ensures var next := HomeListed(done, words);
      && Faithful(start, next, axis)
      && Tracked(next.state.positions, axis) == (if Names(words, axis) then 0 else Tracked(done.state.positions, axis))
      && |next.commands| >= |done.commands|
      && (NamesNone(words) <==> |next.commands| == |done.commands|)
      && (NamesNone(words) ==> next == done)
      && next.state.absolute == done.state.absolute
    decreases |words|
  {
    hide Faithful, LinearAxis;
    if words != [] {
      var rest := Init(words);
      HomeListedKeeps(start, done, rest, axis);
      var found := LinearAxis(Last(words).letter);
      assert words == rest + [Last(words)];
      assert NamesNone(words) <==> NamesNone(rest) && found.None?;
      NamesLast(words, axis);
      if found.Some? {
        HomeOnKeeps(start, HomeListed(done, rest), found.value, axis);
      }
    }
  }

  lemma NamesLast(words: Line, axis: Text)
    requires words != []
    ensures Names(words, axis) <==> Names(Init(words), axis) || LinearAxis(Last(words).letter) == Some(axis)
  {
    hide LinearAxis;
    if Names(words, axis) {
      var k :| 0 <= k < |words| && LinearAxis(words[k].letter) == Some(axis);
      if k < |words| - 1 {
        assert LinearAxis(Init(words)[k].letter) == Some(axis);
      }
    }
    if Names(Init(words), axis) {
      var k :| 0 <= k < |Init(words)| && LinearAxis(Init(words)[k].letter) == Some(axis);
      assert LinearAxis(words[k].letter) == Some(axis);
    }
    if LinearAxis(Last(words).letter) == Some(axis) {
      assert LinearAxis(words[|words| - 1].letter) == Some(axis);
    }
  }

  lemma {:induction false} MoveListedKeeps(start: int, done: Lowered, words: Line, axis: Text)
    requires Faithful(start, done, axis) && MoveListed(done, words).Ok?
    ensures var next := MoveListed(done, words).value;
      && Faithful(start, next, axis)
      && next.state.absolute == done.state.absolute
      && Tracked(next.state.positions, axis)
         == TravelTo(done.state.absolute, Tracked(done.state.positions, axis), words, axis)
    decreases |words|
  {
    hide Faithful, MoveOn, ToI64;
    if words != [] {
      MoveListedKeeps(start, done, Init(words), axis);
      var before := MoveListed(done, Init(words)).value;
      var found := MoveAxisName(Last(words).letter);
      if found.Some? {
        MoveOnKeeps(start, before, found.value, Last(words).value, axis);
      }
    }
  }

  lemma HomeLineKeeps(cfg: LowererConfig, start: int, done: Lowered, line: Line, axis: Text)
    requires Faithful(start, done, axis) && CodeOf(line) == HomeAxes
    ensures var next := LowerLine(cfg, done, line).value;
      && Faithful(start, next, axis)
      && next.state.absolute == done.state.absolute
      && Tracked(next.state.positions, axis) == if Homes(line[1..], axis) then 0
          else Tracked(done.state.positions, axis)
  {
    hide Faithful, HomeOn, HomeListed, NamesNone, Names;
    HomeListedKeeps(start, done, line[1..], axis);
    if NamesNone(line[1..]) {
      HomeOnKeeps(start, done, X, axis);
      var x := HomeOn(done, X);
      HomeOnKeeps(start, x, Y, axis);
      var y := HomeOn(x, Y);
      HomeOnKeeps(start, y, Z, axis);
      HomeOnMode(done, X);
      HomeOnMode(x, Y);
      HomeOnMode(y, Z);
    }
  }

  lemma HomeOnMode(done: Lowered, axis: Text)
    ensures HomeOn(done, axis).state.absolute == done.state.absolute
  {
  }

  lemma LowerLineKeeps(cfg: LowererConfig, start: int, done: Lowered, line: Line, axis: Text)
    requires Faithful(start, done, axis) && LowerLine(cfg, done, line).Ok?
    ensures var next := LowerLine(cfg, done, line).value;
      var at := Tracked(done.state.positions, axis);
      && Faithful(start, next, axis)
      && next.state.absolute == (match CodeOf(line)
           case Absolute => true
           case Relative => false
           case _ => done.state.absolute)
      && Tracked(next.state.positions, axis) == (match CodeOf(line)
           case HomeAxes => if Homes(line[1..], axis) then 0 else at
           case Travel => TravelTo(done.state.absolute, at, line[1..], axis)
           case _ => at)
  {
    hide Replay, InRange, ToI64, HomeListed, MoveListed, FeedAfter, FirstS, Homes, TravelTo;
    match CodeOf(line)
    case Absolute =>
    case Relative =>
    case HomeAxes => HomeLineKeeps(cfg, start, done, line, axis);
    case Travel =>
      var fed := done.(state := done.state.(feed := FeedAfter(done.state.feed, line[1..])));
      MoveListedKeeps(start, fed, line[1..], axis);
    case HeatHotend =>
      if FirstS(line).Some? {
        QuietKeeps(start, done, SetHeaterTarget(cfg.hotend, ToI64(FirstS(line).value * 1000.0)), axis);
      }
    case HeatBed =>
      if FirstS(line).Some? {
        QuietKeeps(start, done, SetHeaterTarget(cfg.bed, ToI64(FirstS(line).value * 1000.0)), axis);
      }
    case Poll => QuietKeeps(start, done, Heartbeat, axis);
    case Ignored =>
  }

  /** The commands of a program move every axis exactly as the program says, the
      lowerer's own positions agree, and no prefix of the commands leaves `i64`. */
  lemma {:induction false} LoweringKeepsMeaning(cfg: LowererConfig, from: LowererState, lines: seq<Line>, axis: Text)
    requires LowerLines(cfg, from, lines).Ok?
    ensures var lowered := LowerLines(cfg, from, lines).value;
      var start := Tracked(from.positions, axis);
      && Replay(start, lowered.commands, axis) == Meaning(from.absolute, start, lines, axis)
      && Tracked(lowered.state.positions, axis) == Meaning(from.absolute, start, lines, axis)
      && InRange(start, lowered.commands, axis)
      && lowered.state.absolute == ModeAfter(from.absolute, lines)
    decreases |lines|
  {
    hide LowerLine, Homes, TravelTo;
    if lines != [] {
      LoweringKeepsMeaning(cfg, from, Init(lines), axis);
      LowerLineKeeps(cfg, Tracked(from.positions, axis), LowerLines(cfg, from, Init(lines)).value, Last(lines), axis);
    }
  }

  /** For a program lowered afresh the audit knows, after every command, exactly
      where that command leaves each axis, and ends where the lowerer ends. */
  lemma AuditFollowsLowering(cfg: LowererConfig, lines: seq<Line>, axis: Text)
    requires LowerLines(cfg, FreshLowerer(cfg), lines).Ok?
    ensures var lowered := LowerLines(cfg, FreshLowerer(cfg), lines).value;
      && AuditExact(lowered.commands, axis)
      && Audited(lowered.commands, axis) == Tracked(lowered.state.positions, axis)
      && Audited(lowered.commands, axis) == Meaning(true, 0, lines, axis)
  {
    hide Replay, Audited, InRange, LowerLines, Meaning;
    LoweringKeepsMeaning(cfg, FreshLowerer(cfg), lines, axis);
    var commands := LowerLines(cfg, FreshLowerer(cfg), lines).value.commands;
    AuditFollows(commands, axis);
    assert commands[..|commands|] == commands;
  }

  // ----- what the audit decides ------------------------------------------------------------------

  predicate RateFits(limits: AuditLimits, rate: u64) {
    limits.maxFeed > 0 ==> rate <= limits.maxFeed
  }

  /** What the audit asks of one command, with the exact position it leads to. */
  predicate CommandFits(limits: AuditLimits, commands: seq<Command>, i: nat)
    requires i < |commands|
  {
    match commands[i]
    case Heartbeat => true
    case SetHeaterTarget(heater, target) => heater in limits.ceilings && target <= limits.ceilings[heater]
    case Home(_, rate) => RateFits(limits, rate)
    case Move(axis, _, rate) =>
      && RateFits(limits, rate)
      && (axis in limits.axes ==>
            limits.axes[axis].low <= Replay(0, commands[..i + 1], axis) <= limits.axes[axis].high)
  }

  lemma LastFits(limits: AuditLimits, commands: seq<Command>)
    requires commands != []
    requires forall axis: Text :: axis in limits.axes ==> Audited(commands, axis) == Replay(0, commands, axis)
    ensures LastFindings(limits, commands) == [] <==> CommandFits(limits, commands, |commands| - 1)
  {
    hide Replay, Audited;
    assert commands[..|commands|] == commands;
  }

  lemma {:induction false} AuditDecidesUpTo(limits: AuditLimits, commands: seq<Command>, n: nat)
    requires n <= |commands| && forall axis: Text :: axis in limits.axes ==> AuditExact(commands, axis)
    ensures Findings(limits, commands[..n]) == [] <==> forall i :: 0 <= i < n ==> CommandFits(limits, commands, i)
  {
    hide Replay, Audited, LastFindings, CommandFits;
    if n > 0 {
      AuditDecidesUpTo(limits, commands, n - 1);
      InitOfPrefix(commands, n - 1);
      LastFits(limits, commands[..n]);
      FitsPrefix(limits, commands, n);
    }
  }

  lemma FitsPrefix(limits: AuditLimits, commands: seq<Command>, n: nat)
    requires 1 <= n <= |commands|
    ensures CommandFits(limits, commands[..n], n - 1) <==> CommandFits(limits, commands, n - 1)
  {
    hide Replay;
    assert commands[..n][..(n - 1) + 1] == commands[..(n - 1) + 1];
  }

  /** What is reported of a command: a rate above a limit above zero, a known axis whose
      audited position leaves its bounds, a target above a known heater's ceiling, and
      a heater that is not known. */
  predicate Reported(limits: AuditLimits, commands: seq<Command>, d: AuditDiagnostic) {
    && d.index < |commands|
    && match (d.code, commands[d.index])
       case (TooFast, Home(_, rate)) => 0 < limits.maxFeed < rate
       case (TooFast, Move(_, _, rate)) => 0 < limits.maxFeed < rate
       case (OutsideBounds, Move(axis, _, _)) =>
         && axis in limits.axes
         && !(limits.axes[axis].low <= Audited(commands[..d.index + 1], axis) <= limits.axes[axis].high)
       case (TooHot, SetHeaterTarget(heater, target)) =>
         heater in limits.ceilings && limits.ceilings[heater] < target
       case (UnknownHeater, SetHeaterTarget(heater, _)) => heater !in limits.ceilings
       case _ => false
  }

  predicate ReportedBefore(a: AuditDiagnostic, b: AuditDiagnostic) {
    a.index < b.index || (a.index == b.index && a.code == TooFast && b.code == OutsideBounds)
  }

  lemma ReportedLast(limits: AuditLimits, commands: seq<Command>, d: AuditDiagnostic)
    requires commands != []
    ensures Reported(limits, commands, d) <==>
            Reported(limits, Init(commands), d) || d in LastFindings(limits, commands)
    ensures d in LastFindings(limits, commands) ==> d.index == |commands| - 1
  {
    hide Audited;
    var n := |commands| - 1;
    assert commands[..n + 1] == commands;
    if d.index < n {
      assert Init(commands)[..d.index + 1] == commands[..d.index + 1];
    }
  }

  /** The audit reports exactly the defects of the commands, each once and in order. */
  lemma {:induction false} FindingsExactly(limits: AuditLimits, commands: seq<Command>)
    ensures forall d :: d in Findings(limits, commands) <==> Reported(limits, commands, d)
    ensures forall i, j :: 0 <= i < j < |Findings(limits, commands)| ==>
      ReportedBefore(Findings(limits, commands)[i], Findings(limits, commands)[j])
    decreases |commands|
  {
    hide Reported, LastFindings;
    if commands == [] {
      NothingReported(limits);
    } else {
      FindingsExactly(limits, Init(commands));
      LastInOrder(limits, commands);
      var before, last := Findings(limits, Init(commands)), LastFindings(limits, commands);
      forall d
        ensures d in before + last <==> Reported(limits, commands, d)
        ensures d in last ==> d.index == |commands| - 1
      {
        ReportedLast(limits, commands, d);
      }
      forall i, j | 0 <= i < |before| && 0 <= j < |last|
        ensures ReportedBefore(before[i], last[j])
      {
        assert before[i] in before && last[j] in last;
        ReportedInside(limits, Init(commands), before[i]);
      }
    }
  }

  lemma NothingReported(limits: AuditLimits)
    ensures forall d :: !Reported(limits, [], d)
  {
  }

  lemma ReportedInside(limits: AuditLimits, commands: seq<Command>, d: AuditDiagnostic)
    requires Reported(limits, commands, d)
    ensures d.index < |commands|
  {
  }

  lemma LastInOrder(limits: AuditLimits, commands: seq<Command>)
    requires commands != []
    ensures var last := LastFindings(limits, commands);
      forall i, j :: 0 <= i < j < |last| ==> ReportedBefore(last[i], last[j])
  {
    hide Audited;
  }

  /** A program whose exact positions fit the integer range passes the audit if and
      only if every command of it fits: rates, ceilings of known heaters, and the
      exact position each move leads to. */
  lemma AuditDecides(limits: AuditLimits, commands: seq<Command>)
    requires forall axis: Text :: axis in limits.axes ==> InRange(0, commands, axis)
    ensures Findings(limits, commands) == [] <==> forall i :: 0 <= i < |commands| ==> CommandFits(limits, commands, i)
  {
    hide CommandFits, Findings, InRange, AuditExact;
    forall axis: Text | axis in limits.axes
      ensures AuditExact(commands, axis)
    {
      AuditFollows(commands, axis);
    }
    AuditDecidesUpTo(limits, commands, |commands|);
    assert commands[..|commands|] == commands;
  }
}
