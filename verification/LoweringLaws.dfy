// The commands of a lowered program, each traced to the word it comes from: its
// heater and target, its rate and its distance are read off the lines.
module LoweringLaws {
  import opened Prelude
  import opened Protocol
  import opened Toolpath
  import opened ToolpathLaws

  // ----- lines in plain terms ------------------------------------------------------------------

  /** Cast to an unsigned integer, the number is this one; one below zero is cast to zero. */
  predicate Casts(x: real, number: nat) {
    x < (number + 1) as real && (number > 0 ==> number as real <= x)
  }

  predicate Instructs(line: Line, letter: char, number: nat) {
    line != [] && line[0].letter == letter && Casts(line[0].value, number)
  }

  predicate Travels(line: Line) {
    Instructs(line, 'G', 0) || Instructs(line, 'G', 1)
  }

  predicate HeatsHotend(line: Line) {
    Instructs(line, 'M', 104) || Instructs(line, 'M', 109)
  }

  predicate HeatsBed(line: Line) {
    Instructs(line, 'M', 140) || Instructs(line, 'M', 190)
  }

  /** The number cut off after its point, and kept in the range of `i64`. */
  predicate Truncates(x: real, n: i64) {
    if x >= I64_LIMIT as real then n == I64_LIMIT - 1
    else if x <= -I64_LIMIT as real then n == -I64_LIMIT
    else if x >= 0.0 then n as real <= x < (n + 1) as real
    else (n - 1) as real < x <= n as real
  }

  /** Micrometres a second for a feed in millimetres a minute, never below one. */
  predicate RateOf(feed: real, rate: u64) {
    var exact := feed * 1000.0 / 60.0;
    if exact <= 1.0 then rate == 1
    else if exact >= U64_LIMIT as real then rate == U64_LIMIT - 1
    else rate as real <= exact < (rate + 1) as real
  }

  predicate LinearLetter(letter: char, axis: Text) {
    (letter == 'X' && axis == X) || (letter == 'Y' && axis == Y) || (letter == 'Z' && axis == Z)
  }

  predicate AxisLetter(letter: char, axis: Text) {
    LinearLetter(letter, axis) || (letter == 'E' && axis == E)
  }

  predicate NoAxes(line: Line) {
    forall w :: 1 <= w < |line| ==> line[w].letter != 'X' && line[w].letter != 'Y' && line[w].letter != 'Z'
  }

  predicate FirstSetting(line: Line, value: real) {
    exists j :: 0 <= j < |line| && line[j] == Token('S', value) && forall i :: 0 <= i < j ==> line[i].letter != 'S'
  }

  /** A word of a line. The axes a bare homing line homes stand behind its words. */
  datatype Site = Site(line: nat, word: nat)

  predicate Before(a: Site, b: Site) {
    a.line < b.line || (a.line == b.line && a.word < b.word)
  }

  predicate FeedWord(lines: seq<Line>, at: Site) {
    && at.line < |lines| && Travels(lines[at.line])
    && 1 <= at.word < |lines[at.line]| && lines[at.line][at.word].letter == 'F'
  }

  /** The rate of the last feed word before this place, or the initial one. */
  ghost predicate InForce(initial: u64, lines: seq<Line>, place: Site, rate: u64) {
    || (rate == initial && forall at :: FeedWord(lines, at) ==> !Before(at, place))
    || exists at :: && FeedWord(lines, at) && Before(at, place) && RateOf(lines[at.line][at.word].value, rate)
                    && forall later :: FeedWord(lines, later) && Before(at, later) ==> !Before(later, place)
  }

  predicate SetsMode(line: Line) {
    Instructs(line, 'G', 90) || Instructs(line, 'G', 91)
  }

  /** The last mode line before this one makes coordinates absolute, or they were. */
  predicate AbsoluteAt(initial: bool, lines: seq<Line>, n: nat)
    requires n <= |lines|
  {
    || (initial && forall j :: 0 <= j < n ==> !SetsMode(lines[j]))
    || exists j :: 0 <= j < n && Instructs(lines[j], 'G', 90) && forall i :: j < i < n ==> !SetsMode(lines[i])
  }

  // ----- where commands come from ------------------------------------------------------------------

  predicate HomesAt(line: Line, word: nat) {
    && Instructs(line, 'G', 28)
    && if NoAxes(line) then |line| <= word < |line| + 3
       else 1 <= word < |line| && exists axis :: axis in {X, Y, Z} && LinearLetter(line[word].letter, axis)
  }

  predicate MovesAt(line: Line, word: nat) {
    Travels(line) && 1 <= word < |line| && exists axis :: axis in {X, Y, Z, E} && AxisLetter(line[word].letter, axis)
  }

  predicate HeatsAt(line: Line, word: nat) {
    word == 0 && (HeatsHotend(line) || HeatsBed(line)) && exists j :: 0 <= j < |line| && line[j].letter == 'S'
  }

  /** The places that lower to a command. */
  predicate Emits(lines: seq<Line>, at: Site) {
    && at.line < |lines|
    && var line := lines[at.line];
       || HomesAt(line, at.word) || MovesAt(line, at.word) || HeatsAt(line, at.word)
       || (at.word == 0 && Instructs(line, 'M', 105))
  }

  /** The axis homed at a place of a homing line. */
  predicate HomedAxis(line: Line, word: nat, axis: Text) {
    if NoAxes(line) then (word == |line| && axis == X) || (word == |line| + 1 && axis == Y)
                         || (word == |line| + 2 && axis == Z)
    else word < |line| && LinearLetter(line[word].letter, axis)
  }

  /** The command at an index is what its place in the program asks for. */
  ghost predicate Sourced(cfg: LowererConfig, from: LowererState, lines: seq<Line>, commands: seq<Command>, k: nat,
                          at: Site)
    requires k < |commands|
  {
    && Emits(lines, at)
    && var line := lines[at.line];
       match commands[k]
       case Home(axis, rate) =>
         && HomesAt(line, at.word) && HomedAxis(line, at.word, axis)
         && InForce(from.feed, lines, Site(at.line + 1, 0), rate)
       case Move(axis, distance, rate) =>
         && MovesAt(line, at.word) && AxisLetter(line[at.word].letter, axis)
         && InForce(from.feed, lines, Site(at.line + 1, 0), rate)
         && var moved := if AbsoluteAt(from.absolute, lines, at.line)
                         then distance + Replay(Tracked(from.positions, axis), commands[..k], axis) else distance;
            InI64(moved) && Truncates(line[at.word].value * 1000.0, moved)
       case SetHeaterTarget(heater, target) =>
         && ((HeatsHotend(line) && heater == cfg.hotend) || (HeatsBed(line) && heater == cfg.bed))
         && exists value :: FirstSetting(line, value) && Truncates(value * 1000.0, target)
       case Heartbeat => Instructs(line, 'M', 105)
  }

  /** The commands are those of the places before this one, each once and in order. */
  ghost predicate Traced(cfg: LowererConfig, from: LowererState, lines: seq<Line>, commands: seq<Command>,
                         sites: seq<Site>, place: Site) {
    && |sites| == |commands|
    && (forall k :: 0 <= k < |sites| ==> Sourced(cfg, from, lines, commands, k, sites[k]) && Before(sites[k], place))
    && (forall j, k :: 0 <= j < k < |sites| ==> Before(sites[j], sites[k]))
    && (forall at :: Emits(lines, at) && Before(at, place) ==> at in sites)
  }

  lemma SourcedStays(cfg: LowererConfig, from: LowererState, lines: seq<Line>, commands: seq<Command>, c: Command,
                     k: nat, at: Site)
    requires k < |commands| && Sourced(cfg, from, lines, commands, k, at)
    ensures Sourced(cfg, from, lines, commands + [c], k, at)
  {
    hide Emits, InForce, Replay, AbsoluteAt, MovesAt, HomesAt, Truncates, FirstSetting, HeatsHotend, HeatsBed,
      AxisLetter;
    assert (commands + [c])[..k] == commands[..k];
  }

  lemma TraceGrows(cfg: LowererConfig, from: LowererState, lines: seq<Line>, commands: seq<Command>, c: Command,
                   sites: seq<Site>, place: Site)
    requires Traced(cfg, from, lines, commands, sites, place)
    requires Sourced(cfg, from, lines, commands + [c], |commands|, place)
    ensures Traced(cfg, from, lines, commands + [c], sites + [place], place.(word := place.word + 1))
  {
    hide Sourced, Emits;
    forall k | 0 <= k < |sites|
      ensures Sourced(cfg, from, lines, commands + [c], k, (sites + [place])[k])
    {
      SourcedStays(cfg, from, lines, commands, c, k, sites[k]);
    }
  }

  lemma TraceSkips(cfg: LowererConfig, from: LowererState, lines: seq<Line>, commands: seq<Command>, sites: seq<Site>,
                   place: Site)
    requires Traced(cfg, from, lines, commands, sites, place) && !Emits(lines, place)
    ensures Traced(cfg, from, lines, commands, sites, place.(word := place.word + 1))
  {
    hide Sourced, Emits;
  }

  /** Nothing more is lowered from a line. */
  lemma TraceEnds(cfg: LowererConfig, from: LowererState, lines: seq<Line>, commands: seq<Command>, sites: seq<Site>,
                  place: Site)
    requires Traced(cfg, from, lines, commands, sites, place)
    requires forall at :: Emits(lines, at) && at.line == place.line ==> Before(at, place)
    ensures Traced(cfg, from, lines, commands, sites, Site(place.line + 1, 0))
  {
    hide Sourced, Emits;
  }

  // ----- words and numbers -----------------------------------------------------------------------

  lemma CodeMeaning(line: Line)
    ensures CodeOf(line) == Absolute <==> Instructs(line, 'G', 90)
    ensures CodeOf(line) == Relative <==> Instructs(line, 'G', 91)
    ensures CodeOf(line) == HomeAxes <==> Instructs(line, 'G', 28)
    ensures CodeOf(line) == Travel <==> Travels(line)
    ensures CodeOf(line) == HeatHotend <==> HeatsHotend(line)
    ensures CodeOf(line) == HeatBed <==> HeatsBed(line)
    ensures CodeOf(line) == Poll <==> Instructs(line, 'M', 105)
  {
    hide ToU64, Casts;
    if line != [] {
      forall n: nat | n < 1000
        ensures ToU64(line[0].value) == n <==> Casts(line[0].value, n)
      {
        NumberOf(line[0].value, n);
      }
    }
  }

  lemma NumberOf(x: real, n: nat)
    requires n < 1000
    ensures ToU64(x) == n <==> Casts(x, n)
  {
    assert n as real < (n + 1) as real;
  }

  lemma Truncation(x: real)
    ensures Truncates(x, ToI64(x))
  {
  }

  lemma FeedRate(feed: real)
    ensures var rate := feed * 1000.0 / 60.0;
      RateOf(feed, ToU64(if rate >= 1.0 then rate else 1.0))
  {
  }

  lemma {:induction false} FirstSettingMeaning(line: Line)
    ensures FirstS(line).None? <==> forall j :: 0 <= j < |line| ==> line[j].letter != 'S'
    ensures FirstS(line).Some? ==> FirstSetting(line, FirstS(line).value)
  {
    if line != [] && line[0].letter != 'S' {
      var rest := line[1..];
      FirstSettingMeaning(rest);
      assert forall j :: 1 <= j < |line| ==> line[j] == rest[j - 1];
      if FirstS(rest).Some? {
        var j :| 0 <= j < |rest| && rest[j] == Token('S', FirstS(rest).value)
                 && forall i :: 0 <= i < j ==> rest[i].letter != 'S';
        assert line[j + 1] == rest[j];
      }
    } else if line != [] {
      assert line[0] == Token('S', line[0].value);
    }
  }

  // ----- the feed and the mode ---------------------------------------------------------------

  lemma NoFeedWord(initial: u64, lines: seq<Line>, place: Site, rate: u64)
    requires InForce(initial, lines, place, rate) && !FeedWord(lines, place)
    ensures InForce(initial, lines, place.(word := place.word + 1), rate)
  {
    hide FeedWord;
    var next := place.(word := place.word + 1);
    assert forall at :: FeedWord(lines, at) ==> (Before(at, next) <==> Before(at, place));
  }

  lemma FeedWordTaken(initial: u64, lines: seq<Line>, place: Site, rate: u64)
    requires FeedWord(lines, place) && RateOf(lines[place.line][place.word].value, rate)
    ensures InForce(initial, lines, place.(word := place.word + 1), rate)
  {
    var next := place.(word := place.word + 1);
    assert Before(place, next);
    assert forall later :: FeedWord(lines, later) && Before(place, later) ==> !Before(later, next);
  }

  lemma FeedEnds(initial: u64, lines: seq<Line>, place: Site, rate: u64)
    requires InForce(initial, lines, place, rate)
    requires forall at :: FeedWord(lines, at) && at.line == place.line ==> Before(at, place)
    ensures InForce(initial, lines, Site(place.line + 1, 0), rate)
  {
    hide FeedWord, RateOf;
    var next := Site(place.line + 1, 0);
    assert forall at :: FeedWord(lines, at) ==> (Before(at, next) <==> Before(at, place));
  }

  lemma {:induction false} FeedOfWords(initial: u64, lines: seq<Line>, n: nat, feed: u64, i: nat)
    requires n < |lines| && Travels(lines[n]) && i < |lines[n]| && InForce(initial, lines, Site(n, 0), feed)
    ensures InForce(initial, lines, Site(n, i + 1), FeedAfter(feed, lines[n][1..][..i]))
  {
    hide InForce, RateOf, Travels;
    var words := lines[n][1..];
    if i == 0 {
      NoFeedWord(initial, lines, Site(n, 0), feed);
    } else {
      FeedOfWords(initial, lines, n, feed, i - 1);
      InitOfPrefix(words, i - 1);
      assert words[i - 1] == lines[n][i];
      if words[i - 1].letter == 'F' {
        FeedRate(words[i - 1].value);
        FeedWordTaken(initial, lines, Site(n, i), FeedAfter(feed, words[..i]));
      } else {
        NoFeedWord(initial, lines, Site(n, i), FeedAfter(feed, words[..i - 1]));
      }
    }
  }

  lemma FeedOfTravel(initial: u64, lines: seq<Line>, n: nat, feed: u64)
    requires n < |lines| && Travels(lines[n]) && InForce(initial, lines, Site(n, 0), feed)
    ensures InForce(initial, lines, Site(n + 1, 0), FeedAfter(feed, lines[n][1..]))
  {
    hide InForce, FeedAfter;
    var words := lines[n][1..];
    FeedOfWords(initial, lines, n, feed, |words|);
    assert words[..|words|] == words;
    FeedEnds(initial, lines, Site(n, |lines[n]|), FeedAfter(feed, words));
  }

  lemma FeedElsewhere(initial: u64, lines: seq<Line>, n: nat, feed: u64)
    requires n < |lines| && !Travels(lines[n]) && InForce(initial, lines, Site(n, 0), feed)
    ensures InForce(initial, lines, Site(n + 1, 0), feed)
  {
    hide InForce, Travels;
    FeedEnds(initial, lines, Site(n, 0), feed);
  }

  lemma ModeStep(initial: bool, lines: seq<Line>, n: nat)
    requires n < |lines|
    ensures AbsoluteAt(initial, lines, n + 1) <==>
            Instructs(lines[n], 'G', 90) || (!Instructs(lines[n], 'G', 91) && AbsoluteAt(initial, lines, n))
  {
    hide Instructs;
    if AbsoluteAt(initial, lines, n) && !SetsMode(lines[n]) && !initial {
      var j :| 0 <= j < n && Instructs(lines[j], 'G', 90) && forall i :: j < i < n ==> !SetsMode(lines[i]);
      assert forall i :: j < i < n + 1 ==> !SetsMode(lines[i]);
    }
    if Instructs(lines[n], 'G', 90) {
      assert AbsoluteAt(initial, lines, n + 1);
    }
    ModeExcludes(lines[n]);
  }

  lemma ModeExcludes(line: Line)
    ensures !(Instructs(line, 'G', 90) && Instructs(line, 'G', 91))
  {
  }

  // ----- one line ------------------------------------------------------------------------------------

  /** A line emits what its code asks for and nothing else. */
  lemma LineEmits(lines: seq<Line>, n: nat, word: nat)
    requires n < |lines|
    ensures var line := lines[n];
      Emits(lines, Site(n, word)) <==>
      match CodeOf(line)
      case HomeAxes => HomesAt(line, word)
      case Travel => MovesAt(line, word)
      case HeatHotend => word == 0 && FirstS(line).Some?
      case HeatBed => word == 0 && FirstS(line).Some?
      case Poll => word == 0
      case _ => false
  {
    hide CodeOf, Instructs, FirstS;
    CodeMeaning(lines[n]);
    FirstSettingMeaning(lines[n]);
  }

  lemma HomeStep(cfg: LowererConfig, from: LowererState, lines: seq<Line>, n: nat, done: Lowered, sites: seq<Site>,
                 word: nat, axis: Text)
    requires n < |lines| && Instructs(lines[n], 'G', 28) && HomesAt(lines[n], word) && HomedAxis(lines[n], word, axis)
    requires InForce(from.feed, lines, Site(n + 1, 0), done.state.feed)
    requires Traced(cfg, from, lines, done.commands, sites, Site(n, word))
    ensures Traced(cfg, from, lines, HomeOn(done, axis).commands, sites + [Site(n, word)], Site(n, word + 1))
  {
    hide InForce, Traced, HomesAt, HomedAxis;
    TraceGrows(cfg, from, lines, done.commands, Home(axis, done.state.feed), sites, Site(n, word));
  }

  lemma {:induction false} HomeWords(cfg: LowererConfig, from: LowererState, lines: seq<Line>, n: nat, done: Lowered,
                                     sites: seq<Site>, i: nat)
    returns (next: seq<Site>)
    requires n < |lines| && Instructs(lines[n], 'G', 28) && i < |lines[n]|
    requires InForce(from.feed, lines, Site(n + 1, 0), done.state.feed)
    requires Traced(cfg, from, lines, done.commands, sites, Site(n, 0))
    ensures var homed := HomeListed(done, lines[n][1..][..i]);
      homed.state.feed == done.state.feed && Traced(cfg, from, lines, homed.commands, next, Site(n, i + 1))
  {
    hide InForce, Traced, Instructs, CodeOf, LinearAxis;
    var line := lines[n];
    var words := line[1..];
    CodeMeaning(line);
    LineEmits(lines, n, i);
    if i == 0 {
      TraceSkips(cfg, from, lines, done.commands, sites, Site(n, 0));
      next := sites;
    } else {
      next := HomeWords(cfg, from, lines, n, done, sites, i - 1);
      InitOfPrefix(words, i - 1);
      assert words[i - 1] == line[i];
      var before := HomeListed(done, words[..i - 1]);
      var found := LinearAxis(line[i].letter);
      WordHomes(line, i);
      if found.Some? {
        HomeStep(cfg, from, lines, n, before, next, i, found.value);
        next := next + [Site(n, i)];
      } else {
        TraceSkips(cfg, from, lines, before.commands, next, Site(n, i));
      }
    }
  }

  lemma WordHomes(line: Line, word: nat)
    requires Instructs(line, 'G', 28) && 1 <= word < |line|
    ensures HomesAt(line, word) <==> LinearAxis(line[word].letter).Some?
    ensures LinearAxis(line[word].letter).Some? ==> HomedAxis(line, word, LinearAxis(line[word].letter).value)
  {
    hide Instructs;
    var found := LinearAxis(line[word].letter);
    assert found.Some? ==> LinearLetter(line[word].letter, found.value);
  }

  lemma NoAxesNamed(line: Line)
    requires line != []
    ensures NamesNone(line[1..]) <==> NoAxes(line)
  {
    assert forall w :: 1 <= w < |line| ==> line[w] == line[1..][w - 1];
  }

  lemma HomeEveryTraced(cfg: LowererConfig, from: LowererState, lines: seq<Line>, n: nat, done: Lowered,
                        sites: seq<Site>)
    returns (next: seq<Site>)
    requires n < |lines| && Instructs(lines[n], 'G', 28) && NoAxes(lines[n])
    requires InForce(from.feed, lines, Site(n + 1, 0), done.state.feed)
    requires Traced(cfg, from, lines, done.commands, sites, Site(n, |lines[n]|))
    ensures Traced(cfg, from, lines, HomeEvery(done).commands, next, Site(n, |lines[n]| + 3))
  {
    hide InForce, Traced, Instructs, NoAxes;
    var w := |lines[n]|;
    HomeStep(cfg, from, lines, n, done, sites, w, X);
    var x := HomeOn(done, X);
    HomeStep(cfg, from, lines, n, x, sites + [Site(n, w)], w + 1, Y);
    HomeStep(cfg, from, lines, n, HomeOn(x, Y), sites + [Site(n, w)] + [Site(n, w + 1)], w + 2, Z);
    next := sites + [Site(n, w)] + [Site(n, w + 1)] + [Site(n, w + 2)];
  }

  lemma HomeLineIs(cfg: LowererConfig, done: Lowered, line: Line)
    requires CodeOf(line) == HomeAxes
    ensures line != [] && LowerLine(cfg, done, line).Ok?
    ensures LowerLine(cfg, done, line).value ==
            if NoAxes(line) then HomeEvery(done) else HomeListed(done, line[1..])
  {
    hide HomeListed, HomeEvery, NamesNone, NoAxes;
    assert line != [];
    NoAxesNamed(line);
    HomeListedLength(done, line[1..]);
  }

  lemma HomeTraced(cfg: LowererConfig, from: LowererState, lines: seq<Line>, n: nat, done: Lowered, sites: seq<Site>)
    returns (next: seq<Site>)
    requires n < |lines| && CodeOf(lines[n]) == HomeAxes
    requires InForce(from.feed, lines, Site(n + 1, 0), done.state.feed)
    requires Traced(cfg, from, lines, done.commands, sites, Site(n, 0))
    ensures Traced(cfg, from, lines, LowerLine(cfg, done, lines[n]).value.commands, next, Site(n + 1, 0))
  {
    hide InForce, Traced, Instructs, CodeOf, HomeListed, HomeEvery, NoAxes, NamesNone, HomesAt, Emits, LowerLine;
    var line := lines[n];
    CodeMeaning(line);
    HomeLineIs(cfg, done, line);
    next := HomeWords(cfg, from, lines, n, done, sites, |line| - 1);
    assert line[1..][..|line| - 1] == line[1..];
    var last := |line|;
    if NoAxes(line) {
      NoAxesNamed(line);
      HomeListedLength(done, line[1..]);
      next := HomeEveryTraced(cfg, from, lines, n, done, next);
      last := |line| + 3;
    }
    forall at | Emits(lines, at) && at.line == n
      ensures at.word < last
    {
      LineEmits(lines, n, at.word);
      HomesEnd(line, at.word);
    }
    TraceEnds(cfg, from, lines, LowerLine(cfg, done, line).value.commands, next, Site(n, last));
  }

  lemma HomesEnd(line: Line, word: nat)
    requires HomesAt(line, word)
    ensures word < if NoAxes(line) then |line| + 3 else |line|
  {
    hide Instructs, NoAxes;
  }

  lemma {:induction false} HomeListedLength(done: Lowered, words: Line)
    ensures var next := HomeListed(done, words);
      && |next.commands| >= |done.commands|
      && (NamesNone(words) <==> |next.commands| == |done.commands|)
      && (NamesNone(words) ==> next == done)
    decreases |words|
  {
    hide LinearAxis;
    if words != [] {
      HomeListedLength(done, Init(words));
      assert words == Init(words) + [Last(words)];
    }
  }

  /** Every axis stands where the commands so far take it. */
  ghost predicate AllFaithful(from: LowererState, done: Lowered) {
    forall axis: Text :: Faithful(Tracked(from.positions, axis), done, axis)
  }

  lemma MoveStep(cfg: LowererConfig, from: LowererState, lines: seq<Line>, n: nat, done: Lowered, sites: seq<Site>,
                 word: nat, axis: Text)
    requires n < |lines| && Travels(lines[n]) && 1 <= word < |lines[n]| && AxisLetter(lines[n][word].letter, axis)
    requires MoveOn(done, axis, lines[n][word].value).Ok?
    requires InForce(from.feed, lines, Site(n + 1, 0), done.state.feed)
    requires done.state.absolute == AbsoluteAt(from.absolute, lines, n)
    requires Faithful(Tracked(from.positions, axis), done, axis)
    requires Traced(cfg, from, lines, done.commands, sites, Site(n, word))
    ensures Traced(cfg, from, lines, MoveOn(done, axis, lines[n][word].value).value.commands, sites + [Site(n, word)],
                   Site(n, word + 1))
  {
    hide InForce, Traced, Travels, AbsoluteAt, ToI64, Truncates, InRange, Replay;
    var target := ToI64(lines[n][word].value * 1000.0);
    Truncation(lines[n][word].value * 1000.0);
    var c := Last(MoveOn(done, axis, lines[n][word].value).value.commands);
    assert (done.commands + [c])[..|done.commands|] == done.commands;
    assert axis in {X, Y, Z, E};
    assert Emits(lines, Site(n, word));
    TraceGrows(cfg, from, lines, done.commands, c, sites, Site(n, word));
  }

  lemma {:induction false} MoveWords(cfg: LowererConfig, from: LowererState, lines: seq<Line>, n: nat, done: Lowered,
                                     sites: seq<Site>, i: nat)
    returns (next: seq<Site>)
    requires n < |lines| && Travels(lines[n]) && i < |lines[n]| && MoveListed(done, lines[n][1..][..i]).Ok?
    requires InForce(from.feed, lines, Site(n + 1, 0), done.state.feed)
    requires done.state.absolute == AbsoluteAt(from.absolute, lines, n) && AllFaithful(from, done)
    requires Traced(cfg, from, lines, done.commands, sites, Site(n, 0))
    ensures var moved := MoveListed(done, lines[n][1..][..i]).value;
      && moved.state.feed == done.state.feed && moved.state.absolute == done.state.absolute
      && AllFaithful(from, moved)
      && Traced(cfg, from, lines, moved.commands, next, Site(n, i + 1))
  {
    hide InForce, Traced, Instructs, CodeOf, MoveAxisName, AbsoluteAt, MoveOn, Faithful;
    var line := lines[n];
    var words := line[1..];
    CodeMeaning(line);
    LineEmits(lines, n, i);
    if i == 0 {
      TraceSkips(cfg, from, lines, done.commands, sites, Site(n, 0));
      next := sites;
    } else {
      InitOfPrefix(words, i - 1);
      assert words[i - 1] == line[i];
      next := MoveWords(cfg, from, lines, n, done, sites, i - 1);
      var before := MoveListed(done, words[..i - 1]).value;
      var found := MoveAxisName(line[i].letter);
      WordMoves(line, i);
      if found.Some? {
        MoveStep(cfg, from, lines, n, before, next, i, found.value);
        MoveOnAll(from, before, found.value, line[i].value);
        next := next + [Site(n, i)];
      } else {
        TraceSkips(cfg, from, lines, before.commands, next, Site(n, i));
      }
    }
  }

  lemma MoveOnAll(from: LowererState, done: Lowered, axis: Text, value: real)
    requires AllFaithful(from, done) && MoveOn(done, axis, value).Ok?
    ensures var moved := MoveOn(done, axis, value).value;
      && AllFaithful(from, moved)
      && moved.state.feed == done.state.feed && moved.state.absolute == done.state.absolute
  {
    hide Faithful, ToI64;
    forall other: Text
      ensures Faithful(Tracked(from.positions, other), MoveOn(done, axis, value).value, other)
    {
      MoveOnKeeps(Tracked(from.positions, other), done, axis, value, other);
    }
  }

  lemma WordMoves(line: Line, word: nat)
    requires Travels(line) && 1 <= word < |line|
    ensures MovesAt(line, word) <==> MoveAxisName(line[word].letter).Some?
    ensures MoveAxisName(line[word].letter).Some? ==>
              AxisLetter(line[word].letter, MoveAxisName(line[word].letter).value)
  {
    hide Travels;
    var found := MoveAxisName(line[word].letter);
    assert found.Some? ==> AxisLetter(line[word].letter, found.value);
  }

  lemma MoveTraced(cfg: LowererConfig, from: LowererState, lines: seq<Line>, n: nat, done: Lowered, sites: seq<Site>)
    returns (next: seq<Site>)
    requires n < |lines| && CodeOf(lines[n]) == Travel && LowerLine(cfg, done, lines[n]).Ok?
    requires InForce(from.feed, lines, Site(n, 0), done.state.feed)
    requires done.state.absolute == AbsoluteAt(from.absolute, lines, n) && AllFaithful(from, done)
    requires Traced(cfg, from, lines, done.commands, sites, Site(n, 0))
    ensures var lowered := LowerLine(cfg, done, lines[n]).value;
      && Traced(cfg, from, lines, lowered.commands, next, Site(n + 1, 0))
      && InForce(from.feed, lines, Site(n + 1, 0), lowered.state.feed)
      && lowered.state.absolute == done.state.absolute
      && AllFaithful(from, lowered)
  {
    var line := lines[n];
    assert line != [];
    hide InForce, Traced, Instructs, CodeOf, MoveListed, FeedAfter, Faithful, AbsoluteAt, Emits;
    CodeMeaning(line);
    FeedOfTravel(from.feed, lines, n, done.state.feed);
    var fed := done.(state := done.state.(feed := FeedAfter(done.state.feed, line[1..])));
    FedFaithful(from, done, fed);
    assert line[1..][..|line| - 1] == line[1..];
    next := MoveWords(cfg, from, lines, n, fed, sites, |line| - 1);
    forall at | Emits(lines, at) && at.line == n
      ensures at.word < |line|
    {
      LineEmits(lines, n, at.word);
    }
    TraceEnds(cfg, from, lines, LowerLine(cfg, done, line).value.commands, next, Site(n, |line|));
  }

  lemma FedFaithful(from: LowererState, done: Lowered, fed: Lowered)
    requires AllFaithful(from, done) && fed.commands == done.commands && fed.state.positions == done.state.positions
    ensures AllFaithful(from, fed)
  {
    hide InRange;
    forall axis: Text
      ensures Faithful(Tracked(from.positions, axis), fed, axis)
    {
      assert Faithful(Tracked(from.positions, axis), done, axis);
    }
  }

  /** Heating and polling lines lower to at most one command, at their first word. */
  lemma OtherTraced(cfg: LowererConfig, from: LowererState, lines: seq<Line>, n: nat, done: Lowered, sites: seq<Site>)
    returns (next: seq<Site>)
    requires n < |lines| && CodeOf(lines[n]) != Travel && CodeOf(lines[n]) != HomeAxes
    requires Traced(cfg, from, lines, done.commands, sites, Site(n, 0))
    ensures Traced(cfg, from, lines, LowerLine(cfg, done, lines[n]).value.commands, next, Site(n + 1, 0))
    ensures LowerLine(cfg, done, lines[n]).value.state.feed == done.state.feed
  {
    hide Traced, Instructs, CodeOf, FirstS, FirstSetting, ToI64, Truncates, InForce, Replay, AbsoluteAt;
    var line := lines[n];
    CodeMeaning(line);
    FirstSettingMeaning(line);
    forall at | Emits(lines, at) && at.line == n
      ensures at.word == 0
    {
      LineEmits(lines, n, at.word);
    }
    LineEmits(lines, n, 0);
    var commands := LowerLine(cfg, done, line).value.commands;
    if Emits(lines, Site(n, 0)) {
      if FirstS(line).Some? {
        Truncation(FirstS(line).value * 1000.0);
      }
      TraceGrows(cfg, from, lines, done.commands, Last(commands), sites, Site(n, 0));
      next := sites + [Site(n, 0)];
    } else {
      TraceSkips(cfg, from, lines, done.commands, sites, Site(n, 0));
      next := sites;
    }
    TraceEnds(cfg, from, lines, commands, next, Site(n, 1));
  }

  // ----- whole programs ------------------------------------------------------------------------------

  lemma {:induction false} LinesTraced(cfg: LowererConfig, from: LowererState, lines: seq<Line>, n: nat)
    returns (sites: seq<Site>)
    requires n <= |lines| && LowerLines(cfg, from, lines[..n]).Ok?
    ensures var lowered := LowerLines(cfg, from, lines[..n]).value;
      && Traced(cfg, from, lines, lowered.commands, sites, Site(n, 0))
      && InForce(from.feed, lines, Site(n, 0), lowered.state.feed)
      && lowered.state.absolute == AbsoluteAt(from.absolute, lines, n)
      && AllFaithful(from, lowered)
  {
    hide LowerLine, CodeOf, Instructs, AbsoluteAt, InForce, Traced, Faithful;
    if n == 0 {
      NothingTraced(cfg, from, lines);
      sites := [];
    } else {
      InitOfPrefix(lines, n - 1);
      sites := LinesTraced(cfg, from, lines, n - 1);
      var done := LowerLines(cfg, from, lines[..n - 1]).value;
      sites := LineTraced(cfg, from, lines, n - 1, done, sites);
      ProgramFaithful(cfg, from, lines[..n]);
    }
  }

  lemma NothingTraced(cfg: LowererConfig, from: LowererState, lines: seq<Line>)
    ensures Traced(cfg, from, lines, [], [], Site(0, 0)) && InForce(from.feed, lines, Site(0, 0), from.feed)
    ensures AbsoluteAt(from.absolute, lines, 0) == from.absolute && AllFaithful(from, Lowered(from, []))
  {
    hide Emits, FeedWord;
  }

  lemma ProgramFaithful(cfg: LowererConfig, from: LowererState, lines: seq<Line>)
    requires LowerLines(cfg, from, lines).Ok?
    ensures AllFaithful(from, LowerLines(cfg, from, lines).value)
  {
    hide LowerLines, Replay, InRange, Meaning;
    forall axis: Text
      ensures Faithful(Tracked(from.positions, axis), LowerLines(cfg, from, lines).value, axis)
    {
      LoweringKeepsMeaning(cfg, from, lines, axis);
    }
  }

  lemma LineTraced(cfg: LowererConfig, from: LowererState, lines: seq<Line>, n: nat, done: Lowered, sites: seq<Site>)
    returns (next: seq<Site>)
    requires n < |lines| && LowerLine(cfg, done, lines[n]).Ok?
    requires InForce(from.feed, lines, Site(n, 0), done.state.feed)
    requires done.state.absolute == AbsoluteAt(from.absolute, lines, n) && AllFaithful(from, done)
    requires Traced(cfg, from, lines, done.commands, sites, Site(n, 0))
    ensures var lowered := LowerLine(cfg, done, lines[n]).value;
      && Traced(cfg, from, lines, lowered.commands, next, Site(n + 1, 0))
      && InForce(from.feed, lines, Site(n + 1, 0), lowered.state.feed)
      && lowered.state.absolute == AbsoluteAt(from.absolute, lines, n + 1)
  {
    var line := lines[n];
    assert CodeOf(line) == HomeAxes ==> line != [];
    hide CodeOf, Instructs, AbsoluteAt, InForce, Traced, Faithful, HomeListed, HomeEvery, MoveListed, FeedAfter,
      FirstS, ToI64;
    CodeMeaning(line);
    ModeStep(from.absolute, lines, n);
    if CodeOf(line) == Travel {
      next := MoveTraced(cfg, from, lines, n, done, sites);
    } else {
      FeedElsewhere(from.feed, lines, n, done.state.feed);
      if CodeOf(line) == HomeAxes {
        next := HomeTraced(cfg, from, lines, n, done, sites);
        HomeLineKeepsState(done, line);
      } else {
        next := OtherTraced(cfg, from, lines, n, done, sites);
      }
    }
  }

  lemma HomeLineKeepsState(done: Lowered, line: Line)
    requires line != []
    ensures HomeEvery(done).state.feed == done.state.feed && HomeEvery(done).state.absolute == done.state.absolute
    ensures var homed := HomeListed(done, line[1..]).state;
      homed.feed == done.state.feed && homed.absolute == done.state.absolute
  {
    HomeListedKeepsState(done, line[1..]);
  }

  lemma {:induction false} HomeListedKeepsState(done: Lowered, words: Line)
    ensures var homed := HomeListed(done, words).state;
      homed.feed == done.state.feed && homed.absolute == done.state.absolute
    decreases |words|
  {
    hide LinearAxis;
    if words != [] {
      HomeListedKeepsState(done, Init(words));
    }
  }

  /** The commands are those of the program's places, each once and in order. */
  ghost predicate Accounted(cfg: LowererConfig, from: LowererState, lines: seq<Line>, commands: seq<Command>,
                            sites: seq<Site>) {
    && |sites| == |commands|
    && (forall k :: 0 <= k < |sites| ==> Sourced(cfg, from, lines, commands, k, sites[k]))
    && (forall j, k :: 0 <= j < k < |sites| ==> Before(sites[j], sites[k]))
    && (forall at :: Emits(lines, at) ==> at in sites)
  }

  /** Every command of a lowered program comes from one place of it, in order, and
      every place that asks for a command has one: with the axis or heater the place
      names, the distance to the number it gives, and the rate of the last feed word
      in force there. */
  lemma LoweredExactly(cfg: LowererConfig, from: LowererState, lines: seq<Line>)
    requires LowerLines(cfg, from, lines).Ok?
    ensures exists sites :: Accounted(cfg, from, lines, LowerLines(cfg, from, lines).value.commands, sites)
  {
    hide LowerLines, Sourced, InForce, Faithful;
    assert lines[..|lines|] == lines;
    var sites := LinesTraced(cfg, from, lines, |lines|);
    assert Accounted(cfg, from, lines, LowerLines(cfg, from, lines).value.commands, sites);
  }

  // ----- heaters -------------------------------------------------------------------------------------

  /** The line sets this heater. */
  predicate AimsAt(cfg: LowererConfig, line: Line, heater: Text) {
    && ((HeatsHotend(line) && heater == cfg.hotend) || (HeatsBed(line) && heater == cfg.bed))
    && exists j :: 0 <= j < |line| && line[j].letter == 'S'
  }

  /** The last line that sets the heater sets it to this target. */
  ghost predicate LastAimed(cfg: LowererConfig, lines: seq<Line>, heater: Text, target: i64) {
    exists n ::
      && 0 <= n < |lines| && AimsAt(cfg, lines[n], heater)
      && (forall later :: n < later < |lines| ==> !AimsAt(cfg, lines[later], heater))
      && exists value :: FirstSetting(lines[n], value) && Truncates(value * 1000.0, target)
  }

  predicate Aims(c: Command, heater: Text) {
    c.SetHeaterTarget? && c.heater == heater
  }

  /** The last command for the heater has this target. */
  predicate LastTarget(commands: seq<Command>, heater: Text, target: i64) {
    exists k :: 0 <= k < |commands| && commands[k] == SetHeaterTarget(heater, target)
                && forall later :: k < later < |commands| ==> !Aims(commands[later], heater)
  }

  /** A heating line has one place, at its first word, and aims one heater. */
  lemma AimingPlace(cfg: LowererConfig, from: LowererState, lines: seq<Line>, commands: seq<Command>, k: nat, at: Site,
                    heater: Text)
    requires k < |commands| && Sourced(cfg, from, lines, commands, k, at)
    ensures Aims(commands[k], heater) ==> at.word == 0 && AimsAt(cfg, lines[at.line], heater)
    ensures at.word == 0 && AimsAt(cfg, lines[at.line], heater) ==> Aims(commands[k], heater)
    ensures Aims(commands[k], heater) ==>
              exists value :: FirstSetting(lines[at.line], value) && Truncates(value * 1000.0, commands[k].targetMilliC)
  {
  }

  lemma AimedPlace(cfg: LowererConfig, lines: seq<Line>, n: nat, heater: Text)
    requires n < |lines| && AimsAt(cfg, lines[n], heater)
    ensures Emits(lines, Site(n, 0))
  {
  }

  lemma LastTargetAimed(cfg: LowererConfig, from: LowererState, lines: seq<Line>, commands: seq<Command>,
                        sites: seq<Site>, heater: Text, target: i64)
    requires Accounted(cfg, from, lines, commands, sites) && LastTarget(commands, heater, target)
    ensures LastAimed(cfg, lines, heater, target)
  {
    hide Sourced, Emits, AimsAt, FirstSetting, Truncates;
    var k :| 0 <= k < |commands| && commands[k] == SetHeaterTarget(heater, target)
             && forall later :: k < later < |commands| ==> !Aims(commands[later], heater);
    AimingPlace(cfg, from, lines, commands, k, sites[k], heater);
    InProgram(cfg, from, lines, commands, k, sites[k]);
    forall later | sites[k].line < later < |lines|
      ensures !AimsAt(cfg, lines[later], heater)
    {
      if AimsAt(cfg, lines[later], heater) {
        AimedPlace(cfg, lines, later, heater);
        var j :| 0 <= j < |sites| && sites[j] == Site(later, 0);
        AimingPlace(cfg, from, lines, commands, j, sites[j], heater);
      }
    }
  }

  lemma InProgram(cfg: LowererConfig, from: LowererState, lines: seq<Line>, commands: seq<Command>, k: nat, at: Site)
    requires k < |commands| && Sourced(cfg, from, lines, commands, k, at)
    ensures at.line < |lines|
  {
    hide HomesAt, MovesAt, HeatsAt, Instructs;
  }

  lemma SettingUnique(line: Line, a: real, b: real, s: i64, t: i64)
    requires FirstSetting(line, a) && FirstSetting(line, b) && Truncates(a * 1000.0, s) && Truncates(b * 1000.0, t)
    ensures s == t
  {
    assert a == b;
  }

  lemma AimedLastTarget(cfg: LowererConfig, from: LowererState, lines: seq<Line>, commands: seq<Command>,
                        sites: seq<Site>, heater: Text, target: i64)
    requires Accounted(cfg, from, lines, commands, sites) && LastAimed(cfg, lines, heater, target)
    ensures LastTarget(commands, heater, target)
  {
    hide Sourced, Emits, AimsAt, FirstSetting, Truncates;
    var n :| 0 <= n < |lines| && AimsAt(cfg, lines[n], heater)
             && (forall later :: n < later < |lines| ==> !AimsAt(cfg, lines[later], heater))
             && exists value :: FirstSetting(lines[n], value) && Truncates(value * 1000.0, target);
    var value :| FirstSetting(lines[n], value) && Truncates(value * 1000.0, target);
    AimedPlace(cfg, lines, n, heater);
    var k :| 0 <= k < |sites| && sites[k] == Site(n, 0);
    AimingPlace(cfg, from, lines, commands, k, sites[k], heater);
    var other :| FirstSetting(lines[n], other) && Truncates(other * 1000.0, commands[k].targetMilliC);
    SettingUnique(lines[n], value, other, target, commands[k].targetMilliC);
    forall later | k < later < |commands|
      ensures !Aims(commands[later], heater)
    {
      AimingPlace(cfg, from, lines, commands, later, sites[later], heater);
      InProgram(cfg, from, lines, commands, later, sites[later]);
      assert Before(sites[k], sites[later]);
    }
  }

  /** The last target a lowered program gives a heater is the truncated thousandfold
      setting of the last line addressed to it, hotend lines to the hotend and bed
      lines to the bed; a heater no line addresses is given none. */
  lemma HeatingKeepsMeaning(cfg: LowererConfig, from: LowererState, lines: seq<Line>, heater: Text)
    requires LowerLines(cfg, from, lines).Ok?
    ensures var commands := LowerLines(cfg, from, lines).value.commands;
      && (forall target :: LastTarget(commands, heater, target) <==> LastAimed(cfg, lines, heater, target))
      && ((exists k :: 0 <= k < |commands| && Aims(commands[k], heater)) <==>
            exists n :: 0 <= n < |lines| && AimsAt(cfg, lines[n], heater))
  {
    hide LowerLines, Sourced, AimsAt, LastTarget, LastAimed, Emits;
    var commands := LowerLines(cfg, from, lines).value.commands;
    LoweredExactly(cfg, from, lines);
    var sites :| Accounted(cfg, from, lines, commands, sites);
    forall target
      ensures LastTarget(commands, heater, target) <==> LastAimed(cfg, lines, heater, target)
    {
      if LastTarget(commands, heater, target) {
        LastTargetAimed(cfg, from, lines, commands, sites, heater, target);
      }
      if LastAimed(cfg, lines, heater, target) {
        AimedLastTarget(cfg, from, lines, commands, sites, heater, target);
      }
    }
    if k :| 0 <= k < |commands| && Aims(commands[k], heater) {
      AimingPlace(cfg, from, lines, commands, k, sites[k], heater);
      InProgram(cfg, from, lines, commands, k, sites[k]);
    }
    if n :| 0 <= n < |lines| && AimsAt(cfg, lines[n], heater) {
      AimedPlace(cfg, lines, n, heater);
      var k :| 0 <= k < |sites| && sites[k] == Site(n, 0);
      AimingPlace(cfg, from, lines, commands, k, sites[k], heater);
    }
  }
}
