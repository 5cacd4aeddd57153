// When a claim or a search is granted, and with which words it is denied otherwise:
// in terms of the boards, the devices and the earlier grants alone.
module ClaimLaws {
  import opened Prelude
  import opened Allocation
  import opened AllocationLaws

  // ----- plain terms -------------------------------------------------------------------------

  /** The text up to its first dot is the controller, the rest the port. */
  predicate Named(text: string, r: Resource) {
    text == r.controller + "." + r.port && '.' !in r.controller
  }

  ghost predicate PortAt(m: Machine, r: Resource, c: Connector) {
    && r.controller in m.boards
    && exists k :: 0 <= k < |m.boards[r.controller]| && m.boards[r.controller][k] == (r.port, c)
  }

  /** The kind a claim asks for: its device's, or else that of its attribute. */
  predicate Asked(m: Machine, d: Demand, kind: string)
    requires d.Claim?
  {
    var own := d.component.kind;
    if own in m.devices && m.devices[own].connector.Some? then m.devices[own].connector == Some(kind)
    else d.table == kind
  }

  predicate Untaken(earlier: seq<Assignment>, r: Resource) {
    forall k :: 0 <= k < |earlier| ==> earlier[k].resource != r
  }

  /** The last earlier grant of the resource went to this component. */
  predicate TakenBy(earlier: seq<Assignment>, r: Resource, name: Name) {
    exists k :: 0 <= k < |earlier| && earlier[k].resource == r && earlier[k].requestedBy == name
                && Untaken(earlier[k + 1..], r)
  }

  predicate BusServed(m: Machine, kind: string, c: Connector) {
    kind in m.devices && m.devices[kind].bus.Some? ==> m.devices[kind].bus.value in c.buses
  }

  predicate FirstTim(functions: seq<string>, channel: string) {
    exists k :: 0 <= k < |functions| && functions[k] == channel && "tim" <= channel
                && forall j :: 0 <= j < k ==> !("tim" <= functions[j])
  }

  /** The step rate binds sockets whose step pin the chip table knows. */
  predicate Budgeted(m: Machine, c: Connector) {
    m.stepRate && c.kind == "stepper_driver_socket" && c.stepFunctions.Some?
  }

  ghost predicate Reserves(m: Machine, r: Resource, t: Timer) {
    && t.controller == r.controller
    && exists c :: PortAt(m, r, c) && Budgeted(m, c) && FirstTim(c.stepFunctions.value, t.channel)
  }

  ghost predicate Unreserved(m: Machine, earlier: seq<Assignment>, t: Timer) {
    forall k :: 0 <= k < |earlier| ==> !Reserves(m, earlier[k].resource, t)
  }

  ghost predicate ReservedBy(m: Machine, earlier: seq<Assignment>, t: Timer, name: Name) {
    exists k :: 0 <= k < |earlier| && Reserves(m, earlier[k].resource, t) && earlier[k].requestedBy == name
                && Unreserved(m, earlier[k + 1..], t)
  }

  /** The port needs no channel, or its first timer function is on one that is still free. */
  ghost predicate ChannelServed(m: Machine, earlier: seq<Assignment>, r: Resource, c: Connector) {
    Budgeted(m, c) ==>
      exists channel :: FirstTim(c.stepFunctions.value, channel) && Unreserved(m, earlier, Timer(r.controller, channel))
  }

  // ----- the tables in plain terms -----------------------------------------------------------

  lemma SplitNames(text: string, r: Resource)
    ensures Named(text, r) <==> SplitOnce(text) == Some((r.controller, r.port))
  {
    if Named(text, r) {
      assert text[|r.controller|] == '.';
      assert SplitOnce(text).Some?;
      var (left, right) := SplitOnce(text).value;
      assert text == left + "." + right;
      assert text[|left|] == '.';
      assert forall k :: 0 <= k < |left| ==> text[k] == left[k] && left[k] in left;
      assert forall k :: 0 <= k < |r.controller| ==> text[k] == r.controller[k] && r.controller[k] in r.controller;
      assert |left| == |r.controller|;
      assert left == text[..|left|] && r.controller == text[..|r.controller|];
      assert right == text[|left| + 1..] && r.port == text[|left| + 1..];
    }
  }

  lemma {:induction false} FindPortMeaning(board: Board, port: Name)
    ensures FindPort(board, port).None? <==> forall k :: 0 <= k < |board| ==> board[k].0 != port
    ensures FindPort(board, port).Some? ==> (port, FindPort(board, port).value) in board
  {
    if board != [] && board[0].0 != port {
      FindPortMeaning(board[1..], port);
    }
  }

  lemma PortFound(m: Machine, r: Resource, c: Connector)
    requires WellFormedBoards(m)
    ensures PortAt(m, r, c) <==> ConnectorAt(m, r) == Some(c)
  {
    hide FindPort;
    if r.controller in m.boards {
      var board := m.boards[r.controller];
      FindPortMeaning(board, r.port);
      if PortAt(m, r, c) {
        var k :| 0 <= k < |board| && board[k] == (r.port, c);
        FindPortAt(board, k);
      }
    }
  }

  lemma {:induction false} TimerFunctionMeaning(functions: seq<string>, channel: string)
    ensures TimerFunction(functions) == Some(channel) <==> FirstTim(functions, channel)
  {
    if functions != [] {
      var rest := functions[1..];
      TimerFunctionMeaning(rest, channel);
      if IsTimer(functions[0]) {
        assert FirstTim(functions, functions[0]);
      } else {
        if FirstTim(rest, channel) {
          var k :| 0 <= k < |rest| && rest[k] == channel && "tim" <= channel
                   && forall j :: 0 <= j < k ==> !("tim" <= rest[j]);
          assert functions[k + 1] == channel;
          assert forall j :: 0 <= j < k + 1 ==> j == 0 || functions[j] == rest[j - 1];
        }
        if FirstTim(functions, channel) {
          var k :| 0 <= k < |functions| && functions[k] == channel && "tim" <= channel
                   && forall j :: 0 <= j < k ==> !("tim" <= functions[j]);
          assert rest[k - 1] == channel;
          assert forall j :: 0 <= j < k - 1 ==> rest[j] == functions[j + 1];
        }
      }
    }
  }

  lemma NoTimerFunction(functions: seq<string>)
    ensures TimerFunction(functions).None? <==> forall channel :: !FirstTim(functions, channel)
  {
    hide TimerFunction, FirstTim;
    forall channel
      ensures TimerFunction(functions) == Some(channel) <==> FirstTim(functions, channel)
    {
      TimerFunctionMeaning(functions, channel);
    }
    if TimerFunction(functions).Some? {
      assert FirstTim(functions, TimerFunction(functions).value);
    }
  }

  lemma ReservesTimer(m: Machine, r: Resource, t: Timer)
    requires WellFormedBoards(m)
    ensures TimerOf(m, r) == Some(t) <==> Reserves(m, r, t)
  {
    hide ConnectorAt, PortAt, TimerFunction, FirstTim, WellFormedBoards;
    forall c
      ensures PortAt(m, r, c) <==> ConnectorAt(m, r) == Some(c)
    {
      PortFound(m, r, c);
    }
    if ConnectorAt(m, r).Some? {
      var c := ConnectorAt(m, r).value;
      assert PortAt(m, r, c);
      if c.stepFunctions.Some? {
        TimerFunctionMeaning(c.stepFunctions.value, t.channel);
      }
    }
  }

  lemma TakenLast(earlier: seq<Assignment>, r: Resource, name: Name)
    requires earlier != []
    ensures var n := |earlier| - 1;
      TakenBy(earlier, r, name) <==>
      if earlier[n].resource == r then earlier[n].requestedBy == name else TakenBy(earlier[..n], r, name)
  {
    var n := |earlier| - 1;
    var rest := earlier[..n];
    assert earlier[n + 1..] == [];
    forall k | 0 <= k < n
      ensures earlier[k] == rest[k]
      ensures Untaken(earlier[k + 1..], r) <==> Untaken(rest[k + 1..], r) && earlier[n].resource != r
    {
      assert earlier[k + 1..] == rest[k + 1..] + [earlier[n]];
      assert earlier[k + 1..][n - k - 1] == earlier[n];
    }
  }

  lemma {:induction false} HolderExactly(earlier: seq<Assignment>, r: Resource)
    ensures Holder(earlier, r).None? <==> Untaken(earlier, r)
    ensures forall name :: Holder(earlier, r) == Some(name) <==> TakenBy(earlier, r, name)
    decreases |earlier|
  {
    hide TakenBy;
    HolderMeaning(earlier, r);
    if earlier == [] {
      NobodyTook(r);
    } else {
      HolderExactly(earlier[..|earlier| - 1], r);
      forall name
        ensures Holder(earlier, r) == Some(name) <==> TakenBy(earlier, r, name)
      {
        TakenLast(earlier, r, name);
      }
    }
  }

  lemma NobodyTook(r: Resource)
    ensures forall name :: !TakenBy([], r, name)
  {
  }

  lemma {:induction false} TimerHolderExactly(m: Machine, earlier: seq<Assignment>, t: Timer)
    requires WellFormedBoards(m)
    ensures TimerHolder(m, earlier, t).None? <==> Unreserved(m, earlier, t)
    ensures forall name :: TimerHolder(m, earlier, t) == Some(name) <==> ReservedBy(m, earlier, t, name)
    decreases |earlier|
  {
    hide TimerOf, Reserves, WellFormedBoards;
    if earlier != [] {
      var n := |earlier| - 1;
      var rest := earlier[..n];
      TimerHolderExactly(m, rest, t);
      assert earlier == rest + [earlier[n]];
      ReservesTimer(m, earlier[n].resource, t);
      if Reserves(m, earlier[n].resource, t) {
        assert earlier[n + 1..] == [];
        assert ReservedBy(m, earlier, t, earlier[n].requestedBy);
        forall k | 0 <= k < n && Reserves(m, earlier[k].resource, t)
          ensures !Unreserved(m, earlier[k + 1..], t)
        {
          assert earlier[k + 1..][n - k - 1] == earlier[n];
        }
      } else {
        assert Unreserved(m, earlier, t) <==> Unreserved(m, rest, t);
        forall k | 0 <= k < n
          ensures earlier[k] == rest[k] && (Unreserved(m, earlier[k + 1..], t) <==> Unreserved(m, rest[k + 1..], t))
        {
          assert earlier[k + 1..] == rest[k + 1..] + [earlier[n]];
        }
        forall name
          ensures ReservedBy(m, earlier, t, name) <==> ReservedBy(m, rest, t, name)
        {
          if ReservedBy(m, rest, t, name) {
            var k :| 0 <= k < n && Reserves(m, rest[k].resource, t) && rest[k].requestedBy == name
                     && Unreserved(m, rest[k + 1..], t);
            assert earlier[k] == rest[k];
          }
          if ReservedBy(m, earlier, t, name) {
            var k :| 0 <= k <= n && Reserves(m, earlier[k].resource, t) && earlier[k].requestedBy == name
                     && Unreserved(m, earlier[k + 1..], t);
            assert earlier[k] == rest[k];
          }
        }
      }
    }
  }

  // ----- claims ----------------------------------------------------------------------------------

  /** A claim whose text names no connector is denied for the first thing missing. */
  lemma ClaimTargetExactly(m: Machine, earlier: seq<Assignment>, d: Demand)
    requires d.Claim? && WellFormedBoards(m)
    ensures var decided := Decide(m, earlier, d);
      var name := d.component.name;
      && (decided == Denied(name, BadTarget) <==> '.' !in d.text)
      && (decided == Denied(name, UnknownBoard) <==> exists r :: Named(d.text, r) && r.controller !in m.boards)
      && (decided == Denied(name, NoSuchConnector) <==>
            exists r :: Named(d.text, r) && r.controller in m.boards && forall c :: !PortAt(m, r, c))
  {
    hide SplitOnce, Named, PortAt, WellFormedBoards, Holder, TimerHolder, TimerFunction, FindPort;
    forall r
      ensures Named(d.text, r) <==> SplitOnce(d.text) == Some((r.controller, r.port))
    {
      SplitNames(d.text, r);
    }
    forall r, c
      ensures PortAt(m, r, c) <==> ConnectorAt(m, r) == Some(c)
    {
      PortFound(m, r, c);
    }
    if SplitOnce(d.text).Some? {
      var (controller, port) := SplitOnce(d.text).value;
      var r := Resource(controller, port);
      assert Named(d.text, r);
      if ConnectorAt(m, r).Some? {
        assert PortAt(m, r, ConnectorAt(m, r).value);
      }
    }
  }

  /** A claim that names a connector is denied by the first of its conditions that
      fails: the kind asked for, no earlier grant of the port, the bus its device
      needs, and a free channel when the step rate binds the port. It is granted
      exactly that port if none fails. */
  lemma ClaimDecidedExactly(m: Machine, earlier: seq<Assignment>, d: Demand, r: Resource, c: Connector)
    requires d.Claim? && WellFormedBoards(m) && Named(d.text, r) && PortAt(m, r, c)
    ensures var decided := Decide(m, earlier, d);
      var name := d.component.name;
      var wired := Asked(m, d, c.kind);
      var free := wired && Untaken(earlier, r);
      var served := free && BusServed(m, d.component.kind, c);
      && (decided == Denied(name, WrongKind) <==> !wired)
      && (forall holder :: decided == Denied(name, Conflict(holder)) <==> wired && TakenBy(earlier, r, holder))
      && (decided == Denied(name, BusUnsatisfied) <==> free && !BusServed(m, d.component.kind, c))
      && (decided == Denied(name, NoTimer) <==>
            served && Budgeted(m, c) && forall channel :: !FirstTim(c.stepFunctions.value, channel))
      && (forall holder :: decided == Denied(name, TimerConflict(holder)) <==>
            && served && Budgeted(m, c)
            && exists channel :: FirstTim(c.stepFunctions.value, channel)
                                 && ReservedBy(m, earlier, Timer(r.controller, channel), holder))
      && (decided == Granted(Assignment(name, Some(d.attribute), r, c.kind, [r])) <==>
            served && ChannelServed(m, earlier, r, c))
      && (decided.Granted? <==> served && ChannelServed(m, earlier, r, c))
  {
    hide SplitOnce, Named, PortAt, WellFormedBoards, Holder, TimerHolder, TimerFunction, FindPort, FirstTim, TakenBy,
      Untaken, ReservedBy, Unreserved;
    SplitNames(d.text, r);
    PortFound(m, r, c);
    HolderExactly(earlier, r);
    if Budgeted(m, c) {
      ChannelExactly(m, earlier, r, c);
    }
  }

  /** The only channel a port can use is that of its first timer function. */
  lemma ChannelExactly(m: Machine, earlier: seq<Assignment>, r: Resource, c: Connector)
    requires WellFormedBoards(m) && Budgeted(m, c)
    ensures var t := TimerAt(m, r, c);
      && (t.None? <==> forall channel :: !FirstTim(c.stepFunctions.value, channel))
      && (t.Some? ==> t.value.controller == r.controller
                      && forall channel :: FirstTim(c.stepFunctions.value, channel) <==> channel == t.value.channel)
      && (t.Some? ==> (TimerHolder(m, earlier, t.value).None? <==> Unreserved(m, earlier, t.value)))
      && (t.Some? ==>
            forall name :: TimerHolder(m, earlier, t.value) == Some(name) <==> ReservedBy(m, earlier, t.value, name))
  {
    hide TimerFunction, FirstTim, Unreserved, ReservedBy, WellFormedBoards, TimerHolder;
    NoTimerFunction(c.stepFunctions.value);
    var t := TimerAt(m, r, c);
    if t.Some? {
      TimerHolderExactly(m, earlier, t.value);
      forall channel
        ensures FirstTim(c.stepFunctions.value, channel) <==> channel == t.value.channel
      {
        TimerFunctionMeaning(c.stepFunctions.value, channel);
      }
    }
  }

  // ----- searches --------------------------------------------------------------------------------

  /** The component's controller: the one it names, or the only one. */
  ghost predicate PlacedOn(m: Machine, c: Component, controller: Name) {
    || Says(c, "controller", controller)
    || ((forall text :: !Says(c, "controller", text)) && m.controllers == {controller})
  }

  /** The attribute of this name is that text. */
  predicate Says(c: Component, name: Name, text: string) {
    exists k :: 0 <= k < |c.attributes| && c.attributes[k] == (name, Some(text))
                && forall j :: 0 <= j < k ==> c.attributes[j].0 != name
  }

  /** A search may take the port: kind, exclusivity, voltage domain, channel and bus. */
  ghost predicate Takeable(m: Machine, earlier: seq<Assignment>, device: Device, kind: string, r: Resource,
                           c: Connector) {
    && c.kind == kind && Untaken(earlier, r)
    && (device.domains != {} ==> c.domain.Some? && c.domain.value in device.domains)
    && ChannelServed(m, earlier, r, c)
    && (device.bus.Some? ==> device.bus.value in c.buses)
  }

  predicate Offered(board: Board, controller: Name, kind: string, r: Resource) {
    exists k :: 0 <= k < |board| && board[k].1.kind == kind && r == Resource(controller, board[k].0)
  }

  predicate Precedes(board: Board, first: Name, second: Name) {
    exists k, l :: 0 <= k < l < |board| && board[k].0 == first && board[l].0 == second
  }

  /** Every port of the kind, taken or not, in the order of the board. */
  ghost predicate OffersOf(board: Board, controller: Name, kind: string, offers: seq<Resource>) {
    && (forall r :: r in offers <==> Offered(board, controller, kind, r))
    && forall i, j :: 0 <= i < j < |offers| ==> Precedes(board, offers[i].port, offers[j].port)
  }

  lemma {:induction false} TextMeaning(c: Component, attributes: seq<(Name, Option<string>)>, name: Name, text: string)
    requires attributes == c.attributes
    ensures TextOf(attributes, name) == Some(text) <==> Says(c, name, text)
  {
    TextFrom(attributes, name, text);
  }

  lemma {:induction false} TextFrom(attributes: seq<(Name, Option<string>)>, name: Name, text: string)
    ensures TextOf(attributes, name) == Some(text) <==>
            exists k :: 0 <= k < |attributes| && attributes[k] == (name, Some(text))
                        && forall j :: 0 <= j < k ==> attributes[j].0 != name
  {
    if attributes != [] {
      var rest := attributes[1..];
      TextFrom(rest, name, text);
      if attributes[0].0 == name {
        assert attributes[0] == (name, Some(text)) <==> TextOf(attributes, name) == Some(text);
      } else {
        if TextOf(rest, name) == Some(text) {
          var k :| 0 <= k < |rest| && rest[k] == (name, Some(text)) && forall j :: 0 <= j < k ==> rest[j].0 != name;
          assert attributes[k + 1] == (name, Some(text));
          assert forall j :: 0 <= j < k + 1 ==> j == 0 || attributes[j] == rest[j - 1];
        }
        if k :| 0 <= k < |attributes| && attributes[k] == (name, Some(text))
                && forall j :: 0 <= j < k ==> attributes[j].0 != name {
          assert rest[k - 1] == (name, Some(text));
          assert forall j :: 0 <= j < k - 1 ==> rest[j] == attributes[j + 1];
        }
      }
    }
  }

  lemma ControllerExactly(m: Machine, c: Component)
    ensures forall controller :: SearchController(m, c) == Some(controller) <==> PlacedOn(m, c, controller)
  {
    hide TextOf, Says;
    forall text
      ensures TextOf(c.attributes, "controller") == Some(text) <==> Says(c, "controller", text)
    {
      TextMeaning(c, c.attributes, "controller", text);
    }
    forall controller | m.controllers == {controller}
      ensures |m.controllers| == 1
    {
    }
  }

  lemma TakeableExactly(m: Machine, earlier: seq<Assignment>, device: Device, kind: string, r: Resource, c: Connector)
    requires WellFormedBoards(m)
    ensures Eligible(m, earlier, device, kind, r, c) <==> Takeable(m, earlier, device, kind, r, c)
  {
    hide Holder, TimerHolder, FirstTim, TimerFunction, Untaken, Unreserved, WellFormedBoards;
    HolderExactly(earlier, r);
    if Budgeted(m, c) {
      ChannelExactly(m, earlier, r, c);
    }
  }

  lemma OfferedLast(board: Board, controller: Name, kind: string, r: Resource)
    requires board != []
    ensures var last := board[|board| - 1];
      Offered(board, controller, kind, r) <==>
      Offered(board[..|board| - 1], controller, kind, r) || (last.1.kind == kind && r == Resource(controller, last.0))
  {
    var rest := board[..|board| - 1];
    if k :| 0 <= k < |rest| && rest[k].1.kind == kind && r == Resource(controller, rest[k].0) {
      assert board[k] == rest[k];
    }
    if k :| 0 <= k < |board| - 1 && board[k].1.kind == kind && r == Resource(controller, board[k].0) {
      assert rest[k] == board[k];
    }
  }

  lemma {:induction false} OffersExactly(board: Board, controller: Name, kind: string)
    ensures OffersOf(board, controller, kind, Candidates(board, controller, kind))
    decreases |board|
  {
    if board != [] {
      var n := |board| - 1;
      var rest, last := board[..n], board[n];
      var before, offers := Candidates(rest, controller, kind), Candidates(board, controller, kind);
      OffersExactly(rest, controller, kind);
      forall r
        ensures r in offers <==> Offered(board, controller, kind, r)
      {
        OfferedLast(board, controller, kind, r);
      }
      forall i, j | 0 <= i < j < |offers|
        ensures Precedes(board, offers[i].port, offers[j].port)
      {
        if j < |before| {
          assert Precedes(rest, before[i].port, before[j].port);
          var k, l :| 0 <= k < l < |rest| && rest[k].0 == before[i].port && rest[l].0 == before[j].port;
          assert board[k] == rest[k] && board[l] == rest[l];
        } else {
          assert before[i] in before && Offered(rest, controller, kind, before[i]);
          var k :| 0 <= k < |rest| && rest[k].1.kind == kind && before[i] == Resource(controller, rest[k].0);
          assert board[k].0 == offers[i].port && offers[j].port == board[n].0;
        }
      }
    }
  }

  lemma LastPrecedesNone(board: Board, last: Name)
    requires DistinctPorts(board) && board != [] && last == board[|board| - 1].0
    ensures forall port :: !Precedes(board, last, port) && !Precedes(board, port, port)
  {
  }

  lemma LastComesLast(board: Board, controller: Name, kind: string, offers: seq<Resource>)
    requires DistinctPorts(board) && board != [] && OffersOf(board, controller, kind, offers)
    requires board[|board| - 1].1.kind == kind
    ensures offers != [] && offers[|offers| - 1] == Resource(controller, board[|board| - 1].0)
  {
    hide Precedes;
    var last := Resource(controller, board[|board| - 1].0);
    assert Offered(board, controller, kind, last);
    var i :| 0 <= i < |offers| && offers[i] == last;
    LastPrecedesNone(board, last.port);
    assert i < |offers| - 1 ==> Precedes(board, offers[i].port, offers[|offers| - 1].port);
  }

  /** On a board without equal ports there is one such list. */
  lemma {:induction false} OffersUnique(board: Board, controller: Name, kind: string, offers: seq<Resource>)
    requires DistinctPorts(board) && OffersOf(board, controller, kind, offers)
    ensures offers == Candidates(board, controller, kind)
    decreases |board|
  {
    hide OffersOf;
    FirstIsOffered(board, controller, kind, offers);
    if board != [] {
      var n := |board| - 1;
      if board[n].1.kind == kind {
        LastComesLast(board, controller, kind, offers);
      }
      OffersShrink(board, controller, kind, offers);
      OffersUnique(board[..n], controller, kind, if board[n].1.kind == kind then offers[..|offers| - 1] else offers);
    }
  }

  lemma FirstIsOffered(board: Board, controller: Name, kind: string, offers: seq<Resource>)
    requires OffersOf(board, controller, kind, offers)
    ensures offers != [] ==> Offered(board, controller, kind, offers[0])
  {
    assert offers != [] ==> offers[0] in offers;
  }

  lemma OffersShrink(board: Board, controller: Name, kind: string, offers: seq<Resource>)
    requires DistinctPorts(board) && board != [] && OffersOf(board, controller, kind, offers)
    requires var last := board[|board| - 1];
      last.1.kind == kind ==> offers != [] && offers[|offers| - 1] == Resource(controller, last.0)
    ensures OffersOf(board[..|board| - 1], controller, kind,
                     if board[|board| - 1].1.kind == kind then offers[..|offers| - 1] else offers)
  {
    var n := |board| - 1;
    var rest := board[..n];
    var last := Resource(controller, board[n].0);
    var fewer := if board[n].1.kind == kind then offers[..|offers| - 1] else offers;
    forall r
      ensures Offered(rest, controller, kind, r) ==> r != last
    {
      if Offered(rest, controller, kind, r) {
        var k :| 0 <= k < |rest| && rest[k].1.kind == kind && r == Resource(controller, rest[k].0);
        assert board[k].0 != board[n].0;
      }
    }
    forall i | 0 <= i < |fewer|
      ensures fewer[i] != last && fewer[i] == offers[i]
    {
      LastPrecedesNone(board, last.port);
      assert board[n].1.kind == kind ==> Precedes(board, offers[i].port, offers[|offers| - 1].port);
      assert offers[i] in offers && Offered(board, controller, kind, offers[i]);
    }
    forall r
      ensures r in fewer <==> Offered(rest, controller, kind, r)
    {
      OfferedLast(board, controller, kind, r);
      assert r in offers <==> Offered(board, controller, kind, r);
    }
    forall i, j | 0 <= i < j < |fewer|
      ensures Precedes(rest, fewer[i].port, fewer[j].port)
    {
      assert Precedes(board, offers[i].port, offers[j].port);
      var k, l :| 0 <= k < l < |board| && board[k].0 == offers[i].port && board[l].0 == offers[j].port;
      assert fewer[j] in offers && Offered(board, controller, kind, fewer[j]);
      assert l < n;
      assert rest[k].0 == fewer[i].port && rest[l].0 == fewer[j].port;
    }
  }

  /** A search takes the first port of its controller's board that it may take,
      and is denied for a missing controller or for want of such a port. */
  lemma SearchDecidedExactly(m: Machine, earlier: seq<Assignment>, d: Demand)
    requires d.Search? && WellFormedBoards(m)
    ensures var decided := Decide(m, earlier, d);
      var name := d.component.name;
      && (decided == Denied(name, AmbiguousController) <==> forall c :: !PlacedOn(m, d.component, c))
      && (decided == Denied(name, UnknownController) <==> exists c :: PlacedOn(m, d.component, c) && c !in m.boards)
      && (decided == Denied(name, NoFreeConnector) <==>
            exists c :: && PlacedOn(m, d.component, c) && c in m.boards
                        && var board := m.boards[c];
                           forall j :: 0 <= j < |board| ==>
                             !Takeable(m, earlier, d.device, d.kind, Resource(c, board[j].0), board[j].1))
      && (forall a :: decided == Granted(a) <==> TakesFirst(m, earlier, d, a))
      && (decided.Denied? ==> decided.component == name)
  {
    hide SearchController, PlacedOn, Takeable, Eligible, OffersOf, Candidates, FirstEligible, DistinctPorts;
    ControllerExactly(m, d.component);
    var found := SearchController(m, d.component);
    if found.Some? && found.value in m.boards {
      var c := found.value;
      var board := m.boards[c];
      forall j | 0 <= j < |board|
        ensures Eligible(m, earlier, d.device, d.kind, Resource(c, board[j].0), board[j].1) <==>
                Takeable(m, earlier, d.device, d.kind, Resource(c, board[j].0), board[j].1)
      {
        TakeableExactly(m, earlier, d.device, d.kind, Resource(c, board[j].0), board[j].1);
      }
      FirstEligibleMeaning(m, earlier, d.device, d.kind, c, board, 0);
      OffersExactly(board, c, d.kind);
      forall a | TakesFirst(m, earlier, d, a)
        ensures Decide(m, earlier, d) == Granted(a)
      {
        OffersUnique(board, c, d.kind, a.candidates);
      }
    }
    if found.Some? {
      assert PlacedOn(m, d.component, found.value);
    }
  }

  ghost predicate TakesFirst(m: Machine, earlier: seq<Assignment>, d: Demand, a: Assignment)
    requires d.Search?
  {
    && a.requestedBy == d.component.name && a.via.None? && a.kind == d.kind
    && PlacedOn(m, d.component, a.resource.controller) && a.resource.controller in m.boards
    && var board := m.boards[a.resource.controller];
       && OffersOf(board, a.resource.controller, d.kind, a.candidates)
       && exists i ::
            && 0 <= i < |board| && board[i].0 == a.resource.port
            && Takeable(m, earlier, d.device, d.kind, a.resource, board[i].1)
            && forall j :: 0 <= j < i ==>
                 !Takeable(m, earlier, d.device, d.kind, Resource(a.resource.controller, board[j].0), board[j].1)
  }

  // ----- the whole allocation ----------------------------------------------------------------------

  /** What a demand may be granted after these earlier grants. */
  ghost predicate Entitled(m: Machine, earlier: seq<Assignment>, d: Demand, a: Assignment) {
    match d
    case Claim(component, attribute, text, _) =>
      exists c ::
        && PortAt(m, a.resource, c) && Named(text, a.resource)
        && Asked(m, d, c.kind) && Untaken(earlier, a.resource)
        && BusServed(m, component.kind, c) && ChannelServed(m, earlier, a.resource, c)
        && a == Assignment(component.name, Some(attribute), a.resource, c.kind, [a.resource])
    case Search(_, _, _) => TakesFirst(m, earlier, d, a)
  }

  lemma EntitledExactly(m: Machine, earlier: seq<Assignment>, d: Demand, a: Assignment)
    requires WellFormedBoards(m)
    ensures Decide(m, earlier, d) == Granted(a) <==> Entitled(m, earlier, d, a)
  {
    hide Decide, Named, PortAt, Asked, Untaken, BusServed, ChannelServed, TakesFirst, WellFormedBoards;
    if d.Search? {
      SearchDecidedExactly(m, earlier, d);
    } else {
      forall r, c | Named(d.text, r) && PortAt(m, r, c)
        ensures Decide(m, earlier, d) == Granted(Assignment(d.component.name, Some(d.attribute), r, c.kind, [r])) <==>
                && Asked(m, d, c.kind) && Untaken(earlier, r)
                && BusServed(m, d.component.kind, c) && ChannelServed(m, earlier, r, c)
      {
        ClaimDecidedExactly(m, earlier, d, r, c);
      }
      if Decide(m, earlier, d) == Granted(a) {
        ClaimPlace(m, earlier, d, a);
      }
    }
  }

  lemma ClaimPlace(m: Machine, earlier: seq<Assignment>, d: Demand, a: Assignment)
    requires WellFormedBoards(m) && d.Claim? && Decide(m, earlier, d) == Granted(a)
    ensures Named(d.text, a.resource)
    ensures exists c ::
      PortAt(m, a.resource, c)
      && a == Assignment(d.component.name, Some(d.attribute), a.resource, c.kind, [a.resource])
  {
    hide SplitOnce, Named, PortAt, FindPort, WellFormedBoards, Holder, TimerHolder, TimerAt;
    SplitNames(d.text, a.resource);
    var c := ConnectorAt(m, a.resource).value;
    PortFound(m, a.resource, c);
  }

  /** Every demand is entitled to its grant after the grants before it. */
  ghost predicate EntitledInTurn(m: Machine, demands: seq<Demand>, grants: seq<Assignment>) {
    |grants| == |demands| && forall i :: 0 <= i < |grants| ==> Entitled(m, grants[..i], demands[i], grants[i])
  }

  lemma EntitledLast(m: Machine, demands: seq<Demand>, grants: seq<Assignment>)
    requires |grants| == |demands| > 0
    ensures var n := |demands| - 1;
      EntitledInTurn(m, demands, grants) <==>
      EntitledInTurn(m, demands[..n], grants[..n]) && Entitled(m, grants[..n], demands[n], grants[n])
  {
    hide Entitled;
    var n := |demands| - 1;
    assert forall i :: 0 <= i < n ==> grants[..n][..i] == grants[..i] && demands[..n][i] == demands[i];
    if EntitledInTurn(m, demands[..n], grants[..n]) && Entitled(m, grants[..n], demands[n], grants[n]) {
      forall i | 0 <= i <= n
        ensures Entitled(m, grants[..i], demands[i], grants[i])
      {
        if i < n {
          assert Entitled(m, grants[..n][..i], demands[..n][i], grants[..n][i]);
        }
      }
    }
  }

  predicate GrantedAll(m: Machine, demands: seq<Demand>, grants: seq<Assignment>) {
    AllGranted(Outcomes(m, demands)) && GrantsOf(Outcomes(m, demands)) == grants
  }

  lemma GrantedLast(m: Machine, demands: seq<Demand>, grants: seq<Assignment>)
    requires |grants| == |demands| > 0
    ensures var n := |demands| - 1;
      GrantedAll(m, demands, grants) <==>
      GrantedAll(m, demands[..n], grants[..n]) && Decide(m, grants[..n], demands[n]) == Granted(grants[n])
  {
    hide Decide, AllGranted, GrantsOf, Outcomes;
    var n := |demands| - 1;
    var before := Outcomes(m, demands[..n]);
    var last := Decide(m, GrantsOf(before), demands[n]);
    assert demands == demands[..n] + [demands[n]];
    OutcomesSnoc(m, demands[..n], demands[n]);
    GrantsSnoc(before, last);
    GrantedSnoc(before, last);
    assert grants == grants[..n] + [grants[n]];
  }

  lemma GrantedNone(m: Machine, grants: seq<Assignment>)
    ensures GrantedAll(m, [], grants) <==> grants == []
    ensures EntitledInTurn(m, [], grants) <==> grants == []
  {
    hide Entitled;
  }

  lemma SameLength(m: Machine, demands: seq<Demand>, grants: seq<Assignment>)
    requires GrantedAll(m, demands, grants) || EntitledInTurn(m, demands, grants)
    ensures |grants| == |demands|
  {
    hide AllGranted, GrantsOf, Entitled;
    GrantsAlignedIf(Outcomes(m, demands));
  }

  lemma {:induction false} GrantedInTurn(m: Machine, demands: seq<Demand>, grants: seq<Assignment>)
    requires WellFormedBoards(m)
    ensures GrantedAll(m, demands, grants) <==> EntitledInTurn(m, demands, grants)
    decreases |demands|
  {
    hide Decide, Entitled, WellFormedBoards, GrantedAll, EntitledInTurn;
    if demands == [] {
      GrantedNone(m, grants);
    } else if |grants| == |demands| {
      var n := |demands| - 1;
      GrantedInTurn(m, demands[..n], grants[..n]);
      GrantedLast(m, demands, grants);
      EntitledLast(m, demands, grants);
      EntitledExactly(m, grants[..n], demands[n], grants[n]);
    } else if GrantedAll(m, demands, grants) || EntitledInTurn(m, demands, grants) {
      SameLength(m, demands, grants);
    }
  }

  lemma GrantsAlignedIf(outcomes: seq<Outcome>)
    ensures AllGranted(outcomes) ==> |GrantsOf(outcomes)| == |outcomes|
  {
    hide GrantsOf;
    if AllGranted(outcomes) {
      GrantsAligned(outcomes);
    }
  }

  /** Allocation succeeds with these grants if and only if no earlier phase failed
      and each demand of the machine, in turn, is entitled to its grant. */
  lemma AllocatedExactly(m: Machine, clean: bool, grants: seq<Assignment>)
    requires WellFormedBoards(m)
    ensures Allocated(m, clean) == Some(grants) <==> clean && EntitledInTurn(m, Demands(m), grants)
  {
    hide Demands, WellFormedBoards, EntitledInTurn, AllGranted, Outcomes, GrantsOf;
    GrantedInTurn(m, Demands(m), grants);
  }

  // ----- the demands of a machine ------------------------------------------------------------------

  /** The demand stands at an attribute of a component, or at the component itself. */
  datatype Site = AtAttribute(component: nat, attribute: nat) | AtComponent(component: nat)

  /** Claims come first, by component and then by attribute; then the searches. */
  predicate Earlier(a: Site, b: Site) {
    match (a, b)
    case (AtAttribute(i, k), AtAttribute(j, l)) => i < j || (i == j && k < l)
    case (AtAttribute(_, _), AtComponent(_)) => true
    case (AtComponent(_), AtAttribute(_, _)) => false
    case (AtComponent(i), AtComponent(j)) => i < j
  }

  predicate ClaimingAttribute(attribute: Name, table: string) {
    || (attribute == "connected_to" && table == "stepper_driver_socket")
    || (attribute == "output" && table == "power_output")
    || (attribute == "input" && table == "analog_input")
  }

  /** The component names no connector of its own. */
  predicate Unwired(c: Component) {
    forall k :: 0 <= k < |c.attributes| && c.attributes[k].0 in {"connected_to", "output", "input"} ==>
      c.attributes[k].1.None?
  }

  /** What is demanded at a site. */
  predicate DemandedAt(m: Machine, site: Site, d: Demand) {
    && site.component < |m.components|
    && var c := m.components[site.component];
       && d.component == c
       && match site
          case AtAttribute(_, k) =>
            && d.Claim? && k < |c.attributes| && c.attributes[k] == (d.attribute, Some(d.text))
            && ClaimingAttribute(d.attribute, d.table)
          case AtComponent(_) =>
            && d.Search? && Unwired(c) && c.kind in m.devices
            && d.device == m.devices[c.kind] && d.device.connector == Some(d.kind)
  }

  predicate Within(site: Site, from: Site, to: Site) {
    !Earlier(site, from) && Earlier(site, to)
  }

  /** The demands are those of the sites of a stretch, each once and in order. */
  ghost predicate Stretch(m: Machine, demands: seq<Demand>, sites: seq<Site>, from: Site, to: Site) {
    && |sites| == |demands|
    && (forall p :: 0 <= p < |sites| ==> DemandedAt(m, sites[p], demands[p]) && Within(sites[p], from, to))
    && (forall p, q :: 0 <= p < q < |sites| ==> Earlier(sites[p], sites[q]))
    && (forall site, d :: DemandedAt(m, site, d) && Within(site, from, to) ==> site in sites)
  }

  lemma Stretches(m: Machine, a: seq<Demand>, s: seq<Site>, b: seq<Demand>, t: seq<Site>, from: Site, mid: Site,
                  to: Site)
    requires Stretch(m, a, s, from, mid) && Stretch(m, b, t, mid, to)
    requires !Earlier(mid, from) && !Earlier(to, mid)
    ensures Stretch(m, a + b, s + t, from, to)
  {
    hide DemandedAt;
    var sites := s + t;
    forall p, q | 0 <= p < q < |sites|
      ensures Earlier(sites[p], sites[q])
    {
      if p < |s| <= q {
        assert Within(s[p], from, mid) && Within(t[q - |s|], mid, to);
      }
    }
    forall p | 0 <= p < |sites|
      ensures DemandedAt(m, sites[p], (a + b)[p]) && Within(sites[p], from, to)
    {
      if p < |s| {
        assert Within(s[p], from, mid);
      } else {
        assert Within(t[p - |s|], mid, to);
      }
    }
    forall site, d | DemandedAt(m, site, d) && Within(site, from, to)
      ensures site in sites
    {
      assert Within(site, from, mid) || Within(site, mid, to);
    }
  }

  lemma OneDemand(m: Machine, demands: seq<Demand>, site: Site, from: Site, to: Site)
    requires forall at :: Within(at, from, to) <==> at == site
    requires forall d :: d in demands <==> DemandedAt(m, site, d)
    requires |demands| <= 1
    ensures Stretch(m, demands, if demands == [] then [] else [site], from, to)
  {
    hide DemandedAt, Within;
    assert demands != [] ==> demands[0] in demands;
  }

  lemma {:induction false} AttributeStretch(m: Machine, i: nat, n: nat) returns (sites: seq<Site>)
    requires i < |m.components| && n <= |m.components[i].attributes|
    ensures Stretch(m, AttributeDemands(m.components[i], m.components[i].attributes[..n]), sites,
                    AtAttribute(i, 0), AtAttribute(i, n))
  {
    hide DemandedAt, Stretch;
    var c := m.components[i];
    if n == 0 {
      sites := [];
      NothingBetween(m, AtAttribute(i, 0));
    } else {
      var before := AttributeStretch(m, i, n - 1);
      var (name, text) := c.attributes[n - 1];
      assert c.attributes[..n][..n - 1] == c.attributes[..n - 1];
      AttributeDemanded(m, i, n - 1);
      var demands := AttributeDemand(c, name, text);
      OneDemand(m, demands, AtAttribute(i, n - 1), AtAttribute(i, n - 1), AtAttribute(i, n));
      var last := if demands == [] then [] else [AtAttribute(i, n - 1)];
      Stretches(m, AttributeDemands(c, c.attributes[..n - 1]), before, demands, last,
                AtAttribute(i, 0), AtAttribute(i, n - 1), AtAttribute(i, n));
      sites := before + last;
    }
  }

  lemma AttributeDemanded(m: Machine, i: nat, k: nat)
    requires i < |m.components| && k < |m.components[i].attributes|
    ensures var c := m.components[i];
      var (name, text) := c.attributes[k];
      forall d :: d in AttributeDemand(c, name, text) <==> DemandedAt(m, AtAttribute(i, k), d)
  {
  }

  lemma NothingBetween(m: Machine, at: Site)
    ensures Stretch(m, [], [], at, at)
  {
  }

  /** No attribute follows a component's last one. */
  lemma AttributesEnd(m: Machine, demands: seq<Demand>, sites: seq<Site>, i: nat)
    requires i < |m.components|
    requires Stretch(m, demands, sites, AtAttribute(i, 0), AtAttribute(i, |m.components[i].attributes|))
    ensures Stretch(m, demands, sites, AtAttribute(i, 0), AtAttribute(i + 1, 0))
  {
  }

  lemma {:induction false} ClaimStretch(m: Machine, n: nat) returns (sites: seq<Site>)
    requires n <= |m.components|
    ensures Stretch(m, ClaimDemands(m.components[..n]), sites, AtAttribute(0, 0), AtAttribute(n, 0))
  {
    hide DemandedAt, Stretch, AttributeDemands;
    if n == 0 {
      sites := [];
      NothingBetween(m, AtAttribute(0, 0));
    } else {
      var before := ClaimStretch(m, n - 1);
      var c := m.components[n - 1];
      assert m.components[..n][..n - 1] == m.components[..n - 1];
      var last := AttributeStretch(m, n - 1, |c.attributes|);
      assert c.attributes[..|c.attributes|] == c.attributes;
      var demands := AttributeDemands(c, c.attributes);
      AttributesEnd(m, demands, last, n - 1);
      Stretches(m, ClaimDemands(m.components[..n - 1]), before, demands, last,
                AtAttribute(0, 0), AtAttribute(n - 1, 0), AtAttribute(n, 0));
      sites := before + last;
    }
  }

  /** No component follows the last one. */
  lemma ClaimsEnd(m: Machine, demands: seq<Demand>, sites: seq<Site>)
    requires Stretch(m, demands, sites, AtAttribute(0, 0), AtAttribute(|m.components|, 0))
    ensures Stretch(m, demands, sites, AtAttribute(0, 0), AtComponent(0))
  {
  }

  lemma SearchDemanded(m: Machine, i: nat)
    requires i < |m.components|
    ensures var demands := SearchDemand(m, m.components[i]);
      |demands| <= 1 && forall d :: d in demands <==> DemandedAt(m, AtComponent(i), d)
  {
    assert ClaimsNothing(m.components[i]) <==> Unwired(m.components[i]);
  }

  lemma {:induction false} SearchStretch(m: Machine, n: nat) returns (sites: seq<Site>)
    requires n <= |m.components|
    ensures Stretch(m, SearchDemands(m, m.components[..n]), sites, AtComponent(0), AtComponent(n))
  {
    hide DemandedAt, Stretch, SearchDemand;
    if n == 0 {
      sites := [];
      NothingBetween(m, AtComponent(0));
    } else {
      var before := SearchStretch(m, n - 1);
      assert m.components[..n][..n - 1] == m.components[..n - 1];
      SearchDemanded(m, n - 1);
      var demands := SearchDemand(m, m.components[n - 1]);
      OneDemand(m, demands, AtComponent(n - 1), AtComponent(n - 1), AtComponent(n));
      var last := if demands == [] then [] else [AtComponent(n - 1)];
      Stretches(m, SearchDemands(m, m.components[..n - 1]), before, demands, last,
                AtComponent(0), AtComponent(n - 1), AtComponent(n));
      sites := before + last;
    }
  }

  /** The demands are what stands at the sites, each site once and in their order. */
  ghost predicate AllDemanded(m: Machine, demands: seq<Demand>, sites: seq<Site>) {
    && |sites| == |demands|
    && (forall p :: 0 <= p < |sites| ==> DemandedAt(m, sites[p], demands[p]))
    && (forall p, q :: 0 <= p < q < |sites| ==> Earlier(sites[p], sites[q]))
    && (forall site, d :: DemandedAt(m, site, d) ==> site in sites)
  }

  /** The machine demands a connector for every attribute that claims one and, after
      all claims, for every component that claims none but whose device needs one. */
  lemma DemandsExactly(m: Machine)
    ensures exists sites :: AllDemanded(m, Demands(m), sites)
  {
    hide DemandedAt, ClaimDemands, SearchDemands;
    var n := |m.components|;
    assert m.components[..n] == m.components;
    var claimed := ClaimStretch(m, n);
    ClaimsEnd(m, ClaimDemands(m.components), claimed);
    var searched := SearchStretch(m, n);
    Stretches(m, ClaimDemands(m.components), claimed, SearchDemands(m, m.components), searched,
              AtAttribute(0, 0), AtComponent(0), AtComponent(n));
    WholeStretch(m, Demands(m), claimed + searched);
  }

  lemma WholeStretch(m: Machine, demands: seq<Demand>, sites: seq<Site>)
    requires Stretch(m, demands, sites, AtAttribute(0, 0), AtComponent(|m.components|))
    ensures AllDemanded(m, demands, sites)
  {
    forall site, d | DemandedAt(m, site, d)
      ensures Within(site, AtAttribute(0, 0), AtComponent(|m.components|))
    {
    }
  }
}
