// Connector and timer allocation of crates/machine-resolver/src/allocation.rs:
// an explicit pass and a search pass over shared claims.
module Allocation {
  import opened Prelude

  type Name = string

  datatype Resource = Resource(controller: Name, port: Name)

  /** A timer channel of a controller. */
  datatype Timer = Timer(controller: Name, channel: string)

  /** `stepFunctions` is what the chip table says of the step pin, if it says
      anything; `buses` are the bus requirements its capabilities satisfy. */
  datatype Connector = Connector(
    kind: string,
    domain: Option<string>,
    stepFunctions: Option<seq<string>>,
    buses: set<string>)

  /** Connectors in id order. */
  type Board = seq<(Name, Connector)>

  datatype Device = Device(connector: Option<string>, domains: set<string>, bus: Option<string>)

  /** Attributes in name order; one that is not text is `None`. */
  datatype Component = Component(name: Name, kind: string, attributes: seq<(Name, Option<string>)>)

  /** Components in name order. `stepRate` says a maximum step rate is declared. */
  datatype Machine = Machine(
    components: seq<Component>,
    controllers: set<Name>,
    boards: map<Name, Board>,
    devices: map<string, Device>,
    stepRate: bool)

  /** `via` is the claiming attribute, or `None` for a search. */
  datatype Assignment = Assignment(requestedBy: Name, via: Option<Name>, resource: Resource, kind: string,
                                   candidates: seq<Resource>)

  datatype Denial =
    | BadTarget
    | UnknownBoard
    | NoSuchConnector
    | WrongKind
    | Conflict(holder: Name)
    | BusUnsatisfied
    | NoTimer
    | TimerConflict(holder: Name)
    | AmbiguousController
    | UnknownController
    | NoFreeConnector

  const STEPPER: string := "stepper_driver_socket"

  function ClaimKind(attribute: Name): Option<string> {
    if attribute == "connected_to" then Some(STEPPER)
    else if attribute == "output" then Some("power_output")
    else if attribute == "input" then Some("analog_input")
    else None
  }

  function SplitOnce(text: string): (r: Option<(string, string)>)
    ensures r.Some? ==> text == r.value.0 + ['.'] + r.value.1 && '.' !in r.value.0
    ensures r.None? ==> '.' !in text
  {
    if text == [] then None
    else if text[0] == '.' then Some(([], text[1..]))
    else
      match SplitOnce(text[1..])
      case None => None
      case Some((left, right)) => Some(([text[0]] + left, right))
  }

  function FindPort(board: Board, port: Name): Option<Connector> {
    if board == [] then None
    else if board[0].0 == port then Some(board[0].1)
    else FindPort(board[1..], port)
  }

  function ConnectorAt(m: Machine, r: Resource): Option<Connector> {
    if r.controller in m.boards then FindPort(m.boards[r.controller], r.port) else None
  }

  predicate IsTimer(function_: string) {
    "tim" <= function_
  }

  /** The first timer function of a step pin. */
  function TimerFunction(functions: seq<string>): Option<string> {
    if functions == [] then None
    else if IsTimer(functions[0]) then Some(functions[0])
    else TimerFunction(functions[1..])
  }

  /** Whether a connector of this kind is bound by the step-rate budget. */
  predicate Timed(m: Machine, c: Connector) {
    m.stepRate && c.kind == STEPPER && c.stepFunctions.Some?
  }

  function TimerAt(m: Machine, r: Resource, c: Connector): Option<Timer> {
    if !Timed(m, c) then None
    else
      match TimerFunction(c.stepFunctions.value)
      case None => None
      case Some(channel) => Some(Timer(r.controller, channel))
  }

  function TimerOf(m: Machine, r: Resource): Option<Timer> {
    match ConnectorAt(m, r)
    case None => None
    case Some(c) => TimerAt(m, r, c)
  }

  function TextOf(attributes: seq<(Name, Option<string>)>, name: Name): Option<string> {
    if attributes == [] then None
    else if attributes[0].0 == name then attributes[0].1
    else TextOf(attributes[1..], name)
  }

  // ----- what each demand gets -----------------------------------------------------------------

  datatype Demand =
    | Claim(component: Component, attribute: Name, text: string, table: string)
    | Search(component: Component, device: Device, kind: string)

  datatype Outcome = Granted(assignment: Assignment) | Denied(component: Name, reason: Denial)

  /** Who among the earlier assignments holds the resource. */
  function Holder(earlier: seq<Assignment>, r: Resource): Option<Name> {
    if earlier == [] then None
    else
      var last := earlier[|earlier| - 1];
      if last.resource == r then Some(last.requestedBy) else Holder(earlier[..|earlier| - 1], r)
  }

  function TimerHolder(m: Machine, earlier: seq<Assignment>, t: Timer): Option<Name> {
    if earlier == [] then None
    else
      var last := earlier[|earlier| - 1];
      if TimerOf(m, last.resource) == Some(t) then Some(last.requestedBy)
      else TimerHolder(m, earlier[..|earlier| - 1], t)
  }

  function ExpectedKind(m: Machine, d: Demand): string {
    match d
    case Claim(c, _, _, table) =>
      if c.kind in m.devices && m.devices[c.kind].connector.Some? then m.devices[c.kind].connector.value else table
    case Search(_, _, kind) => kind
  }

  function RequiredBus(m: Machine, kind: string): Option<string> {
    if kind in m.devices then m.devices[kind].bus else None
  }

  function DecideClaim(m: Machine, earlier: seq<Assignment>, d: Demand): Outcome
    requires d.Claim?
  {
    var name := d.component.name;
    match SplitOnce(d.text)
    case None => Denied(name, BadTarget)
    case Some((controller, port)) =>
      var r := Resource(controller, port);
      if controller !in m.boards then Denied(name, UnknownBoard)
      else
        match FindPort(m.boards[controller], port)
        case None => Denied(name, NoSuchConnector)
        case Some(c) =>
          var bus := RequiredBus(m, d.component.kind);
          if c.kind != ExpectedKind(m, d) then Denied(name, WrongKind)
          else if Holder(earlier, r).Some? then Denied(name, Conflict(Holder(earlier, r).value))
          else if bus.Some? && bus.value !in c.buses then Denied(name, BusUnsatisfied)
          else if Timed(m, c) && TimerAt(m, r, c).None? then Denied(name, NoTimer)
          else if Timed(m, c) && TimerHolder(m, earlier, TimerAt(m, r, c).value).Some? then
            Denied(name, TimerConflict(TimerHolder(m, earlier, TimerAt(m, r, c).value).value))
          else Granted(Assignment(name, Some(d.attribute), r, c.kind, [r]))
  }

  /** The controller a component without an explicit claim is placed on. */
  function SearchController(m: Machine, c: Component): Option<Name> {
    match TextOf(c.attributes, "controller")
    case Some(name) => Some(name)
    case None => if |m.controllers| == 1 then Some(Only(m.controllers)) else None
  }

  function Only(s: set<Name>): (x: Name)
    requires |s| == 1
    ensures s == {x}
  {
    Unique(s);
    var x :| x in s;
    x
  }

  lemma Unique(s: set<Name>)
    requires |s| == 1
    ensures exists x :: x in s
    ensures forall x, y :: x in s && y in s ==> x == y
  {
    var x :| x in s;
    assert |s - {x}| == 0;
    forall y | y in s
      ensures x == y
    {
      assert y !in s - {x};
    }
  }

  predicate DomainFits(device: Device, c: Connector) {
    device.domains == {} || (c.domain.Some? && c.domain.value in device.domains)
  }

  predicate BusFits(device: Device, c: Connector) {
    device.bus.Some? ==> device.bus.value in c.buses
  }

  predicate TimingFits(m: Machine, earlier: seq<Assignment>, r: Resource, c: Connector) {
    Timed(m, c) ==> TimerAt(m, r, c).Some? && TimerHolder(m, earlier, TimerAt(m, r, c).value).None?
  }

  predicate Eligible(m: Machine, earlier: seq<Assignment>, device: Device, kind: string, r: Resource, c: Connector) {
    && c.kind == kind && Holder(earlier, r).None?
    && DomainFits(device, c) && TimingFits(m, earlier, r, c) && BusFits(device, c)
  }

  /** The first eligible port of a board at or after a place. */
  function FirstEligible(m: Machine, earlier: seq<Assignment>, device: Device, kind: string, controller: Name,
                         board: Board, from: nat): (i: Option<nat>)
    requires from <= |board|
    ensures i.Some? ==> from <= i.value < |board|
    decreases |board| - from
  {
    if from == |board| then None
    else if Eligible(m, earlier, device, kind, Resource(controller, board[from].0), board[from].1) then Some(from)
    else FirstEligible(m, earlier, device, kind, controller, board, from + 1)
  }

  /** Every connector of the kind, free or not, in id order. */
  function Candidates(board: Board, controller: Name, kind: string): seq<Resource> {
    if board == [] then []
    else
      var last := board[|board| - 1];
      var before := Candidates(board[..|board| - 1], controller, kind);
      if last.1.kind == kind then before + [Resource(controller, last.0)] else before
  }

  function DecideSearch(m: Machine, earlier: seq<Assignment>, d: Demand): Outcome
    requires d.Search?
  {
    var name := d.component.name;
    match SearchController(m, d.component)
    case None => Denied(name, AmbiguousController)
    case Some(controller) =>
      if controller !in m.boards then Denied(name, UnknownController)
      else
        var board := m.boards[controller];
        match FirstEligible(m, earlier, d.device, d.kind, controller, board, 0)
        case None => Denied(name, NoFreeConnector)
        case Some(i) =>
          var candidates := Candidates(board, controller, d.kind);
          Granted(Assignment(name, None, Resource(controller, board[i].0), d.kind, candidates))
  }

  function Decide(m: Machine, earlier: seq<Assignment>, d: Demand): Outcome {
    if d.Claim? then DecideClaim(m, earlier, d) else DecideSearch(m, earlier, d)
  }

  function GrantsOf(outcomes: seq<Outcome>): seq<Assignment> {
    if outcomes == [] then []
    else
      var last := outcomes[|outcomes| - 1];
      GrantsOf(outcomes[..|outcomes| - 1]) + if last.Granted? then [last.assignment] else []
  }

  /** Each demand is decided against what the demands before it were granted. */
  function Outcomes(m: Machine, demands: seq<Demand>): (r: seq<Outcome>)
    ensures |r| == |demands|
  {
    if demands == [] then []
    else
      var before := Outcomes(m, demands[..|demands| - 1]);
      before + [Decide(m, GrantsOf(before), demands[|demands| - 1])]
  }

  // ----- the demands of a machine ------------------------------------------------------------------

  function AttributeDemand(c: Component, name: Name, text: Option<string>): seq<Demand> {
    if text.Some? && ClaimKind(name).Some? then [Claim(c, name, text.value, ClaimKind(name).value)] else []
  }

  function AttributeDemands(c: Component, attributes: seq<(Name, Option<string>)>): seq<Demand> {
    if attributes == [] then []
    else
      var last := attributes[|attributes| - 1];
      AttributeDemands(c, attributes[..|attributes| - 1]) + AttributeDemand(c, last.0, last.1)
  }

  function ClaimDemands(components: seq<Component>): seq<Demand> {
    if components == [] then []
    else
      var c := components[|components| - 1];
      ClaimDemands(components[..|components| - 1]) + AttributeDemands(c, c.attributes)
  }

  predicate ClaimsNothing(c: Component) {
    forall k :: 0 <= k < |c.attributes| ==> c.attributes[k].1.None? || ClaimKind(c.attributes[k].0).None?
  }

  function SearchDemand(m: Machine, c: Component): seq<Demand> {
    if ClaimsNothing(c) && c.kind in m.devices && m.devices[c.kind].connector.Some?
    then [Search(c, m.devices[c.kind], m.devices[c.kind].connector.value)] else []
  }

  function SearchDemands(m: Machine, components: seq<Component>): seq<Demand> {
    if components == [] then []
    else SearchDemands(m, components[..|components| - 1]) + SearchDemand(m, components[|components| - 1])
  }

  function Demands(m: Machine): seq<Demand> {
    ClaimDemands(m.components) + SearchDemands(m, m.components)
  }

  predicate AllGranted(outcomes: seq<Outcome>) {
    forall k :: 0 <= k < |outcomes| ==> outcomes[k].Granted?
  }

  // ----- the two passes ---------------------------------------------------------------------------------

  lemma OutcomesSnoc(m: Machine, demands: seq<Demand>, d: Demand)
    ensures Outcomes(m, demands + [d]) == Outcomes(m, demands) + [Decide(m, GrantsOf(Outcomes(m, demands)), d)]
  {
    hide Decide, GrantsOf;
    assert (demands + [d])[..|demands|] == demands;
  }

  lemma GrantsSnoc(outcomes: seq<Outcome>, o: Outcome)
    ensures GrantsOf(outcomes + [o]) == GrantsOf(outcomes) + if o.Granted? then [o.assignment] else []
  {
    assert (outcomes + [o])[..|outcomes|] == outcomes;
  }

  lemma GrantedSnoc(outcomes: seq<Outcome>, o: Outcome)
    ensures AllGranted(outcomes + [o]) <==> AllGranted(outcomes) && o.Granted?
  {
    assert (outcomes + [o])[|outcomes|] == o;
    if AllGranted(outcomes + [o]) {
      assert forall k :: 0 <= k < |outcomes| ==> outcomes[k] == (outcomes + [o])[k];
    }
  }

  lemma HolderSnoc(m: Machine, earlier: seq<Assignment>, a: Assignment)
    ensures forall r :: Holder(earlier + [a], r) == if a.resource == r then Some(a.requestedBy) else Holder(earlier, r)
    ensures forall t :: TimerHolder(m, earlier + [a], t) ==
                        if TimerOf(m, a.resource) == Some(t) then Some(a.requestedBy) else TimerHolder(m, earlier, t)
  {
    hide TimerOf;
    assert (earlier + [a])[..|earlier|] == earlier;
  }

  /** The state the two passes share. */
  datatype Ledger = Ledger(
    claims: map<Resource, Name>,
    timers: map<Timer, Name>,
    assignments: seq<Assignment>,
    denials: seq<(Name, Denial)>)

  /** The claim tables say who was granted what, and everything granted so far is
      what the demands so far are due. */
  ghost predicate Tallies(m: Machine, s: Ledger, demands: seq<Demand>) {
    && s.assignments == GrantsOf(Outcomes(m, demands))
    && (forall r :: r in s.claims <==> Holder(s.assignments, r).Some?)
    && (forall r :: r in s.claims ==> Holder(s.assignments, r) == Some(s.claims[r]))
    && (forall t :: t in s.timers <==> TimerHolder(m, s.assignments, t).Some?)
    && (forall t :: t in s.timers ==> TimerHolder(m, s.assignments, t) == Some(s.timers[t]))
    && (s.denials == [] <==> AllGranted(Outcomes(m, demands)))
  }

  lemma StartsTallied(m: Machine)
    ensures Tallies(m, Ledger(map[], map[], [], []), [])
  {
  }

  lemma DenialTallies(m: Machine, s: Ledger, demands: seq<Demand>, d: Demand, name: Name, reason: Denial)
    requires Tallies(m, s, demands) && Decide(m, s.assignments, d) == Denied(name, reason)
    ensures Tallies(m, s.(denials := s.denials + [(name, reason)]), demands + [d])
  {
    hide Decide, Holder, TimerHolder, AllGranted;
    OutcomesSnoc(m, demands, d);
    GrantsSnoc(Outcomes(m, demands), Denied(name, reason));
    GrantedSnoc(Outcomes(m, demands), Denied(name, reason));
  }

  function Granting(m: Machine, s: Ledger, a: Assignment): Ledger {
    var timer := TimerOf(m, a.resource);
    s.(claims := s.claims[a.resource := a.requestedBy],
       timers := if timer.Some? then s.timers[timer.value := a.requestedBy] else s.timers,
       assignments := s.assignments + [a])
  }

  lemma GrantTallies(m: Machine, s: Ledger, demands: seq<Demand>, d: Demand, a: Assignment)
    requires Tallies(m, s, demands) && Decide(m, s.assignments, d) == Granted(a)
    ensures Tallies(m, Granting(m, s, a), demands + [d])
  {
    hide Decide, Holder, TimerHolder, TimerOf, AllGranted;
    OutcomesSnoc(m, demands, d);
    GrantsSnoc(Outcomes(m, demands), Granted(a));
    GrantedSnoc(Outcomes(m, demands), Granted(a));
    HolderSnoc(m, s.assignments, a);
  }

  method AllocateClaim(m: Machine, s: Ledger, c: Component, attribute: Name, text: string, table: string,
                       ghost demands: seq<Demand>)
    returns (next: Ledger)
    requires Tallies(m, s, demands)
    ensures Tallies(m, next, demands + [Claim(c, attribute, text, table)])
  {
    hide SplitOnce, FindPort, TimerFunction, Holder, TimerHolder, Tallies;
    ghost var d := Claim(c, attribute, text, table);
    var reason := BadTarget;
    var expected :=
      if c.kind in m.devices && m.devices[c.kind].connector.Some? then m.devices[c.kind].connector.value else table;
    var target := SplitOnce(text);
    if target.Some? {
      var (controller, port) := target.value;
      if controller !in m.boards {
        reason := UnknownBoard;
      } else {
        var connector := FindPort(m.boards[controller], port);
        if connector.None? {
          reason := NoSuchConnector;
        } else {
          var refused := CheckClaim(m, s, c, Resource(controller, port), connector.value, expected, demands, d);
          if refused.None? {
            var r := Resource(controller, port);
            var a := Assignment(c.name, Some(attribute), r, connector.value.kind, [r]);
            GrantTallies(m, s, demands, d, a);
            return Granting(m, s, a);
          }
          reason := refused.value;
        }
      }
    }
    DenialTallies(m, s, demands, d, c.name, reason);
    next := s.(denials := s.denials + [(c.name, reason)]);
  }

  /** Why a connector that exists may not be claimed. */
  method CheckClaim(m: Machine, s: Ledger, c: Component, r: Resource, connector: Connector, expected: string,
                    ghost demands: seq<Demand>, ghost d: Demand)
    returns (refused: Option<Denial>)
    requires Tallies(m, s, demands)
    requires d.Claim? && d.component == c && ExpectedKind(m, d) == expected
    requires SplitOnce(d.text) == Some((r.controller, r.port)) && r.controller in m.boards
    requires FindPort(m.boards[r.controller], r.port) == Some(connector)
    ensures Decide(m, s.assignments, d) ==
            if refused.Some? then Denied(c.name, refused.value)
            else Granted(Assignment(c.name, Some(d.attribute), r, connector.kind, [r]))
  {
    hide SplitOnce, FindPort, TimerFunction, Holder, TimerHolder, AllGranted, GrantsOf, Outcomes, ExpectedKind;
    if connector.kind != expected {
      return Some(WrongKind);
    }
    if r in s.claims {
      return Some(Conflict(s.claims[r]));
    }
    if c.kind in m.devices && m.devices[c.kind].bus.Some? {
      if m.devices[c.kind].bus.value !in connector.buses {
        return Some(BusUnsatisfied);
      }
    }
    if m.stepRate && expected == STEPPER && connector.stepFunctions.Some? {
      var channel := TimerFunction(connector.stepFunctions.value);
      if channel.None? {
        return Some(NoTimer);
      }
      var timer := Timer(r.controller, channel.value);
      if timer in s.timers {
        return Some(TimerConflict(s.timers[timer]));
      }
    }
    refused := None;
  }

  /** Whether a search may take this port now. */
  method MayTake(m: Machine, s: Ledger, device: Device, kind: string, r: Resource, c: Connector,
                 ghost demands: seq<Demand>)
    returns (eligible: bool)
    requires Tallies(m, s, demands)
    ensures eligible == Eligible(m, s.assignments, device, kind, r, c)
  {
    hide TimerFunction, Holder, TimerHolder, GrantsOf, Outcomes, AllGranted;
    if c.kind != kind || r in s.claims {
      return false;
    }
    if device.domains != {} {
      if c.domain.None? || c.domain.value !in device.domains {
        return false;
      }
    }
    if m.stepRate && kind == STEPPER && c.stepFunctions.Some? {
      var channel := TimerFunction(c.stepFunctions.value);
      if channel.None? || Timer(r.controller, channel.value) in s.timers {
        return false;
      }
    }
    eligible := device.bus.Some? ==> device.bus.value in c.buses;
  }

  method AllocateSearch(m: Machine, s: Ledger, c: Component, device: Device, kind: string, ghost demands: seq<Demand>)
    returns (next: Ledger)
    requires Tallies(m, s, demands)
    ensures Tallies(m, next, demands + [Search(c, device, kind)])
  {
    hide TextOf, Eligible, Tallies, Holder, TimerHolder, Candidates;
    ghost var d := Search(c, device, kind);
    var controller := SearchController(m, c);
    if controller.None? {
      DenialTallies(m, s, demands, d, c.name, AmbiguousController);
      return s.(denials := s.denials + [(c.name, AmbiguousController)]);
    }
    if controller.value !in m.boards {
      DenialTallies(m, s, demands, d, c.name, UnknownController);
      return s.(denials := s.denials + [(c.name, UnknownController)]);
    }
    var board := m.boards[controller.value];
    var i := 0;
    while i < |board|
      invariant i <= |board|
      invariant FirstEligible(m, s.assignments, device, kind, controller.value, board, 0)
                == FirstEligible(m, s.assignments, device, kind, controller.value, board, i)
    {
      var r := Resource(controller.value, board[i].0);
      var eligible := MayTake(m, s, device, kind, r, board[i].1, demands);
      if eligible {
        var a := Assignment(c.name, None, r, kind, Candidates(board, controller.value, kind));
        GrantTallies(m, s, demands, d, a);
        return Granting(m, s, a);
      }
      i := i + 1;
    }
    DenialTallies(m, s, demands, d, c.name, NoFreeConnector);
    next := s.(denials := s.denials + [(c.name, NoFreeConnector)]);
  }

  method ExplicitPass(m: Machine, s: Ledger) returns (next: Ledger)
    requires Tallies(m, s, [])
    ensures Tallies(m, next, ClaimDemands(m.components))
  {
    hide Tallies, ClaimKind;
    next := s;
    var i := 0;
    while i < |m.components|
      invariant i <= |m.components|
      invariant Tallies(m, next, ClaimDemands(m.components[..i]))
    {
      var c := m.components[i];
      ghost var before := ClaimDemands(m.components[..i]);
      var j := 0;
      assert before + AttributeDemands(c, []) == before;
      while j < |c.attributes|
        invariant j <= |c.attributes|
        invariant Tallies(m, next, before + AttributeDemands(c, c.attributes[..j]))
      {
        assert c.attributes[..j + 1][..j] == c.attributes[..j];
        ghost var soFar := before + AttributeDemands(c, c.attributes[..j]);
        var (name, text) := c.attributes[j];
        ConcatAssoc(before, AttributeDemands(c, c.attributes[..j]), AttributeDemand(c, name, text));
        assert soFar + [] == soFar;
        if text.Some? {
          var table := ClaimKind(name);
          if table.Some? {
            next := AllocateClaim(m, next, c, name, text.value, table.value, soFar);
          }
        }
        j := j + 1;
      }
      assert c.attributes[..|c.attributes|] == c.attributes;
      assert m.components[..i + 1][..i] == m.components[..i];
      i := i + 1;
    }
    assert m.components[..|m.components|] == m.components;
  }

  method HasNoClaim(c: Component) returns (none: bool)
    ensures none == ClaimsNothing(c)
  {
    var i := 0;
    while i < |c.attributes|
      invariant i <= |c.attributes|
      invariant forall k :: 0 <= k < i ==> c.attributes[k].1.None? || ClaimKind(c.attributes[k].0).None?
    {
      if ClaimKind(c.attributes[i].0).Some? && c.attributes[i].1.Some? {
        return false;
      }
      i := i + 1;
    }
    none := true;
  }

  method SearchPass(m: Machine, s: Ledger) returns (next: Ledger)
    requires Tallies(m, s, ClaimDemands(m.components))
    ensures Tallies(m, next, Demands(m))
  {
    hide Tallies, ClaimDemands, ClaimsNothing;
    next := s;
    var i := 0;
    ghost var claimed := ClaimDemands(m.components);
    assert claimed + SearchDemands(m, m.components[..0]) == claimed;
    while i < |m.components|
      invariant i <= |m.components|
      invariant Tallies(m, next, claimed + SearchDemands(m, m.components[..i]))
    {
      var c := m.components[i];
      assert m.components[..i + 1][..i] == m.components[..i];
      ghost var before := SearchDemands(m, m.components[..i]);
      ConcatAssoc(claimed, before, SearchDemand(m, c));
      assert before + [] == before;
      var none := HasNoClaim(c);
      if none {
        if c.kind in m.devices && m.devices[c.kind].connector.Some? {
          next := AllocateSearch(m, next, c, m.devices[c.kind], m.devices[c.kind].connector.value, claimed + before);
        }
      }
      i := i + 1;
    }
    assert m.components[..|m.components|] == m.components;
  }

  /** `clean` says no earlier phase reported an error. */
  function Allocated(m: Machine, clean: bool): Option<seq<Assignment>> {
    var outcomes := Outcomes(m, Demands(m));
    if clean && AllGranted(outcomes) then Some(GrantsOf(outcomes)) else None
  }

  method Allocate(m: Machine, clean: bool) returns (assignments: Option<seq<Assignment>>)
    ensures assignments == Allocated(m, clean)
  {
    hide Outcomes, GrantsOf, Demands, AllGranted, Holder, TimerHolder;
    StartsTallied(m);
    var s := ExplicitPass(m, Ledger(map[], map[], [], []));
    s := SearchPass(m, s);
    assignments := if !clean || s.denials != [] then None else Some(s.assignments);
  }
}
