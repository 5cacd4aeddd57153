// What a successful allocation promises over both passes.
module AllocationLaws {
  import opened Prelude
  import opened Allocation

  // ----- the tables as lists -----------------------------------------------------------------

  lemma {:induction false} HolderMeaning(earlier: seq<Assignment>, r: Resource)
    ensures Holder(earlier, r).None? <==> forall k :: 0 <= k < |earlier| ==> earlier[k].resource != r
    decreases |earlier|
  {
    if earlier != [] {
      var rest := earlier[..|earlier| - 1];
      HolderMeaning(rest, r);
      assert forall k :: 0 <= k < |rest| ==> rest[k] == earlier[k];
    }
  }

  lemma {:induction false} TimerHolderMeaning(m: Machine, earlier: seq<Assignment>, t: Timer)
    ensures TimerHolder(m, earlier, t).None? <==>
            forall k :: 0 <= k < |earlier| ==> TimerOf(m, earlier[k].resource) != Some(t)
    decreases |earlier|
  {
    hide TimerOf;
    if earlier != [] {
      var rest := earlier[..|earlier| - 1];
      TimerHolderMeaning(m, rest, t);
      assert forall k :: 0 <= k < |rest| ==> rest[k] == earlier[k];
    }
  }

  /** Each outcome is decided against the grants before it. */
  lemma {:induction false} OutcomeAt(m: Machine, demands: seq<Demand>, i: nat)
    requires i < |demands|
    ensures Outcomes(m, demands)[..i] == Outcomes(m, demands[..i])
    ensures Outcomes(m, demands)[i] == Decide(m, GrantsOf(Outcomes(m, demands[..i])), demands[i])
    decreases |demands|
  {
    hide Decide, GrantsOf;
    var rest := demands[..|demands| - 1];
    if i < |rest| {
      OutcomeAt(m, rest, i);
      assert rest[..i] == demands[..i];
      assert Outcomes(m, demands)[..i] == Outcomes(m, rest)[..i];
    } else {
      assert demands[..i] == rest;
    }
  }

  lemma {:induction false} GrantsAligned(outcomes: seq<Outcome>)
    requires AllGranted(outcomes)
    ensures |GrantsOf(outcomes)| == |outcomes|
    ensures forall i :: 0 <= i < |outcomes| ==> GrantsOf(outcomes)[i] == outcomes[i].assignment
    decreases |outcomes|
  {
    if outcomes != [] {
      var rest := outcomes[..|outcomes| - 1];
      assert AllGranted(rest);
      GrantsAligned(rest);
    }
  }

  lemma {:induction false} GrantsPrefix(outcomes: seq<Outcome>, i: nat)
    requires AllGranted(outcomes) && i <= |outcomes|
    ensures AllGranted(outcomes[..i])
    ensures i <= |GrantsOf(outcomes)| && GrantsOf(outcomes[..i]) == GrantsOf(outcomes)[..i]
  {
    GrantsAligned(outcomes);
    GrantsAligned(outcomes[..i]);
  }

  // ----- one grant ------------------------------------------------------------------------------

  predicate DistinctPorts(board: Board) {
    forall i, j :: 0 <= i < j < |board| ==> board[i].0 != board[j].0
  }

  predicate WellFormedBoards(m: Machine) {
    forall c :: c in m.boards ==> DistinctPorts(m.boards[c])
  }

  lemma {:induction false} FindPortAt(board: Board, i: nat)
    requires DistinctPorts(board) && i < |board|
    ensures FindPort(board, board[i].0) == Some(board[i].1)
    decreases |board|
  {
    if i > 0 {
      FindPortAt(board[1..], i - 1);
    }
  }

  /** The port a search takes is the first eligible one. */
  lemma {:induction false} FirstEligibleMeaning(m: Machine, earlier: seq<Assignment>, device: Device, kind: string,
                                                controller: Name, board: Board, from: nat)
    requires from <= |board|
    ensures var found := FirstEligible(m, earlier, device, kind, controller, board, from);
      var last := if found.Some? then found.value else |board|;
      && (forall j :: from <= j < last ==>
            !Eligible(m, earlier, device, kind, Resource(controller, board[j].0), board[j].1))
      && (found.Some? ==> Eligible(m, earlier, device, kind, Resource(controller, board[last].0), board[last].1))
    decreases |board| - from
  {
    hide Eligible;
    if from < |board| && !Eligible(m, earlier, device, kind, Resource(controller, board[from].0), board[from].1) {
      FirstEligibleMeaning(m, earlier, device, kind, controller, board, from + 1);
    }
  }

  /** The assignment is the port the claim names. */
  predicate ServesClaim(d: Demand, a: Assignment) {
    d.Claim? && a.via == Some(d.attribute) && SplitOnce(d.text) == Some((a.resource.controller, a.resource.port))
  }

  /** The assignment is on the component's controller, meets its device's domain
      and bus requirements, and no earlier port of the board was eligible then. */
  ghost predicate ServesSearch(m: Machine, earlier: seq<Assignment>, d: Demand, a: Assignment) {
    && d.Search? && a.via == None
    && SearchController(m, d.component) == Some(a.resource.controller)
    && a.resource.controller in m.boards
    && exists i ::
         var board := m.boards[a.resource.controller];
         && 0 <= i < |board| && board[i].0 == a.resource.port
         && DomainFits(d.device, board[i].1) && BusFits(d.device, board[i].1)
         && forall j :: 0 <= j < i ==>
              !Eligible(m, earlier, d.device, d.kind, Resource(a.resource.controller, board[j].0), board[j].1)
  }

  /** The resource exists, has the kind asked for, and is free, as is its timer if it needs one. */
  ghost predicate Free(m: Machine, earlier: seq<Assignment>, d: Demand, a: Assignment) {
    var c := ConnectorAt(m, a.resource);
    && a.requestedBy == d.component.name
    && c.Some? && c.value.kind == ExpectedKind(m, d) == a.kind
    && (forall k :: 0 <= k < |earlier| ==> earlier[k].resource != a.resource)
    && (Timed(m, c.value) ==>
          && TimerOf(m, a.resource).Some?
          && forall k :: 0 <= k < |earlier| ==> TimerOf(m, earlier[k].resource) != TimerOf(m, a.resource))
    && (d.Claim? && RequiredBus(m, d.component.kind).Some? ==> RequiredBus(m, d.component.kind).value in c.value.buses)
  }

  lemma ClaimGranted(m: Machine, earlier: seq<Assignment>, d: Demand, a: Assignment)
    requires d.Claim? && Decide(m, earlier, d) == Granted(a)
    ensures Free(m, earlier, d, a) && ServesClaim(d, a)
  {
    hide SplitOnce, FindPort, TimerFunction, Holder, TimerHolder, ExpectedKind;
    HolderMeaning(earlier, a.resource);
    var c := FindPort(m.boards[a.resource.controller], a.resource.port).value;
    if Timed(m, c) {
      TimerHolderMeaning(m, earlier, TimerAt(m, a.resource, c).value);
    }
  }

  lemma SearchGranted(m: Machine, earlier: seq<Assignment>, d: Demand, a: Assignment)
    requires WellFormedBoards(m) && d.Search? && Decide(m, earlier, d) == Granted(a)
    ensures Free(m, earlier, d, a) && ServesSearch(m, earlier, d, a)
  {
    hide FindPort, TimerFunction, Holder, TimerHolder, SearchController, Candidates, FirstEligible;
    var controller := a.resource.controller;
    var board := m.boards[controller];
    var i := FirstEligible(m, earlier, d.device, d.kind, controller, board, 0).value;
    FirstEligibleMeaning(m, earlier, d.device, d.kind, controller, board, 0);
    FindPortAt(board, i);
    HolderMeaning(earlier, a.resource);
    if Timed(m, board[i].1) {
      TimerHolderMeaning(m, earlier, TimerAt(m, a.resource, board[i].1).value);
    }
    assert board[i].0 == a.resource.port && DomainFits(d.device, board[i].1) && BusFits(d.device, board[i].1);
  }

  // ----- the whole allocation ----------------------------------------------------------------------

  /** The demand and the grant of one place, against the grants before it. */
  ghost predicate Fulfilled(m: Machine, demands: seq<Demand>, assignments: seq<Assignment>, i: nat)
    requires i < |demands| && i < |assignments|
  {
    && Free(m, assignments[..i], demands[i], assignments[i])
    && (demands[i].Claim? ==> ServesClaim(demands[i], assignments[i]))
    && (demands[i].Search? ==> ServesSearch(m, assignments[..i], demands[i], assignments[i]))
  }

  lemma GrantAt(m: Machine, demands: seq<Demand>, i: nat)
    requires WellFormedBoards(m) && AllGranted(Outcomes(m, demands)) && i < |demands|
    ensures |GrantsOf(Outcomes(m, demands))| == |demands|
    ensures Fulfilled(m, demands, GrantsOf(Outcomes(m, demands)), i)
  {
    hide Decide, Outcomes, GrantsOf, Free, ServesClaim, ServesSearch, WellFormedBoards;
    var outcomes := Outcomes(m, demands);
    GrantsAligned(outcomes);
    OutcomeAt(m, demands, i);
    GrantsPrefix(outcomes, i);
    var earlier := GrantsOf(outcomes)[..i];
    assert outcomes[i].Granted?;
    if demands[i].Claim? {
      ClaimGranted(m, earlier, demands[i], outcomes[i].assignment);
    } else {
      SearchGranted(m, earlier, demands[i], outcomes[i].assignment);
    }
  }

  /** A successful allocation meets every demand of the machine, in order: each
      resource exists and has the kind asked for, explicit claims get the port
      they name, searches the least port eligible at that moment. Over both
      passes no resource is given twice, every stepper socket with a known step
      pin has a timer channel when a step rate is declared, and no channel is
      given twice. */
  lemma AllocationSound(m: Machine, clean: bool)
    requires WellFormedBoards(m) && Allocated(m, clean).Some?
    ensures var demands := Demands(m);
      var assignments := Allocated(m, clean).value;
      && |assignments| == |demands|
      && (forall i :: 0 <= i < |demands| ==> Fulfilled(m, demands, assignments, i))
      && (forall i, j :: 0 <= i < j < |assignments| ==> assignments[i].resource != assignments[j].resource)
      && (forall i, j :: 0 <= i < j < |assignments| && TimerOf(m, assignments[i].resource).Some? ==>
            TimerOf(m, assignments[i].resource) != TimerOf(m, assignments[j].resource))
  {
    hide Demands, Outcomes, GrantsOf, ServesClaim, ServesSearch, TimerFunction, FindPort, WellFormedBoards;
    var demands := Demands(m);
    var assignments := Allocated(m, clean).value;
    GrantsAligned(Outcomes(m, demands));
    forall i | 0 <= i < |demands|
      ensures Fulfilled(m, demands, assignments, i)
    {
      GrantAt(m, demands, i);
    }
    forall i, j | 0 <= i < j < |assignments|
      ensures assignments[i].resource != assignments[j].resource
      ensures TimerOf(m, assignments[i].resource).Some? ==>
                TimerOf(m, assignments[i].resource) != TimerOf(m, assignments[j].resource)
    {
      assert Fulfilled(m, demands, assignments, j);
      assert assignments[..j][i] == assignments[i];
    }
  }

  /** A search fails for want of a connector exactly when no port of its board is eligible. */
  lemma SearchFailsExactly(m: Machine, earlier: seq<Assignment>, d: Demand)
    requires d.Search?
    ensures Decide(m, earlier, d) == Denied(d.component.name, NoFreeConnector) <==>
            && SearchController(m, d.component).Some? && SearchController(m, d.component).value in m.boards
            && var controller := SearchController(m, d.component).value;
               var board := m.boards[controller];
               forall j :: 0 <= j < |board| ==>
                 !Eligible(m, earlier, d.device, d.kind, Resource(controller, board[j].0), board[j].1)
  {
    hide Eligible, SearchController, Candidates, FirstEligible;
    var controller := SearchController(m, d.component);
    if controller.Some? && controller.value in m.boards {
      FirstEligibleMeaning(m, earlier, d.device, d.kind, controller.value, m.boards[controller.value], 0);
    }
  }
}
