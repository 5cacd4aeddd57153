// The safety partition of a resolved machine survives locking.
module LockLaws {
  import opened Prelude
  import opened Sorting
  import opened Allocation
  import opened AllocationLaws
  import opened Safety
  import opened Lock

  // ----- assignments of one machine ------------------------------------------------------------

  predicate DistinctNames(components: seq<Component>) {
    forall i, j :: 0 <= i < j < |components| ==> components[i].name != components[j].name
  }

  predicate DistinctAttributes(c: Component) {
    forall i, j :: 0 <= i < j < |c.attributes| ==> c.attributes[i].0 != c.attributes[j].0
  }

  /** Names are unique and every board belongs to a controller of the machine. */
  predicate WellFormedMachine(m: Machine) {
    && WellFormedBoards(m) && m.boards.Keys <= m.controllers
    && DistinctNames(m.components)
    && forall i :: 0 <= i < |m.components| ==> DistinctAttributes(m.components[i])
  }

  /** The key a demand's grant is locked under. */
  function KeyOf(d: Demand): (Name, Name) {
    (d.component.name, if d.Claim? then d.attribute else "requires.connector")
  }

  predicate DistinctKeys(demands: seq<Demand>) {
    forall i, j :: 0 <= i < j < |demands| ==> KeyOf(demands[i]) != KeyOf(demands[j])
  }

  predicate NamedIn(components: seq<Component>, d: Demand) {
    exists k :: 0 <= k < |components| && components[k].name == d.component.name
  }

  lemma {:induction false} AttributeKeys(c: Component, attributes: seq<(Name, Option<string>)>)
    requires forall i, j :: 0 <= i < j < |attributes| ==> attributes[i].0 != attributes[j].0
    ensures DistinctKeys(AttributeDemands(c, attributes))
    ensures forall d :: d in AttributeDemands(c, attributes) ==>
              d.Claim? && d.component == c && ClaimKind(d.attribute).Some?
              && exists k :: 0 <= k < |attributes| && attributes[k].0 == d.attribute
    decreases |attributes|
  {
    hide ClaimKind;
    if attributes != [] {
      var n := |attributes| - 1;
      var rest := attributes[..n];
      AttributeKeys(c, rest);
      forall d | d in AttributeDemands(c, attributes)
        ensures d.Claim? && d.component == c && ClaimKind(d.attribute).Some?
        ensures exists k :: 0 <= k < |attributes| && attributes[k].0 == d.attribute
      {
        if d in AttributeDemands(c, rest) {
          var k :| 0 <= k < |rest| && rest[k].0 == d.attribute;
          assert attributes[k].0 == d.attribute;
        } else {
          assert attributes[n].0 == d.attribute;
        }
      }
      var before := AttributeDemands(c, rest);
      forall i | 0 <= i < |before|
        ensures before[i].attribute != attributes[n].0
      {
        assert before[i] in before;
      }
    }
  }

  lemma {:induction false} ClaimKeys(components: seq<Component>)
    requires DistinctNames(components)
    requires forall i :: 0 <= i < |components| ==> DistinctAttributes(components[i])
    ensures DistinctKeys(ClaimDemands(components))
    ensures forall d :: d in ClaimDemands(components) ==>
              d.Claim? && NamedIn(components, d) && ClaimKind(d.attribute).Some?
    decreases |components|
  {
    hide ClaimKind, AttributeDemands;
    if components != [] {
      var n := |components| - 1;
      var rest, c := components[..n], components[n];
      ClaimKeys(rest);
      AttributeKeys(c, c.attributes);
      var before, own := ClaimDemands(rest), AttributeDemands(c, c.attributes);
      forall d: Demand | d in before + own
        ensures d.Claim? && NamedIn(components, d) && ClaimKind(d.attribute).Some?
      {
        if d in before {
          var k :| 0 <= k < |rest| && rest[k].name == d.component.name;
          assert components[k].name == d.component.name;
        } else {
          assert components[n].name == d.component.name;
        }
      }
      forall i, j | 0 <= i < |before| && 0 <= j < |own|
        ensures before[i].component.name != own[j].component.name
      {
        assert before[i] in before && own[j] in own;
      }
    }
  }

  lemma {:induction false} SearchKeys(m: Machine, components: seq<Component>)
    requires DistinctNames(components)
    ensures DistinctKeys(SearchDemands(m, components))
    ensures forall d :: d in SearchDemands(m, components) ==> d.Search? && NamedIn(components, d)
    decreases |components|
  {
    hide ClaimsNothing;
    if components != [] {
      var n := |components| - 1;
      var rest, c := components[..n], components[n];
      SearchKeys(m, rest);
      var before, own := SearchDemands(m, rest), SearchDemand(m, c);
      forall d: Demand | d in before + own
        ensures d.Search? && NamedIn(components, d)
      {
        if d in before {
          var k :| 0 <= k < |rest| && rest[k].name == d.component.name;
          assert components[k].name == d.component.name;
        } else {
          assert components[n].name == d.component.name;
        }
      }
      forall i | 0 <= i < |before|
        ensures before[i].component.name != c.name
      {
        assert before[i] in before;
      }
    }
  }

  lemma DemandKeys(m: Machine)
    requires WellFormedMachine(m)
    ensures DistinctKeys(Demands(m))
  {
    hide ClaimDemands, SearchDemands;
    ClaimKeys(m.components);
    SearchKeys(m, m.components);
    var claims, searches := ClaimDemands(m.components), SearchDemands(m, m.components);
    forall i, j | 0 <= i < |claims| && 0 <= j < |searches|
      ensures KeyOf(claims[i]) != KeyOf(searches[j])
    {
      assert claims[i] in claims && searches[j] in searches;
      assert ClaimKind("requires.connector").None?;
    }
  }

  /** What the lock stage relies on: grants with their own keys, on known controllers. */
  ghost predicate Resolved(m: Machine, resolved: seq<Assignment>) {
    && (forall i, j :: 0 <= i < j < |resolved| ==>
          (resolved[i].requestedBy, Mechanism(resolved[i].via))
          != (resolved[j].requestedBy, Mechanism(resolved[j].via)))
    && (forall i :: 0 <= i < |resolved| ==> resolved[i].resource.controller in m.controllers)
  }

  lemma AllocationResolves(m: Machine, clean: bool)
    requires WellFormedMachine(m) && Allocated(m, clean).Some?
    ensures Resolved(m, Allocated(m, clean).value)
  {
    hide Demands, Outcomes, GrantsOf, FindPort, TimerFunction, SplitOnce, DistinctNames, DistinctAttributes,
      WellFormedBoards, SearchController;
    AllocationSound(m, clean);
    DemandKeys(m);
    var resolved := Allocated(m, clean).value;
    forall i | 0 <= i < |resolved|
      ensures (resolved[i].requestedBy, Mechanism(resolved[i].via)) == KeyOf(Demands(m)[i])
      ensures resolved[i].resource.controller in m.controllers
    {
      assert Fulfilled(m, Demands(m), resolved, i);
    }
  }

  // ----- what is bound is resolved ------------------------------------------------------------------

  ghost predicate Holds(resolved: seq<Assignment>, r: Resource) {
    exists k :: 0 <= k < |resolved| && resolved[k].resource == r
  }

  lemma {:induction false} OwnedIsResolved(resolved: seq<Assignment>, name: Name)
    ensures forall a :: a in OwnedBy(resolved, name) ==> a in resolved
    decreases |resolved|
  {
    if resolved != [] {
      OwnedIsResolved(resolved[..|resolved| - 1], name);
    }
  }

  lemma {:induction false} OnceMeaning(assignments: seq<Assignment>)
    ensures forall r :: r in EachOnce(assignments) <==> exists a :: a in assignments && a.resource == r
    ensures Keyed((r: Resource) => r, EachOnce(assignments))
    decreases |assignments|
  {
    if assignments != [] {
      var rest := assignments[..|assignments| - 1];
      var last := assignments[|assignments| - 1];
      OnceMeaning(rest);
      assert assignments == rest + [last];
      assert last in assignments;
      forall r | r in EachOnce(rest)
        ensures exists a :: a in assignments && a.resource == r
      {
        var a :| a in rest && a.resource == r;
        assert a in assignments;
      }
    }
  }

  /** The governed resources are exactly those assigned, each once and in the order of their names. */
  lemma ResourcesMeaning(assignments: seq<Assignment>)
    ensures forall r :: r in ResourcesOf(assignments) <==> exists a :: a in assignments && a.resource == r
    ensures Keyed((r: Resource) => r, ResourcesOf(assignments))
    ensures Ascends(ResourceLeq, ResourcesOf(assignments))
  {
    hide EachOnce, ResourceLeq;
    OnceMeaning(assignments);
    SortKeeps(ResourceLeq, EachOnce(assignments));
    SortKeyed(ResourceLeq, (r: Resource) => r, EachOnce(assignments));
    ResourceOrder();
    SortAscends(ResourceLeq, EachOnce(assignments));
  }

  lemma ResourceOrder()
    ensures Order(ResourceLeq)
  {
    hide IdOf;
    forall a, b
      ensures ResourceLeq(a, b) || ResourceLeq(b, a)
    {
      NameTotal(IdOf(a), IdOf(b));
    }
    forall a, b, c | ResourceLeq(a, b) && ResourceLeq(b, c)
      ensures ResourceLeq(a, c)
    {
      NameTransitive(IdOf(a), IdOf(b), IdOf(c));
    }
  }

  lemma HoldsMember(resolved: seq<Assignment>, a: Assignment)
    requires a in resolved
    ensures Holds(resolved, a.resource)
  {
  }

  lemma TargetsResolved(resolved: seq<Assignment>, c: Component, r: Resource)
    requires Targets(resolved, c).Ok? && r in Targets(resolved, c).value
    ensures Holds(resolved, r)
  {
    hide OwnedBy, ResourcesOf, AllSteppers, Trim, TextOf;
    var own := OwnedBy(resolved, c.name);
    var name := if own != [] then c.name else Trim(TextOf(c.attributes, "driver").value);
    OwnedIsResolved(resolved, name);
    ResourcesMeaning(OwnedBy(resolved, name));
    var a :| a in OwnedBy(resolved, name) && a.resource == r;
    HoldsMember(resolved, a);
  }

  lemma {:induction false} FirstSensorLocal(assignments: seq<Assignment>, controller: Name)
    ensures var s := FirstSensor(assignments, controller);
      s.Some? ==>
        && s.value.controller == controller
        && exists a :: a in assignments && a.resource == s.value && SensorKind(a.kind)
    decreases |assignments|
  {
    if assignments != [] {
      FirstSensorLocal(assignments[1..], controller);
      assert assignments[0] in assignments;
    }
  }

  lemma SensorLocal(resolved: seq<Assignment>, c: Component, controller: Name)
    ensures var s := SensorOn(resolved, c, controller);
      s.Some? ==> s.value.controller == controller && Holds(resolved, s.value)
  {
    hide OwnedBy, FirstSensor, TextOf;
    var name := TextOf(c.attributes, "sensor");
    if name.Some? {
      OwnedIsResolved(resolved, name.value);
      FirstSensorLocal(OwnedBy(resolved, name.value), controller);
      if SensorOn(resolved, c, controller).Some? {
        var a :| a in OwnedBy(resolved, name.value) && a.resource == SensorOn(resolved, c, controller).value;
        HoldsMember(resolved, a);
      }
    }
  }

  // ----- the partition ------------------------------------------------------------------------------------

  /** A validated component's required sensor is on every controller of its targets. */
  lemma {:induction false} NoneElsewhere(resolved: seq<Assignment>, c: Component, targets: seq<Resource>)
    requires Elsewhere(resolved, c, targets) == []
    ensures forall k :: 0 <= k < |targets| ==> SensorOn(resolved, c, targets[k].controller).Some?
    decreases |targets|
  {
    hide SensorOn;
    if targets != [] {
      var n := |targets| - 1;
      var rest := targets[..n];
      NoneElsewhere(resolved, c, rest);
      if k :| 0 <= k < |rest| && rest[k].controller == targets[n].controller {
        assert SensorOn(resolved, c, rest[k].controller).Some?;
      }
    }
  }

  lemma {:induction false} FindingsOfEach(resolved: seq<Assignment>, profile: Profile, components: seq<Component>,
                                          k: nat)
    requires SafetyFindings(resolved, profile, components) == [] && k < |components|
    ensures ComponentFindings(resolved, profile, components[k]) == []
    decreases |components|
  {
    hide ComponentFindings;
    var n := |components| - 1;
    if k < n {
      FindingsOfEach(resolved, profile, components[..n], k);
    }
  }

  lemma SensorPresent(resolved: seq<Assignment>, profile: Profile, c: Component, r: Resource)
    requires ComponentFindings(resolved, profile, c) == [] && c.kind in profile && profile[c.kind].requiresSensor
    requires Targets(resolved, c).Ok? && r in Targets(resolved, c).value
    ensures SensorOn(resolved, c, r.controller).Some?
  {
    hide Targets, OwnedBy, Trim, TextOf, SensorOn, AnySensor, Elsewhere;
    NoneElsewhere(resolved, c, Targets(resolved, c).value);
  }

  /** A binding carries its class's policy, on a resolved resource, with a local
      resolved sensor whenever the policy requires one. */
  ghost predicate SoundBinding(resolved: seq<Assignment>, profile: Profile, b: Binding) {
    && b.class_ in profile
    && b.state == profile[b.class_].state && b.timeout == profile[b.class_].timeout
    && Holds(resolved, b.resource)
    && (b.sensor.Some? <==> profile[b.class_].requiresSensor)
    && (b.sensor.Some? ==> b.sensor.value.controller == b.resource.controller && Holds(resolved, b.sensor.value))
  }

  /** No resource is bound twice, and every binding is sound. */
  ghost predicate SoundParts(resolved: seq<Assignment>, profile: Profile, bindings: seq<Binding>) {
    && (forall i, j :: 0 <= i < j < |bindings| ==> bindings[i].resource != bindings[j].resource)
    && (forall k :: 0 <= k < |bindings| ==> SoundBinding(resolved, profile, bindings[k]))
  }

  lemma {:induction false} PartTargetsSound(resolved: seq<Assignment>, profile: Profile, c: Component,
                                            targets: seq<Resource>, from: Parted)
    requires c.kind in profile && SoundParts(resolved, profile, from.bindings)
    requires forall k :: 0 <= k < |targets| ==> Holds(resolved, targets[k])
    requires profile[c.kind].requiresSensor ==>
      forall k :: 0 <= k < |targets| ==> SensorOn(resolved, c, targets[k].controller).Some?
    ensures SoundParts(resolved, profile, PartTargets(resolved, profile[c.kind], c, targets, from).bindings)
    ensures PartTargets(resolved, profile[c.kind], c, targets, from).clashes >= from.clashes
    decreases |targets|
  {
    hide SensorOn, Holds;
    if targets != [] {
      var n := |targets| - 1;
      PartTargetsSound(resolved, profile, c, targets[..n], from);
      SensorLocal(resolved, c, targets[n].controller);
    }
  }

  lemma {:induction false} PartAllSound(resolved: seq<Assignment>, profile: Profile, components: seq<Component>)
    requires SafetyFindings(resolved, profile, components) == []
    ensures SoundParts(resolved, profile, PartAll(resolved, profile, components).bindings)
    decreases |components|
  {
    hide ComponentFindings, Targets, PartTargets, SoundParts, Holds, SensorOn;
    if components == [] {
      NoParts(resolved, profile);
    } else {
      var n := |components| - 1;
      var c := components[n];
      FindingsOfEach(resolved, profile, components, n);
      PartAllSound(resolved, profile, components[..n]);
      if c.kind in profile && Targets(resolved, c).Ok? {
        var targets := Targets(resolved, c).value;
        forall k | 0 <= k < |targets|
          ensures Holds(resolved, targets[k])
          ensures profile[c.kind].requiresSensor ==> SensorOn(resolved, c, targets[k].controller).Some?
        {
          TargetsResolved(resolved, c, targets[k]);
          if profile[c.kind].requiresSensor {
            SensorPresent(resolved, profile, c, targets[k]);
          }
        }
        PartTargetsSound(resolved, profile, c, targets, PartAll(resolved, profile, components[..n]));
      }
    }
  }

  lemma NoParts(resolved: seq<Assignment>, profile: Profile)
    ensures SoundParts(resolved, profile, [])
  {
  }

  /** Without a clash every resource a policy governs is bound by the component it governs. */
  ghost predicate BoundBy(bindings: seq<Binding>, name: Name, r: Resource) {
    exists k :: 0 <= k < |bindings| && bindings[k].component == name && bindings[k].resource == r
  }

  lemma {:induction false} PartTargetsCover(resolved: seq<Assignment>, policy: Policy, c: Component,
                                            targets: seq<Resource>, from: Parted)
    ensures var next := PartTargets(resolved, policy, c, targets, from);
      && next.clashes >= from.clashes
      && from.bindings <= next.bindings
      && (next.clashes == from.clashes ==> forall k :: 0 <= k < |targets| ==>
          BoundBy(next.bindings, c.name, targets[k]))
    decreases |targets|
  {
    hide SensorOn, Bound;
    if targets != [] {
      var n := |targets| - 1;
      PartTargetsCover(resolved, policy, c, targets[..n], from);
      var before := PartTargets(resolved, policy, c, targets[..n], from);
      var next := PartTargets(resolved, policy, c, targets, from);
      if next.clashes == from.clashes {
        assert next.bindings[|before.bindings|] == BindingFor(resolved, policy, c, targets[n]);
        forall k | 0 <= k < |targets|
          ensures BoundBy(next.bindings, c.name, targets[k])
        {
          if k < n {
            assert BoundBy(before.bindings, c.name, targets[..n][k]);
            BoundByGrows(before.bindings, next.bindings, c.name, targets[k]);
          }
        }
      }
    }
  }

  lemma BoundByGrows(a: seq<Binding>, b: seq<Binding>, name: Name, r: Resource)
    requires BoundBy(a, name, r) && a <= b
    ensures BoundBy(b, name, r)
  {
    var k :| 0 <= k < |a| && a[k].component == name && a[k].resource == r;
    assert b[k] == a[k];
  }

  lemma {:induction false} PartAllCovers(resolved: seq<Assignment>, profile: Profile, components: seq<Component>)
    ensures var parted := PartAll(resolved, profile, components);
      parted.clashes == 0 ==>
        forall i, r :: 0 <= i < |components| && Governs(resolved, profile, components[i], r) ==>
          BoundBy(parted.bindings, components[i].name, r)
    decreases |components|
  {
    hide Targets, PartTargets, BoundBy;
    if components != [] {
      var n := |components| - 1;
      var c := components[n];
      var before := PartAll(resolved, profile, components[..n]);
      var parted := PartAll(resolved, profile, components);
      PartAllCovers(resolved, profile, components[..n]);
      if c.kind in profile && Targets(resolved, c).Ok? {
        PartTargetsCover(resolved, profile[c.kind], c, Targets(resolved, c).value, before);
      }
      if parted.clashes == 0 {
        forall i, r | 0 <= i < |components| && Governs(resolved, profile, components[i], r)
          ensures BoundBy(parted.bindings, components[i].name, r)
        {
          if i < n {
            assert components[..n][i] == components[i];
            BoundByGrows(before.bindings, parted.bindings, components[i].name, r);
          } else {
            var targets := Targets(resolved, c).value;
            var k :| 0 <= k < |targets| && targets[k] == r;
            assert BoundBy(parted.bindings, c.name, targets[k]);
          }
        }
      }
    }
  }

  predicate Governs(resolved: seq<Assignment>, profile: Profile, c: Component, r: Resource) {
    c.kind in profile && Targets(resolved, c).Ok? && r in Targets(resolved, c).value
  }

  // ----- the lock -------------------------------------------------------------------------------------------

  lemma {:induction false} LocalToMembers(bindings: seq<Binding>, controller: Name)
    ensures forall b :: b in LocalTo(bindings, controller) <==> b in bindings && b.resource.controller == controller
    decreases |bindings|
  {
    if bindings != [] {
      var rest := bindings[..|bindings| - 1];
      LocalToMembers(rest, controller);
      assert bindings == rest + [bindings[|bindings| - 1]];
    }
  }

  predicate DistinctResources(bindings: seq<Binding>) {
    forall i, j :: 0 <= i < j < |bindings| ==> bindings[i].resource != bindings[j].resource
  }

  lemma {:induction false} LocalToDistinct(bindings: seq<Binding>, controller: Name)
    requires DistinctResources(bindings)
    ensures DistinctResources(LocalTo(bindings, controller))
    decreases |bindings|
  {
    if bindings != [] {
      var n := |bindings| - 1;
      var rest := bindings[..n];
      LocalToDistinct(rest, controller);
      LocalToMembers(rest, controller);
      var local := LocalTo(rest, controller);
      forall i | 0 <= i < |local|
        ensures local[i].resource != bindings[n].resource
      {
        assert local[i] in local && local[i] in rest;
      }
    }
  }

  lemma BindingOrder()
    ensures Order(BindingLeq) && Order(StateLeq)
  {
    hide KeysLeq, IdOf;
    KeysOrdered();
  }

  /** A controller's bindings in order are its bindings, each once. */
  lemma ArrangedMeaning(bindings: seq<Binding>, controller: Name)
    ensures forall b :: b in Arranged(bindings, controller) <==> b in bindings && b.resource.controller == controller
    ensures DistinctResources(bindings) ==> DistinctResources(Arranged(bindings, controller))
    ensures Ascends(BindingLeq, Arranged(bindings, controller))
  {
    hide LocalTo, BindingLeq, SortBy;
    var local := LocalTo(bindings, controller);
    LocalToMembers(bindings, controller);
    SortKeeps(BindingLeq, local);
    BindingOrder();
    SortAscends(BindingLeq, local);
    if DistinctResources(bindings) {
      LocalToDistinct(bindings, controller);
      SortKeyed(BindingLeq, (b: Binding) => b.resource, local);
      KeyedResources(SortBy(BindingLeq, local));
    }
  }

  lemma SameId(a: Resource, b: Resource)
    requires a.controller == b.controller && IdOf(a) == IdOf(b)
    ensures a == b
  {
    var n := |a.controller| + 1;
    assert IdOf(a)[n..] == a.port && IdOf(b)[n..] == b.port;
  }

  /** No other arrangement of a controller's bindings ascends. */
  lemma OneArrangement(bindings: seq<Binding>, controller: Name, other: seq<Binding>)
    requires DistinctResources(bindings)
    requires multiset(other) == multiset(LocalTo(bindings, controller)) && Ascends(BindingLeq, other)
    ensures other == Arranged(bindings, controller)
  {
    hide LocalTo, KeysLeq, IdOf, SortBy;
    var arranged := Arranged(bindings, controller);
    ArrangedMeaning(bindings, controller);
    SortKeeps(BindingLeq, LocalTo(bindings, controller));
    BindingOrder();
    KeysOrdered();
    forall x, y | x in arranged && y in arranged && BindingLeq(x, y) && BindingLeq(y, x)
      ensures x == y
    {
      SameId(x.resource, y.resource);
    }
    assert Distinguishes(BindingLeq, arranged);
    AscendingUnique(BindingLeq, arranged, other);
  }

  lemma KeyedResources(bindings: seq<Binding>)
    ensures Keyed((b: Binding) => b.resource, bindings) <==> DistinctResources(bindings)
  {
  }

  /** The order of bindings on one controller is that of the states they are locked as. */
  lemma LockedInOrder(bindings: seq<Binding>, controller: Name)
    requires Ascends(BindingLeq, bindings) && forall b :: b in bindings ==> b.resource.controller == controller
    ensures Ascends(StateLeq, Map(LockBinding, bindings))
  {
    hide NameLeq;
    var states := Map(LockBinding, bindings);
    forall i, j | 0 <= i < j < |states|
      ensures StateLeq(states[i], states[j])
    {
      assert bindings[i] in bindings && bindings[j] in bindings;
      assert BindingLeq(bindings[i], bindings[j]);
      NamePrefix(controller + ".", bindings[i].resource.port, bindings[j].resource.port);
    }
  }

  /** Every port assigned on a controller is among its locked resources. */
  lemma {:induction false} ResourceIsLocked(resolved: seq<Assignment>, k: nat)
    requires k < |resolved|
    requires forall i, j :: 0 <= i < j < |resolved| ==>
      (resolved[i].requestedBy, Mechanism(resolved[i].via)) != (resolved[j].requestedBy, Mechanism(resolved[j].via))
    ensures var locked := LockedResources(resolved, resolved[k].resource.controller);
      var key := (resolved[k].requestedBy, Mechanism(resolved[k].via));
      key in locked && locked[key] == resolved[k].resource.port
    decreases |resolved|
  {
    hide Mechanism;
    var n := |resolved| - 1;
    if k < n {
      ResourceIsLocked(resolved[..n], k);
      assert resolved[..n][k] == resolved[k];
    }
  }

  lemma HeldIsLocked(m: Machine, resolved: seq<Assignment>, r: Resource)
    requires Resolved(m, resolved) && Holds(resolved, r)
    ensures r.controller in m.controllers
    ensures r.port in LockedResources(resolved, r.controller).Values
  {
    hide LockedResources, Mechanism;
    var k :| 0 <= k < |resolved| && resolved[k].resource == r;
    ResourceIsLocked(resolved, k);
  }

  predicate WellLabelled(b: Binding) {
    Unpadded(b.component) && Unpadded(b.class_)
  }

  lemma PlanIsPlaceable(m: Machine, resolved: seq<Assignment>, profile: Profile, parted: Parted, plan: Plan)
    requires Resolved(m, resolved) && SoundParts(resolved, profile, parted.bindings) && Partitioned(plan, parted)
    ensures Placeable(m.controllers, plan.safety)
  {
    hide Resolved, Arranged, Holds, Bound;
    forall c | c in plan.safety
      ensures c in m.controllers && AllLocal(c, plan.safety[c])
    {
      var local := plan.safety[c];
      assert local == Arranged(parted.bindings, c);
      ArrangedMeaning(parted.bindings, c);
      assert local[0] in local;
      HeldIsLocked(m, resolved, local[0].resource);
      forall k | 0 <= k < |local|
        ensures Local(c, local[k])
      {
        assert local[k] in local;
      }
    }
  }

  lemma StatesOfPlan(plan: Plan, parted: Parted, controller: Name)
    requires Partitioned(plan, parted)
    ensures StatesFor(plan.safety, controller) == Map(LockBinding, Arranged(parted.bindings, controller))
  {
    hide Arranged, Bound, SortBy, StateLeq;
    ArrangedMeaning(parted.bindings, controller);
    LockedInOrder(Arranged(parted.bindings, controller), controller);
    SortFixes(StateLeq, Map(LockBinding, Arranged(parted.bindings, controller)));
  }

  lemma ControllerIsSound(m: Machine, resolved: seq<Assignment>, profile: Profile, parted: Parted, plan: Plan,
                          controller: Name)
    requires Resolved(m, resolved) && SoundParts(resolved, profile, parted.bindings) && Partitioned(plan, parted)
    requires forall c :: c in profile ==> profile[c].timeout != Some(0)
    ensures SoundController(LockedController(LockedResources(resolved, controller),
                                             StatesFor(plan.safety, controller))) <==>
            forall b :: b in Arranged(parted.bindings, controller) ==> WellLabelled(b)
  {
    hide Resolved, Arranged, Holds, Bound, LockedResources, Partitioned, Unpadded, SoundController, StatesFor;
    var local := Arranged(parted.bindings, controller);
    var k := LockedController(LockedResources(resolved, controller), StatesFor(plan.safety, controller));
    StatesOfPlan(plan, parted, controller);
    ArrangedMeaning(parted.bindings, controller);
    forall i | 0 <= i < |k.states|
      ensures SoundState(k, i) <==> WellLabelled(local[i])
    {
      StateIsSound(m, resolved, profile, local, controller, k, i);
    }
    SoundByStates(k, local);
  }

  lemma SoundByStates(k: LockedController, local: seq<Binding>)
    requires |k.states| == |local|
    requires forall i :: 0 <= i < |k.states| ==> (SoundState(k, i) <==> WellLabelled(local[i]))
    ensures SoundController(k) <==> forall b :: b in local ==> WellLabelled(b)
  {
    hide SoundState, WellLabelled;
    if forall b :: b in local ==> WellLabelled(b) {
      forall i | 0 <= i < |k.states|
        ensures SoundState(k, i)
      {
        assert local[i] in local;
      }
    }
  }

  lemma StateIsSound(m: Machine, resolved: seq<Assignment>, profile: Profile, local: seq<Binding>, controller: Name,
                     k: LockedController, i: nat)
    requires Resolved(m, resolved) && DistinctResources(local) && i < |local|
    requires forall b :: b in local ==> SoundBinding(resolved, profile, b) && b.resource.controller == controller
    requires forall c :: c in profile ==> profile[c].timeout != Some(0)
    requires k.states == Map(LockBinding, local) && k.resources == LockedResources(resolved, controller)
    ensures SoundState(k, i) <==> WellLabelled(local[i])
  {
    hide Resolved, Holds, LockedResources, Unpadded;
    var b := local[i];
    assert b in local;
    HeldIsLocked(m, resolved, b.resource);
    if b.sensor.Some? {
      HeldIsLocked(m, resolved, b.sensor.value);
    }
    forall j | 0 <= j < i
      ensures k.states[j].resource != k.states[i].resource
    {
      assert local[j] in local && local[j].resource != b.resource;
    }
  }

  /** For every machine that allocates, passes safety validation and partitions
      without a clash: no physical resource carries two safety actions, each one a
      policy governs carries one, each action has a local resolved sensor exactly
      when its policy wants one; generation places every action, and the generated
      controllers pass the lock's safety checks exactly when every bound component
      has a name and a class that are neither empty nor padded. */
  lemma PartitionSurvivesLocking(m: Machine, clean: bool, profile: Profile, plan: Plan)
    requires WellFormedMachine(m) && Allocated(m, clean).Some?
    requires forall c :: c in profile ==> profile[c].timeout != Some(0)
    requires SafetyFindings(Allocated(m, clean).value, profile, m.components) == []
    requires Partitioned(plan, PartAll(Allocated(m, clean).value, profile, m.components)) && plan.clashes == 0
    ensures var resolved := Allocated(m, clean).value;
      var bindings := PartAll(resolved, profile, m.components).bindings;
      && SoundParts(resolved, profile, bindings)
      && (forall i, r :: 0 <= i < |m.components| && Governs(resolved, profile, m.components[i], r) ==>
            BoundBy(bindings, m.components[i].name, r))
      && Placeable(m.controllers, plan.safety)
      && (SoundLock(LockOf(m.controllers, resolved, plan.safety)) <==> forall b :: b in bindings ==> WellLabelled(b))
  {
    hide Allocated, Resolved, SoundParts, SafetyFindings, PartAll, Partitioned, SoundController, Arranged,
      WellLabelled, WellFormedMachine, Placeable, BoundBy, Governs;
    var resolved := Allocated(m, clean).value;
    var parted := PartAll(resolved, profile, m.components);
    AllocationResolves(m, clean);
    PartAllSound(resolved, profile, m.components);
    PartAllCovers(resolved, profile, m.components);
    NoClashes(plan, parted);
    PlanIsPlaceable(m, resolved, profile, parted, plan);
    forall c | c in m.controllers
      ensures SoundController(LockOf(m.controllers, resolved, plan.safety)[c]) <==>
              forall b :: b in Arranged(parted.bindings, c) ==> WellLabelled(b)
    {
      ControllerIsSound(m, resolved, profile, parted, plan, c);
    }
    forall b | b in parted.bindings
      ensures b.resource.controller in m.controllers && b in Arranged(parted.bindings, b.resource.controller)
    {
      BindingIsHeld(m, resolved, profile, parted.bindings, b);
      ArrangedMeaning(parted.bindings, b.resource.controller);
    }
    forall c
      ensures forall b :: b in Arranged(parted.bindings, c) ==> b in parted.bindings
    {
      ArrangedMeaning(parted.bindings, c);
    }
  }

  lemma NoClashes(plan: Plan, parted: Parted)
    requires Partitioned(plan, parted) && plan.clashes == 0
    ensures parted.clashes == 0
  {
  }

  lemma BindingIsHeld(m: Machine, resolved: seq<Assignment>, profile: Profile, bindings: seq<Binding>, b: Binding)
    requires Resolved(m, resolved) && SoundParts(resolved, profile, bindings) && b in bindings
    ensures b.resource.controller in m.controllers
  {
    hide Resolved, Holds, LockedResources;
    HeldIsLocked(m, resolved, b.resource);
  }

  // ----- a padded class ---------------------------------------------------------------------

  const HOTEND := Component("hotend", " heater", [("output", Some("a.b"))])
  const OUTPUT := Connector("power_output", None, None, {})
  const PADDED := Machine([HOTEND], {"a"}, map["a" := [("b", OUTPUT)]], map[], false)
  const PADDED_PROFILE: Profile := map[" heater" := Policy(Off, None, false)]
  const PADDED_GRANT :=
    Assignment("hotend", Some("output"), Resource("a", "b"), "power_output", [Resource("a", "b")])

  lemma SplitsTarget()
    ensures SplitOnce("a.b") == Some(("a", "b"))
  {
    var rest := ".b";
    assert "a.b"[1..] == rest && rest[1..] == "b";
    assert SplitOnce(rest) == Some(([], "b"));
    assert ['a'] + [] == "a";
  }

  lemma PaddedClaim()
    ensures DecideClaim(PADDED, [], Claim(HOTEND, "output", "a.b", "power_output")) == Granted(PADDED_GRANT)
  {
    hide SplitOnce, TimerFunction;
    SplitsTarget();
  }

  lemma PaddedDemands()
    ensures Demands(PADDED) == [Claim(HOTEND, "output", "a.b", "power_output")]
  {
    hide SplitOnce;
    var attributes, components := HOTEND.attributes, PADDED.components;
    assert attributes[..0] == [] && components[..0] == [];
    assert AttributeDemands(HOTEND, []) == [] && ClaimDemands([]) == [] && SearchDemands(PADDED, []) == [];
    assert AttributeDemands(HOTEND, attributes) == [Claim(HOTEND, "output", "a.b", "power_output")];
    assert SearchDemand(PADDED, HOTEND) == [];
  }

  lemma PaddedAllocates()
    ensures Allocated(PADDED, true) == Some([PADDED_GRANT])
  {
    hide DecideClaim, Demands, SplitOnce;
    PaddedClaim();
    PaddedDemands();
    var demands := Demands(PADDED);
    assert demands[..0] == [];
    assert Outcomes(PADDED, []) == [] && GrantsOf([]) == [];
    var granted := [Granted(PADDED_GRANT)];
    assert Decide(PADDED, [], demands[0]) == granted[0];
    assert Outcomes(PADDED, demands) == granted;
    assert granted[..0] == [];
    assert GrantsOf(granted) == [PADDED_GRANT];
    assert AllGranted(granted);
    assert Allocated(PADDED, true) == Some(GrantsOf(granted));
  }

  lemma PaddedTargets()
    ensures OwnedBy([PADDED_GRANT], "hotend") == [PADDED_GRANT]
    ensures Targets([PADDED_GRANT], HOTEND) == Ok([Resource("a", "b")])
  {
    var grants := [PADDED_GRANT];
    assert grants[..0] == [];
    assert OwnedBy([], "hotend") == [] && EachOnce([]) == [];
    assert OwnedBy(grants, "hotend") == grants;
    var resources := EachOnce(grants);
    assert resources == [Resource("a", "b")];
    assert resources[..0] == [];
    assert SortBy(ResourceLeq, []) == [];
    assert SortBy(ResourceLeq, resources) == resources;
  }

  lemma PaddedParts()
    ensures SafetyFindings([PADDED_GRANT], PADDED_PROFILE, PADDED.components) == []
    ensures PartAll([PADDED_GRANT], PADDED_PROFILE, PADDED.components)
            == Parted([Binding("hotend", " heater", Resource("a", "b"), Off, None, None)], 0)
  {
    hide Targets, OwnedBy, SensorOn;
    PaddedTargets();
    var components := PADDED.components;
    assert components[..0] == [];
    assert SafetyFindings([PADDED_GRANT], PADDED_PROFILE, []) == [];
    assert PartAll([PADDED_GRANT], PADDED_PROFILE, []) == Parted([], 0);
    var targets := [Resource("a", "b")];
    assert targets[..0] == [];
    assert PartTargets([PADDED_GRANT], PADDED_PROFILE[" heater"], HOTEND, [], Parted([], 0)) == Parted([], 0);
  }

  lemma PaddedIsWellFormed()
    ensures WellFormedMachine(PADDED)
  {
  }

  lemma PaddedLabel()
    ensures !Unpadded(" heater")
  {
    assert Trim(" heater") == Trim("heater") by {
      assert " heater"[1..] == "heater";
    }
    TrimShortens("heater");
  }

  lemma {:induction false} TrimShortens(s: string)
    ensures |Trim(s)| <= |s|
  {
    LeftShortens(s);
    RightShortens(TrimLeft(s));
  }

  lemma {:induction false} LeftShortens(s: string)
    ensures |TrimLeft(s)| <= |s|
  {
    if s != [] && IsSpace(s[0]) {
      LeftShortens(s[1..]);
    }
  }

  lemma {:induction false} RightShortens(s: string)
    ensures |TrimRight(s)| <= |s|
  {
    if s != [] && IsSpace(s[|s| - 1]) {
      RightShortens(s[..|s| - 1]);
    }
  }

  /** A machine whose one class begins with a blank allocates, validates, partitions
      without a clash and has its actions placed; then its lock is refused. */
  lemma PaddedClassFailsLock(plan: Plan)
    requires Partitioned(plan, PartAll([PADDED_GRANT], PADDED_PROFILE, PADDED.components))
    ensures Allocated(PADDED, true) == Some([PADDED_GRANT])
    ensures SafetyFindings([PADDED_GRANT], PADDED_PROFILE, PADDED.components) == [] && plan.clashes == 0
    ensures Placeable(PADDED.controllers, plan.safety)
    ensures !SoundLock(LockOf(PADDED.controllers, [PADDED_GRANT], plan.safety))
  {
    hide Allocated, SafetyFindings, PartAll, Arranged, Unpadded, WellFormedMachine, Placeable, SoundParts, Governs,
      BoundBy, LockOf, SoundLock;
    PaddedAllocates();
    PaddedParts();
    PaddedLabel();
    PaddedIsWellFormed();
    PartitionSurvivesLocking(PADDED, true, PADDED_PROFILE, plan);
    assert !WellLabelled(Binding("hotend", " heater", Resource("a", "b"), Off, None, None));
  }
}
