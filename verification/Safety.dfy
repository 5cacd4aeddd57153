// Safety validation and firmware partitioning of
// crates/machine-resolver/src/safety.rs.
module Safety {
  import opened Prelude
  import opened Sorting
  import opened Allocation

  datatype SafeState = Off | Disabled

  datatype Policy = Policy(state: SafeState, timeout: Option<u64>, requiresSensor: bool)

  /** Policies by component class. */
  type Profile = map<string, Policy>

  /** One safety action for a controller. */
  datatype Binding = Binding(component: Name, class_: string, resource: Resource, state: SafeState,
                             timeout: Option<u64>, sensor: Option<Resource>)

  datatype SafetyError =
    | UnfitDriver
    | NoPolicy
    | NoResource
    | NoSensor
    | SensorUnresolved
    | SensorElsewhere
    | NotASensor

  // ----- text --------------------------------------------------------------------------------

  predicate IsSpace(c: char) {
    c == ' ' || c == '\t' || c == '\n' || c == '\r'
  }

  function TrimLeft(s: string): string {
    if s != [] && IsSpace(s[0]) then TrimLeft(s[1..]) else s
  }

  function TrimRight(s: string): string {
    if s != [] && IsSpace(s[|s| - 1]) then TrimRight(s[..|s| - 1]) else s
  }

  function Trim(s: string): string {
    TrimRight(TrimLeft(s))
  }

  // ----- what a component governs ---------------------------------------------------------------

  function OwnedBy(resolved: seq<Assignment>, name: Name): seq<Assignment> {
    if resolved == [] then []
    else
      var last := resolved[|resolved| - 1];
      var before := OwnedBy(resolved[..|resolved| - 1], name);
      if last.requestedBy == name then before + [last] else before
  }

  /** A resource's name across the machine. */
  function IdOf(r: Resource): string {
    r.controller + "." + r.port
  }

  predicate ResourceLeq(a: Resource, b: Resource) {
    NameLeq(IdOf(a), IdOf(b))
  }

  function EachOnce(assignments: seq<Assignment>): seq<Resource> {
    if assignments == [] then []
    else
      var last := assignments[|assignments| - 1];
      var before := EachOnce(assignments[..|assignments| - 1]);
      if last.resource in before then before else before + [last.resource]
  }

  /** The resources of the assignments, each once, in the order of their names. */
  function ResourcesOf(assignments: seq<Assignment>): seq<Resource> {
    SortBy(ResourceLeq, EachOnce(assignments))
  }

  predicate AllSteppers(assignments: seq<Assignment>) {
    forall k :: 0 <= k < |assignments| ==> assignments[k].kind == STEPPER
  }

  /** The physical resources a component's policy governs: its own, or those of its driver. */
  function Targets(resolved: seq<Assignment>, c: Component): Result<seq<Resource>, SafetyError> {
    var own := OwnedBy(resolved, c.name);
    if own != [] then Ok(ResourcesOf(own))
    else
      match TextOf(c.attributes, "driver")
      case None => Ok([])
      case Some(text) =>
        if Trim(text) == [] then Err(UnfitDriver)
        else
          var driven := OwnedBy(resolved, Trim(text));
          if !AllSteppers(driven) then Err(UnfitDriver) else Ok(ResourcesOf(driven))
  }

  predicate SensorKind(kind: string) {
    kind == "analog_input" || kind == "digital_input"
  }

  /** The first sensor input among the assignments on the controller. */
  function FirstSensor(assignments: seq<Assignment>, controller: Name): Option<Resource> {
    if assignments == [] then None
    else if SensorKind(assignments[0].kind) && assignments[0].resource.controller == controller
      then Some(assignments[0].resource)
    else FirstSensor(assignments[1..], controller)
  }

  function SensorOn(resolved: seq<Assignment>, c: Component, controller: Name): Option<Resource> {
    match TextOf(c.attributes, "sensor")
    case None => None
    case Some(name) => FirstSensor(OwnedBy(resolved, name), controller)
  }

  // ----- validation ---------------------------------------------------------------------------------

  predicate Hazardous(own: seq<Assignment>) {
    exists k :: 0 <= k < |own| && own[k].kind == "power_output"
  }

  predicate AnySensor(assignments: seq<Assignment>) {
    exists k :: 0 <= k < |assignments| && SensorKind(assignments[k].kind)
  }

  /** One finding for each controller of the targets without the required sensor. */
  function Elsewhere(resolved: seq<Assignment>, c: Component, targets: seq<Resource>): seq<SafetyError> {
    if targets == [] then []
    else
      var last := targets[|targets| - 1];
      var before := targets[..|targets| - 1];
      var found := Elsewhere(resolved, c, before);
      if (forall k :: 0 <= k < |before| ==> before[k].controller != last.controller)
        && SensorOn(resolved, c, last.controller).None?
      then found + [SensorElsewhere] else found
  }

  function SensorFindings(resolved: seq<Assignment>, c: Component, targets: seq<Resource>): seq<SafetyError> {
    match TextOf(c.attributes, "sensor")
    case None => [NoSensor]
    case Some(name) =>
      if Trim(name) == [] then [NoSensor]
      else if OwnedBy(resolved, name) == [] then [SensorUnresolved]
      else if !AnySensor(OwnedBy(resolved, name)) then [NotASensor]
      else Elsewhere(resolved, c, targets)
  }

  function ComponentFindings(resolved: seq<Assignment>, profile: Profile, c: Component): seq<SafetyError> {
    match Targets(resolved, c)
    case Err(e) => [e]
    case Ok(targets) =>
      var own := OwnedBy(resolved, c.name);
      var driverBacked := own == [] && TextOf(c.attributes, "driver").Some?;
      if c.kind !in profile then (if Hazardous(own) || driverBacked then [NoPolicy] else [])
      else if targets == [] then [NoResource]
      else if !profile[c.kind].requiresSensor then []
      else SensorFindings(resolved, c, targets)
  }

  function SafetyFindings(resolved: seq<Assignment>, profile: Profile, components: seq<Component>): seq<SafetyError> {
    if components == [] then []
    else
      SafetyFindings(resolved, profile, components[..|components| - 1])
      + ComponentFindings(resolved, profile, components[|components| - 1])
  }

  method CheckSensor(resolved: seq<Assignment>, c: Component, targets: seq<Resource>) returns (found: seq<SafetyError>)
    ensures found == SensorFindings(resolved, c, targets)
  {
    var sensor := TextOf(c.attributes, "sensor");
    if sensor.None? || Trim(sensor.value) == [] {
      return [NoSensor];
    }
    var owned := OwnedBy(resolved, sensor.value);
    if owned == [] {
      return [SensorUnresolved];
    }
    if !AnySensor(owned) {
      return [NotASensor];
    }
    found := [];
    var checked: set<Name> := {};
    var i := 0;
    while i < |targets|
      invariant i <= |targets|
      invariant found == Elsewhere(resolved, c, targets[..i])
      invariant forall n :: n in checked <==> exists k :: 0 <= k < i && targets[k].controller == n
    {
      assert targets[..i + 1][..i] == targets[..i];
      var controller := targets[i].controller;
      if controller !in checked {
        checked := checked + {controller};
        if SensorOn(resolved, c, controller).None? {
          found := found + [SensorElsewhere];
        }
      }
      i := i + 1;
    }
    assert targets[..|targets|] == targets;
  }

  method ValidateSafety(resolved: seq<Assignment>, profile: Profile, components: seq<Component>)
    returns (found: seq<SafetyError>)
    ensures found == SafetyFindings(resolved, profile, components)
  {
    hide Targets, SensorFindings, OwnedBy, TextOf;
    found := [];
    var i := 0;
    while i < |components|
      invariant i <= |components|
      invariant found == SafetyFindings(resolved, profile, components[..i])
    {
      assert components[..i + 1][..i] == components[..i];
      var c := components[i];
      i := i + 1;
      ghost var before := found;
      var own := OwnedBy(resolved, c.name);
      var targets := Targets(resolved, c);
      if targets.Err? {
        found := found + [targets.error];
        continue;
      }
      var driverBacked := own == [] && TextOf(c.attributes, "driver").Some?;
      assert before + [] == before;
      if (Hazardous(own) || driverBacked) && c.kind !in profile {
        found := found + [NoPolicy];
      }
      if c.kind !in profile {
        continue;
      }
      if targets.value == [] {
        found := found + [NoResource];
        continue;
      }
      if !profile[c.kind].requiresSensor {
        continue;
      }
      var more := CheckSensor(resolved, c, targets.value);
      found := found + more;
    }
    assert components[..|components|] == components;
  }

  // ----- partitioning -----------------------------------------------------------------------------------

  function BindingFor(resolved: seq<Assignment>, policy: Policy, c: Component, r: Resource): Binding {
    Binding(c.name, c.kind, r, policy.state, policy.timeout,
            if policy.requiresSensor then SensorOn(resolved, c, r.controller) else None)
  }

  /** What partitioning has bound, and how many resources it found bound already. */
  datatype Parted = Parted(bindings: seq<Binding>, clashes: nat)

  predicate Bound(bindings: seq<Binding>, r: Resource) {
    exists k :: 0 <= k < |bindings| && bindings[k].resource == r
  }

  function PartTargets(resolved: seq<Assignment>, policy: Policy, c: Component, targets: seq<Resource>,
                       from: Parted): Parted {
    if targets == [] then from
    else
      var last := targets[|targets| - 1];
      var before := PartTargets(resolved, policy, c, targets[..|targets| - 1], from);
      if Bound(before.bindings, last) then before.(clashes := before.clashes + 1)
      else before.(bindings := before.bindings + [BindingFor(resolved, policy, c, last)])
  }

  function PartComponent(resolved: seq<Assignment>, profile: Profile, c: Component, from: Parted): Parted {
    if c.kind !in profile then from
    else
      match Targets(resolved, c)
      case Err(_) => from
      case Ok(targets) => PartTargets(resolved, profile[c.kind], c, targets, from)
  }

  function PartAll(resolved: seq<Assignment>, profile: Profile, components: seq<Component>): Parted {
    if components == [] then Parted([], 0)
    else
      PartComponent(resolved, profile, components[|components| - 1],
                    PartAll(resolved, profile, components[..|components| - 1]))
  }

  /** The bindings of one controller. */
  function LocalTo(bindings: seq<Binding>, controller: Name): seq<Binding> {
    if bindings == [] then []
    else
      var last := bindings[|bindings| - 1];
      var before := LocalTo(bindings[..|bindings| - 1], controller);
      if last.resource.controller == controller then before + [last] else before
  }

  /** The tables of the partitioning loop: who owns each resource, and the bindings by controller. */
  datatype Plan = Plan(owners: map<Resource, Name>, safety: map<Name, seq<Binding>>, clashes: nat)

  ghost predicate Plans(plan: Plan, parted: Parted) {
    && plan.clashes == parted.clashes
    && (forall r :: r in plan.owners <==> Bound(parted.bindings, r))
    && (forall c :: (if c in plan.safety then plan.safety[c] else []) == LocalTo(parted.bindings, c))
    && (forall c :: c in plan.safety ==> plan.safety[c] != [])
  }

  lemma PlanGrows(plan: Plan, parted: Parted, b: Binding)
    requires Plans(plan, parted)
    ensures var controller := b.resource.controller;
      var local := if controller in plan.safety then plan.safety[controller] else [];
      Plans(Plan(plan.owners[b.resource := b.component], plan.safety[controller := local + [b]], plan.clashes),
            parted.(bindings := parted.bindings + [b]))
  {
    var next := parted.bindings + [b];
    assert next[..|parted.bindings|] == parted.bindings;
    forall r
      ensures Bound(next, r) <==> Bound(parted.bindings, r) || r == b.resource
    {
      if Bound(parted.bindings, r) {
        var k :| 0 <= k < |parted.bindings| && parted.bindings[k].resource == r;
        assert next[k].resource == r;
      }
      assert next[|parted.bindings|] == b;
    }
  }

  method PartitionComponent(resolved: seq<Assignment>, policy: Policy, c: Component, targets: seq<Resource>,
                            plan: Plan, ghost parted: Parted)
    returns (next: Plan)
    requires Plans(plan, parted)
    ensures Plans(next, PartTargets(resolved, policy, c, targets, parted))
  {
    hide Plans, SensorOn, Bound;
    next := plan;
    var i := 0;
    while i < |targets|
      invariant i <= |targets|
      invariant Plans(next, PartTargets(resolved, policy, c, targets[..i], parted))
    {
      assert targets[..i + 1][..i] == targets[..i];
      ghost var before := PartTargets(resolved, policy, c, targets[..i], parted);
      var r := targets[i];
      OwnersBound(next, before, r);
      if r in next.owners {
        ClashCounts(next, before);
        next := next.(clashes := next.clashes + 1);
      } else {
        var sensor := if policy.requiresSensor then SensorOn(resolved, c, r.controller) else None;
        var b := Binding(c.name, c.kind, r, policy.state, policy.timeout, sensor);
        PlanGrows(next, before, b);
        var local := if r.controller in next.safety then next.safety[r.controller] else [];
        next := next.(owners := next.owners[r := c.name], safety := next.safety[r.controller := local + [b]]);
      }
      i := i + 1;
    }
    assert targets[..|targets|] == targets;
  }

  lemma OwnersBound(plan: Plan, parted: Parted, r: Resource)
    requires Plans(plan, parted)
    ensures r in plan.owners <==> Bound(parted.bindings, r)
  {
  }

  lemma ClashCounts(plan: Plan, parted: Parted)
    requires Plans(plan, parted)
    ensures Plans(plan.(clashes := plan.clashes + 1), parted.(clashes := parted.clashes + 1))
  {
  }

  lemma NothingPlanned()
    ensures Plans(Plan(map[], map[], 0), Parted([], 0))
  {
  }

  /** Bindings go by component and then by resource. */
  predicate BindingLeq(a: Binding, b: Binding) {
    KeysLeq((a.component, IdOf(a.resource)), (b.component, IdOf(b.resource)))
  }

  /** The bindings of one controller, in order. */
  function Arranged(bindings: seq<Binding>, controller: Name): seq<Binding> {
    SortBy(BindingLeq, LocalTo(bindings, controller))
  }

  /** The tables with the bindings of every controller in order. */
  ghost predicate Partitioned(plan: Plan, parted: Parted) {
    && plan.clashes == parted.clashes
    && (forall r :: r in plan.owners <==> Bound(parted.bindings, r))
    && (forall c :: (if c in plan.safety then plan.safety[c] else []) == Arranged(parted.bindings, c))
    && (forall c :: c in plan.safety ==> plan.safety[c] != [])
  }

  /** Sort the bindings of every controller in place. */
  method SortBindings(plan: Plan, ghost parted: Parted) returns (sorted: Plan)
    requires Plans(plan, parted)
    ensures Partitioned(sorted, parted)
  {
    hide SortBy, LocalTo, Bound;
    var safety := plan.safety;
    var left := safety.Keys;
    while left != {}
      invariant left <= plan.safety.Keys && safety.Keys == plan.safety.Keys
      invariant forall c :: c in plan.safety ==>
        safety[c] == if c in left then plan.safety[c] else SortBy(BindingLeq, plan.safety[c])
      decreases |left|
    {
      var c :| c in left;
      left := left - {c};
      safety := safety[c := SortBy(BindingLeq, safety[c])];
    }
    sorted := plan.(safety := safety);
    forall c
      ensures (if c in safety then safety[c] else []) == Arranged(parted.bindings, c)
      ensures c in safety ==> safety[c] != []
    {
      SortKeeps(BindingLeq, LocalTo(parted.bindings, c));
    }
  }

  method Partition(resolved: seq<Assignment>, profile: Profile, components: seq<Component>) returns (plan: Plan)
    ensures Partitioned(plan, PartAll(resolved, profile, components))
  {
    hide Plans, Partitioned, Targets, PartTargets;
    NothingPlanned();
    plan := Plan(map[], map[], 0);
    var i := 0;
    while i < |components|
      invariant i <= |components|
      invariant Plans(plan, PartAll(resolved, profile, components[..i]))
    {
      assert components[..i + 1][..i] == components[..i];
      var c := components[i];
      if c.kind in profile {
        var targets := Targets(resolved, c);
        if targets.Ok? {
          plan := PartitionComponent(resolved, profile[c.kind], c, targets.value, plan,
                                     PartAll(resolved, profile, components[..i]));
        }
      }
      i := i + 1;
    }
    assert components[..|components|] == components;
    plan := SortBindings(plan, PartAll(resolved, profile, components));
  }
}
