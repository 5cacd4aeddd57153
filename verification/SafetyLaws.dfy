// What safety validation asks of a component, and what the lock says of every
// resource its policy governs: in terms of the grants, attributes and policies.
module SafetyLaws {
  import opened Prelude
  import opened Sorting
  import opened Allocation
  import opened ClaimLaws
  import opened Safety
  import opened Lock
  import opened LockLaws

  // ----- plain terms -------------------------------------------------------------------------

  predicate Owns(resolved: seq<Assignment>, name: Name, r: Resource) {
    exists k :: 0 <= k < |resolved| && resolved[k].requestedBy == name && resolved[k].resource == r
  }

  predicate OwnsNothing(resolved: seq<Assignment>, name: Name) {
    forall k :: 0 <= k < |resolved| ==> resolved[k].requestedBy != name
  }

  /** The resources of the component itself or, if it has none, of the driver it names. */
  ghost predicate Steers(resolved: seq<Assignment>, c: Component, r: Resource) {
    || Owns(resolved, c.name, r)
    || (OwnsNothing(resolved, c.name) && exists text :: Says(c, "driver", text) && Owns(resolved, Trim(text), r))
  }

  ghost predicate HasDriver(c: Component) {
    exists text :: Says(c, "driver", text)
  }

  /** The component has nothing of its own and names a driver that is blank or not only steppers. */
  ghost predicate IllDriven(resolved: seq<Assignment>, c: Component) {
    && OwnsNothing(resolved, c.name)
    && exists text :: Says(c, "driver", text) && (Trim(text) == [] || !DrivesSteppers(resolved, Trim(text)))
  }

  predicate DrivesSteppers(resolved: seq<Assignment>, driver: Name) {
    forall k :: 0 <= k < |resolved| && resolved[k].requestedBy == driver ==> resolved[k].kind == "stepper_driver_socket"
  }

  predicate Senses(a: Assignment, name: Name, controller: Name) {
    && a.requestedBy == name && a.resource.controller == controller
    && (a.kind == "analog_input" || a.kind == "digital_input")
  }

  /** The first sensor input on the controller that this sensor was granted. */
  predicate SensedBy(resolved: seq<Assignment>, name: Name, controller: Name, r: Resource) {
    exists k :: 0 <= k < |resolved| && Senses(resolved[k], name, controller) && resolved[k].resource == r
                && forall j :: 0 <= j < k ==> !Senses(resolved[j], name, controller)
  }

  /** The sensor the component names is resolved to this input of the controller. */
  ghost predicate SensedAt(resolved: seq<Assignment>, c: Component, controller: Name, r: Resource) {
    exists name :: Says(c, "sensor", name) && SensedBy(resolved, name, controller, r)
  }

  // ----- the tables in plain terms -----------------------------------------------------------

  lemma {:induction false} OwnedMeaning(resolved: seq<Assignment>, name: Name)
    ensures forall a :: a in OwnedBy(resolved, name) <==> a in resolved && a.requestedBy == name
    decreases |resolved|
  {
    if resolved != [] {
      var rest := resolved[..|resolved| - 1];
      OwnedMeaning(rest, name);
      assert resolved == rest + [resolved[|resolved| - 1]];
    }
  }

  lemma OwnedExactly(resolved: seq<Assignment>, name: Name)
    ensures OwnedBy(resolved, name) == [] <==> OwnsNothing(resolved, name)
    ensures forall r :: r in ResourcesOf(OwnedBy(resolved, name)) <==> Owns(resolved, name, r)
    ensures AllSteppers(OwnedBy(resolved, name)) <==> DrivesSteppers(resolved, name)
  {
    hide ResourcesOf;
    var owned := OwnedBy(resolved, name);
    OwnedMeaning(resolved, name);
    ResourcesMeaning(owned);
    if owned != [] {
      assert owned[0] in owned;
    }
    forall r
      ensures r in ResourcesOf(owned) <==> Owns(resolved, name, r)
    {
      if k :| 0 <= k < |resolved| && resolved[k].requestedBy == name && resolved[k].resource == r {
        assert resolved[k] in owned;
      }
    }
    forall k | 0 <= k < |owned|
      ensures owned[k] in owned
    {
    }
    forall k | 0 <= k < |resolved| && resolved[k].requestedBy == name
      ensures resolved[k] in owned
    {
    }
  }

  lemma DriverText(c: Component)
    ensures TextOf(c.attributes, "driver").None? <==> !HasDriver(c)
    ensures forall text :: TextOf(c.attributes, "driver") == Some(text) <==> Says(c, "driver", text)
  {
    hide TextOf, Says;
    forall text
      ensures TextOf(c.attributes, "driver") == Some(text) <==> Says(c, "driver", text)
    {
      TextMeaning(c, c.attributes, "driver", text);
    }
    var found := TextOf(c.attributes, "driver");
    assert found.Some? ==> Says(c, "driver", found.value);
  }

  /** The governed resources are those the component steers, unless its driver is unfit. */
  lemma TargetsExactly(resolved: seq<Assignment>, c: Component)
    ensures Targets(resolved, c) == Err(UnfitDriver) <==> IllDriven(resolved, c)
    ensures Targets(resolved, c).Err? ==> Targets(resolved, c) == Err(UnfitDriver)
    ensures Targets(resolved, c).Ok? ==> forall r :: r in Targets(resolved, c).value <==> Steers(resolved, c, r)
  {
    hide OwnedBy, ResourcesOf, AllSteppers, Trim, TextOf, Says, OwnsNothing, Owns, DrivesSteppers;
    OwnedExactly(resolved, c.name);
    DriverText(c);
    var driver := TextOf(c.attributes, "driver");
    if driver.Some? {
      OwnedExactly(resolved, Trim(driver.value));
    }
    assert OwnsNothing(resolved, c.name) ==> forall r :: !Owns(resolved, c.name, r) by {
      OwnsNone(resolved, c.name);
    }
  }

  lemma OwnsNone(resolved: seq<Assignment>, name: Name)
    ensures OwnsNothing(resolved, name) <==> forall r :: !Owns(resolved, name, r)
  {
    if k :| 0 <= k < |resolved| && resolved[k].requestedBy == name {
      assert Owns(resolved, name, resolved[k].resource);
    }
  }

  lemma {:induction false} FirstSensorLast(assignments: seq<Assignment>, a: Assignment, controller: Name)
    ensures var before := FirstSensor(assignments, controller);
      FirstSensor(assignments + [a], controller) ==
        if before.Some? then before
        else if SensorKind(a.kind) && a.resource.controller == controller then Some(a.resource) else None
  {
    if assignments != [] {
      assert (assignments + [a])[1..] == assignments[1..] + [a];
      FirstSensorLast(assignments[1..], a, controller);
    }
  }

  lemma SensedLast(resolved: seq<Assignment>, a: Assignment, name: Name, controller: Name, r: Resource)
    ensures SensedBy(resolved + [a], name, controller, r) <==>
      || SensedBy(resolved, name, controller, r)
      || ((forall k :: 0 <= k < |resolved| ==> !Senses(resolved[k], name, controller))
          && Senses(a, name, controller) && a.resource == r)
  {
    hide Senses;
    var all := resolved + [a];
    forall k | 0 <= k < |resolved|
      ensures all[k] == resolved[k]
    {
    }
    assert all[|resolved|] == a;
    if SensedBy(resolved, name, controller, r) {
      var k :| 0 <= k < |resolved| && Senses(resolved[k], name, controller) && resolved[k].resource == r
               && forall j :: 0 <= j < k ==> !Senses(resolved[j], name, controller);
      assert Senses(all[k], name, controller);
    }
  }

  lemma SensedSome(resolved: seq<Assignment>, name: Name, controller: Name)
    ensures (forall r :: !SensedBy(resolved, name, controller, r)) <==>
            forall k :: 0 <= k < |resolved| ==> !Senses(resolved[k], name, controller)
  {
    hide Senses;
    if k :| 0 <= k < |resolved| && Senses(resolved[k], name, controller) {
      FirstSensed(resolved, name, controller, k);
    }
  }

  lemma {:induction false} FirstSensed(resolved: seq<Assignment>, name: Name, controller: Name, k: nat)
    requires k < |resolved| && Senses(resolved[k], name, controller)
    ensures exists r :: SensedBy(resolved, name, controller, r)
  {
    hide Senses;
    if j :| 0 <= j < k && Senses(resolved[j], name, controller) {
      FirstSensed(resolved, name, controller, j);
    } else {
      assert SensedBy(resolved, name, controller, resolved[k].resource);
    }
  }

  lemma {:induction false} FirstSensorExactly(resolved: seq<Assignment>, name: Name, controller: Name)
    ensures forall r :: FirstSensor(OwnedBy(resolved, name), controller) == Some(r) <==>
                        SensedBy(resolved, name, controller, r)
    decreases |resolved|
  {
    hide SensedBy, Senses, FirstSensor;
    if resolved == [] {
      NothingSensed(name, controller);
    } else {
      var n := |resolved| - 1;
      var rest, last := resolved[..n], resolved[n];
      FirstSensorExactly(rest, name, controller);
      FirstSensorLast(OwnedBy(rest, name), last, controller);
      SensedSome(rest, name, controller);
      SensesMeaning(last, name, controller);
      assert resolved == rest + [last];
      forall r
        ensures FirstSensor(OwnedBy(resolved, name), controller) == Some(r) <==> SensedBy(resolved, name, controller, r)
      {
        SensedLast(rest, last, name, controller, r);
        if FirstSensor(OwnedBy(rest, name), controller).Some? {
          assert SensedBy(rest, name, controller, FirstSensor(OwnedBy(rest, name), controller).value);
        }
      }
    }
  }

  lemma NothingSensed(name: Name, controller: Name)
    ensures forall r :: !SensedBy([], name, controller, r)
    ensures FirstSensor([], controller).None?
  {
  }

  lemma SensesMeaning(a: Assignment, name: Name, controller: Name)
    ensures Senses(a, name, controller) <==>
            a.requestedBy == name && SensorKind(a.kind) && a.resource.controller == controller
  {
  }

  lemma SensorExactly(resolved: seq<Assignment>, c: Component, controller: Name)
    ensures forall r :: SensorOn(resolved, c, controller) == Some(r) <==> SensedAt(resolved, c, controller, r)
  {
    hide TextOf, Says, FirstSensor, OwnedBy, SensedBy;
    forall text
      ensures TextOf(c.attributes, "sensor") == Some(text) <==> Says(c, "sensor", text)
    {
      TextMeaning(c, c.attributes, "sensor", text);
    }
    var name := TextOf(c.attributes, "sensor");
    if name.Some? {
      FirstSensorExactly(resolved, name.value, controller);
    }
  }

  // ----- what validation finds -------------------------------------------------------------------

  ghost predicate NamesSensor(c: Component) {
    exists name :: Says(c, "sensor", name) && Trim(name) != []
  }

  /** The grants of the sensor the component names. */
  predicate SensorGrant(a: Assignment, c: Component) {
    Says(c, "sensor", a.requestedBy)
  }

  predicate SensorGranted(resolved: seq<Assignment>, c: Component) {
    exists k :: 0 <= k < |resolved| && SensorGrant(resolved[k], c)
  }

  predicate SensorIsOne(resolved: seq<Assignment>, c: Component) {
    exists k :: 0 <= k < |resolved| && SensorGrant(resolved[k], c)
                && (resolved[k].kind == "analog_input" || resolved[k].kind == "digital_input")
  }

  /** Some resource of the component is on a controller its sensor is not on. */
  ghost predicate SensorMissing(resolved: seq<Assignment>, c: Component) {
    exists r :: Steers(resolved, c, r) && Unsensed(resolved, c, r.controller)
  }

  ghost predicate Unsensed(resolved: seq<Assignment>, c: Component, controller: Name) {
    forall input :: !SensedAt(resolved, c, controller, input)
  }

  predicate DrivesPower(resolved: seq<Assignment>, name: Name) {
    exists k :: 0 <= k < |resolved| && resolved[k].requestedBy == name && resolved[k].kind == "power_output"
  }

  ghost predicate SteersNothing(resolved: seq<Assignment>, c: Component) {
    forall r :: !Steers(resolved, c, r)
  }

  /** Validation finds each defect of a component exactly when it has it: an unfit
      driver; no policy for what drives power or a driver; nothing to make safe; and,
      where the policy requires a sensor, none named, none granted, none of a sensing
      kind, or none on some controller the component steers. */
  lemma FindingsExactly(resolved: seq<Assignment>, profile: Profile, c: Component)
    ensures var found := ComponentFindings(resolved, profile, c);
      var fit := !IllDriven(resolved, c);
      var governed := fit && c.kind in profile;
      var sensed := governed && !SteersNothing(resolved, c) && profile[c.kind].requiresSensor;
      && (UnfitDriver in found <==> !fit)
      && (NoPolicy in found <==>
            && fit && c.kind !in profile
            && (DrivesPower(resolved, c.name) || (OwnsNothing(resolved, c.name) && HasDriver(c))))
      && (NoResource in found <==> governed && SteersNothing(resolved, c))
      && (NoSensor in found <==> sensed && !NamesSensor(c))
      && (SensorUnresolved in found <==> sensed && NamesSensor(c) && !SensorGranted(resolved, c))
      && (NotASensor in found <==> sensed && NamesSensor(c) && SensorGranted(resolved, c) && !SensorIsOne(resolved, c))
      && (SensorElsewhere in found <==>
            sensed && NamesSensor(c) && SensorIsOne(resolved, c) && SensorMissing(resolved, c))
  {
    hide Targets, OwnedBy, SensorFindings, Steers, IllDriven, HasDriver, TextOf, NamesSensor, SensorGranted,
      SensorIsOne, SensorMissing, DrivesPower, OwnsNothing, Hazardous;
    TargetsExactly(resolved, c);
    OwnedExactly(resolved, c.name);
    DriverText(c);
    HazardExactly(resolved, c.name);
    if Targets(resolved, c).Ok? {
      var targets := Targets(resolved, c).value;
      assert targets != [] ==> targets[0] in targets;
      SensorFindingsExactly(resolved, c, targets);
    }
  }

  lemma HazardExactly(resolved: seq<Assignment>, name: Name)
    ensures Hazardous(OwnedBy(resolved, name)) <==> DrivesPower(resolved, name)
  {
    var owned := OwnedBy(resolved, name);
    OwnedMeaning(resolved, name);
    if k :| 0 <= k < |owned| && owned[k].kind == "power_output" {
      assert owned[k] in owned;
    }
    if k :| 0 <= k < |resolved| && resolved[k].requestedBy == name && resolved[k].kind == "power_output" {
      assert resolved[k] in owned;
    }
  }

  lemma AnySensorOwned(resolved: seq<Assignment>, name: Name)
    ensures AnySensor(OwnedBy(resolved, name)) <==>
            exists a :: a in resolved && a.requestedBy == name
                        && (a.kind == "analog_input" || a.kind == "digital_input")
  {
    var owned := OwnedBy(resolved, name);
    OwnedMeaning(resolved, name);
    if k :| 0 <= k < |owned| && SensorKind(owned[k].kind) {
      assert owned[k] in owned;
    }
    if a :| a in resolved && a.requestedBy == name && (a.kind == "analog_input" || a.kind == "digital_input") {
      assert a in owned;
      var k :| 0 <= k < |owned| && owned[k] == a;
      assert SensorKind(owned[k].kind);
    }
  }

  lemma {:induction false} ElsewhereExactly(resolved: seq<Assignment>, c: Component, targets: seq<Resource>)
    ensures forall e :: e in Elsewhere(resolved, c, targets) ==> e == SensorElsewhere
    ensures SensorElsewhere in Elsewhere(resolved, c, targets) <==>
            exists r :: r in targets && SensorOn(resolved, c, r.controller).None?
    decreases |targets|
  {
    hide SensorOn;
    if targets != [] {
      var n := |targets| - 1;
      var rest := targets[..n];
      ElsewhereExactly(resolved, c, rest);
      assert targets == rest + [targets[n]];
      assert targets[n] in targets;
      if k :| 0 <= k < |rest| && rest[k].controller == targets[n].controller {
        assert rest[k] in rest;
      }
    }
  }

  lemma MissingExactly(resolved: seq<Assignment>, c: Component, controller: Name)
    ensures SensorOn(resolved, c, controller).None? <==> Unsensed(resolved, c, controller)
  {
    hide SensorOn, SensedAt;
    SensorExactly(resolved, c, controller);
    var found := SensorOn(resolved, c, controller);
    assert found.Some? ==> SensedAt(resolved, c, controller, found.value);
  }

  lemma GrantedExactly(resolved: seq<Assignment>, c: Component, name: Name)
    requires Says(c, "sensor", name) && forall other :: Says(c, "sensor", other) ==> other == name
    ensures SensorGranted(resolved, c) <==> OwnedBy(resolved, name) != []
    ensures SensorIsOne(resolved, c) <==> AnySensor(OwnedBy(resolved, name))
  {
    hide OwnedBy, Says, AnySensor;
    OwnedExactly(resolved, name);
    AnySensorOwned(resolved, name);
  }

  lemma SensorFindingsExactly(resolved: seq<Assignment>, c: Component, targets: seq<Resource>)
    requires forall r :: r in targets <==> Steers(resolved, c, r)
    ensures var found := SensorFindings(resolved, c, targets);
      && UnfitDriver !in found && NoPolicy !in found && NoResource !in found
      && (NoSensor in found <==> !NamesSensor(c))
      && (SensorUnresolved in found <==> NamesSensor(c) && !SensorGranted(resolved, c))
      && (NotASensor in found <==> NamesSensor(c) && SensorGranted(resolved, c) && !SensorIsOne(resolved, c))
      && (SensorElsewhere in found <==> NamesSensor(c) && SensorIsOne(resolved, c) && SensorMissing(resolved, c))
  {
    hide OwnedBy, TextOf, Trim, Says, Steers, SensorOn, AnySensor, Unsensed, SensorGranted, SensorIsOne, Elsewhere;
    forall text
      ensures TextOf(c.attributes, "sensor") == Some(text) <==> Says(c, "sensor", text)
    {
      TextMeaning(c, c.attributes, "sensor", text);
    }
    var name := TextOf(c.attributes, "sensor");
    if name.Some? {
      GrantedExactly(resolved, c, name.value);
      NoSensorOfNothing(resolved, name.value);
    }
    ElsewhereExactly(resolved, c, targets);
    forall r: Resource
      ensures SensorOn(resolved, c, r.controller).None? <==> Unsensed(resolved, c, r.controller)
    {
      MissingExactly(resolved, c, r.controller);
    }
  }

  lemma NoSensorOfNothing(resolved: seq<Assignment>, name: Name)
    ensures OwnedBy(resolved, name) == [] ==> !AnySensor(OwnedBy(resolved, name))
  {
  }

  // ----- what the lock says ------------------------------------------------------------------------

  /** The action is the policy of the component's class for a resource it steers, with
      the input its sensor has on that controller exactly when the policy requires one. */
  ghost predicate Acts(resolved: seq<Assignment>, profile: Profile, c: Component, b: Binding) {
    && c.kind in profile && Steers(resolved, c, b.resource)
    && b.component == c.name && b.class_ == c.kind
    && b.state == profile[c.kind].state && b.timeout == profile[c.kind].timeout
    && if profile[c.kind].requiresSensor then
         b.sensor.Some? && SensedAt(resolved, c, b.resource.controller, b.sensor.value)
       else b.sensor == None
  }

  ghost predicate ActsForSome(resolved: seq<Assignment>, profile: Profile, components: seq<Component>, b: Binding) {
    exists i :: 0 <= i < |components| && Acts(resolved, profile, components[i], b)
  }

  lemma {:induction false} PartTargetsAct(resolved: seq<Assignment>, profile: Profile, c: Component,
                                          targets: seq<Resource>, from: Parted, b: Binding)
    requires c.kind in profile && b in PartTargets(resolved, profile[c.kind], c, targets, from).bindings
    requires forall r :: r in targets ==> Steers(resolved, c, r)
    requires profile[c.kind].requiresSensor ==>
      forall r :: r in targets ==> SensorOn(resolved, c, r.controller).Some?
    ensures b in from.bindings || Acts(resolved, profile, c, b)
    decreases |targets|
  {
    hide SensorOn, Steers, Bound, SensedAt;
    if targets != [] {
      var n := |targets| - 1;
      assert targets[n] in targets;
      var before := PartTargets(resolved, profile[c.kind], c, targets[..n], from);
      if b in before.bindings {
        PartTargetsAct(resolved, profile, c, targets[..n], from, b);
      } else {
        SensorExactly(resolved, c, targets[n].controller);
      }
    }
  }

  lemma {:induction false} PartAllActs(resolved: seq<Assignment>, profile: Profile, components: seq<Component>,
                                       b: Binding)
    requires SafetyFindings(resolved, profile, components) == []
    requires b in PartAll(resolved, profile, components).bindings
    ensures ActsForSome(resolved, profile, components, b)
    decreases |components|
  {
    hide ComponentFindings, Targets, PartTargets, Acts, Steers, SensorOn;
    if components != [] {
      var n := |components| - 1;
      var c := components[n];
      var before := PartAll(resolved, profile, components[..n]);
      if b in before.bindings {
        PartAllActs(resolved, profile, components[..n], b);
        var i :| 0 <= i < n && Acts(resolved, profile, components[..n][i], b);
        assert Acts(resolved, profile, components[i], b);
      } else {
        FindingsOfEach(resolved, profile, components, n);
        TargetsExactly(resolved, c);
        var targets := Targets(resolved, c).value;
        forall r | profile[c.kind].requiresSensor && r in targets
          ensures SensorOn(resolved, c, r.controller).Some?
        {
          SensorPresent(resolved, profile, c, r);
        }
        PartTargetsAct(resolved, profile, c, targets, before, b);
      }
    }
  }

  /** The locked state gives the policy of this component for its port. */
  ghost predicate StateActs(resolved: seq<Assignment>, profile: Profile, c: Component, controller: Name,
                            s: LockedState) {
    && c.kind in profile && Steers(resolved, c, Resource(controller, s.resource))
    && s.component == c.name && s.class_ == c.kind
    && s.state == profile[c.kind].state && s.timeout == profile[c.kind].timeout
    && if profile[c.kind].requiresSensor then
         s.sensor.Some? && SensedAt(resolved, c, controller, Resource(controller, s.sensor.value))
       else s.sensor == None
  }

  lemma SensedThere(resolved: seq<Assignment>, c: Component, controller: Name, r: Resource)
    requires SensedAt(resolved, c, controller, r)
    ensures r.controller == controller
  {
    hide Says;
  }

  lemma LockedActs(resolved: seq<Assignment>, profile: Profile, c: Component, b: Binding)
    requires Acts(resolved, profile, c, b)
    ensures StateActs(resolved, profile, c, b.resource.controller, LockBinding(b))
  {
    hide Steers, SensedAt;
    if b.sensor.Some? {
      SensedThere(resolved, c, b.resource.controller, b.sensor.value);
    }
  }

  ghost predicate StateActsForSome(resolved: seq<Assignment>, profile: Profile, components: seq<Component>,
                                   controller: Name, s: LockedState) {
    exists i :: 0 <= i < |components| && StateActs(resolved, profile, components[i], controller, s)
  }

  predicate HasState(states: seq<LockedState>, name: Name, port: Name) {
    exists k :: 0 <= k < |states| && states[k].resource == port && states[k].component == name
  }

  /** The states of one controller are those of its steered resources: each state gives
      the policy of a component for a resource it steers there, each such resource has
      a state of its component, none has two, and they are in order. */
  ghost predicate StatesExact(m: Machine, resolved: seq<Assignment>, profile: Profile, controller: Name,
                              states: seq<LockedState>) {
    && (forall k :: 0 <= k < |states| ==>
          StateActsForSome(resolved, profile, m.components, controller, states[k]))
    && (forall i, port :: 0 <= i < |m.components| && m.components[i].kind in profile
                          && Steers(resolved, m.components[i], Resource(controller, port)) ==>
          HasState(states, m.components[i].name, port))
    && (forall j, k :: 0 <= j < k < |states| ==> states[j].resource != states[k].resource)
    && Ascends(StateLeq, states)
  }

  lemma StatesOf(m: Machine, resolved: seq<Assignment>, profile: Profile, parted: Parted, plan: Plan, controller: Name)
    requires SafetyFindings(resolved, profile, m.components) == []
    requires parted == PartAll(resolved, profile, m.components) && parted.clashes == 0
    requires Partitioned(plan, parted)
    ensures StatesExact(m, resolved, profile, controller, StatesFor(plan.safety, controller))
  {
    hide PartAll, SafetyFindings, Partitioned, Arranged, StatesFor, StateActs, Steers, Targets, SoundBinding, StateLeq,
      BoundBy;
    var states := StatesFor(plan.safety, controller);
    var arranged := Arranged(parted.bindings, controller);
    StatesOfPlan(plan, parted, controller);
    ArrangedMeaning(parted.bindings, controller);
    LockedInOrder(arranged, controller);
    PartAllSound(resolved, profile, m.components);
    PartAllCovers(resolved, profile, m.components);
    forall k | 0 <= k < |states|
      ensures StateActsForSome(resolved, profile, m.components, controller, states[k])
    {
      assert arranged[k] in arranged;
      PartAllActs(resolved, profile, m.components, arranged[k]);
      var i :| 0 <= i < |m.components| && Acts(resolved, profile, m.components[i], arranged[k]);
      LockedActs(resolved, profile, m.components[i], arranged[k]);
    }
    forall i, port | 0 <= i < |m.components| && m.components[i].kind in profile
                     && Steers(resolved, m.components[i], Resource(controller, port))
      ensures HasState(states, m.components[i].name, port)
    {
      var c := m.components[i];
      FindingsOfEach(resolved, profile, m.components, i);
      TargetsExactly(resolved, c);
      TargetsFit(resolved, profile, c);
      assert Governs(resolved, profile, c, Resource(controller, port));
      StateOfBound(parted.bindings, arranged, c.name, Resource(controller, port));
      var k :| 0 <= k < |arranged| && arranged[k].resource == Resource(controller, port)
               && arranged[k].component == c.name;
      assert states[k].resource == port && states[k].component == c.name;
    }
    forall j, k | 0 <= j < k < |states|
      ensures states[j].resource != states[k].resource
    {
      assert arranged[j] in arranged && arranged[k] in arranged;
    }
  }

  lemma TargetsFit(resolved: seq<Assignment>, profile: Profile, c: Component)
    requires ComponentFindings(resolved, profile, c) == []
    ensures Targets(resolved, c).Ok?
  {
    hide Targets, SensorFindings;
  }

  lemma StateOfBound(bindings: seq<Binding>, arranged: seq<Binding>, name: Name, r: Resource)
    requires BoundBy(bindings, name, r)
    requires forall b :: b in arranged <==> b in bindings && b.resource.controller == r.controller
    ensures exists k :: 0 <= k < |arranged| && arranged[k].resource == r && arranged[k].component == name
  {
    var j :| 0 <= j < |bindings| && bindings[j].component == name && bindings[j].resource == r;
    assert bindings[j] in arranged;
  }

  /** The assignment is locked under its component and its attribute, or the search's name. */
  predicate LockedUnder(a: Assignment, key: (Name, Name)) {
    key == (a.requestedBy, if a.via.Some? then a.via.value else "requires.connector")
  }

  predicate LockedAs(resolved: seq<Assignment>, controller: Name, key: (Name, Name), port: Name) {
    exists k :: && 0 <= k < |resolved| && LockedUnder(resolved[k], key)
                && resolved[k].resource == Resource(controller, port)
  }

  /** The locked resources of one controller are the ports assigned on it, under their keys. */
  ghost predicate ResourcesExact(resolved: seq<Assignment>, controller: Name, resources: map<(Name, Name), Name>) {
    forall key, port :: key in resources && resources[key] == port <==> LockedAs(resolved, controller, key, port)
  }

  ghost predicate OwnKeys(resolved: seq<Assignment>) {
    forall i, j, key :: 0 <= i < j < |resolved| && LockedUnder(resolved[i], key) ==> !LockedUnder(resolved[j], key)
  }

  lemma {:induction false} LockedResourcesExactly(resolved: seq<Assignment>, controller: Name)
    requires OwnKeys(resolved)
    ensures ResourcesExact(resolved, controller, LockedResources(resolved, controller))
    decreases |resolved|
  {
    hide LockedAs, OwnKeys;
    if resolved == [] {
      NothingLocked(controller);
    } else {
      KeysShrink(resolved);
      LockedResourcesExactly(resolved[..|resolved| - 1], controller);
      forall key, port
        ensures LockedAs(resolved, controller, key, port) <==>
                key in LockedResources(resolved, controller) && LockedResources(resolved, controller)[key] == port
      {
        LockedLast(resolved, controller, key, port);
      }
    }
  }

  lemma NothingLocked(controller: Name)
    ensures forall key, port :: !LockedAs([], controller, key, port)
  {
  }

  lemma KeysShrink(resolved: seq<Assignment>)
    requires resolved != [] && OwnKeys(resolved)
    ensures OwnKeys(resolved[..|resolved| - 1])
  {
    hide LockedUnder;
    var rest := resolved[..|resolved| - 1];
    assert forall i :: 0 <= i < |rest| ==> rest[i] == resolved[i];
  }

  lemma LockedLast(resolved: seq<Assignment>, controller: Name, key: (Name, Name), port: Name)
    requires resolved != [] && OwnKeys(resolved)
    ensures var n := |resolved| - 1;
      LockedAs(resolved, controller, key, port) <==>
      if LockedUnder(resolved[n], key) then resolved[n].resource == Resource(controller, port)
      else LockedAs(resolved[..n], controller, key, port)
    ensures var n := |resolved| - 1;
      LockedUnder(resolved[n], key) ==> !LockedAs(resolved[..n], controller, key, port)
  {
    hide LockedUnder;
    var n := |resolved| - 1;
    assert forall k :: 0 <= k < n ==> resolved[..n][k] == resolved[k];
  }

  lemma ResolvedKeys(m: Machine, resolved: seq<Assignment>)
    requires Resolved(m, resolved)
    ensures OwnKeys(resolved)
  {
    forall i, key | 0 <= i < |resolved| && LockedUnder(resolved[i], key)
      ensures key == (resolved[i].requestedBy, Mechanism(resolved[i].via))
    {
    }
  }

  /** For every machine that allocates, passes safety validation and partitions without
      a clash, the lock of every controller holds the ports assigned on it under their
      keys, and exactly the states its steered resources are due, field by field. */
  lemma LockedStatesExactly(m: Machine, clean: bool, profile: Profile, plan: Plan)
    requires WellFormedMachine(m) && Allocated(m, clean).Some?
    requires SafetyFindings(Allocated(m, clean).value, profile, m.components) == []
    requires Partitioned(plan, PartAll(Allocated(m, clean).value, profile, m.components)) && plan.clashes == 0
    ensures var resolved := Allocated(m, clean).value;
      var locked := LockOf(m.controllers, resolved, plan.safety);
      && locked.Keys == m.controllers
      && forall c :: c in locked ==>
           && StatesExact(m, resolved, profile, c, locked[c].states)
           && ResourcesExact(resolved, c, locked[c].resources)
  {
    hide Allocated, SafetyFindings, PartAll, Partitioned, StatesExact, StatesFor, LockedResources, WellFormedMachine,
      ResourcesExact, Resolved, OwnKeys;
    var resolved := Allocated(m, clean).value;
    var parted := PartAll(resolved, profile, m.components);
    NoClashes(plan, parted);
    AllocationResolves(m, clean);
    ResolvedKeys(m, resolved);
    forall c | c in m.controllers
      ensures ResourcesExact(resolved, c, LockedResources(resolved, c))
      ensures StatesExact(m, resolved, profile, c, StatesFor(plan.safety, c))
    {
      StatesOf(m, resolved, profile, parted, plan, c);
      LockedResourcesExactly(resolved, c);
    }
  }

  // ----- labels ------------------------------------------------------------------------------------

  /** Trimming drops the blanks at both ends and nothing else. */
  lemma TrimExactly(s: string)
    ensures exists i, j :: && 0 <= i <= j <= |s| && Trim(s) == s[i..j]
                           && (forall k :: 0 <= k < |s| && (k < i || j <= k) ==> s[k] in " \t\n\r")
                           && (i < j ==> s[i] !in " \t\n\r" && s[j - 1] !in " \t\n\r")
  {
    var i := TrimLeftExactly(s);
    var j := TrimRightExactly(s[i..]);
    assert s[i..][..j] == s[i..i + j];
    forall k | 0 <= k < |s| && (k < i || i + j <= k)
      ensures s[k] in " \t\n\r"
    {
      assert k >= i + j ==> s[k] == s[i..][k - i];
    }
  }

  lemma {:induction false} TrimLeftExactly(s: string) returns (i: nat)
    ensures i <= |s| && TrimLeft(s) == s[i..] && forall k :: 0 <= k < i ==> s[k] in " \t\n\r"
    ensures i < |s| ==> s[i] !in " \t\n\r"
  {
    if s != [] && IsSpace(s[0]) {
      i := TrimLeftExactly(s[1..]);
      i := i + 1;
      assert forall k :: 1 <= k < i ==> s[k] == s[1..][k - 1];
    } else {
      i := 0;
    }
  }

  lemma {:induction false} TrimRightExactly(s: string) returns (j: nat)
    ensures j <= |s| && TrimRight(s) == s[..j] && forall k :: j <= k < |s| ==> s[k] in " \t\n\r"
    ensures j > 0 ==> s[j - 1] !in " \t\n\r"
  {
    var n := |s|;
    if s != [] && IsSpace(s[n - 1]) {
      j := TrimRightExactly(s[..n - 1]);
      assert s[..n - 1][..j] == s[..j];
    } else {
      j := n;
    }
  }
}
