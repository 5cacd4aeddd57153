// Generation of the locked controllers and the version 3 safety checks of the
// lock: crates/machine-lock/src/generate.rs and crates/machine-lock/src/validate.rs.
module Lock {
  import opened Prelude
  import opened Sorting
  import opened Allocation
  import opened Safety

  datatype LockedState = LockedState(component: Name, class_: string, resource: Name, state: SafeState,
                                     timeout: Option<u64>, sensor: Option<Name>)

  /** `resources` is keyed by component and by the mechanism of the claim. */
  datatype LockedController = LockedController(resources: map<(Name, Name), Name>, states: seq<LockedState>)

  type Locked = map<Name, LockedController>

  datatype LockError = SafetyNotPlaceable | SafetyCheckFailed

  /** An attribute claim keeps its attribute; a search keeps its mechanism's name. */
  function Mechanism(via: Option<Name>): Name {
    if via.Some? then via.value else "requires.connector"
  }

  // ----- generation ------------------------------------------------------------------------------

  function Initial(controllers: set<Name>): Locked {
    map c | c in controllers :: LockedController(map[], [])
  }

  /** What the assignments lock on one controller; a later one of the same key replaces an earlier. */
  function LockedResources(resolved: seq<Assignment>, controller: Name): map<(Name, Name), Name> {
    if resolved == [] then map[]
    else
      var last := resolved[|resolved| - 1];
      var before := LockedResources(resolved[..|resolved| - 1], controller);
      if last.resource.controller != controller then before
      else before[(last.requestedBy, Mechanism(last.via)) := last.resource.port]
  }

  function WithResources(controllers: set<Name>, resolved: seq<Assignment>): Locked {
    map c | c in controllers :: LockedController(LockedResources(resolved, c), [])
  }

  method ApplyAssignments(controllers: set<Name>, resolved: seq<Assignment>) returns (locked: Locked)
    ensures locked == WithResources(controllers, resolved)
  {
    locked := Initial(controllers);
    var i := 0;
    while i < |resolved|
      invariant i <= |resolved|
      invariant locked == WithResources(controllers, resolved[..i])
    {
      assert resolved[..i + 1][..i] == resolved[..i];
      var a := resolved[i];
      var name := a.resource.controller;
      if name in locked {
        var key := (a.requestedBy, Mechanism(a.via));
        locked := locked[name := locked[name].(resources := locked[name].resources[key := a.resource.port])];
      }
      i := i + 1;
    }
    assert resolved[..|resolved|] == resolved;
  }

  function LockBinding(b: Binding): LockedState {
    LockedState(b.component, b.class_, b.resource.port, b.state, b.timeout,
                if b.sensor.Some? then Some(b.sensor.value.port) else None)
  }

  predicate Local(controller: Name, b: Binding) {
    b.resource.controller == controller && (b.sensor.Some? ==> b.sensor.value.controller == controller)
  }

  predicate AllLocal(controller: Name, bindings: seq<Binding>) {
    forall k :: 0 <= k < |bindings| ==> Local(controller, bindings[k])
  }

  predicate Placeable(controllers: set<Name>, safety: map<Name, seq<Binding>>) {
    forall c :: c in safety ==> c in controllers && AllLocal(c, safety[c])
  }

  /** States go by component and then by resource. */
  predicate StateLeq(a: LockedState, b: LockedState) {
    KeysLeq((a.component, a.resource), (b.component, b.resource))
  }

  function StatesFor(safety: map<Name, seq<Binding>>, controller: Name): seq<LockedState> {
    if controller in safety then SortBy(StateLeq, Map(LockBinding, safety[controller])) else []
  }

  /** The state says what the binding says, with ports for resources. */
  predicate Records(s: LockedState, b: Binding) {
    && s.component == b.component && s.class_ == b.class_ && s.resource == b.resource.port
    && s.state == b.state && s.timeout == b.timeout
    && match b.sensor
       case None => s.sensor.None?
       case Some(input) => s.sensor == Some(input.port)
  }

  /** The states are the bindings, each recorded. */
  ghost predicate Recorded(states: seq<LockedState>, bindings: seq<Binding>) {
    && |states| == |bindings|
    && (forall s :: s in states ==> exists b :: b in bindings && Records(s, b))
    && (forall b :: b in bindings ==> exists s :: s in states && Records(s, b))
  }

  lemma StatesRecord(safety: map<Name, seq<Binding>>, controller: Name)
    requires controller in safety
    ensures Recorded(StatesFor(safety, controller), safety[controller])
  {
    hide SortBy;
    var bindings := safety[controller];
    var locked := Map(LockBinding, bindings);
    SortKeeps(StateLeq, locked);
    forall k | 0 <= k < |bindings|
      ensures locked[k] in locked && bindings[k] in bindings && Records(locked[k], bindings[k])
    {
    }
  }

  method LockBindings(controller: Name, bindings: seq<Binding>) returns (r: Result<seq<LockedState>, LockError>)
    ensures r == if AllLocal(controller, bindings) then Ok(Map(LockBinding, bindings)) else Err(SafetyNotPlaceable)
  {
    var states := [];
    var i := 0;
    while i < |bindings|
      invariant i <= |bindings|
      invariant states == Map(LockBinding, bindings[..i])
      invariant forall k :: 0 <= k < i ==> Local(controller, bindings[k])
    {
      var b := bindings[i];
      if b.resource.controller != controller {
        return Err(SafetyNotPlaceable);
      }
      if b.sensor.Some? && b.sensor.value.controller != controller {
        return Err(SafetyNotPlaceable);
      }
      assert bindings[..i + 1] == bindings[..i] + [b];
      MapAppends(LockBinding, bindings[..i], [b]);
      states := states + [LockBinding(b)];
      i := i + 1;
    }
    assert bindings[..|bindings|] == bindings;
    r := Ok(states);
  }

  /** Safety states join the controllers their bindings name, or generation fails. */
  method ApplySafety(locked: Locked, safety: map<Name, seq<Binding>>) returns (r: Result<Locked, LockError>)
    requires forall c :: c in locked ==> locked[c].states == []
    ensures if Placeable(locked.Keys, safety) then r.Ok? else r == Err(SafetyNotPlaceable)
    ensures r.Ok? ==> r.value.Keys == locked.Keys
                      && forall c :: c in locked ==> r.value[c] == locked[c].(states := StatesFor(safety, c))
    ensures r.Ok? ==> forall c :: c in safety ==> c in r.value && Recorded(r.value[c].states, safety[c])
  {
    hide AllLocal, SortBy, Recorded;
    var next := locked;
    var left := safety.Keys;
    while left != {}
      invariant left <= safety.Keys && next.Keys == locked.Keys
      invariant forall c :: c in safety && c !in left ==> c in locked && AllLocal(c, safety[c])
      invariant forall c :: c in locked ==>
        next[c] == if c in left then locked[c] else locked[c].(states := StatesFor(safety, c))
      decreases |left|
    {
      var controller :| controller in left;
      if controller !in next {
        return Err(SafetyNotPlaceable);
      }
      var states := LockBindings(controller, safety[controller]);
      if states.Err? {
        return Err(SafetyNotPlaceable);
      }
      left := left - {controller};
      var joined := next[controller].states + states.value;
      assert joined == states.value;
      next := next[controller := next[controller].(states := SortBy(StateLeq, joined))];
    }
    forall c | c in safety
      ensures Recorded(StatesFor(safety, c), safety[c])
    {
      StatesRecord(safety, c);
    }
    r := Ok(next);
  }

  // ----- validation -----------------------------------------------------------------------------------

  /** Not empty, and nothing to trim. */
  predicate Unpadded(s: string) {
    Trim(s) != [] && Trim(s) == s
  }

  predicate SoundState(k: LockedController, i: nat)
    requires i < |k.states|
  {
    var s := k.states[i];
    && Unpadded(s.component) && Unpadded(s.class_)
    && (forall j :: 0 <= j < i ==> k.states[j].resource != s.resource)
    && s.resource in k.resources.Values
    && (s.sensor.Some? ==> s.sensor.value in k.resources.Values)
    && s.timeout != Some(0)
  }

  predicate SoundController(k: LockedController) {
    forall i :: 0 <= i < |k.states| ==> SoundState(k, i)
  }

  predicate SoundLock(locked: Locked) {
    forall c :: c in locked ==> SoundController(locked[c])
  }

  method ValidateController(k: LockedController) returns (ok: bool)
    ensures ok == SoundController(k)
  {
    hide Trim;
    var resources := k.resources.Values;
    var seen: set<Name> := {};
    var i := 0;
    while i < |k.states|
      invariant i <= |k.states|
      invariant forall j :: 0 <= j < i ==> SoundState(k, j)
      invariant forall n :: n in seen <==> exists j :: 0 <= j < i && k.states[j].resource == n
    {
      var s := k.states[i];
      if Trim(s.component) == [] || Trim(s.component) != s.component || Trim(s.class_) == []
        || Trim(s.class_) != s.class_ {
        assert !SoundState(k, i);
        return false;
      }
      if s.resource in seen {
        assert !SoundState(k, i);
        return false;
      }
      seen := seen + {s.resource};
      if s.resource !in resources {
        assert !SoundState(k, i);
        return false;
      }
      if s.sensor.Some? && s.sensor.value !in resources {
        assert !SoundState(k, i);
        return false;
      }
      if s.timeout == Some(0) {
        assert !SoundState(k, i);
        return false;
      }
      i := i + 1;
    }
    ok := true;
  }

  method ValidateLock(locked: Locked) returns (ok: bool)
    ensures ok == SoundLock(locked)
  {
    hide SoundController;
    var left := locked.Keys;
    while left != {}
      invariant left <= locked.Keys
      invariant forall c :: c in locked && c !in left ==> SoundController(locked[c])
      decreases |left|
    {
      var c :| c in left;
      left := left - {c};
      var sound := ValidateController(locked[c]);
      if !sound {
        return false;
      }
    }
    ok := true;
  }

  /** The controllers of the lock after generation. */
  function LockOf(controllers: set<Name>, resolved: seq<Assignment>, safety: map<Name, seq<Binding>>): Locked {
    map c | c in controllers :: LockedController(LockedResources(resolved, c), StatesFor(safety, c))
  }

  /** Generate the controllers of a lock and validate them. */
  method LockControllers(controllers: set<Name>, resolved: seq<Assignment>, safety: map<Name, seq<Binding>>)
    returns (r: Result<Locked, LockError>)
    ensures var locked := LockOf(controllers, resolved, safety);
      r == if !Placeable(controllers, safety) then Err(SafetyNotPlaceable)
           else if !SoundLock(locked) then Err(SafetyCheckFailed)
           else Ok(locked)
  {
    hide SoundLock, Placeable, LockedResources, StatesFor;
    var locked := ApplyAssignments(controllers, resolved);
    assert locked.Keys == controllers;
    var placed :- ApplySafety(locked, safety);
    assert placed == LockOf(controllers, resolved, safety);
    var sound := ValidateLock(placed);
    r := if sound then Ok(placed) else Err(SafetyCheckFailed);
  }
}
