// Package selection of crates/machine-resolver/src/packages.rs: a bounded
// fixpoint iteration over version constraints.
module Packages {
  import opened Prelude

  type Path = string

  /** Versions by their place in the order of all versions. */
  type Version = nat

  /** The versions a requirement accepts. */
  datatype Requirement = Requirement(accepts: set<Version>)

  /** What a manifest depends on; a malformed requirement is `None`. */
  type Dependencies = map<Path, Option<Requirement>>

  /** The available versions of each package, ascending, and their manifests. */
  datatype Registry = Registry(versions: map<Path, seq<Version>>, manifests: map<(Path, Version), Dependencies>)

  datatype Request = Request(pins: map<Path, Version>, roots: set<Path>)

  type Choice = map<Path, Version>

  /** What each requirer demands of each package it requires: keyed by the
      required package, then the requirer. */
  type Constraints = map<(Path, Path), Requirement>

  datatype PackageError =
    | NotInRegistry
    | PinNotAvailable
    | PinExcluded(requirer: Path)
    | NoneSatisfies

  /** What is wrong with one package. */
  type Reasons = set<PackageError>

  const ROUNDS: nat := 64

  predicate WellNamed(path: Path) {
    '/' in path
  }

  function Available(reg: Registry, path: Path): seq<Version> {
    if path in reg.versions then reg.versions[path] else []
  }

  /** The version meets every requirement on the package. */
  predicate Satisfies(version: Version, constraints: Constraints, path: Path) {
    forall entry | entry in constraints :: entry.0 == path ==> version in constraints[entry].accepts
  }

  function RequiredPaths(constraints: Constraints): set<Path> {
    set entry | entry in constraints :: entry.0
  }

  /** The last available version that satisfies all requirements. */
  function Highest(available: seq<Version>, constraints: Constraints, path: Path): Option<Version> {
    if available == [] then None
    else
      var last := available[|available| - 1];
      if Satisfies(last, constraints, path) then Some(last)
      else Highest(available[..|available| - 1], constraints, path)
  }

  /** Those whose requirement on the package the version does not meet. */
  function Excluders(version: Version, constraints: Constraints, path: Path): set<Path> {
    set entry | entry in constraints && entry.0 == path && version !in constraints[entry].accepts :: entry.1
  }

  /** One error for every requirement that excludes a pin. */
  function ExcludedBy(requirers: set<Path>): Reasons {
    set p | p in requirers :: PinExcluded(p)
  }

  /** The version one round picks for a path, or everything that is wrong. */
  function Pick(reg: Registry, req: Request, constraints: Constraints, path: Path): Result<Version, Reasons> {
    var available := Available(reg, path);
    if available == [] then Err({NotInRegistry})
    else if path in req.pins then
      if req.pins[path] !in available then Err({PinNotAvailable})
      else if Satisfies(req.pins[path], constraints, path) then Ok(req.pins[path])
      else Err(ExcludedBy(Excluders(req.pins[path], constraints, path)))
    else
      match Highest(available, constraints, path)
      case Some(version) => Ok(version)
      case None => Err({NoneSatisfies})
  }

  function Paths(req: Request, constraints: Constraints): set<Path> {
    req.pins.Keys + req.roots + RequiredPaths(constraints)
  }

  function SelectIn(reg: Registry, req: Request, constraints: Constraints, paths: set<Path>): Choice {
    map p | p in paths && WellNamed(p) && Pick(reg, req, constraints, p).Ok? :: Pick(reg, req, constraints, p).value
  }

  function ErrorsIn(reg: Registry, req: Request, constraints: Constraints, paths: set<Path>): map<Path, Reasons> {
    map p | p in paths && WellNamed(p) && Pick(reg, req, constraints, p).Err? :: Pick(reg, req, constraints, p).error
  }

  /** Implicit roots picked without any requirement draw a warning. */
  function WarningsIn(reg: Registry, req: Request, constraints: Constraints, paths: set<Path>): set<Path> {
    set p | p in paths && WellNamed(p) && Pick(reg, req, constraints, p).Ok?
            && p !in req.pins && p in req.roots && p !in RequiredPaths(constraints)
  }

  function Select(reg: Registry, req: Request, constraints: Constraints): Choice {
    SelectIn(reg, req, constraints, Paths(req, constraints))
  }

  function Errors(reg: Registry, req: Request, constraints: Constraints): map<Path, Reasons> {
    ErrorsIn(reg, req, constraints, Paths(req, constraints))
  }

  function Warnings(reg: Registry, req: Request, constraints: Constraints): set<Path> {
    WarningsIn(reg, req, constraints, Paths(req, constraints))
  }

  function Manifest(reg: Registry, path: Path, version: Version): Dependencies {
    if (path, version) in reg.manifests then reg.manifests[(path, version)] else map[]
  }

  /** The package at this version declares a well-formed requirement on the other. */
  predicate Declares(reg: Registry, path: Path, version: Version, dependency: Path) {
    dependency in Manifest(reg, path, version) && Manifest(reg, path, version)[dependency].Some?
  }

  function Declared(reg: Registry, path: Path, version: Version, dependency: Path): Requirement
    requires Declares(reg, path, version, dependency)
  {
    Manifest(reg, path, version)[dependency].value
  }

  /** The constraints the manifests of the chosen packages declare. */
  function Derive(reg: Registry, chosen: Choice): Constraints {
    map p, d | p in chosen && d in Manifest(reg, p, chosen[p]) && Declares(reg, p, chosen[p], d) ::
      (d, p) := Declared(reg, p, chosen[p], d)
  }

  /** One round, from one choice to the next. */
  function Round(reg: Registry, req: Request, chosen: Choice): Choice {
    Select(reg, req, Derive(reg, chosen))
  }

  function Rounds(reg: Registry, req: Request, n: nat): Choice {
    if n == 0 then map[] else Round(reg, req, Rounds(reg, req, n - 1))
  }

  datatype Selection = Selection(
    chosen: Choice,
    errors: map<Path, Reasons>,
    warnings: set<Path>,
    diverged: bool)

  // ----- the loops -----------------------------------------------------------------------------

  lemma SelectNone(reg: Registry, req: Request, constraints: Constraints)
    ensures SelectIn(reg, req, constraints, {}) == map[] && ErrorsIn(reg, req, constraints, {}) == map[]
    ensures WarningsIn(reg, req, constraints, {}) == {}
  {
  }

  lemma SelectOne(reg: Registry, req: Request, constraints: Constraints, done: set<Path>, path: Path)
    ensures var picked := Pick(reg, req, constraints, path);
      var next := SelectIn(reg, req, constraints, done);
      var errors := ErrorsIn(reg, req, constraints, done);
      var all := done + {path};
      && SelectIn(reg, req, constraints, all) ==
           (if WellNamed(path) && picked.Ok? then next[path := picked.value] else next)
      && ErrorsIn(reg, req, constraints, all) ==
           (if WellNamed(path) && picked.Err? then errors[path := picked.error] else errors)
      && WarningsIn(reg, req, constraints, all) ==
           (if WellNamed(path) && picked.Ok? && path !in req.pins && path in req.roots
             && path !in RequiredPaths(constraints)
            then WarningsIn(reg, req, constraints, done) + {path}
            else WarningsIn(reg, req, constraints, done))
  {
    hide Pick, WellNamed, RequiredPaths;
  }

  method SelectVersions(reg: Registry, req: Request, constraints: Constraints)
    returns (next: Choice, errors: map<Path, Reasons>, warnings: set<Path>)
    ensures next == Select(reg, req, constraints)
    ensures errors == Errors(reg, req, constraints)
    ensures warnings == Warnings(reg, req, constraints)
  {
    hide Pick, WellNamed, RequiredPaths, SelectIn, ErrorsIn, WarningsIn;
    SelectNone(reg, req, constraints);
    next, errors, warnings := map[], map[], {};
    var required := RequiredPaths(constraints);
    var left := req.pins.Keys + req.roots + required;
    ghost var done: set<Path> := {};
    while left != {}
      invariant done + left == Paths(req, constraints)
      invariant next == SelectIn(reg, req, constraints, done)
      invariant errors == ErrorsIn(reg, req, constraints, done)
      invariant warnings == WarningsIn(reg, req, constraints, done)
      decreases |left|
    {
      var path :| path in left;
      left := left - {path};
      SelectOne(reg, req, constraints, done, path);
      done := done + {path};
      if WellNamed(path) {
        var picked := PickVersion(reg, req, constraints, path);
        match picked {
          case Err(e) => errors := errors[path := e];
          case Ok(version) =>
            if path !in req.pins && path !in required && path in req.roots {
              warnings := warnings + {path};
            }
            next := next[path := version];
        }
      }
    }
  }

  method PickVersion(reg: Registry, req: Request, constraints: Constraints, path: Path)
    returns (r: Result<Version, Reasons>)
    ensures r == Pick(reg, req, constraints, path)
  {
    var available := Available(reg, path);
    if available == [] {
      return Err({NotInRegistry});
    }
    if path in req.pins {
      var pin := req.pins[path];
      if pin !in available {
        return Err({PinNotAvailable});
      }
      var excluders := Excluding(constraints, path, pin);
      NoExcluders(pin, constraints, path);
      return if excluders == {} then Ok(pin) else Err(ExcludedBy(excluders));
    }
    var i := |available|;
    assert available[..i] == available;
    while i > 0
      invariant i <= |available|
      invariant Highest(available, constraints, path) == Highest(available[..i], constraints, path)
    {
      assert available[..i][..i - 1] == available[..i - 1];
      var allowed := Allowed(constraints, path, available[i - 1]);
      if allowed {
        return Ok(available[i - 1]);
      }
      i := i - 1;
    }
    r := Err({NoneSatisfies});
  }

  lemma NoExcluders(version: Version, constraints: Constraints, path: Path)
    ensures Excluders(version, constraints, path) == {} <==> Satisfies(version, constraints, path)
  {
    if Excluders(version, constraints, path) == {} {
      forall entry | entry in constraints && entry.0 == path
        ensures version in constraints[entry].accepts
      {
        assert version !in constraints[entry].accepts ==> entry.1 in Excluders(version, constraints, path);
      }
    }
  }

  method Excluding(constraints: Constraints, path: Path, version: Version) returns (excluders: set<Path>)
    ensures excluders == Excluders(version, constraints, path)
  {
    excluders := {};
    var left := constraints.Keys;
    while left != {}
      invariant left <= constraints.Keys
      invariant excluders == set entry | entry in constraints.Keys - left && entry.0 == path
                                && version !in constraints[entry].accepts :: entry.1
      decreases |left|
    {
      var entry :| entry in left;
      left := left - {entry};
      if entry.0 == path && version !in constraints[entry].accepts {
        excluders := excluders + {entry.1};
      }
    }
  }

  method Allowed(constraints: Constraints, path: Path, version: Version) returns (allowed: bool)
    ensures allowed == Satisfies(version, constraints, path)
  {
    allowed := true;
    var left := constraints.Keys;
    while left != {}
      invariant left <= constraints.Keys
      invariant allowed <==> forall entry | entry in constraints.Keys - left ::
        entry.0 == path ==> version in constraints[entry].accepts
      decreases |left|
    {
      var entry :| entry in left;
      left := left - {entry};
      if entry.0 == path && version !in constraints[entry].accepts {
        allowed := false;
      }
    }
  }

  /** The constraints of the manifests of some of the chosen packages, and of
      some of the dependencies of one more. */
  function DeriveIn(reg: Registry, chosen: Choice, done: set<Path>, path: Path, some: set<Path>): Constraints {
    map p, d | p in chosen && d in Manifest(reg, p, chosen[p]) && Declares(reg, p, chosen[p], d)
               && (p in done || (p == path && d in some)) ::
      (d, p) := Declared(reg, p, chosen[p], d)
  }

  lemma DeriveNext(reg: Registry, chosen: Choice, done: set<Path>, path: Path)
    requires path in chosen
    ensures DeriveIn(reg, chosen, done, path, Manifest(reg, path, chosen[path]).Keys)
            == DeriveIn(reg, chosen, done + {path}, path, {})
    ensures forall next :: DeriveIn(reg, chosen, done, path, {}) == DeriveIn(reg, chosen, done, next, {})
  {
    hide Manifest;
  }

  method DeriveConstraints(reg: Registry, chosen: Choice) returns (constraints: Constraints)
    ensures constraints == Derive(reg, chosen)
  {
    hide Manifest;
    constraints := map[];
    var left := chosen.Keys;
    ghost var done: set<Path> := {};
    while left != {}
      invariant done + left == chosen.Keys && done !! left
      invariant constraints == DeriveIn(reg, chosen, done, "", {})
      decreases |left|
    {
      var path :| path in left;
      left := left - {path};
      constraints := DeriveFrom(reg, chosen, constraints, done, path);
      done := done + {path};
    }
  }

  method DeriveFrom(reg: Registry, chosen: Choice, before: Constraints, ghost done: set<Path>, path: Path)
    returns (after: Constraints)
    requires path in chosen && path !in done && before == DeriveIn(reg, chosen, done, "", {})
    ensures after == DeriveIn(reg, chosen, done + {path}, "", {})
  {
    hide Manifest, Declares;
    DeriveNext(reg, chosen, done, path);
    after := before;
    var dependencies := Manifest(reg, path, chosen[path]);
    var left := dependencies.Keys;
    ghost var some: set<Path> := {};
    while left != {}
      invariant some + left == dependencies.Keys && some !! left
      invariant after == DeriveIn(reg, chosen, done, path, some)
      decreases |left|
    {
      var dependency :| dependency in left;
      left := left - {dependency};
      DeriveOne(reg, chosen, done, path, some, dependency);
      if dependencies[dependency].Some? {
        after := after[(dependency, path) := dependencies[dependency].value];
      }
      some := some + {dependency};
    }
    assert some == dependencies.Keys;
    DeriveNext(reg, chosen, done + {path}, path);
  }

  lemma DeriveOne(reg: Registry, chosen: Choice, done: set<Path>, path: Path, some: set<Path>, dependency: Path)
    requires path in chosen && path !in done && dependency in Manifest(reg, path, chosen[path])
    ensures var before := DeriveIn(reg, chosen, done, path, some);
      var declared := Manifest(reg, path, chosen[path])[dependency];
      DeriveIn(reg, chosen, done, path, some + {dependency}) ==
        if declared.Some? then before[(dependency, path) := declared.value] else before
  {
    hide Manifest;
  }

  /** The selection after `n` rounds, the last of them stable or not. */
  function Outcome(reg: Registry, req: Request, n: nat, converged: bool): Selection
    requires n >= 1
  {
    var constraints := Derive(reg, Rounds(reg, req, n - 1));
    var errors := Errors(reg, req, constraints);
    Selection(Rounds(reg, req, n), errors, Warnings(reg, req, constraints), !converged && errors == map[])
  }

  /** Whether round `n + 1` repeats the choice of round `n`. */
  predicate Stable(reg: Registry, req: Request, n: nat) {
    Rounds(reg, req, n + 1) == Rounds(reg, req, n)
  }

  /** The least stable round within the bound. */
  predicate FirstStable(reg: Registry, req: Request, n: nat) {
    n < ROUNDS && Stable(reg, req, n) && forall k: nat | k < n :: !Stable(reg, req, k)
  }

  ghost function Resolution(reg: Registry, req: Request): Selection {
    if n: nat :| FirstStable(reg, req, n) then Outcome(reg, req, n + 1, true)
    else Outcome(reg, req, ROUNDS, false)
  }

  lemma FirstStableUnique(reg: Registry, req: Request, m: nat, n: nat)
    requires FirstStable(reg, req, m) && FirstStable(reg, req, n)
    ensures m == n
  {
    hide Stable;
  }

  lemma FirstStableResolves(reg: Registry, req: Request, n: nat)
    requires FirstStable(reg, req, n)
    ensures Resolution(reg, req) == Outcome(reg, req, n + 1, true)
  {
    hide Outcome, FirstStable;
    forall m: nat | FirstStable(reg, req, m)
      ensures m == n
    {
      FirstStableUnique(reg, req, m, n);
    }
  }

  lemma NoneStableResolves(reg: Registry, req: Request)
    requires forall k: nat :: k < ROUNDS ==> !Stable(reg, req, k)
    ensures Resolution(reg, req) == Outcome(reg, req, ROUNDS, false)
  {
    hide Outcome, Stable;
  }

  lemma NothingRequired(reg: Registry)
    ensures Derive(reg, map[]) == map[]
  {
  }

  method Resolve(reg: Registry, req: Request) returns (selection: Selection)
    ensures selection == Resolution(reg, req)
  {
    hide Select, Derive, Errors, Warnings, Resolution;
    NothingRequired(reg);
    var constraints: Constraints := map[];
    var chosen: Choice := map[];
    var errors: map<Path, Reasons> := map[];
    var warnings: set<Path> := {};
    var converged := false;
    var round := 0;
    while round < ROUNDS
      invariant round <= ROUNDS
      invariant chosen == Rounds(reg, req, round) && constraints == Derive(reg, chosen)
      invariant forall k: nat :: k < round ==> !Stable(reg, req, k)
      invariant round > 0 ==> Selection(chosen, errors, warnings, errors == map[]) == Outcome(reg, req, round, false)
    {
      var next, errs, warns := SelectVersions(reg, req, constraints);
      var derived := DeriveConstraints(reg, next);
      var stable := next == chosen && derived == constraints;
      chosen, constraints, errors, warnings := next, derived, errs, warns;
      if stable {
        converged := true;
        assert Selection(chosen, errors, warnings, false) == Outcome(reg, req, round + 1, true);
        FirstStableResolves(reg, req, round);
        break;
      }
      round := round + 1;
    }
    selection := Selection(chosen, errors, warnings, !converged && errors == map[]);
    if !converged {
      NoneStableResolves(reg, req);
    }
  }
}
