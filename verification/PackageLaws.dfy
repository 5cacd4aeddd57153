// The fixpoint iteration converges on every registry without long dependency
// chains, and what it selects is the one solution of the request, if any.
module PackageLaws {
  import opened Prelude
  import opened Packages

  // ----- solutions -------------------------------------------------------------------------

  predicate Ascending(versions: seq<Version>) {
    forall i, j :: 0 <= i < j < |versions| ==> versions[i] <= versions[j]
  }

  predicate SortedRegistry(reg: Registry) {
    forall p :: p in reg.versions ==> Ascending(reg.versions[p])
  }

  /** Every package of the choice accepts this version of the dependency. */
  ghost predicate AcceptedByAll(reg: Registry, chosen: Choice, dependency: Path, version: Version) {
    forall p :: p in chosen && Declares(reg, p, chosen[p], dependency) ==>
      version in Declared(reg, p, chosen[p], dependency).accepts
  }

  ghost predicate RequiredBySome(reg: Registry, chosen: Choice, dependency: Path) {
    exists p :: p in chosen && Declares(reg, p, chosen[p], dependency)
  }

  /** One package of a solution: available, accepted by all that depend on it,
      at its pin or else the highest such version, and there for a reason. */
  ghost predicate WellChosen(reg: Registry, req: Request, chosen: Choice, p: Path)
    requires p in chosen
  {
    && WellNamed(p) && chosen[p] in Available(reg, p)
    && AcceptedByAll(reg, chosen, p, chosen[p])
    && (p in req.pins ==> chosen[p] == req.pins[p])
    && (p !in req.pins ==> forall v :: v in Available(reg, p) && v > chosen[p] ==> !AcceptedByAll(reg, chosen, p, v))
    && (p in req.pins || p in req.roots || RequiredBySome(reg, chosen, p))
  }

  /** A choice with every pin and root, closed under dependencies, each package well chosen. */
  ghost predicate Solution(reg: Registry, req: Request, chosen: Choice) {
    && (forall p :: p in chosen ==> WellChosen(reg, req, chosen, p))
    && (forall p :: WellNamed(p) && (p in req.pins || p in req.roots || RequiredBySome(reg, chosen, p)) ==> p in chosen)
  }

  lemma DeriveSatisfies(reg: Registry, chosen: Choice, dependency: Path, version: Version)
    ensures Satisfies(version, Derive(reg, chosen), dependency) <==> AcceptedByAll(reg, chosen, dependency, version)
  {
    var constraints := Derive(reg, chosen);
    if Satisfies(version, constraints, dependency) {
      forall p | p in chosen && Declares(reg, p, chosen[p], dependency)
        ensures version in Declared(reg, p, chosen[p], dependency).accepts
      {
        assert (dependency, p) in constraints;
      }
    }
  }

  lemma DeriveRequires(reg: Registry, chosen: Choice, dependency: Path)
    ensures dependency in RequiredPaths(Derive(reg, chosen)) <==> RequiredBySome(reg, chosen, dependency)
  {
    var constraints := Derive(reg, chosen);
    if dependency in RequiredPaths(constraints) {
      var entry :| entry in constraints && entry.0 == dependency;
      assert entry.1 in chosen && Declares(reg, entry.1, chosen[entry.1], dependency);
    }
    if RequiredBySome(reg, chosen, dependency) {
      var p :| p in chosen && Declares(reg, p, chosen[p], dependency);
      assert (dependency, p) in constraints;
      assert (dependency, p).0 == dependency;
    }
  }

  /** The highest satisfying version, told apart by its two properties. */
  lemma {:induction false} HighestMeaning(available: seq<Version>, constraints: Constraints, path: Path)
    requires Ascending(available)
    ensures var found := Highest(available, constraints, path);
      && (found.Some? ==> found.value in available && Satisfies(found.value, constraints, path)
                          && forall v :: v in available && v > found.value ==> !Satisfies(v, constraints, path))
      && (found.None? ==> forall v :: v in available ==> !Satisfies(v, constraints, path))
    decreases |available|
  {
    hide Satisfies;
    if available != [] {
      var rest := available[..|available| - 1];
      var last := available[|available| - 1];
      HighestMeaning(rest, constraints, path);
      forall v | v in available
        ensures v == last || (v in rest && v <= last)
      {
        var i :| 0 <= i < |available| && available[i] == v;
        assert i < |rest| ==> rest[i] == v;
      }
    }
  }

  lemma AvailableAscends(reg: Registry, path: Path)
    requires SortedRegistry(reg)
    ensures Ascending(Available(reg, path))
  {
  }

  /** What a pick means under the constraints of a choice. */
  lemma PickMeaning(reg: Registry, req: Request, chosen: Choice, path: Path)
    requires SortedRegistry(reg)
    ensures var pick := Pick(reg, req, Derive(reg, chosen), path);
      && (pick.Ok? ==>
            && pick.value in Available(reg, path) && AcceptedByAll(reg, chosen, path, pick.value)
            && (path in req.pins ==> pick.value == req.pins[path])
            && (path !in req.pins ==>
                  forall v :: v in Available(reg, path) && v > pick.value ==> !AcceptedByAll(reg, chosen, path, v)))
      && (pick.Err? ==>
            if path in req.pins
            then !(req.pins[path] in Available(reg, path) && AcceptedByAll(reg, chosen, path, req.pins[path]))
            else forall v :: v in Available(reg, path) ==> !AcceptedByAll(reg, chosen, path, v))
  {
    hide Derive, Satisfies, AcceptedByAll, Highest, Available;
    var constraints := Derive(reg, chosen);
    forall v: Version
      ensures Satisfies(v, constraints, path) <==> AcceptedByAll(reg, chosen, path, v)
    {
      DeriveSatisfies(reg, chosen, path, v);
    }
    AvailableAscends(reg, path);
    HighestMeaning(Available(reg, path), constraints, path);
  }

  /** What a round asks for: a well-named pin, root, or dependency of a chosen package. */
  ghost predicate AskedFor(reg: Registry, req: Request, chosen: Choice, path: Path) {
    WellNamed(path) && (path in req.pins || path in req.roots || RequiredBySome(reg, chosen, path))
  }

  ghost predicate Faulty(reg: Registry, req: Request, chosen: Choice, path: Path, reason: PackageError) {
    match reason
    case NotInRegistry => Available(reg, path) == []
    case PinNotAvailable => Available(reg, path) != [] && path in req.pins && req.pins[path] !in Available(reg, path)
    case PinExcluded(p) =>
      && path in req.pins && req.pins[path] in Available(reg, path)
      && p in chosen && Declares(reg, p, chosen[p], path)
      && req.pins[path] !in Declared(reg, p, chosen[p], path).accepts
    case NoneSatisfies =>
      && Available(reg, path) != [] && path !in req.pins
      && forall v :: v in Available(reg, path) ==> !AcceptedByAll(reg, chosen, path, v)
  }

  /** A round after this choice reports a reason for a package if and only if it asks
      for the package and the reason applies, chooses a version exactly where no reason
      does, and warns of the roots chosen though nothing pins or requires them. */
  lemma ReasonsExactly(reg: Registry, req: Request, chosen: Choice, path: Path)
    requires SortedRegistry(reg)
    ensures var constraints := Derive(reg, chosen);
      var errors := Errors(reg, req, constraints);
      && (forall reason :: path in errors && reason in errors[path] <==>
            AskedFor(reg, req, chosen, path) && Faulty(reg, req, chosen, path, reason))
      && (path in Round(reg, req, chosen) <==>
            AskedFor(reg, req, chosen, path) && forall reason :: !Faulty(reg, req, chosen, path, reason))
      && (path in Warnings(reg, req, constraints) <==>
            && path in Round(reg, req, chosen) && path in req.roots
            && path !in req.pins && !RequiredBySome(reg, chosen, path))
  {
    hide Derive, Pick, RequiredBySome, Available, WellNamed, Paths, Faulty, RequiredPaths;
    PathsMeaning(reg, req, chosen, path);
    DeriveRequires(reg, chosen, path);
    PickFaults(reg, req, chosen, path);
  }

  lemma PickFaults(reg: Registry, req: Request, chosen: Choice, path: Path)
    requires SortedRegistry(reg)
    ensures var pick := Pick(reg, req, Derive(reg, chosen), path);
      && (pick.Ok? ==> forall reason :: !Faulty(reg, req, chosen, path, reason))
      && (pick.Err? ==> pick.error != {}
                        && forall reason :: reason in pick.error <==> Faulty(reg, req, chosen, path, reason))
  {
    hide Derive, Satisfies, AcceptedByAll, Highest, Available, Excluders;
    PickMeaning(reg, req, chosen, path);
    if path in req.pins {
      NoExcluders(req.pins[path], Derive(reg, chosen), path);
      DeriveSatisfies(reg, chosen, path, req.pins[path]);
      ExcludersMeaning(reg, chosen, path, req.pins[path]);
      ExcludedMeaning(Excluders(req.pins[path], Derive(reg, chosen), path));
      AcceptedMeaning(reg, chosen, path, req.pins[path]);
    }
  }

  lemma ExcludedMeaning(requirers: set<Path>)
    ensures forall reason :: reason in ExcludedBy(requirers) <==> reason.PinExcluded? && reason.requirer in requirers
    ensures requirers != {} ==> ExcludedBy(requirers) != {}
  {
    if p :| p in requirers {
      assert PinExcluded(p) in ExcludedBy(requirers);
    }
  }

  lemma ExcludersMeaning(reg: Registry, chosen: Choice, path: Path, version: Version)
    ensures forall p :: p in Excluders(version, Derive(reg, chosen), path) <==>
      && p in chosen && Declares(reg, p, chosen[p], path)
      && version !in Declared(reg, p, chosen[p], path).accepts
  {
    var constraints := Derive(reg, chosen);
    forall p
      ensures p in Excluders(version, constraints, path) <==>
        && p in chosen && Declares(reg, p, chosen[p], path)
        && version !in Declared(reg, p, chosen[p], path).accepts
    {
      assert (path, p) in constraints <==> p in chosen && Declares(reg, p, chosen[p], path);
      if p in Excluders(version, constraints, path) {
        var entry :| entry in constraints && entry.0 == path && version !in constraints[entry].accepts && entry.1 == p;
        assert entry == (path, p);
      }
      if (path, p) in constraints && version !in constraints[(path, p)].accepts {
        assert (path, p).0 == path && (path, p).1 == p;
      }
    }
  }

  lemma AcceptedMeaning(reg: Registry, chosen: Choice, path: Path, version: Version)
    ensures AcceptedByAll(reg, chosen, path, version) <==>
      forall p :: !(p in chosen && Declares(reg, p, chosen[p], path)
                    && version !in Declared(reg, p, chosen[p], path).accepts)
  {
  }

  predicate Settled(reg: Registry, req: Request, chosen: Choice) {
    Round(reg, req, chosen) == chosen && Errors(reg, req, Derive(reg, chosen)) == map[]
  }

  /** Solutions are exactly the choices one more round confirms without error. */
  lemma SolutionIsSettled(reg: Registry, req: Request, chosen: Choice)
    requires SortedRegistry(reg)
    ensures Solution(reg, req, chosen) <==> Settled(reg, req, chosen)
  {
    if Solution(reg, req, chosen) {
      SolutionSettles(reg, req, chosen);
    }
    if Settled(reg, req, chosen) {
      SettledSolves(reg, req, chosen);
    }
  }

  lemma PathsMeaning(reg: Registry, req: Request, chosen: Choice, path: Path)
    ensures path in Paths(req, Derive(reg, chosen)) <==>
            path in req.pins || path in req.roots || RequiredBySome(reg, chosen, path)
  {
    hide Derive;
    DeriveRequires(reg, chosen, path);
  }

  lemma SolutionSettles(reg: Registry, req: Request, chosen: Choice)
    requires SortedRegistry(reg) && Solution(reg, req, chosen)
    ensures Settled(reg, req, chosen)
  {
    hide Derive, Pick, AcceptedByAll, RequiredBySome, Available, WellNamed, Paths;
    var constraints := Derive(reg, chosen);
    forall p | WellNamed(p) && p in Paths(req, constraints)
      ensures p in chosen && Pick(reg, req, constraints, p) == Ok(chosen[p])
    {
      PathsMeaning(reg, req, chosen, p);
      assert WellChosen(reg, req, chosen, p);
      PickMeaning(reg, req, chosen, p);
    }
    forall p | p in chosen
      ensures WellNamed(p) && p in Paths(req, constraints)
    {
      assert WellChosen(reg, req, chosen, p);
      PathsMeaning(reg, req, chosen, p);
    }
    assert Round(reg, req, chosen) == chosen;
  }

  lemma SettledSolves(reg: Registry, req: Request, chosen: Choice)
    requires SortedRegistry(reg) && Settled(reg, req, chosen)
    ensures Solution(reg, req, chosen)
  {
    hide Derive, Pick, AcceptedByAll, RequiredBySome, Available, WellNamed, Paths;
    var constraints := Derive(reg, chosen);
    forall p | p in chosen
      ensures WellChosen(reg, req, chosen, p)
    {
      assert p in Round(reg, req, chosen);
      PathsMeaning(reg, req, chosen, p);
      PickMeaning(reg, req, chosen, p);
    }
    forall p | WellNamed(p) && (p in req.pins || p in req.roots || RequiredBySome(reg, chosen, p))
      ensures p in chosen
    {
      PathsMeaning(reg, req, chosen, p);
      assert p !in Errors(reg, req, constraints);
      assert p in Round(reg, req, chosen);
    }
  }

  // ----- what the resolver returns --------------------------------------------------------------

  /** A stable round within the bound means a least one. */
  lemma {:induction false} StableHasFirst(reg: Registry, req: Request, n: nat)
    requires n < ROUNDS && Stable(reg, req, n)
    ensures exists k: nat :: k <= n && FirstStable(reg, req, k)
  {
    hide Stable;
    if k: nat :| k < n && Stable(reg, req, k) {
      StableHasFirst(reg, req, k);
    } else {
      assert FirstStable(reg, req, n);
    }
  }

  /** Without an error the selection is a solution, whatever the registry. */
  lemma SelectionIsSolution(reg: Registry, req: Request)
    requires SortedRegistry(reg)
    ensures var selection := Resolution(reg, req);
      selection.errors == map[] && !selection.diverged ==> Solution(reg, req, selection.chosen)
  {
    hide Derive, Select, Errors, Warnings;
    if n: nat :| FirstStable(reg, req, n) {
      FirstStableResolves(reg, req, n);
      var chosen := Rounds(reg, req, n + 1);
      assert chosen == Rounds(reg, req, n);
      assert Rounds(reg, req, n + 1) == Round(reg, req, Rounds(reg, req, n));
      if Resolution(reg, req).errors == map[] {
        SolutionIsSettled(reg, req, chosen);
      }
    }
  }

  // ----- chains of dependencies ------------------------------------------------------------------

  predicate Edge(reg: Registry, from: Path, version: Version, to: Path) {
    WellNamed(from) && Declares(reg, from, version, to)
  }

  /** A chain of that many dependencies, over any versions, ends at the path. */
  ghost predicate Deep(reg: Registry, p: Path, n: nat)
    decreases n
  {
    n == 0 || exists q: Path, v: Version :: Edge(reg, q, v, p) && Deep(reg, q, n - 1)
  }

  /** The least number of dependencies in a chain that is too long. */
  const TOO_DEEP: nat := 63

  /** No chain of more than `n` dependencies; in particular no cycle. */
  ghost predicate ChainsWithin(reg: Registry, n: nat) {
    NoneDeep(reg, n + 1)
  }

  ghost predicate NoneDeep(reg: Registry, n: nat) {
    forall p: Path :: !Deep(reg, p, n)
  }

  ghost predicate Shallow(reg: Registry) {
    ChainsWithin(reg, TOO_DEEP - 1)
  }

  predicate SameAt(a: Choice, b: Choice, p: Path) {
    (p in a <==> p in b) && (p in a ==> a[p] == b[p])
  }

  /** Two choices agree wherever no chain of that length ends. */
  ghost predicate Agree(reg: Registry, a: Choice, b: Choice, n: nat) {
    && (forall p :: p in a || p in b ==> WellNamed(p))
    && forall p :: !Deep(reg, p, n) ==> SameAt(a, b, p)
  }

  lemma ConstraintsAgree(reg: Registry, a: Choice, b: Choice, n: nat, d: Path)
    requires Agree(reg, a, b, n) && !Deep(reg, d, n + 1)
    ensures forall who :: (d, who) in Derive(reg, a) <==> (d, who) in Derive(reg, b)
    ensures forall who :: (d, who) in Derive(reg, a) ==> Derive(reg, a)[(d, who)] == Derive(reg, b)[(d, who)]
  {
    forall who | (who in a && Declares(reg, who, a[who], d)) || (who in b && Declares(reg, who, b[who], d))
      ensures SameAt(a, b, who)
    {
      var v := if who in a && Declares(reg, who, a[who], d) then a[who] else b[who];
      assert Edge(reg, who, v, d);
      assert !Deep(reg, who, n);
    }
  }

  /** A pick looks at no requirement but those on its own path. */
  lemma PickLocal(reg: Registry, req: Request, a: Constraints, b: Constraints, d: Path)
    requires forall who :: (d, who) in a <==> (d, who) in b
    requires forall who :: (d, who) in a ==> a[(d, who)] == b[(d, who)]
    ensures Pick(reg, req, a, d) == Pick(reg, req, b, d)
    ensures d in RequiredPaths(a) <==> d in RequiredPaths(b)
  {
    forall v: Version
      ensures Satisfies(v, a, d) <==> Satisfies(v, b, d)
    {
      SatisfiesLocal(v, a, b, d);
      SatisfiesLocal(v, b, a, d);
    }
    HighestLocal(Available(reg, d), a, b, d);
    if d in req.pins {
      ExcludersLocal(req.pins[d], a, b, d);
      ExcludersLocal(req.pins[d], b, a, d);
      assert Excluders(req.pins[d], a, d) == Excluders(req.pins[d], b, d);
    }
    RequiredLocal(a, b, d);
    RequiredLocal(b, a, d);
  }

  lemma SatisfiesLocal(v: Version, a: Constraints, b: Constraints, d: Path)
    requires forall who :: (d, who) in a <==> (d, who) in b
    requires forall who :: (d, who) in a ==> a[(d, who)] == b[(d, who)]
    ensures Satisfies(v, a, d) ==> Satisfies(v, b, d)
  {
    if Satisfies(v, a, d) {
      forall entry | entry in b && entry.0 == d
        ensures v in b[entry].accepts
      {
        assert entry == (d, entry.1);
      }
    }
  }

  lemma ExcludersLocal(v: Version, a: Constraints, b: Constraints, d: Path)
    requires forall who :: (d, who) in a ==> (d, who) in b && a[(d, who)] == b[(d, who)]
    ensures Excluders(v, a, d) <= Excluders(v, b, d)
  {
    forall who | who in Excluders(v, a, d)
      ensures who in Excluders(v, b, d)
    {
      assert (d, who) in a && (d, who) in b;
    }
  }

  lemma RequiredLocal(a: Constraints, b: Constraints, d: Path)
    requires forall who :: (d, who) in a ==> (d, who) in b
    ensures d in RequiredPaths(a) ==> d in RequiredPaths(b)
  {
    if d in RequiredPaths(a) {
      var entry :| entry in a && entry.0 == d;
      assert entry == (d, entry.1);
      assert (d, entry.1) in b;
    }
  }

  lemma {:induction false} HighestLocal(available: seq<Version>, a: Constraints, b: Constraints, d: Path)
    requires forall v: Version :: Satisfies(v, a, d) <==> Satisfies(v, b, d)
    ensures Highest(available, a, d) == Highest(available, b, d)
    decreases |available|
  {
    hide Satisfies;
    if available != [] {
      HighestLocal(available[..|available| - 1], a, b, d);
    }
  }

  /** A round carries agreement one dependency further. */
  lemma RoundAgrees(reg: Registry, req: Request, a: Choice, b: Choice, n: nat)
    requires Agree(reg, a, b, n)
    ensures Agree(reg, Round(reg, req, a), Round(reg, req, b), n + 1)
  {
    hide Derive, Pick, RequiredPaths, Deep;
    forall p | !Deep(reg, p, n + 1)
      ensures SameAt(Round(reg, req, a), Round(reg, req, b), p)
    {
      ConstraintsAgree(reg, a, b, n, p);
      PickLocal(reg, req, Derive(reg, a), Derive(reg, b), p);
    }
  }

  lemma RoundWellNamed(reg: Registry, req: Request, chosen: Choice)
    ensures forall p :: p in Round(reg, req, chosen) ==> WellNamed(p)
  {
    hide Derive, Pick, Paths, WellNamed;
  }

  lemma RoundsWellNamed(reg: Registry, req: Request, n: nat)
    ensures forall p :: p in Rounds(reg, req, n) ==> WellNamed(p)
  {
    hide Round, WellNamed;
    if n > 0 {
      RoundWellNamed(reg, req, Rounds(reg, req, n - 1));
    }
  }

  /** After `n` rounds every path no chain of `n` dependencies ends at is final. */
  lemma {:induction false} RoundsAgree(reg: Registry, req: Request, n: nat)
    ensures Agree(reg, Rounds(reg, req, n), Rounds(reg, req, n + 1), n)
  {
    hide Round;
    RoundsWellNamed(reg, req, n);
    RoundsWellNamed(reg, req, n + 1);
    if n > 0 {
      RoundsAgree(reg, req, n - 1);
      RoundAgrees(reg, req, Rounds(reg, req, n - 1), Rounds(reg, req, n), n - 1);
    }
  }

  /** So does every settled choice agree with the rounds. */
  lemma {:induction false} RoundsApproach(reg: Registry, req: Request, settled: Choice, n: nat)
    requires Round(reg, req, settled) == settled
    ensures Agree(reg, Rounds(reg, req, n), settled, n)
  {
    hide Round, WellNamed;
    RoundsWellNamed(reg, req, n);
    RoundWellNamed(reg, req, settled);
    if n > 0 {
      RoundsApproach(reg, req, settled, n - 1);
      RoundAgrees(reg, req, Rounds(reg, req, n - 1), settled, n - 1);
    }
  }

  lemma AgreeingEverywhere(reg: Registry, a: Choice, b: Choice)
    requires Shallow(reg) && Agree(reg, a, b, TOO_DEEP)
    ensures a == b
  {
    hide Deep;
    forall p: Path
      ensures p in a <==> p in b
      ensures p in a && p in b ==> a[p] == b[p]
    {
      assert !Deep(reg, p, TOO_DEEP);
      assert SameAt(a, b, p);
    }
  }

  /** Without a chain of more than 62 dependencies the iteration settles in time. */
  lemma ShallowConverges(reg: Registry, req: Request)
    requires Shallow(reg)
    ensures !Resolution(reg, req).diverged
    ensures exists n: nat :: FirstStable(reg, req, n)
  {
    hide Shallow, Agree, Rounds, Errors, Warnings, Derive, FirstStable, Resolution;
    RoundsAgree(reg, req, TOO_DEEP);
    AgreeingEverywhere(reg, Rounds(reg, req, TOO_DEEP), Rounds(reg, req, ROUNDS));
    assert Stable(reg, req, TOO_DEEP);
    StableHasFirst(reg, req, TOO_DEEP);
    var n: nat :| FirstStable(reg, req, n);
    FirstStableResolves(reg, req, n);
  }

  /** On such a registry the resolver decides the request: it returns without an
      error exactly when a solution exists, and then what it chose is the only one. */
  lemma ResolverDecides(reg: Registry, req: Request)
    requires SortedRegistry(reg) && Shallow(reg)
    ensures var selection := Resolution(reg, req);
      && !selection.diverged
      && (selection.errors == map[] <==> exists s: Choice :: Solution(reg, req, s))
      && (forall s: Choice :: Solution(reg, req, s) ==> s == selection.chosen)
  {
    hide Solution, Shallow, Derive, Select, Errors, Warnings, Agree, Resolution;
    var selection := Resolution(reg, req);
    ShallowConverges(reg, req);
    var n: nat :| FirstStable(reg, req, n);
    FirstStableResolves(reg, req, n);
    var final := Rounds(reg, req, n);
    assert final == Rounds(reg, req, n + 1) == Round(reg, req, final) == selection.chosen;
    SolutionIsSettled(reg, req, final);
    forall s: Choice | Solution(reg, req, s)
      ensures s == final
    {
      SolutionIsSettled(reg, req, s);
      RoundsApproach(reg, req, s, TOO_DEEP);
      AgreeingEverywhere(reg, Rounds(reg, req, TOO_DEEP), s);
      RoundsApproach(reg, req, final, TOO_DEEP);
      AgreeingEverywhere(reg, Rounds(reg, req, TOO_DEEP), final);
    }
  }

  // ----- reachability ----------------------------------------------------------------------------------

  /** Pins and roots lead to the package in at most that many dependencies of chosen packages. */
  ghost predicate Reached(reg: Registry, req: Request, chosen: Choice, p: Path, n: nat)
    decreases n
  {
    p in req.pins || p in req.roots ||
    (n > 0 && exists q :: q in chosen && Declares(reg, q, chosen[q], p) && Reached(reg, req, chosen, q, n - 1))
  }

  lemma {:induction false} ReachedOrDeep(reg: Registry, req: Request, chosen: Choice, p: Path, n: nat)
    requires Solution(reg, req, chosen) && p in chosen
    ensures Reached(reg, req, chosen, p, n) || Deep(reg, p, n + 1)
    decreases n
  {
    assert WellChosen(reg, req, chosen, p);
    if p !in req.pins && p !in req.roots {
      var q :| q in chosen && Declares(reg, q, chosen[q], p);
      assert WellChosen(reg, req, chosen, q);
      assert Edge(reg, q, chosen[q], p);
      if n > 0 {
        ReachedOrDeep(reg, req, chosen, q, n - 1);
      }
    }
  }

  /** Without cycles nothing is in a solution that no pin or root leads to, in no
      more steps than the longest chain has. */
  lemma SolutionIsReached(reg: Registry, req: Request, chosen: Choice, p: Path, n: nat)
    requires ChainsWithin(reg, n) && Solution(reg, req, chosen) && p in chosen
    ensures Reached(reg, req, chosen, p, n)
  {
    ReachedOrDeep(reg, req, chosen, p, n);
  }

  // ----- the bound is exact ---------------------------------------------------------------------------

  function Link(i: nat): (p: Path)
    ensures |p| == i + 1 && WellNamed(p)
  {
    ['/'] + seq(i, _ => 'n')
  }

  /** A line of packages, each depending on the next, that many dependencies long. */
  function Line(length: nat): Registry {
    Registry(
      map p | p in LinkSet(length) :: [0],
      map p | p in LinkSet(length) :: (p, 0) := if |p| <= length then map[Link(|p|) := Some(Requirement({0}))]
        else map[])
  }

  function LinkSet(length: nat): set<Path> {
    set i | 0 <= i <= length :: Link(i)
  }

  const HEAD := Request(map[], {Link(0)})

  function Prefix(length: nat, n: nat): Choice {
    map p | p in LinkSet(length) && |p| <= n :: 0
  }

  lemma LinkUnique(length: nat, p: Path)
    requires p in LinkSet(length)
    ensures 1 <= |p| <= length + 1 && p == Link(|p| - 1) && WellNamed(p)
  {
  }

  lemma LinkListed(length: nat, i: nat)
    requires i <= length
    ensures Link(i) in LinkSet(length)
  {
  }

  /** On the line only the package before declares a requirement on one. */
  lemma LineDeclares(length: nat, p: Path, d: Path)
    requires p in LinkSet(length)
    ensures Declares(Line(length), p, 0, d) <==> |p| <= length && d == Link(|p|)
    ensures Declares(Line(length), p, 0, d) ==> Declared(Line(length), p, 0, d) == Requirement({0})
  {
    hide Link, LinkSet;
  }

  /** After `n` rounds the first `n` packages of the line are chosen. */
  lemma {:induction false} LineRounds(length: nat, n: nat)
    ensures Rounds(Line(length), HEAD, n) == Prefix(length, n)
  {
    hide Round, Line;
    if n == 0 {
      assert Prefix(length, 0) == map[];
    } else {
      LineRounds(length, n - 1);
      LineRound(length, n - 1);
    }
  }

  lemma LinePick(length: nat, n: nat, p: Path)
    requires p in LinkSet(length)
    ensures Pick(Line(length), HEAD, Derive(Line(length), Prefix(length, n)), p) == Ok(0)
  {
    var reg := Line(length);
    var chosen := Prefix(length, n);
    assert Available(reg, p) == [0];
    forall q | q in chosen && Declares(reg, q, chosen[q], p)
      ensures 0 in Declared(reg, q, chosen[q], p).accepts
    {
      LineDeclares(length, q, p);
    }
    hide Derive, Line, Prefix, Link, LinkSet;
    DeriveSatisfies(reg, chosen, p, 0);
    assert Highest([0], Derive(reg, chosen), p) == Some(0);
  }

  lemma LineRequires(length: nat, n: nat, d: Path)
    ensures RequiredBySome(Line(length), Prefix(length, n), d) <==> exists i :: 1 <= i <= Min(n, length) && d == Link(i)
  {
    hide Line, Declares, Link;
    var reg := Line(length);
    var chosen := Prefix(length, n);
    if RequiredBySome(reg, chosen, d) {
      var p :| p in chosen && Declares(reg, p, chosen[p], d);
      LineDeclares(length, p, d);
      LinkUnique(length, p);
    }
    if i :| 1 <= i <= Min(n, length) && d == Link(i) {
      LinkListed(length, i - 1);
      LineDeclares(length, Link(i - 1), d);
      assert Link(i - 1) in chosen;
    }
  }

  lemma LineRound(length: nat, n: nat)
    ensures Round(Line(length), HEAD, Prefix(length, n)) == Prefix(length, n + 1)
  {
    hide Line, Derive, Pick, Link, RequiredBySome, Paths;
    var reg := Line(length);
    var chosen := Prefix(length, n);
    var next := Round(reg, HEAD, chosen);
    var expected := Prefix(length, n + 1);
    forall p
      ensures p in next <==> p in expected
      ensures p in next && p in expected ==> next[p] == expected[p]
    {
      PathsMeaning(reg, HEAD, chosen, p);
      LineRequires(length, n, p);
      if p in LinkSet(length) {
        LinkUnique(length, p);
        LinePick(length, n, p);
      }
      if p in next {
        LinkListed(length, 0);
        if i :| 1 <= i <= Min(n, length) && p == Link(i) {
          LinkListed(length, i);
        }
      }
    }
  }

  lemma LineStable(length: nat, n: nat)
    ensures Stable(Line(length), HEAD, n) <==> n > length
  {
    hide Line, Link;
    LineRounds(length, n);
    LineRounds(length, n + 1);
    if n <= length {
      LinkListed(length, n);
      assert Link(n) in Prefix(length, n + 1) && Link(n) !in Prefix(length, n);
    } else {
      forall p | p in LinkSet(length)
        ensures |p| <= n
      {
        LinkUnique(length, p);
      }
      assert Prefix(length, n) == Prefix(length, n + 1);
    }
  }

  lemma LineHasNoErrors(length: nat, n: nat)
    ensures Errors(Line(length), HEAD, Derive(Line(length), Prefix(length, n))) == map[]
  {
    hide Line, Derive, Pick, Link, RequiredBySome, Paths;
    var reg := Line(length);
    var chosen := Prefix(length, n);
    forall p | p in Paths(HEAD, Derive(reg, chosen))
      ensures Pick(reg, HEAD, Derive(reg, chosen), p).Ok?
    {
      PathsMeaning(reg, HEAD, chosen, p);
      LineRequires(length, n, p);
      LinkListed(length, 0);
      if i :| 1 <= i <= Min(n, length) && p == Link(i) {
        LinkListed(length, i);
      }
      LinePick(length, n, p);
    }
  }

  /** On a line the iteration ends in time exactly when the line is at most 62
      dependencies long; on a longer one it is given up although every package
      could be chosen. */
  lemma LineConvergesExactly(length: nat)
    ensures Resolution(Line(length), HEAD).diverged <==> length > 62
  {
    hide Line, Derive, Select, Errors, Warnings, Stable, FirstStable, Resolution;
    var reg := Line(length);
    if length <= 62 {
      LineStable(length, ROUNDS - 1);
      StableHasFirst(reg, HEAD, ROUNDS - 1);
      var n: nat :| FirstStable(reg, HEAD, n);
      FirstStableResolves(reg, HEAD, n);
    } else {
      forall k: nat | k < ROUNDS
        ensures !Stable(reg, HEAD, k)
      {
        LineStable(length, k);
      }
      NoneStableResolves(reg, HEAD);
      LineRounds(length, ROUNDS - 1);
      LineHasNoErrors(length, ROUNDS - 1);
    }
  }

  /** A chain ending somewhere has shorter chains ending there. */
  lemma {:induction false} DeepShortens(reg: Registry, p: Path, n: nat, less: nat)
    requires Deep(reg, p, n) && less <= n
    ensures Deep(reg, p, less)
    decreases n
  {
    if 0 < less {
      var q: Path, v: Version :| Edge(reg, q, v, p) && Deep(reg, q, n - 1);
      DeepShortens(reg, q, n - 1, less - 1);
    }
  }

  /** No chain on the line is longer than the line. */
  lemma {:induction false} LineChains(length: nat, p: Path, n: nat)
    requires Deep(Line(length), p, n) && n >= 1
    ensures n + 1 <= |p| <= length + 1
    decreases n
  {
    hide Line, Link;
    var q: Path, v: Version :| Edge(Line(length), q, v, p) && Deep(Line(length), q, n - 1);
    LineEdge(length, q, v, p);
    if n > 1 {
      LineChains(length, q, n - 1);
    }
  }

  lemma LineEdge(length: nat, q: Path, v: Version, p: Path)
    requires Edge(Line(length), q, v, p)
    ensures 1 <= |q| && |p| == |q| + 1 <= length + 1
  {
    hide Link, LinkSet;
    assert (q, v) in Line(length).manifests && q in LinkSet(length) && v == 0;
    LinkUnique(length, q);
    LineDeclares(length, q, p);
    assert p == Link(|q|);
    LinkLength(|q|);
  }

  lemma LinkLength(i: nat)
    ensures |Link(i)| == i + 1
  {
  }

  /** Every request settles on every registry with no chain of more than this many dependencies. */
  ghost predicate Converges(n: nat) {
    forall reg: Registry, req: Request :: ChainsWithin(reg, n) ==> !Resolution(reg, req).diverged
  }

  /** The rounds suffice for all registries with chains of at most this many
      dependencies if and only if the number is at most 62. */
  lemma ConvergesExactly(n: nat)
    ensures Converges(n) <==> n <= 62
  {
    hide Resolution, Line, Deep;
    if n <= 62 {
      forall reg: Registry, req: Request | ChainsWithin(reg, n)
        ensures !Resolution(reg, req).diverged
      {
        forall p: Path
          ensures !Deep(reg, p, TOO_DEEP)
        {
          if Deep(reg, p, TOO_DEEP) {
            DeepShortens(reg, p, TOO_DEEP, n + 1);
            assert false;
          }
        }
        ShallowConverges(reg, req);
      }
    } else {
      LineConvergesExactly(63);
      var k := n + 1;
      forall p: Path
        ensures !Deep(Line(63), p, k)
      {
        if Deep(Line(63), p, k) {
          LineChains(63, p, k);
          assert false;
        }
      }
      assert ChainsWithin(Line(63), n);
    }
  }
}
