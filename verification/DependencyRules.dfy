/** The sidecar's dependency closure by its rules: what a name means inside a package, which packages
    are for the target and what a package asks for, stated over the lock file's records alone. The
    closure the worklist computes is the least set of packages these rules ask for. */
module DependencyRules {
  import opened Common
  import opened Reachability
  import opened CanonicalJson
  import opened DependencyClosure

  // ---- the rules ----

  function Nested(parent: Text, name: Text): Text {
    parent + Units("/") + name
  }

  /** Inside `parent` a name means the package nested there if there is one, and the one at top
      level otherwise. Nothing is nested in an empty key. */
  ghost predicate Means(packages: Packages, parent: Text, name: Text, key: Text) {
    && key in packages
    && (|| (key == Nested(parent, name) && parent != [])
        || (key == name && (parent == [] || Nested(parent, name) !in packages)))
  }

  ghost predicate MeansSomething(packages: Packages, parent: Text, name: Text) {
    exists key :: Means(packages, parent, name, key)
  }

  /** A platform is allowed by no constraint, and by a list that does not deny it and either names
      it or names none at all. */
  ghost predicate Allows(c: Constraint, platform: Text) {
    || c == Unconstrained
    || (&& c.Values?
        && (forall v :: v in c.values ==> v != Units("!") + platform)
        && (platform in c.values || forall v :: v in c.values ==> v != [] && v[0] == '!' as int))
  }

  ghost predicate ForTarget(p: Package) {
    p == Bare || (p.Described? && Allows(p.metadata.os, Units("linux")) && Allows(p.metadata.cpu, Units("x64")))
  }

  /** What a package asks for: its dependencies, its optional ones that are for the target, and its
      peers that are present and not optional. */
  ghost predicate Asks(packages: Packages, parent: Text, name: Text) {
    && parent in packages && packages[parent].Described?
    && var m := packages[parent].metadata;
       || name in m.dependencies
       || (name in m.optionalDependencies && exists key :: Means(packages, parent, name, key) && ForTarget(packages[key]))
       || (name in m.peerDependencies && name !in m.optionalPeers
           && (Nested(parent, name) in packages || name in packages))
  }

  /** One package brings in another. */
  ghost predicate Brings(packages: Packages, parent: Text, key: Text) {
    exists name :: Asks(packages, parent, name) && Means(packages, parent, name, key) && ForTarget(packages[key])
  }

  /** The workspace brings in a package. */
  ghost predicate IsWanted(lock: Lock, key: Text) {
    && key in lock.packages && ForTarget(lock.packages[key])
    && (key in lock.dependencies || key in lock.devDependencies)
  }

  /** A set of packages with everything the workspace and its own members bring in. */
  ghost predicate Complete(lock: Lock, keys: set<Text>) {
    && (forall k :: IsWanted(lock, k) ==> k in keys)
    && (forall p, k :: p in keys && Brings(lock.packages, p, k) ==> k in keys)
  }

  /** A package some request of which cannot be met: a name it asks for, or lists as optional, that
      means nothing, or one it asks for that means a record of the wrong form. */
  ghost predicate IsBroken(packages: Packages, parent: Text) {
    && parent in packages && packages[parent].Described?
    && (|| (exists name :: name in packages[parent].metadata.optionalDependencies
                           && !MeansSomething(packages, parent, name))
        || (exists name :: Asks(packages, parent, name) && !MeansSomething(packages, parent, name))
        || (exists name, key :: Asks(packages, parent, name) && Means(packages, parent, name, key)
                                && packages[key] == Invalid))
  }

  // ---- the resolution follows the rules ----

  lemma NestedIs(parent: Text, name: Text)
    ensures Nested(parent, name) == parent + [SLASH] + name && Nested(parent, name) != name
  {
    assert Units("/") == [SLASH];
  }

  /** `resolvePackageKey` finds what a name means, inside a package and in the workspace. */
  lemma ResolutionIsNestedFirst(packages: Packages, parent: Text, name: Text, key: Text)
    ensures ResolveKey(packages, name, Some(parent)) == Some(key) <==> Means(packages, parent, name, key)
    ensures ResolveKey(packages, name, None) == Some(key) <==> key == name && name in packages
  {
    NestedIs(parent, name);
  }

  lemma ResolutionFailsExactlyWhen(packages: Packages, parent: Text, name: Text)
    ensures ResolveKey(packages, name, Some(parent)).None? <==> !MeansSomething(packages, parent, name)
  {
    var r := ResolveKey(packages, name, Some(parent));
    if r.Some? {
      ResolutionIsNestedFirst(packages, parent, name, r.value);
    }
    forall key | Means(packages, parent, name, key)
      ensures r == Some(key)
    {
      ResolutionIsNestedFirst(packages, parent, name, key);
    }
  }

  lemma AllowsIs(c: Constraint, platform: Text)
    requires !Denied(platform)
    ensures PlatformMatches(c, platform) <==> Allows(c, platform)
  {
    assert Units("!") == [BANG];
  }

  lemma TargetIs(p: Package)
    ensures !p.Invalid? && MatchesTarget(p) <==> ForTarget(p)
  {
    if p.Described? {
      AllowsIs(p.metadata.os, Units("linux"));
      AllowsIs(p.metadata.cpu, Units("x64"));
    }
  }

  lemma AsksIs(packages: Packages, parent: Text, name: Text)
    ensures name in Installs(packages, parent) <==> Asks(packages, parent, name)
  {
    NestedIs(parent, name);
    OptionalIs(packages, parent, name);
  }

  lemma OptionalIs(packages: Packages, parent: Text, name: Text)
    ensures TakesOptional(packages, name, parent) <==>
      exists key :: Means(packages, parent, name, key) && ForTarget(packages[key])
  {
    var r := ResolveKey(packages, name, Some(parent));
    forall key | Means(packages, parent, name, key)
      ensures r == Some(key) && (ForTarget(packages[key]) <==> TakesOptional(packages, name, parent))
    {
      ResolutionIsNestedFirst(packages, parent, name, key);
      TargetIs(packages[key]);
    }
    if r.Some? {
      ResolutionIsNestedFirst(packages, parent, name, r.value);
    }
  }

  lemma BringsIs(packages: Packages, parent: Text, key: Text)
    ensures key in Edges(packages, parent) <==> Brings(packages, parent, key)
  {
    forall name
      ensures name in Installs(packages, parent) <==> Asks(packages, parent, name)
      ensures Selects(packages, name, Some(parent), key) <==>
        Means(packages, parent, name, key) && ForTarget(packages[key])
    {
      AsksIs(packages, parent, name);
      ResolutionIsNestedFirst(packages, parent, name, key);
      if key in packages {
        TargetIs(packages[key]);
      }
    }
    if Brings(packages, parent, key) {
      var name :| Asks(packages, parent, name) && Means(packages, parent, name, key) && ForTarget(packages[key]);
      assert Selects(packages, name, Some(parent), key);
    }
  }

  lemma WantedIs(lock: Lock, key: Text)
    ensures key in Roots(lock) <==> IsWanted(lock, key)
  {
    if key in lock.packages {
      TargetIs(lock.packages[key]);
    }
    if key in Roots(lock) {
      var d :| d in lock.dependencies + lock.devDependencies && Selects(lock.packages, d, None, key);
      ResolutionIsNestedFirst(lock.packages, [], d, key);
    }
    if IsWanted(lock, key) {
      ResolutionIsNestedFirst(lock.packages, [], key, key);
      assert Selects(lock.packages, key, None, key) && key in lock.dependencies + lock.devDependencies;
    }
  }

  lemma CompleteIs(lock: Lock, keys: set<Text>)
    ensures Closed(Roots(lock), k => Edges(lock.packages, k), keys) <==> Complete(lock, keys)
  {
    forall k ensures k in Roots(lock) <==> IsWanted(lock, k) { WantedIs(lock, k); }
    forall p, k ensures k in Edges(lock.packages, p) <==> Brings(lock.packages, p, k) { BringsIs(lock.packages, p, k); }
  }

  // ---- the closure is the least complete set ----

  ghost function ClosureKeys(lock: Lock): set<Text> {
    set k | k in lock.packages && InClosure(lock, k)
  }

  lemma {:induction false} InClosureIsPackage(lock: Lock, key: Text)
    requires InClosure(lock, key)
    ensures key in lock.packages && ForTarget(lock.packages[key])
  {
    var keys := set k | k in lock.packages && ForTarget(lock.packages[k]);
    assert Complete(lock, keys);
    CompleteIs(lock, keys);
    ReachableIsInClosed(Roots(lock), k => Edges(lock.packages, k), keys, key);
  }

  /** The keys `SidecarDependencyClosure` speaks of are complete, all for the target, and belong to
      every complete set. */
  lemma ClosureIsLeastComplete(lock: Lock, other: set<Text>)
    ensures Complete(lock, ClosureKeys(lock))
    ensures forall k :: InClosure(lock, k) <==> k in ClosureKeys(lock)
    ensures forall k :: k in ClosureKeys(lock) ==> k in lock.packages && ForTarget(lock.packages[k])
    ensures Complete(lock, other) ==> ClosureKeys(lock) <= other
  {
    forall k | InClosure(lock, k)
      ensures k in ClosureKeys(lock) && ForTarget(lock.packages[k])
    {
      InClosureIsPackage(lock, k);
    }
    ClosureIsComplete(lock);
    if Complete(lock, other) {
      CompleteIs(lock, other);
      forall k | k in ClosureKeys(lock)
        ensures k in other
      {
        ReachableIsInClosed(Roots(lock), k => Edges(lock.packages, k), other, k);
      }
    }
  }

  lemma ClosureIsComplete(lock: Lock)
    ensures Complete(lock, ClosureKeys(lock))
  {
    forall k | IsWanted(lock, k)
      ensures k in ClosureKeys(lock)
    {
      WantedIs(lock, k);
      RootIsReachable(Roots(lock), k => Edges(lock.packages, k), k);
    }
    forall p, k | p in ClosureKeys(lock) && Brings(lock.packages, p, k)
      ensures k in ClosureKeys(lock)
    {
      BringsIs(lock.packages, p, k);
      EdgeIsReachable(Roots(lock), k => Edges(lock.packages, k), p, k);
    }
  }

  /** So a package nested in a member is taken before the one of that name at top level, which is
      taken only where nothing is nested. */
  lemma NestedIsTakenFirst(lock: Lock, parent: Text, name: Text)
    requires InClosure(lock, parent) && parent != [] && Asks(lock.packages, parent, name)
    ensures
      var nested := Nested(parent, name);
      if nested in lock.packages then ForTarget(lock.packages[nested]) ==> InClosure(lock, nested)
      else name in lock.packages && ForTarget(lock.packages[name]) ==> InClosure(lock, name)
  {
    ClosureIsLeastComplete(lock, {});
    var key := if Nested(parent, name) in lock.packages then Nested(parent, name) else name;
    if key in lock.packages && ForTarget(lock.packages[key]) {
      assert Means(lock.packages, parent, name, key);
      assert Brings(lock.packages, parent, key);
    }
  }

  // ---- when the search throws ----

  lemma FailsIs(packages: Packages, parent: Text, name: Text)
    ensures Fails(packages, name, Some(parent)) <==>
      !MeansSomething(packages, parent, name) || exists key :: Means(packages, parent, name, key) && packages[key] == Invalid
  {
    ResolutionFailsExactlyWhen(packages, parent, name);
    var r := ResolveKey(packages, name, Some(parent));
    if r.Some? {
      ResolutionIsNestedFirst(packages, parent, name, r.value);
    }
    forall key | Means(packages, parent, name, key)
      ensures r == Some(key)
    {
      ResolutionIsNestedFirst(packages, parent, name, key);
    }
  }

  lemma BrokenPackageIs(packages: Packages, parent: Text)
    ensures PackageFails(packages, parent) <==> IsBroken(packages, parent)
  {
    forall name
      ensures name in Installs(packages, parent) <==> Asks(packages, parent, name)
      ensures ResolveKey(packages, name, Some(parent)).None? <==> !MeansSomething(packages, parent, name)
      ensures Fails(packages, name, Some(parent)) <==>
        !MeansSomething(packages, parent, name)
        || exists key :: Means(packages, parent, name, key) && packages[key] == Invalid
    {
      AsksIs(packages, parent, name);
      ResolutionFailsExactlyWhen(packages, parent, name);
      FailsIs(packages, parent, name);
    }
  }

  /** The search throws exactly when the workspace names a package that is missing or of the wrong
      form, or the least complete set has a member some request of which cannot be met. */
  lemma SearchThrowsExactlyWhen(lock: Lock)
    ensures Broken(lock) <==>
      || (exists d :: (d in lock.dependencies || d in lock.devDependencies)
            && (d !in lock.packages || lock.packages[d] == Invalid))
      || (exists k :: k in ClosureKeys(lock) && IsBroken(lock.packages, k))
  {
    ClosureIsLeastComplete(lock, {});
    forall k ensures PackageFails(lock.packages, k) <==> IsBroken(lock.packages, k) { BrokenPackageIs(lock.packages, k); }
    forall d
      ensures Fails(lock.packages, d, None) <==> d !in lock.packages || lock.packages[d] == Invalid
    {
      if d in lock.packages {
        ResolutionIsNestedFirst(lock.packages, [], d, d);
      }
    }
    if exists d :: d in lock.dependencies + lock.devDependencies && Fails(lock.packages, d, None) {
      var d :| d in lock.dependencies + lock.devDependencies && Fails(lock.packages, d, None);
      assert d in lock.dependencies || d in lock.devDependencies;
    }
  }
}
