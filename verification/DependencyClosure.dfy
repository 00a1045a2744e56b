/** The dependency closure of the WhatsApp sidecar in `bun.lock`
    (scripts/whatsapp-sidecar-deployment-revision.ts), from the lock file's package graph on. */
module DependencyClosure {
  import opened Common
  import opened Reachability
  import opened CanonicalJson

  /** An `os` or `cpu` constraint: a string counts as a list of one. */
  datatype Constraint = Unconstrained | Values(values: seq<Text>) | Malformed

  /** The record of a package; a field that is not a record contributes no names. */
  datatype Metadata = Metadata(
    os: Constraint, cpu: Constraint,
    dependencies: seq<Text>, optionalDependencies: seq<Text>,
    optionalPeers: seq<Text>, peerDependencies: seq<Text>)

  /** `Invalid` is an entry that is not an array; `Bare` is one without a metadata record. */
  datatype Package = Invalid | Bare | Described(metadata: Metadata)

  type Packages = map<Text, Package>

  datatype Lock = Lock(packages: Packages, dependencies: seq<Text>, devDependencies: seq<Text>)

  const TARGET_OS := Units("linux")
  const TARGET_CPU := Units("x64")
  const BANG: Unit := 33
  const SLASH: Unit := 47

  /** The one name that cannot be set on an object literal: assigning to it replaces the prototype
      and leaves no property behind. */
  const PROTO := Units("__proto__")

  predicate Denied(value: Text) {
    value != [] && value[0] == BANG
  }

  predicate PlatformMatches(c: Constraint, target: Text) {
    match c
    case Unconstrained => true
    case Malformed => false
    case Values(vs) =>
      && [BANG] + target !in vs
      && ((forall v :: v in vs ==> Denied(v)) || (target in vs && !Denied(target)))
  }

  /** What one more entry does to a constraint: denying the target refuses it, naming it accepts it
      unless denied, naming only others refuses it, and denying another changes nothing. */
  lemma PlatformLaws(vs: seq<Text>, target: Text, other: Text)
    requires !Denied(target) && !Denied(other) && other != target
    ensures PlatformMatches(Values([]), target)
    ensures !PlatformMatches(Values(vs + [[BANG] + target]), target)
    ensures PlatformMatches(Values(vs + [target]), target) <==> [BANG] + target !in vs
    ensures target !in vs ==> !PlatformMatches(Values(vs + [other]), target)
    ensures target in vs ==> PlatformMatches(Values(vs + [other]), target) == PlatformMatches(Values(vs), target)
    ensures PlatformMatches(Values(vs + [[BANG] + other]), target) == PlatformMatches(Values(vs), target)
  {
    assert [BANG] + other != [BANG] + target by {
      assert ([BANG] + other)[1..] == other && ([BANG] + target)[1..] == target;
    }
    assert other in vs + [other] && [BANG] + target in vs + [[BANG] + target];
    DenialAdds(vs, [BANG] + other);
  }

  lemma DenialAdds(vs: seq<Text>, value: Text)
    requires Denied(value)
    ensures (forall v :: v in vs + [value] ==> Denied(v)) <==> (forall v :: v in vs ==> Denied(v))
  {
    if forall v :: v in vs + [value] ==> Denied(v) {
      forall v | v in vs
        ensures Denied(v)
      {
        assert v in vs + [value];
      }
    }
  }

  predicate MatchesTarget(p: Package) {
    p.Described? ==> PlatformMatches(p.metadata.os, TARGET_OS) && PlatformMatches(p.metadata.cpu, TARGET_CPU)
  }

  /** `resolvePackageKey`: nested under the parent first, then top level. An absent and an
      empty parent are both falsy. */
  function ResolveKey(packages: Packages, dependency: Text, parent: Option<Text>): Option<Text> {
    if parent.Some? && parent.value != [] && parent.value + [SLASH] + dependency in packages
    then Some(parent.value + [SLASH] + dependency)
    else if dependency in packages then Some(dependency)
    else None
  }

  predicate KeyExists(packages: Packages, dependency: Text, parent: Text) {
    parent + [SLASH] + dependency in packages || dependency in packages
  }

  /** What exists resolves, and only that, except that an empty parent makes the test find a key
      beginning with a slash that the resolution does not try. */
  lemma ExistingKeyResolvesExactlyWhen(packages: Packages, dependency: Text, parent: Text)
    ensures ResolveKey(packages, dependency, Some(parent)).Some? <==>
      KeyExists(packages, dependency, parent) && (parent != [] || dependency in packages)
  {}

  // ---- what a package installs ----

  predicate OptionalIsBroken(packages: Packages, m: Metadata, parent: Text) {
    exists d :: d in m.optionalDependencies && ResolveKey(packages, d, Some(parent)).None?
  }

  predicate TakesOptional(packages: Packages, d: Text, parent: Text) {
    var key := ResolveKey(packages, d, Some(parent));
    key.Some? && key.value in packages && !packages[key.value].Invalid? && MatchesTarget(packages[key.value])
  }

  predicate TakesPeer(packages: Packages, m: Metadata, d: Text, parent: Text) {
    d !in m.optionalPeers && KeyExists(packages, d, parent)
  }

  /** The dependencies `installDependencies` returns when it does not throw. */
  function InstallSet(packages: Packages, m: Metadata, parent: Text): set<Text> {
    (set d | d in m.dependencies)
    + (set d | d in m.optionalDependencies && TakesOptional(packages, d, parent))
    + (set d | d in m.peerDependencies && TakesPeer(packages, m, d, parent))
  }

  method InstallDependencies(packages: Packages, m: Metadata, parent: Text) returns (r: Option<set<Text>>)
    ensures r.None? <==> OptionalIsBroken(packages, m, parent)
    ensures r.Some? ==> r.value == InstallSet(packages, m, parent)
  {
    var result := {};
    for i := 0 to |m.dependencies|
      invariant result == set d | d in m.dependencies[..i]
    {
      result := result + {m.dependencies[i]};
    }
    ghost var required := result;
    for i := 0 to |m.optionalDependencies|
      invariant forall d :: d in m.optionalDependencies[..i] ==> ResolveKey(packages, d, Some(parent)).Some?
      invariant result == required + set d | d in m.optionalDependencies[..i] && TakesOptional(packages, d, parent)
    {
      var d := m.optionalDependencies[i];
      var key := ResolveKey(packages, d, Some(parent));
      if key.None? {
        return None;
      }
      var entry := packages[key.value];
      if !entry.Invalid? && MatchesTarget(entry) {
        result := result + {d};
      }
      assert m.optionalDependencies[..i + 1] == m.optionalDependencies[..i] + [d];
    }
    ghost var withOptional := result;
    for i := 0 to |m.peerDependencies|
      invariant result == withOptional + set d | d in m.peerDependencies[..i] && TakesPeer(packages, m, d, parent)
    {
      var d := m.peerDependencies[i];
      if d !in m.optionalPeers && KeyExists(packages, d, parent) {
        result := result + {d};
      }
      assert m.peerDependencies[..i + 1] == m.peerDependencies[..i] + [d];
    }
    return Some(result);
  }

  // ---- the graph the closure is taken in ----

  function Installs(packages: Packages, key: Text): set<Text> {
    if key in packages && packages[key].Described? then InstallSet(packages, packages[key].metadata, key) else {}
  }

  /** The package a request selects, if it resolves to one for the target. */
  predicate Selects(packages: Packages, dependency: Text, parent: Option<Text>, key: Text) {
    && ResolveKey(packages, dependency, parent) == Some(key)
    && key in packages && !packages[key].Invalid? && MatchesTarget(packages[key])
  }

  function Roots(lock: Lock): set<Text> {
    set d, key | d in lock.dependencies + lock.devDependencies && key in lock.packages
      && Selects(lock.packages, d, None, key) :: key
  }

  function Edges(packages: Packages, from: Text): set<Text> {
    set d, key | d in Installs(packages, from) && key in packages
      && Selects(packages, d, Some(from), key) :: key
  }

  /** A request that makes the script throw: it does not resolve, or to a non-record. */
  predicate Fails(packages: Packages, dependency: Text, parent: Option<Text>) {
    var key := ResolveKey(packages, dependency, parent);
    key.None? || key.value !in packages || packages[key.value].Invalid?
  }

  predicate PackageFails(packages: Packages, key: Text) {
    || (key in packages && packages[key].Described? && OptionalIsBroken(packages, packages[key].metadata, key))
    || exists d :: d in Installs(packages, key) && Fails(packages, d, Some(key))
  }

  ghost predicate InClosure(lock: Lock, key: Text) {
    Reachable(Roots(lock), k => Edges(lock.packages, k), key)
  }

  /** Some request that the search is bound to meet throws. */
  ghost predicate Broken(lock: Lock) {
    || (exists d :: d in lock.dependencies + lock.devDependencies && Fails(lock.packages, d, None))
    || (exists key :: InClosure(lock, key) && PackageFails(lock.packages, key))
  }

  // ---- the worklist ----

  datatype Request = Request(dependency: Text, parent: Option<Text>)

  /** A request the search may have made: of the workspace or of a package in the closure. */
  ghost predicate Justified(lock: Lock, r: Request) {
    match r.parent
    case None => r.dependency in lock.dependencies + lock.devDependencies
    case Some(p) => InClosure(lock, p) && r.dependency in Installs(lock.packages, p)
  }

  /** A request that has been dealt with. */
  ghost predicate Done(lock: Lock, met: Packages, r: Request) {
    && !Fails(lock.packages, r.dependency, r.parent)
    && forall key :: Selects(lock.packages, r.dependency, r.parent, key) ==> key in met
  }

  ghost predicate Invariant(lock: Lock, met: Packages, pending: seq<Request>) {
    && (forall k :: k in met ==> Collected(lock, met, k))
    && (forall r :: r in pending ==> Justified(lock, r))
    && WorkspaceServed(lock, met, pending)
    && PackagesServed(lock, met, pending)
  }

  /** A package rightly taken: reachable, a record, and its optional dependencies resolve. */
  ghost predicate Collected(lock: Lock, met: Packages, k: Text) {
    && k in met && k in lock.packages && met[k] == lock.packages[k] && !lock.packages[k].Invalid?
    && (lock.packages[k].Described? ==> !OptionalIsBroken(lock.packages, lock.packages[k].metadata, k))
    && InClosure(lock, k)
  }

  /** What the workspace names is pending or dealt with. */
  ghost predicate WorkspaceServed(lock: Lock, met: Packages, pending: seq<Request>) {
    forall d :: d in lock.dependencies + lock.devDependencies ==>
      Request(d, None) in pending || Done(lock, met, Request(d, None))
  }

  /** What a collected package installs is pending or dealt with. */
  ghost predicate PackagesServed(lock: Lock, met: Packages, pending: seq<Request>) {
    forall k, d :: k in met && d in Installs(lock.packages, k) ==>
      Request(d, Some(k)) in pending || Done(lock, met, Request(d, Some(k)))
  }

  lemma SelectedIsInClosure(lock: Lock, r: Request, key: Text)
    requires Justified(lock, r) && Selects(lock.packages, r.dependency, r.parent, key)
    ensures InClosure(lock, key)
  {
    if r.parent.None? {
      assert key in Roots(lock);
      RootIsReachable(Roots(lock), k => Edges(lock.packages, k), key);
    } else {
      assert key in Edges(lock.packages, r.parent.value);
      EdgeIsReachable(Roots(lock), k => Edges(lock.packages, k), r.parent.value, key);
    }
  }

  lemma FailureIsBroken(lock: Lock, r: Request)
    requires Justified(lock, r) && Fails(lock.packages, r.dependency, r.parent)
    ensures Broken(lock)
  {
    if r.parent.Some? {
      assert PackageFails(lock.packages, r.parent.value);
    }
  }

  lemma FinishedIsClosed(lock: Lock, met: Packages)
    requires Invariant(lock, met, [])
    ensures Closed(Roots(lock), k => Edges(lock.packages, k), met.Keys)
  {
    forall key | key in Roots(lock)
      ensures key in met
    {
      RootIsCollected(lock, met, key);
    }
    forall k, key | k in met && key in Edges(lock.packages, k)
      ensures key in met
    {
      EdgeIsCollected(lock, met, k, key);
    }
  }

  lemma RootIsCollected(lock: Lock, met: Packages, key: Text)
    requires WorkspaceServed(lock, met, []) && key in Roots(lock)
    ensures key in met
  {
    var d :| d in lock.dependencies + lock.devDependencies && Selects(lock.packages, d, None, key);
    assert Done(lock, met, Request(d, None));
  }

  lemma EdgeIsCollected(lock: Lock, met: Packages, k: Text, key: Text)
    requires PackagesServed(lock, met, []) && k in met && key in Edges(lock.packages, k)
    ensures key in met
  {
    var d :| d in Installs(lock.packages, k) && Selects(lock.packages, d, Some(k), key);
    assert Done(lock, met, Request(d, Some(k)));
  }

  lemma FinishedIsSound(lock: Lock, met: Packages, k: Text)
    requires Invariant(lock, met, []) && k in met
    ensures !PackageFails(lock.packages, k)
  {
    assert Collected(lock, met, k);
    forall d | d in Installs(lock.packages, k)
      ensures !Fails(lock.packages, d, Some(k))
    {
      assert Done(lock, met, Request(d, Some(k)));
    }
  }

  /** With nothing pending the closure is exactly the reachable set and nothing was broken. */
  lemma FinishedIsLeast(lock: Lock, met: Packages)
    requires Invariant(lock, met, [])
    ensures !Broken(lock)
    ensures forall k :: k in met <==> InClosure(lock, k)
  {
    FinishedIsClosed(lock, met);
    forall k | InClosure(lock, k)
      ensures k in met && !PackageFails(lock.packages, k)
    {
      ReachableIsInClosed(Roots(lock), k => Edges(lock.packages, k), met.Keys, k);
      FinishedIsSound(lock, met, k);
    }
    forall d | d in lock.dependencies + lock.devDependencies
      ensures !Fails(lock.packages, d, None)
    {
      assert Done(lock, met, Request(d, None));
    }
  }

  function Without(pending: seq<Request>, i: nat): seq<Request>
    requires i < |pending|
  {
    pending[..i] + pending[i + 1..]
  }

  lemma WithoutKeeps(pending: seq<Request>, i: nat)
    requires i < |pending|
    ensures forall r :: r in pending <==> r in Without(pending, i) || r == pending[i]
  {
    assert pending == pending[..i] + [pending[i]] + pending[i + 1..];
  }

  lemma DropDone(lock: Lock, met: Packages, pending: seq<Request>, i: nat)
    requires Invariant(lock, met, pending) && i < |pending| && Done(lock, met, pending[i])
    ensures Invariant(lock, met, Without(pending, i))
  {
    WithoutKeeps(pending, i);
  }

  lemma AddPackage(lock: Lock, met: Packages, pending: seq<Request>, i: nat, key: Text, added: seq<Request>)
    requires Invariant(lock, met, pending) && i < |pending|
    requires Selects(lock.packages, pending[i].dependency, pending[i].parent, key)
    requires lock.packages[key].Described? ==> !OptionalIsBroken(lock.packages, lock.packages[key].metadata, key)
    requires forall r :: r in added <==> r.parent == Some(key) && r.dependency in Installs(lock.packages, key)
    ensures Invariant(lock, met[key := lock.packages[key]], Without(pending, i) + added)
  {
    WithoutKeeps(pending, i);
    SelectedIsInClosure(lock, pending[i], key);
    var larger := met[key := lock.packages[key]];
    assert Done(lock, larger, pending[i]);
    DoneGrows(lock, met, larger);
    AddServed(lock, met, larger, pending, i, key, added);
    forall k | k in larger
      ensures Collected(lock, larger, k)
    {
      assert k != key ==> Collected(lock, met, k);
    }
  }

  lemma AddServed(lock: Lock, met: Packages, larger: Packages, pending: seq<Request>, i: nat, key: Text,
                  added: seq<Request>)
    requires PackagesServed(lock, met, pending) && i < |pending| && Done(lock, larger, pending[i])
    requires larger.Keys == met.Keys + {key}
    requires forall r :: r in added <==> r.parent == Some(key) && r.dependency in Installs(lock.packages, key)
    ensures PackagesServed(lock, larger, Without(pending, i) + added)
  {
    WithoutKeeps(pending, i);
    DoneGrows(lock, met, larger);
    forall k, d | k in larger && d in Installs(lock.packages, k)
      ensures Request(d, Some(k)) in Without(pending, i) + added || Done(lock, larger, Request(d, Some(k)))
    {
      if k == key {
        assert Request(d, Some(k)) in added;
      } else {
        assert k in met;
      }
    }
  }

  lemma DoneGrows(lock: Lock, met: Packages, larger: Packages)
    requires met.Keys <= larger.Keys
    ensures forall r :: Done(lock, met, r) ==> Done(lock, larger, r)
  {
    forall r, key | Done(lock, met, r) && Selects(lock.packages, r.dependency, r.parent, key)
      ensures key in larger
    {
      assert key in met;
    }
  }

  /** The requests pushed for a package, in the order of some enumeration of its set. */
  method RequestsOf(names: set<Text>, parent: Text) returns (rs: seq<Request>)
    ensures forall r :: r in rs <==> r.parent == Some(parent) && r.dependency in names
  {
    rs := [];
    var rest := names;
    while rest != {}
      invariant rest <= names
      invariant forall r :: r in rs <==> r.parent == Some(parent) && r.dependency in names - rest
    {
      var d :| d in rest;
      rest := rest - {d};
      rs := rs + [Request(d, Some(parent))];
    }
  }

  /** The requests a newly accepted package pushes, if its optional dependencies resolve. */
  method Expand(packages: Packages, key: Text) returns (added: Option<seq<Request>>)
    requires key in packages
    ensures added.None? ==> PackageFails(packages, key)
    ensures added.Some? ==>
      && (packages[key].Described? ==> !OptionalIsBroken(packages, packages[key].metadata, key))
      && forall r :: r in added.value <==> r.parent == Some(key) && r.dependency in Installs(packages, key)
  {
    if !packages[key].Described? {
      return Some([]);
    }
    var names := InstallDependencies(packages, packages[key].metadata, key);
    if names.None? {
      return None;
    }
    var rs := RequestsOf(names.value, key);
    return Some(rs);
  }

  lemma LessLeft(packages: Packages, met: Packages, key: Text)
    requires key in packages && key !in met
    ensures |packages.Keys - met[key := packages[key]].Keys| < |packages.Keys - met.Keys|
  {
    assert packages.Keys - met[key := packages[key]].Keys == (packages.Keys - met.Keys) - {key};
  }

  method WorkspaceRequests(lock: Lock) returns (rs: seq<Request>)
    ensures forall r :: r in rs <==> r.parent.None? && r.dependency in lock.dependencies + lock.devDependencies
  {
    rs := [];
    var names := lock.dependencies + lock.devDependencies;
    for i := 0 to |names|
      invariant forall r :: r in rs <==> r.parent.None? && r.dependency in names[..i]
    {
      rs := rs + [Request(names[i], None)];
    }
  }

  // ---- rounds of the loop ----

  /** What is recorded in the closure object of the packages met. */
  function Recorded(met: Packages): Packages {
    met - {PROTO}
  }

  /** A request that is dropped: its package is recorded already, or not for the target. */
  predicate Drops(lock: Lock, met: Packages, key: Text)
    requires key in lock.packages
  {
    key in Recorded(met) || !MatchesTarget(lock.packages[key])
  }

  /** One round that does not throw: some pending request is dropped, or its package is met and the
      package's requests are added. */
  ghost predicate Round(lock: Lock, met: Packages, pending: seq<Request>, met': Packages, pending': seq<Request>) {
    exists i, added: seq<Request> :: RoundAt(lock, met, pending, met', pending', i, added)
  }

  ghost predicate RoundAt(lock: Lock, met: Packages, pending: seq<Request>, met': Packages, pending': seq<Request>,
                          i: int, added: seq<Request>) {
    && 0 <= i < |pending|
    && !Fails(lock.packages, pending[i].dependency, pending[i].parent)
    && var key := ResolveKey(lock.packages, pending[i].dependency, pending[i].parent).value;
       if Drops(lock, met, key) then
         met' == met && pending' == Without(pending, i)
       else
         && met' == met[key := lock.packages[key]] && pending' == Without(pending, i) + added
         && (lock.packages[key].Described? ==> !OptionalIsBroken(lock.packages, lock.packages[key].metadata, key))
         && AddsRequests(lock, key, added)
  }

  /** `added` asks for exactly what the package installs. */
  ghost predicate AddsRequests(lock: Lock, key: Text, added: seq<Request>) {
    forall r :: r in added <==> r.parent == Some(key) && r.dependency in Installs(lock.packages, key)
  }

  lemma RoundKeeps(lock: Lock, met: Packages, pending: seq<Request>, met': Packages, pending': seq<Request>)
    requires Invariant(lock, met, pending) && Round(lock, met, pending, met', pending')
    ensures Invariant(lock, met', pending')
  {
    var i, added: seq<Request> :| RoundAt(lock, met, pending, met', pending', i, added);
    var key := ResolveKey(lock.packages, pending[i].dependency, pending[i].parent).value;
    if Drops(lock, met, key) {
      DropDone(lock, met, pending, i);
    } else {
      AddPackage(lock, met, pending, i, key, added);
    }
  }

  lemma Throws(lock: Lock, met: Packages, pending: seq<Request>, i: nat)
    requires Invariant(lock, met, pending) && i < |pending|
    ensures Fails(lock.packages, pending[i].dependency, pending[i].parent) ==> Broken(lock)
    ensures
      var key := ResolveKey(lock.packages, pending[i].dependency, pending[i].parent);
      key.Some? && Selects(lock.packages, pending[i].dependency, pending[i].parent, key.value) ==>
        InClosure(lock, key.value)
    ensures forall k :: k in met ==> k in lock.packages && !lock.packages[k].Invalid?
  {
    forall k | k in met
      ensures k in lock.packages && !lock.packages[k].Invalid?
    {
      assert Collected(lock, met, k);
    }
    var r := pending[i];
    assert Justified(lock, r);
    var key := ResolveKey(lock.packages, r.dependency, r.parent);
    if Fails(lock.packages, r.dependency, r.parent) {
      FailureIsBroken(lock, r);
    } else if Selects(lock.packages, r.dependency, r.parent, key.value) {
      SelectedIsInClosure(lock, r, key.value);
    }
  }

  // ---- a package named like the prototype ----

  predicate AsksProto(packages: Packages, r: Request) {
    ResolveKey(packages, r.dependency, r.parent) == Some(PROTO)
  }

  /** The search meets a package named like the prototype that depends on itself. */
  ghost predicate Endless(lock: Lock) {
    InClosure(lock, PROTO) && PROTO in Edges(lock.packages, PROTO)
  }

  function ProtoRequests(packages: Packages, rs: seq<Request>): nat {
    if rs == [] then 0
    else ProtoRequests(packages, rs[..|rs| - 1]) + if AsksProto(packages, rs[|rs| - 1]) then 1 else 0
  }

  lemma {:induction false} ProtoRequestsAppend(packages: Packages, a: seq<Request>, b: seq<Request>)
    ensures ProtoRequests(packages, a + b) == ProtoRequests(packages, a) + ProtoRequests(packages, b)
    decreases |b|
  {
    if b == [] {
      assert a + b == a;
    } else {
      var n := |b| - 1;
      assert (a + b)[..|a + b| - 1] == a + b[..n];
      ProtoRequestsAppend(packages, a, b[..n]);
    }
  }

  lemma ProtoRequestsWithout(packages: Packages, pending: seq<Request>, i: nat)
    requires i < |pending|
    ensures
      ProtoRequests(packages, pending) ==
        ProtoRequests(packages, Without(pending, i)) + if AsksProto(packages, pending[i]) then 1 else 0
  {
    var a, b := pending[..i], pending[i + 1..];
    assert pending == a + ([pending[i]] + b);
    ProtoRequestsAppend(packages, a, [pending[i]] + b);
    ProtoRequestsAppend(packages, [pending[i]], b);
    ProtoRequestsAppend(packages, a, b);
  }

  lemma {:induction false} NoProtoRequests(packages: Packages, rs: seq<Request>)
    requires forall r :: r in rs ==> !AsksProto(packages, r)
    ensures ProtoRequests(packages, rs) == 0
  {
    if rs != [] {
      NoProtoRequests(packages, rs[..|rs| - 1]);
    }
  }

  /** Meeting it again adds no further request for it, unless it depends on itself. */
  lemma MetAgain(lock: Lock, pending: seq<Request>, i: nat, added: seq<Request>)
    requires i < |pending| && AsksProto(lock.packages, pending[i]) && AddsRequests(lock, PROTO, added)
    requires PROTO in lock.packages && !lock.packages[PROTO].Invalid? && MatchesTarget(lock.packages[PROTO])
    requires PROTO !in Edges(lock.packages, PROTO)
    ensures ProtoRequests(lock.packages, Without(pending, i) + added) < ProtoRequests(lock.packages, pending)
  {
    forall r | r in added
      ensures !AsksProto(lock.packages, r)
    {
      if AsksProto(lock.packages, r) {
        assert Selects(lock.packages, r.dependency, Some(PROTO), PROTO);
      }
    }
    NoProtoRequests(lock.packages, added);
    ProtoRequestsWithout(lock.packages, pending, i);
    ProtoRequestsAppend(lock.packages, Without(pending, i), added);
  }

  /** Once met, a package named like the prototype that depends on itself is always asked for. */
  ghost predicate AskedForEver(lock: Lock, met: Packages, pending: seq<Request>) {
    PROTO in met ==> exists r :: r in pending && AsksProto(lock.packages, r)
  }

  lemma StillAsked(lock: Lock, met: Packages, pending: seq<Request>, met': Packages, pending': seq<Request>)
    requires PROTO in Edges(lock.packages, PROTO) && AskedForEver(lock, met, pending)
    requires Round(lock, met, pending, met', pending')
    ensures AskedForEver(lock, met', pending')
  {
    var i, added: seq<Request> :| RoundAt(lock, met, pending, met', pending', i, added);
    var key := ResolveKey(lock.packages, pending[i].dependency, pending[i].parent).value;
    var d :| d in Installs(lock.packages, PROTO) && Selects(lock.packages, d, Some(PROTO), PROTO);
    WithoutKeeps(pending, i);
    if key == PROTO {
      assert Request(d, Some(PROTO)) in added;
      assert Request(d, Some(PROTO)) in pending';
    } else if PROTO in met {
      var r :| r in pending && AsksProto(lock.packages, r);
      assert r in pending';
    }
  }

  /** The states of the loop: what was met and what is pending, from the workspace's requests on. */
  ghost predicate IsRun(lock: Lock, states: seq<(Packages, seq<Request>)>) {
    && states != [] && states[0].0 == map[]
    && (forall r :: r in states[0].1 <==>
         r.parent.None? && r.dependency in lock.dependencies + lock.devDependencies)
    && forall n :: 0 < n < |states| ==>
         Round(lock, states[n - 1].0, states[n - 1].1, states[n].0, states[n].1)
  }

  lemma {:induction false} RunKeeps(lock: Lock, states: seq<(Packages, seq<Request>)>, n: nat)
    requires IsRun(lock, states) && n < |states|
    ensures Invariant(lock, states[n].0, states[n].1)
    ensures PROTO in Edges(lock.packages, PROTO) ==> AskedForEver(lock, states[n].0, states[n].1)
  {
    if n > 0 {
      RunKeeps(lock, states, n - 1);
      RoundKeeps(lock, states[n - 1].0, states[n - 1].1, states[n].0, states[n].1);
      if PROTO in Edges(lock.packages, PROTO) {
        StillAsked(lock, states[n - 1].0, states[n - 1].1, states[n].0, states[n].1);
      }
    }
  }

  /** Then the search never ends: whatever is popped, after any number of rounds something is
      pending. */
  lemma EndlessNeverEnds(lock: Lock, states: seq<(Packages, seq<Request>)>)
    requires Endless(lock) && IsRun(lock, states)
    ensures states[|states| - 1].1 != []
  {
    var last := states[|states| - 1];
    RunKeeps(lock, states, |states| - 1);
    if last.1 == [] {
      FinishedIsLeast(lock, last.0);
    }
  }

  /** The smallest such lock file, in which nothing is broken. */
  lemma EndlessHappens(m: Metadata)
    requires m.os.Unconstrained? && m.cpu.Unconstrained?
    requires m.dependencies == [PROTO] && m.optionalDependencies == [] && m.peerDependencies == []
    ensures
      var lock := Lock(map[PROTO := Described(m)], [PROTO], []);
      Endless(lock) && !Broken(lock)
  {
    var lock := Lock(map[PROTO := Described(m)], [PROTO], []);
    assert PROTO + [SLASH] + PROTO != PROTO;
    assert Installs(lock.packages, PROTO) == {PROTO} && lock.dependencies + lock.devDependencies == [PROTO];
    assert Selects(lock.packages, PROTO, None, PROTO) && Selects(lock.packages, PROTO, Some(PROTO), PROTO);
    assert PROTO in Roots(lock) && PROTO in Edges(lock.packages, PROTO);
    RootIsReachable(Roots(lock), k => Edges(lock.packages, k), PROTO);
    forall key | key in lock.packages
      ensures !PackageFails(lock.packages, key)
    {
      assert key == PROTO;
    }
    forall key | InClosure(lock, key)
      ensures key == PROTO
    {
      ReachableIsInClosed(Roots(lock), k => Edges(lock.packages, k), {PROTO}, key);
    }
  }

  /** Fewer packages are left to meet, or fewer requests ask for the one that is never recorded, or
      fewer are pending. */
  ghost predicate Closer(lock: Lock, met: Packages, pending: seq<Request>, met': Packages, pending': seq<Request>) {
    var left, left' := |lock.packages.Keys - met.Keys|, |lock.packages.Keys - met'.Keys|;
    var asked, asked' := ProtoRequests(lock.packages, pending), ProtoRequests(lock.packages, pending');
    left' < left || (left' == left && (asked' < asked || (asked' == asked && |pending'| < |pending|)))
  }

  /** A round that does not throw and, unless the search is endless, brings its end closer. */
  ghost predicate Proceeds(lock: Lock, met: Packages, pending: seq<Request>, met': Packages, pending': seq<Request>) {
    Round(lock, met, pending, met', pending') && (Endless(lock) || Closer(lock, met, pending, met', pending'))
  }

  lemma Dropped(lock: Lock, met: Packages, pending: seq<Request>, i: nat, key: Text)
    requires i < |pending| && ResolveKey(lock.packages, pending[i].dependency, pending[i].parent) == Some(key)
    requires Drops(lock, met, key) && !lock.packages[key].Invalid?
    ensures Proceeds(lock, met, pending, met, Without(pending, i))
  {
    assert RoundAt(lock, met, pending, met, Without(pending, i), i, []);
    ProtoRequestsWithout(lock.packages, pending, i);
  }

  /** The package is met, whether or not it was met before, and `added` are its requests. */
  ghost predicate Takes(lock: Lock, met: Packages, r: Request, key: Text, added: seq<Request>) {
    && ResolveKey(lock.packages, r.dependency, r.parent) == Some(key)
    && key in lock.packages && !Drops(lock, met, key) && !lock.packages[key].Invalid?
    && (lock.packages[key].Described? ==> !OptionalIsBroken(lock.packages, lock.packages[key].metadata, key))
    && AddsRequests(lock, key, added)
  }

  lemma Accepted(lock: Lock, met: Packages, pending: seq<Request>, i: nat, key: Text, added: seq<Request>)
    requires i < |pending| && Invariant(lock, met, pending) && Takes(lock, met, pending[i], key, added)
    ensures Proceeds(lock, met, pending, met[key := lock.packages[key]], Without(pending, i) + added)
  {
    var met' := met[key := lock.packages[key]];
    assert RoundAt(lock, met, pending, met', Without(pending, i) + added, i, added);
    if !Endless(lock) {
      AcceptedIsCloser(lock, met, pending, i, key, added);
    }
  }

  lemma AcceptedIsCloser(lock: Lock, met: Packages, pending: seq<Request>, i: nat, key: Text, added: seq<Request>)
    requires i < |pending| && Takes(lock, met, pending[i], key, added) && !Endless(lock)
    requires key in met ==> Collected(lock, met, key)
    ensures Closer(lock, met, pending, met[key := lock.packages[key]], Without(pending, i) + added)
  {
    if key !in met {
      LessLeft(lock.packages, met, key);
    } else {
      MetAgain(lock, pending, i, added);
      assert met[key := lock.packages[key]] == met;
    }
  }

  /** What a popped request leads to: an exception, a drop, or its package with its requests. */
  datatype Popped = Thrown | Dropping | Taking(key: Text, added: seq<Request>)

  /** The body of the loop up to the change of the closure. */
  method Pop(lock: Lock, closure: Packages, r: Request) returns (p: Popped)
    requires forall k :: k in closure ==> k in lock.packages
    ensures
      var key := ResolveKey(lock.packages, r.dependency, r.parent);
      match p
      case Thrown =>
        || key.None? || (key.value !in closure && lock.packages[key.value].Invalid?)
        || (Selects(lock.packages, r.dependency, r.parent, key.value) && PackageFails(lock.packages, key.value))
      case Dropping => key.Some? && (key.value in closure || !MatchesTarget(lock.packages[key.value]))
        && (key.value !in closure ==> !lock.packages[key.value].Invalid?)
      case Taking(k, added) =>
        && key == Some(k) && k !in closure && MatchesTarget(lock.packages[k]) && !lock.packages[k].Invalid?
        && (lock.packages[k].Described? ==> !OptionalIsBroken(lock.packages, lock.packages[k].metadata, k))
        && AddsRequests(lock, k, added)
  {
    var key := ResolveKey(lock.packages, r.dependency, r.parent);
    if key.None? {
      return Thrown;
    }
    if key.value in closure {
      return Dropping;
    }
    var entry := lock.packages[key.value];
    if entry.Invalid? {
      return Thrown;
    }
    if !MatchesTarget(entry) {
      return Dropping;
    }
    var added := Expand(lock.packages, key.value);
    return if added.None? then Thrown else Taking(key.value, added.value);
  }

  /** The assignment `closure[key] = entry`. */
  function Record(closure: Packages, ghost met: Packages, key: Text, entry: Package): (next: Packages)
    requires closure == Recorded(met)
    ensures next == Recorded(met[key := entry])
  {
    if key == PROTO then closure else closure[key := entry]
  }

  /** One round of the loop: pop a request, then drop it, accept its package or throw. */
  method Visit(lock: Lock, closure: Packages, ghost met: Packages, pending: seq<Request>, i: nat)
    returns (next: Option<(Packages, seq<Request>)>, ghost met': Packages)
    requires Invariant(lock, met, pending) && closure == Recorded(met) && i < |pending|
    ensures next.None? ==> Broken(lock)
    ensures next.Some? ==>
      next.value.0 == Recorded(met') && Proceeds(lock, met, pending, met', next.value.1)
  {
    Throws(lock, met, pending, i);
    met' := met;
    var popped := Pop(lock, closure, pending[i]);
    match popped {
      case Thrown =>
        return None, met';
      case Dropping =>
        Dropped(lock, met, pending, i, ResolveKey(lock.packages, pending[i].dependency, pending[i].parent).value);
        return Some((closure, Without(pending, i))), met';
      case Taking(key, added) =>
        Accepted(lock, met, pending, i, key, added);
        met' := met[key := lock.packages[key]];
        var closure' := Record(closure, met, key, lock.packages[key]);
        return Some((closure', Without(pending, i) + added)), met';
    }
  }

  /** `sidecarDependencyClosure`. `pick` chooses the next request; the script pops the last one.
      Whatever is chosen, the search ends, it throws exactly when some request it is bound to
      meet is broken, and otherwise its keys are exactly the reachable ones that can be recorded. */
  method SidecarDependencyClosure(lock: Lock, pick: seq<Request> -> nat) returns (r: Option<Packages>)
    requires forall rs :: rs != [] ==> pick(rs) < |rs|
    requires !Endless(lock)
    ensures r.None? <==> Broken(lock)
    ensures r.Some? ==> forall k :: k in r.value <==> InClosure(lock, k) && k != PROTO
    ensures r.Some? ==> forall k :: k in r.value ==> k in lock.packages && r.value[k] == lock.packages[k]
  {
    var closure: Packages := map[];
    ghost var met: Packages := map[];
    var pending := WorkspaceRequests(lock);
    assert Invariant(lock, met, pending);
    while pending != []
      invariant Invariant(lock, met, pending) && closure == Recorded(met)
      decreases |lock.packages.Keys - met.Keys|, ProtoRequests(lock.packages, pending), |pending|
    {
      ghost var met';
      var next;
      next, met' := Visit(lock, closure, met, pending, pick(pending));
      if next.None? {
        return None;
      }
      RoundKeeps(lock, met, pending, met', next.value.1);
      closure, pending, met := next.value.0, next.value.1, met';
    }
    FinishedIsLeast(lock, met);
    return Some(closure);
  }
}
