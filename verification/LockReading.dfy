/** What a lock file and a workflow have to say, member by member, to be read as a package graph
    and as deploy steps: relations over the parsed records that do not look fields up. */
module LockReading {
  import opened Common
  import opened NameOrder
  import opened CanonicalJson
  import opened DependencyClosure
  import opened LockFile
  import opened DeployWorkflow

  /** The record has the property with this value, or does not have it. */
  ghost predicate Carries(j: Json, name: Text, o: Option<Json>) {
    if o.Some? then j.Object? && (name, o.value) in j.members
    else j.Object? ==> forall m :: m in j.members ==> m.0 != name
  }

  lemma CarriedIsField(j: Json, name: Text, o: Option<Json>)
    requires WellFormed(j)
    ensures Carries(j, name, o) <==> Field(j, name) == o
  {
    if Carries(j, name, o) && o.Some? {
      MemberMeaning(j.members, (name, o.value));
    }
    if Field(j, name) == o && o.None? && j.Object? {
      forall m | m in j.members
        ensures m.0 != name
      {
        var i :| 0 <= i < |j.members| && j.members[i] == m;
      }
    }
  }

  // ---- package records ----

  /** Nothing at all, one string, a list of strings, or anything else. */
  ghost predicate SaysConstraint(o: Option<Json>, c: Constraint) {
    match c
    case Unconstrained => o.None?
    case Values(vs) =>
      || (|vs| == 1 && o == Some(String(vs[0])))
      || (o.Some? && o.value.Array? && |o.value.items| == |vs|
            && forall i :: 0 <= i < |vs| ==> o.value.items[i] == String(vs[i]))
    case Malformed =>
      && o.Some? && !o.value.String?
      && (o.value.Array? ==> exists i :: 0 <= i < |o.value.items| && !o.value.items[i].String?)
  }

  /** The keys of a record in their order; anything else has none. */
  ghost predicate SaysNames(o: Option<Json>, names: seq<Text>) {
    if o.Some? && o.value.Object? then
      |o.value.members| == |names| && forall i :: 0 <= i < |names| ==> o.value.members[i].0 == names[i]
    else names == []
  }

  /** The strings among the items, in their order. */
  ghost predicate SaysStrings(items: seq<Json>, names: seq<Text>)
    decreases |items|
  {
    if items == [] then names == []
    else if items[|items| - 1].String? then
      && names != [] && items[|items| - 1] == String(names[|names| - 1])
      && SaysStrings(items[..|items| - 1], names[..|names| - 1])
    else SaysStrings(items[..|items| - 1], names)
  }

  ghost predicate SaysList(o: Option<Json>, names: seq<Text>) {
    if o.Some? && o.value.Array? then SaysStrings(o.value.items, names) else names == []
  }

  ghost predicate HasConstraint(j: Json, name: Text, c: Constraint) {
    exists o :: Carries(j, name, o) && SaysConstraint(o, c)
  }

  ghost predicate HasNames(j: Json, name: Text, names: seq<Text>) {
    exists o :: Carries(j, name, o) && SaysNames(o, names)
  }

  ghost predicate HasList(j: Json, name: Text, names: seq<Text>) {
    exists o :: Carries(j, name, o) && SaysList(o, names)
  }

  ghost predicate SaysPlatform(j: Json, m: Metadata) {
    HasConstraint(j, Units("os"), m.os) && HasConstraint(j, Units("cpu"), m.cpu)
  }

  ghost predicate SaysDependencies(j: Json, m: Metadata) {
    && HasNames(j, Units("dependencies"), m.dependencies)
    && HasNames(j, Units("optionalDependencies"), m.optionalDependencies)
  }

  ghost predicate SaysPeers(j: Json, m: Metadata) {
    HasList(j, Units("optionalPeers"), m.optionalPeers) && HasNames(j, Units("peerDependencies"), m.peerDependencies)
  }

  ghost predicate SaysMetadata(j: Json, m: Metadata) {
    j.Object? && SaysPlatform(j, m) && SaysDependencies(j, m) && SaysPeers(j, m)
  }

  /** A package is an array whose third item describes it if that is a record. */
  ghost predicate SaysPackage(entry: Json, p: Package) {
    match p
    case Invalid => !entry.Array?
    case Bare => entry.Array? && forall i :: i == 2 && i < |entry.items| ==> !entry.items[i].Object?
    case Described(m) =>
      entry.Array? && exists a, b, rest, j :: entry.items == [a, b, j] + rest && SaysMetadata(j, m)
  }

  ghost predicate SaysWorkspace(j: Json, lock: Lock) {
    && j.Object?
    && HasNames(j, Units("dependencies"), lock.dependencies)
    && HasNames(j, Units("devDependencies"), lock.devDependencies)
  }

  ghost predicate SaysPackages(es: seq<(Text, Json)>, packages: Packages) {
    && (forall e :: e in es ==> e.0 in packages && SaysPackage(e.1, packages[e.0]))
    && (forall k :: k in packages ==> exists e :: e in es && e.0 == k)
  }

  ghost predicate HasWorkspace(j: Json, ws: seq<(Text, Json)>, w: Json, lock: Lock) {
    && Carries(j, Units("workspaces"), Some(Object(ws)))
    && Carries(Object(ws), Units("packages/whatsapp-baileys-sidecar"), Some(w)) && SaysWorkspace(w, lock)
  }

  ghost predicate HasPackages(j: Json, es: seq<(Text, Json)>, packages: Packages) {
    Carries(j, Units("packages"), Some(Object(es))) && SaysPackages(es, packages)
  }

  ghost predicate SaysGraph(j: Json, ws: seq<(Text, Json)>, w: Json, es: seq<(Text, Json)>, lock: Lock) {
    HasWorkspace(j, ws, w, lock) && HasPackages(j, es, lock.packages)
  }

  /** The lock file holds the sidecar's workspace and the package graph of `lock`. */
  ghost predicate SaysLock(j: Json, lock: Lock) {
    exists ws, w, es :: SaysGraph(j, ws, w, es, lock)
  }

  lemma {:induction false} StringsAreRead(items: seq<Json>, names: seq<Text>)
    ensures SaysStrings(items, names) <==> names == Strings(items)
    decreases |items|
  {
    if items != [] {
      var n := |items| - 1;
      StringsEnd(items);
      if items[n].String? {
        if names != [] {
          StringsAreRead(items[..n], names[..|names| - 1]);
          assert names == names[..|names| - 1] + [names[|names| - 1]];
        }
      } else {
        StringsAreRead(items[..n], names);
      }
    }
  }

  lemma {:induction false} StringsEnd(items: seq<Json>)
    requires items != []
    ensures
      var n := |items| - 1;
      Strings(items) == Strings(items[..n]) + if items[n].String? then [items[n].s] else []
  {
    if |items| > 1 {
      StringsEnd(items[1..]);
      assert items[1..][..|items| - 2] == items[..|items| - 1][1..];
    }
  }

  lemma {:induction false} AllStringsAre(items: seq<Json>)
    requires AllStrings(items)
    ensures |Strings(items)| == |items| && forall i :: 0 <= i < |items| ==> items[i] == String(Strings(items)[i])
  {
    if items != [] {
      AllStringsAre(items[1..]);
    }
  }

  lemma ConstraintIsRead(o: Option<Json>, c: Constraint)
    ensures SaysConstraint(o, c) <==> c == ConstraintOf(o)
  {
    if o.Some? && o.value.Array? && AllStrings(o.value.items) {
      AllStringsAre(o.value.items);
    }
    if o.Some? && o.value.Array? && SaysConstraint(o, c) && c.Values? {
      assert AllStrings(o.value.items);
      assert c.values == Strings(o.value.items);
    }
  }

  lemma NamesAreRead(o: Option<Json>, names: seq<Text>)
    ensures SaysNames(o, names) <==> names == Keys(o)
  {
    if SaysNames(o, names) && IsRecord(o) {
      assert names == Names(o.value.members);
    }
  }

  lemma ListIsRead(o: Option<Json>, names: seq<Text>)
    ensures SaysList(o, names) <==> names == if o.Some? && o.value.Array? then Strings(o.value.items) else []
  {
    if o.Some? && o.value.Array? {
      StringsAreRead(o.value.items, names);
    }
  }

  lemma ConstraintFieldIsRead(j: Json, name: Text, c: Constraint)
    requires WellFormed(j)
    ensures HasConstraint(j, name, c) <==> c == ConstraintOf(Field(j, name))
  {
    CarriedIsField(j, name, Field(j, name));
    ConstraintIsRead(Field(j, name), c);
    forall o | Carries(j, name, o)
      ensures o == Field(j, name)
    {
      CarriedIsField(j, name, o);
    }
  }

  lemma NamesFieldIsRead(j: Json, name: Text, names: seq<Text>)
    requires WellFormed(j)
    ensures HasNames(j, name, names) <==> names == Keys(Field(j, name))
  {
    CarriedIsField(j, name, Field(j, name));
    NamesAreRead(Field(j, name), names);
    forall o | Carries(j, name, o)
      ensures o == Field(j, name)
    {
      CarriedIsField(j, name, o);
    }
  }

  lemma ListFieldIsRead(j: Json, name: Text, names: seq<Text>)
    requires WellFormed(j)
    ensures HasList(j, name, names) <==>
      names == var o := Field(j, name); if o.Some? && o.value.Array? then Strings(o.value.items) else []
  {
    CarriedIsField(j, name, Field(j, name));
    ListIsRead(Field(j, name), names);
    forall o | Carries(j, name, o)
      ensures o == Field(j, name)
    {
      CarriedIsField(j, name, o);
    }
  }

  lemma PlatformIsRead(j: Json, m: Metadata)
    requires WellFormed(j)
    ensures SaysPlatform(j, m) <==> m.os == MetadataOf(j).os && m.cpu == MetadataOf(j).cpu
  {
    ConstraintFieldIsRead(j, Units("os"), m.os);
    ConstraintFieldIsRead(j, Units("cpu"), m.cpu);
  }

  lemma DependenciesAreRead(j: Json, m: Metadata)
    requires WellFormed(j)
    ensures SaysDependencies(j, m) <==>
      && m.dependencies == MetadataOf(j).dependencies
      && m.optionalDependencies == MetadataOf(j).optionalDependencies
  {
    NamesFieldIsRead(j, Units("dependencies"), m.dependencies);
    NamesFieldIsRead(j, Units("optionalDependencies"), m.optionalDependencies);
  }

  lemma PeersAreRead(j: Json, m: Metadata)
    requires WellFormed(j)
    ensures SaysPeers(j, m) <==>
      && m.optionalPeers == MetadataOf(j).optionalPeers && m.peerDependencies == MetadataOf(j).peerDependencies
  {
    ListFieldIsRead(j, Units("optionalPeers"), m.optionalPeers);
    NamesFieldIsRead(j, Units("peerDependencies"), m.peerDependencies);
  }

  lemma MetadataIsRead(j: Json, m: Metadata)
    requires WellFormed(j) && j.Object?
    ensures SaysMetadata(j, m) <==> m == MetadataOf(j)
  {
    var read := MetadataOf(j);
    PlatformIsRead(j, m);
    DependenciesAreRead(j, m);
    PeersAreRead(j, m);
    SameMetadata(m, read);
  }

  lemma SameMetadata(m: Metadata, n: Metadata)
    ensures m == n <==>
      && m.os == n.os && m.cpu == n.cpu && m.dependencies == n.dependencies
      && m.optionalDependencies == n.optionalDependencies && m.optionalPeers == n.optionalPeers
      && m.peerDependencies == n.peerDependencies
  {
  }

  lemma DescribedIsRead(entry: Json, m: Metadata)
    requires WellFormed(entry) && entry.Array?
    ensures SaysPackage(entry, Described(m)) <==>
      |entry.items| > 2 && entry.items[2].Object? && m == MetadataOf(entry.items[2])
  {
    var xs := entry.items;
    if |xs| > 2 && xs[2].Object? {
      MetadataIsRead(xs[2], m);
      assert xs == [xs[0], xs[1], xs[2]] + xs[3..];
    }
  }

  lemma PackageIsRead(entry: Json, p: Package)
    requires WellFormed(entry)
    ensures SaysPackage(entry, p) <==> p == PackageOf(entry)
  {
    if entry.Array? && p.Described? {
      DescribedIsRead(entry, p.metadata);
    }
  }

  lemma EntryIsRead(es: seq<(Text, Json)>, e: (Text, Json), p: Package)
    requires WellFormed(Object(es)) && e in es
    ensures e.0 in PackagesOf(es) && (SaysPackage(e.1, p) <==> p == PackagesOf(es)[e.0])
  {
    MemberMeaning(es, e);
    var i :| 0 <= i < |es| && es[i] == e;
    assert Names(es)[i] == e.0;
    assert WellFormed(es[i].1);
    PackageIsRead(e.1, p);
  }

  lemma PackagesAreEntries(es: seq<(Text, Json)>, k: Text)
    requires k in PackagesOf(es)
    ensures exists e :: e in es && e.0 == k
  {
    assert es[Lookup(es, k)] in es;
  }

  lemma SaidPackageIsRead(es: seq<(Text, Json)>, packages: Packages, k: Text)
    requires WellFormed(Object(es)) && SaysPackages(es, packages) && k in packages
    ensures k in PackagesOf(es) && packages[k] == PackagesOf(es)[k]
  {
    var e :| e in es && e.0 == k;
    EntryIsRead(es, e, packages[k]);
  }

  lemma ReadPackageIsSaid(es: seq<(Text, Json)>, packages: Packages, k: Text)
    requires SaysPackages(es, packages) && k in PackagesOf(es)
    ensures k in packages
  {
    PackagesAreEntries(es, k);
  }

  lemma SaidPackagesAreRead(es: seq<(Text, Json)>, packages: Packages)
    requires WellFormed(Object(es)) && SaysPackages(es, packages)
    ensures packages == PackagesOf(es)
  {
    forall k | k in packages ensures k in PackagesOf(es) && packages[k] == PackagesOf(es)[k] {
      SaidPackageIsRead(es, packages, k);
    }
    forall k | k in PackagesOf(es) ensures k in packages { ReadPackageIsSaid(es, packages, k); }
  }

  lemma ReadPackagesAreSaid(es: seq<(Text, Json)>)
    requires WellFormed(Object(es))
    ensures SaysPackages(es, PackagesOf(es))
  {
    var read := PackagesOf(es);
    forall e | e in es
      ensures e.0 in read && SaysPackage(e.1, read[e.0])
    {
      EntryIsRead(es, e, Invalid);
      EntryIsRead(es, e, read[e.0]);
    }
    forall k | k in read ensures exists e :: e in es && e.0 == k { PackagesAreEntries(es, k); }
  }

  lemma PackagesAreRead(es: seq<(Text, Json)>, packages: Packages)
    requires WellFormed(Object(es))
    ensures SaysPackages(es, packages) <==> packages == PackagesOf(es)
  {
    ReadPackagesAreSaid(es);
    if SaysPackages(es, packages) {
      SaidPackagesAreRead(es, packages);
    }
  }

  lemma WorkspaceIsRead(w: Json, lock: Lock)
    requires WellFormed(w)
    ensures SaysWorkspace(w, lock) <==>
      && w.Object? && lock.dependencies == Keys(Field(w, Units("dependencies")))
      && lock.devDependencies == Keys(Field(w, Units("devDependencies")))
  {
    NamesFieldIsRead(w, Units("dependencies"), lock.dependencies);
    NamesFieldIsRead(w, Units("devDependencies"), lock.devDependencies);
  }

  lemma CarriedValue(j: Json, name: Text, v: Json)
    requires WellFormed(j)
    ensures Carries(j, name, Some(v)) <==> Field(j, name) == Some(v)
    ensures Carries(j, name, Some(v)) ==> WellFormed(v)
  {
    CarriedIsField(j, name, Some(v));
    if Field(j, name) == Some(v) {
      FieldIsWellFormed(j, name);
    }
  }

  /** A lock file is read as the package graph it holds, and as none exactly when it holds none. */
  lemma LockIsRead(j: Json, lock: Lock)
    requires WellFormed(j)
    ensures SaysLock(j, lock) <==> HasGraph(j) && lock == LockOf(j)
  {
    if HasGraph(j) {
      var ws, es := Field(j, Units("workspaces")).value.members, Entries(j);
      GraphIsSaid(j, ws, Field(Object(ws), SIDECAR_WORKSPACE).value, es, LockOf(j));
    }
    if SaysLock(j, lock) {
      var ws, w, es :| SaysGraph(j, ws, w, es, lock);
      GraphIsSaid(j, ws, w, es, lock);
    }
  }

  /** The workspaces, the sidecar's workspace and the packages of a lock file. */
  lemma GraphIsSaid(j: Json, ws: seq<(Text, Json)>, w: Json, es: seq<(Text, Json)>, lock: Lock)
    requires WellFormed(j)
    ensures SaysGraph(j, ws, w, es, lock) <==>
      && HasGraph(j) && Field(j, Units("workspaces")) == Some(Object(ws)) && Entries(j) == es
      && Field(Object(ws), SIDECAR_WORKSPACE) == Some(w) && lock == LockOf(j)
  {
    WorkspaceIsSaid(j, ws, w, lock);
    PackagesAreSaid(j, es, lock.packages);
  }

  lemma PackagesAreSaid(j: Json, es: seq<(Text, Json)>, packages: Packages)
    requires WellFormed(j)
    ensures HasPackages(j, es, packages) <==>
      Field(j, Units("packages")) == Some(Object(es)) && packages == PackagesOf(es)
  {
    CarriedValue(j, Units("packages"), Object(es));
    if WellFormed(Object(es)) {
      PackagesAreRead(es, packages);
    }
  }

  lemma WorkspaceIsSaid(j: Json, ws: seq<(Text, Json)>, w: Json, lock: Lock)
    requires WellFormed(j)
    ensures HasWorkspace(j, ws, w, lock) <==>
      && Field(j, Units("workspaces")) == Some(Object(ws)) && Field(Object(ws), SIDECAR_WORKSPACE) == Some(w)
      && w.Object? && lock.dependencies == Keys(Field(w, Units("dependencies")))
      && lock.devDependencies == Keys(Field(w, Units("devDependencies")))
  {
    CarriedValue(j, Units("workspaces"), Object(ws));
    if WellFormed(Object(ws)) {
      CarriedValue(Object(ws), SIDECAR_WORKSPACE, w);
      if WellFormed(w) {
        WorkspaceIsRead(w, lock);
      }
    }
  }

  // ---- the deploy steps of the workflow ----

  ghost predicate HasSteps(jobs: Json, steps: seq<Json>) {
    exists job :: Carries(jobs, Units("deploy-vps"), Some(job)) && Carries(job, Units("steps"), Some(Array(steps)))
  }

  /** The workflow's deploy job has these steps. */
  ghost predicate SaysSteps(workflow: Json, steps: seq<Json>) {
    exists jobs :: Carries(workflow, Units("jobs"), Some(jobs)) && HasSteps(jobs, steps)
  }

  /** The extraction takes the steps of the deploy job, exactly when there are some and none of them
      is `null` or a list. */
  lemma StepsAreFoundExactlyWhen(workflow: Json, steps: seq<Json>)
    requires WellFormed(workflow)
    ensures Steps(workflow) == Some(steps) <==>
      && SaysSteps(workflow, steps) && steps != []
      && forall step :: step in steps ==> step != Null && !step.Array?
  {
    StepsAreSaid(workflow, steps);
    if forall step :: step in steps ==> step != Null && !step.Array? {
      forall i | 0 <= i < |steps|
        ensures IsStep(steps[i])
      {
        assert steps[i] in steps;
      }
    }
  }

  lemma StepsAreSaid(workflow: Json, steps: seq<Json>)
    requires WellFormed(workflow)
    ensures SaysSteps(workflow, steps) <==>
      Then(Then(Field(workflow, Units("jobs")), Units("deploy-vps")), Units("steps")) == Some(Array(steps))
  {
    var found := Field(workflow, Units("jobs"));
    if found.Some? {
      CarriedValue(workflow, Units("jobs"), found.value);
      JobStepsAreSaid(found.value, steps);
    }
    if SaysSteps(workflow, steps) {
      var jobs :| Carries(workflow, Units("jobs"), Some(jobs)) && HasSteps(jobs, steps);
      CarriedValue(workflow, Units("jobs"), jobs);
    }
  }

  lemma JobStepsAreSaid(jobs: Json, steps: seq<Json>)
    requires WellFormed(jobs)
    ensures HasSteps(jobs, steps) <==>
      Then(Field(jobs, Units("deploy-vps")), Units("steps")) == Some(Array(steps))
  {
    var found := Field(jobs, Units("deploy-vps"));
    if found.Some? {
      CarriedValue(jobs, Units("deploy-vps"), found.value);
      CarriedValue(found.value, Units("steps"), Array(steps));
    }
    if HasSteps(jobs, steps) {
      var job :| Carries(jobs, Units("deploy-vps"), Some(job)) && Carries(job, Units("steps"), Some(Array(steps)));
      CarriedValue(jobs, Units("deploy-vps"), job);
    }
  }
}
