/** From the parsed `bun.lock` to the printed dependency closure
    (scripts/whatsapp-sidecar-deployment-revision.ts). */
module LockFile {
  import opened Common
  import opened NameOrder
  import opened CanonicalJson
  import opened DependencyClosure

  const SIDECAR_WORKSPACE := Units("packages/whatsapp-baileys-sidecar")

  // ---- reading records ----

  predicate IsRecord(o: Option<Json>) {
    o.Some? && o.value.Object?
  }

  /** `Object.keys` of a record; a field that is not one contributes no names. */
  function Keys(o: Option<Json>): seq<Text> {
    if IsRecord(o) then Names(o.value.members) else []
  }

  predicate AllStrings(items: seq<Json>) {
    forall i :: 0 <= i < |items| ==> items[i].String?
  }

  /** The strings of a list, other items dropped. */
  function Strings(items: seq<Json>): seq<Text> {
    if items == [] then []
    else (if items[0].String? then [items[0].s] else []) + Strings(items[1..])
  }

  function ConstraintOf(o: Option<Json>): Constraint {
    match o
    case None => Unconstrained
    case Some(String(s)) => Values([s])
    case Some(Array(items)) => if AllStrings(items) then Values(Strings(items)) else Malformed
    case Some(_) => Malformed
  }

  function MetadataOf(m: Json): Metadata {
    var peers := Field(m, Units("optionalPeers"));
    Metadata(
      ConstraintOf(Field(m, Units("os"))), ConstraintOf(Field(m, Units("cpu"))),
      Keys(Field(m, Units("dependencies"))), Keys(Field(m, Units("optionalDependencies"))),
      if peers.Some? && peers.value.Array? then Strings(peers.value.items) else [],
      Keys(Field(m, Units("peerDependencies"))))
  }

  function PackageOf(entry: Json): Package {
    if !entry.Array? then Invalid
    else if |entry.items| > 2 && entry.items[2].Object? then Described(MetadataOf(entry.items[2]))
    else Bare
  }

  /** The lock file has the workspace package graph and the sidecar's workspace. */
  predicate HasGraph(j: Json) {
    && IsRecord(Field(j, Units("workspaces"))) && IsRecord(Field(j, Units("packages")))
    && IsRecord(Field(Field(j, Units("workspaces")).value, SIDECAR_WORKSPACE))
  }

  function Entries(j: Json): seq<(Text, Json)>
    requires HasGraph(j)
  {
    Field(j, Units("packages")).value.members
  }

  function PackagesOf(es: seq<(Text, Json)>): Packages {
    map k | k in Names(es) && Has(es, k) :: PackageOf(es[Lookup(es, k)].1)
  }

  function LockOf(j: Json): Lock
    requires HasGraph(j)
  {
    var workspace := Field(Field(j, Units("workspaces")).value, SIDECAR_WORKSPACE);
    Lock(PackagesOf(Entries(j)),
         Keys(Field(workspace.value, Units("dependencies"))), Keys(Field(workspace.value, Units("devDependencies"))))
  }

  // ---- a part of a record ----

  /** `ms` is the part of `es` with the given names, in any order. */
  ghost predicate Restricts(ms: seq<(Text, Json)>, es: seq<(Text, Json)>, names: set<Text>) {
    DistinctNames(ms) && forall e :: e in ms <==> e in es && e.0 in names
  }

  ghost function PartValue(es: seq<(Text, Json)>, names: set<Text>): map<Text, Value> {
    map k | k in names && k in NameSet(es) :: Meaning(es[Lookup(es, k)].1)
  }

  /** A member of the part has the same value in both maps. */
  lemma PartMember(ms: seq<(Text, Json)>, es: seq<(Text, Json)>, names: set<Text>, e: (Text, Json))
    requires DistinctNames(es) && Restricts(ms, es, names) && e in ms
    ensures e.0 in PartValue(es, names) && PartValue(es, names)[e.0] == Meaning(e.1)
    ensures e.0 in Meaning(Object(ms)).members && Meaning(Object(ms)).members[e.0] == Meaning(e.1)
  {
    MemberMeaning(es, e);
    MemberMeaning(ms, e);
  }

  lemma PartMeans(ms: seq<(Text, Json)>, es: seq<(Text, Json)>, names: set<Text>)
    requires DistinctNames(es) && Restricts(ms, es, names)
    ensures Meaning(Object(ms)) == ObjectValue(PartValue(es, names))
  {
    var v, w := PartValue(es, names), Meaning(Object(ms)).members;
    forall k | k in v
      ensures k in w && v[k] == w[k]
    {
      var e :| e in es && e.0 == k;
      PartMember(ms, es, names, e);
    }
    forall k | k in w
      ensures k in v
    {
      var e :| e in ms && e.0 == k;
      PartMember(ms, es, names, e);
    }
  }

  lemma PartIsWellFormed(ms: seq<(Text, Json)>, es: seq<(Text, Json)>, names: set<Text>)
    requires WellFormed(Object(es)) && Restricts(ms, es, names)
    ensures WellFormed(Object(ms))
  {
    forall i | 0 <= i < |ms|
      ensures WellFormed(ms[i].1)
    {
      assert ms[i] in es;
    }
  }

  function Part(es: seq<(Text, Json)>, names: set<Text>): (ms: seq<(Text, Json)>)
    requires DistinctNames(es)
    ensures Restricts(ms, es, names)
  {
    if es == [] then []
    else
      var n := |es| - 1;
      assert es == es[..n] + [es[n]];
      assert forall e :: e in es[..n] ==> e.0 != es[n].0;
      Part(es[..n], names) + if es[n].0 in names then [es[n]] else []
  }

  // ---- the closure as a record ----

  /** The search ends with a closure. */
  ghost predicate HasClosure(j: Json) {
    HasGraph(j) && !Endless(LockOf(j)) && !Broken(LockOf(j))
  }

  /** The packages in the closure that can be recorded. */
  ghost function Collection(j: Json): set<Text>
    requires HasGraph(j)
  {
    set k | k in NameSet(Entries(j)) && InClosure(LockOf(j), k) && k != PROTO
  }

  /** `ms` is the closure, each package with its own record, in the order in which they were met. */
  ghost predicate IsClosure(j: Json, ms: seq<(Text, Json)>)
    requires HasGraph(j)
  {
    Restricts(ms, Entries(j), Collection(j))
  }

  /** What the closure says, without the order of its keys. */
  ghost function ClosureValue(j: Json): Value
    requires HasGraph(j)
  {
    ObjectValue(PartValue(Entries(j), Collection(j)))
  }

  lemma EntriesAreWellFormed(j: Json)
    requires WellFormed(j) && HasGraph(j)
    ensures WellFormed(Object(Entries(j)))
  {
    FieldIsWellFormed(j, Units("packages"));
  }

  /** The closure is a well-formed record that denotes its value, in whatever order its packages
      were met. */
  lemma ClosureMeans(j: Json, ms: seq<(Text, Json)>)
    requires WellFormed(j) && HasGraph(j) && IsClosure(j, ms)
    ensures WellFormed(Object(ms)) && Meaning(Object(ms)) == ClosureValue(j)
  {
    EntriesAreWellFormed(j);
    PartIsWellFormed(ms, Entries(j), Collection(j));
    PartMeans(ms, Entries(j), Collection(j));
  }

  lemma PackagesAreEntries(j: Json)
    requires HasGraph(j)
    ensures LockOf(j).packages.Keys == NameSet(Entries(j))
  {
    var es := Entries(j);
    forall k | k in NameSet(es)
      ensures k in LockOf(j).packages
    {
      var e :| e in es && e.0 == k;
      var i :| 0 <= i < |es| && es[i] == e;
      assert Names(es)[i] == k;
    }
    forall k | k in LockOf(j).packages
      ensures k in NameSet(es)
    {
      var i :| 0 <= i < |es| && es[i].0 == k;
      assert es[i] in es;
    }
  }

  lemma CollectionIsTheKeys(j: Json, closure: Packages)
    requires HasGraph(j) && forall k :: k in closure <==> InClosure(LockOf(j), k) && k != PROTO
    requires closure.Keys <= LockOf(j).packages.Keys
    ensures closure.Keys == Collection(j)
  {
    PackagesAreEntries(j);
  }

  /** `sidecarDependencyClosure` from the parsed lock file on: it throws exactly when the graph is
      not there or some request is broken, and otherwise returns the closure. */
  method ClosureRecord(j: Json, pick: seq<Request> -> nat) returns (r: Option<seq<(Text, Json)>>)
    requires WellFormed(j) && (HasGraph(j) ==> !Endless(LockOf(j)))
    requires forall rs :: rs != [] ==> pick(rs) < |rs|
    ensures r.Some? <==> HasClosure(j)
    ensures r.Some? ==> IsClosure(j, r.value)
  {
    if !HasGraph(j) {
      return None;
    }
    var closure := SidecarDependencyClosure(LockOf(j), pick);
    if closure.None? {
      return None;
    }
    EntriesAreWellFormed(j);
    CollectionIsTheKeys(j, closure.value);
    return Some(Part(Entries(j), closure.value.Keys));
  }
}
