/** Filtering the deploy API specification to an allowlist of operations and the schemas they
    reach (scripts/filter-deploy-openapi.py).

    The allowlist and the lower-casing of method names are parameters: everything holds for
    any allowlist. */
module OpenApiFilter {
  import opened Common
  import opened OpenApiNodes
  import opened Reachability

  /** The set `_walk_refs` adds to. */
  class Sink {
    var refs: set<string>

    constructor ()
      ensures refs == {}
    {
      refs := {};
    }

    method Walk(node: Node)
      modifies this
      ensures refs == old(refs) + Refs(node)
      ensures forall r :: r in refs <==> r in old(refs) || Refers(node, r)
      decreases node
    {
      forall r ensures r in Refs(node) <==> Refers(node, r) { WalkFindsExactly(node, r); }
      match node {
        case Dict(es) =>
          for i := 0 to |es|
            invariant refs == old(refs) + RefsOfEntries(es[..i])
          {
            if es[i].key == "$ref" && es[i].value.Str? {
              refs := refs + {es[i].value.text};
            } else {
              Walk(es[i].value);
            }
            assert es[..i + 1][..i] == es[..i];
          }
          assert es[..|es|] == es;
        case List(ns) =>
          for i := 0 to |ns|
            invariant refs == old(refs) + RefsOfItems(ns[..i])
          {
            Walk(ns[i]);
            assert ns[..i + 1][..i] == ns[..i];
          }
          assert ns[..|ns|] == ns;
        case _ =>
      }
    }
  }

  const SCHEMA_PREFIX := "#/components/schemas/"

  function SchemaNames(refs: set<string>): set<string> {
    set r | r in refs && SCHEMA_PREFIX <= r :: r[|SCHEMA_PREFIX|..]
  }

  type PathItem = seq<Entry>

  /** The parts of a specification the filter reads; a schema that is null counts as absent. */
  datatype Spec = Spec(
    openapi: Option<Node>, info: Option<Node>, paths: map<string, PathItem>, schemas: map<string, Node>)

  type Allowlist = map<string, set<string>>

  predicate IsSharedKey(key: string) {
    key in {"summary", "description", "servers", "parameters"}
  }

  predicate KeepsEntry(lower: string -> string, methods: set<string>, e: Entry) {
    IsSharedKey(e.key) || lower(e.key) in methods
  }

  function KeptItem(lower: string -> string, methods: set<string>, item: PathItem): PathItem {
    if item == [] then []
    else
      var front := KeptItem(lower, methods, item[..|item| - 1]);
      var e := item[|item| - 1];
      if KeepsEntry(lower, methods, e) then front + [e] else front
  }

  predicate HasMethods(lower: string -> string, methods: set<string>, item: PathItem) {
    forall m :: m in methods ==> exists e :: e in KeptItem(lower, methods, item) && lower(e.key) == m
  }

  /** Every allowlisted operation is in the specification. */
  ghost predicate OperationsPresent(keep: Allowlist, lower: string -> string, spec: Spec) {
    forall p :: p in keep ==> p in spec.paths && HasMethods(lower, keep[p], spec.paths[p])
  }

  function KeptPaths(keep: Allowlist, lower: string -> string, spec: Spec): map<string, PathItem> {
    map p | p in keep && p in spec.paths :: KeptItem(lower, keep[p], spec.paths[p])
  }

  function RefsOfPaths(paths: map<string, PathItem>): set<string> {
    set p, r | p in paths && r in RefsOfEntries(paths[p]) :: r
  }

  // ---- the schema graph ----

  function RootSchemas(keep: Allowlist, lower: string -> string, spec: Spec): set<string> {
    SchemaNames(RefsOfPaths(KeptPaths(keep, lower, spec)))
  }

  function SchemaEdges(schemas: map<string, Node>, name: string): set<string> {
    if name in schemas then SchemaNames(Refs(schemas[name])) else {}
  }

  ghost predicate Needed(keep: Allowlist, lower: string -> string, spec: Spec, name: string) {
    Reachable(RootSchemas(keep, lower, spec), Edges(spec.schemas), name)
  }

  ghost predicate SchemasPresent(keep: Allowlist, lower: string -> string, spec: Spec) {
    forall name :: Needed(keep, lower, spec, name) ==> name in spec.schemas
  }

  const DEFAULT_OPENAPI := Str("3.0.0")
  const DEFAULT_INFO := Dict([Entry("title", Str("deploy-api (filtered)")), Entry("version", Str("0"))])

  /** What the filter promises: it fails when an operation or a needed schema is missing, and
      otherwise returns the kept operations and exactly the needed schemas. */
  ghost predicate IsFiltered(keep: Allowlist, lower: string -> string, spec: Spec, r: Option<Spec>) {
    if !OperationsPresent(keep, lower, spec) || !SchemasPresent(keep, lower, spec) then r.None?
    else
      && r.Some?
      && r.value.openapi == Some(if spec.openapi.Some? then spec.openapi.value else DEFAULT_OPENAPI)
      && r.value.info == Some(if spec.info.Some? then spec.info.value else DEFAULT_INFO)
      && r.value.paths == KeptPaths(keep, lower, spec)
      && (forall n :: n in r.value.schemas <==> Needed(keep, lower, spec, n))
      && (forall n :: n in r.value.schemas ==> n in spec.schemas && r.value.schemas[n] == spec.schemas[n])
  }

  // ---- the search ----

  ghost function Edges(schemas: map<string, Node>): string -> set<string> {
    n => SchemaEdges(schemas, n)
  }

  /** One round of the `while pending` loop; none when the popped schema does not exist. */
  method VisitSchema(ghost roots: set<string>, schemas: map<string, Node>, seen: set<string>, pending: set<string>)
    returns (next: Option<(set<string>, set<string>)>)
    requires pending != {} && Searching(roots, Edges(schemas), seen, pending) && seen <= schemas.Keys
    ensures next.None? ==> exists n :: Reachable(roots, Edges(schemas), n) && n !in schemas
    ensures next.Some? ==>
      && Searching(roots, Edges(schemas), next.value.0, next.value.1) && next.value.0 <= schemas.Keys
      && (|| |schemas.Keys - next.value.0| < |schemas.Keys - seen|
          || (next.value.0 == seen && |next.value.1| < |pending|))
  {
    var name :| name in pending;
    if name in seen {
      SearchDrops(roots, Edges(schemas), seen, pending, name);
      return Some((seen, pending - {name}));
    }
    if name !in schemas {
      assert Reachable(roots, Edges(schemas), name);
      return None;
    }
    var nested := NamesIn(schemas, name);
    var rest := (pending - {name}) + (nested - (seen + {name}));
    SearchVisits(roots, Edges(schemas), seen, pending, name, rest);
    LessUnseen(schemas.Keys, seen, name);
    return Some((seen + {name}, rest));
  }

  /** The search from the schemas the kept operations refer to; none when some schema it is
      bound to meet does not exist. */
  method SearchSchemas(roots: set<string>, schemas: map<string, Node>) returns (r: Option<set<string>>)
    ensures r.None? <==> exists n :: Reachable(roots, Edges(schemas), n) && n !in schemas
    ensures r.Some? ==> forall n :: n in r.value <==> Reachable(roots, Edges(schemas), n)
  {
    var seen: set<string> := {};
    var pending := roots;
    SearchBegins(roots, Edges(schemas));
    while pending != {}
      invariant Searching(roots, Edges(schemas), seen, pending) && seen <= schemas.Keys
      decreases |schemas.Keys - seen|, |pending|
    {
      var next := VisitSchema(roots, schemas, seen, pending);
      if next.None? {
        return None;
      }
      seen, pending := next.value.0, next.value.1;
    }
    SearchEnds(roots, Edges(schemas), seen);
    return Some(seen);
  }

  method NamesIn(schemas: map<string, Node>, name: string) returns (names: set<string>)
    requires name in schemas
    ensures names == SchemaEdges(schemas, name)
  {
    var nested := new Sink();
    nested.Walk(schemas[name]);
    names := SchemaNames(nested.refs);
  }

  // ---- the kept operations ----

  method MissesMethod(lower: string -> string, methods: set<string>, kept: PathItem) returns (missing: bool)
    ensures missing <==> exists m :: m in methods && forall e :: e in kept ==> lower(e.key) != m
  {
    var have: set<string> := {};
    for i := 0 to |kept|
      invariant have == set e | e in kept[..i] :: lower(e.key)
    {
      have := have + {lower(kept[i].key)};
      assert kept[..i + 1] == kept[..i] + [kept[i]];
    }
    assert kept[..|kept|] == kept;
    if methods <= have {
      return false;
    }
    var m :| m in methods && m !in have;
    return true;
  }

  method KeepItem(lower: string -> string, methods: set<string>, item: PathItem) returns (kept: PathItem)
    ensures kept == KeptItem(lower, methods, item)
  {
    kept := [];
    for i := 0 to |item|
      invariant kept == KeptItem(lower, methods, item[..i])
    {
      if KeepsEntry(lower, methods, item[i]) {
        kept := kept + [item[i]];
      }
      assert item[..i + 1][..i] == item[..i];
    }
    assert item[..|item|] == item;
  }

  /** The loop over the allowlist; none when an operation is missing. */
  method KeepPaths(keep: Allowlist, lower: string -> string, spec: Spec) returns (kept: Option<map<string, PathItem>>)
    ensures kept.None? <==> !OperationsPresent(keep, lower, spec)
    ensures kept.Some? ==> kept.value == KeptPaths(keep, lower, spec)
  {
    var paths: map<string, PathItem> := map[];
    var missing := false;
    var rest := keep.Keys;
    while rest != {}
      invariant rest <= keep.Keys
      invariant !missing <==> forall p :: p in keep.Keys - rest ==>
        p in spec.paths && HasMethods(lower, keep[p], spec.paths[p])
      invariant !missing ==>
        paths == map p | p in keep.Keys - rest && p in spec.paths :: KeptItem(lower, keep[p], spec.paths[p])
    {
      var path :| path in rest;
      rest := rest - {path};
      if path !in spec.paths {
        missing := true;
      } else {
        var item := KeepItem(lower, keep[path], spec.paths[path]);
        var misses := MissesMethod(lower, keep[path], item);
        if misses {
          missing := true;
        } else {
          paths := paths[path := item];
        }
      }
    }
    if missing {
      return None;
    }
    return Some(paths);
  }

  /** The walk over all kept operations. */
  method NamesInPaths(paths: map<string, PathItem>) returns (names: set<string>)
    ensures names == SchemaNames(RefsOfPaths(paths))
  {
    var sink := new Sink();
    var rest := paths.Keys;
    while rest != {}
      invariant rest <= paths.Keys
      invariant forall r :: r in sink.refs <==> exists p :: p in paths.Keys - rest && r in RefsOfEntries(paths[p])
    {
      var path :| path in rest;
      rest := rest - {path};
      sink.Walk(Dict(paths[path]));
      assert Refs(Dict(paths[path])) == RefsOfEntries(paths[path]);
    }
    assert sink.refs == RefsOfPaths(paths);
    names := SchemaNames(sink.refs);
  }

  /** `filter_spec`. */
  method FilterSpec(keep: Allowlist, lower: string -> string, spec: Spec) returns (r: Option<Spec>)
    ensures IsFiltered(keep, lower, spec, r)
  {
    var paths := KeepPaths(keep, lower, spec);
    if paths.None? {
      return None;
    }
    var roots := NamesInPaths(paths.value);
    var names := SearchSchemas(roots, spec.schemas);
    if names.None? {
      return None;
    }
    var schemas := map n | n in names.value && n in spec.schemas :: spec.schemas[n];
    return Some(Spec(
      Some(if spec.openapi.Some? then spec.openapi.value else DEFAULT_OPENAPI),
      Some(if spec.info.Some? then spec.info.value else DEFAULT_INFO),
      paths.value, schemas));
  }

  // ---- what the output satisfies ----

  /** Every schema reference in the output, from an operation or a schema, resolves in it. */
  lemma OutputIsSelfContained(keep: Allowlist, lower: string -> string, spec: Spec, out: Spec)
    requires IsFiltered(keep, lower, spec, Some(out))
    ensures SchemaNames(RefsOfPaths(out.paths)) <= out.schemas.Keys
    ensures forall n :: n in out.schemas ==> SchemaNames(Refs(out.schemas[n])) <= out.schemas.Keys
  {
    var roots := RootSchemas(keep, lower, spec);
    forall m | m in roots
      ensures m in out.schemas
    {
      RootIsReachable(roots, Edges(spec.schemas), m);
      assert Needed(keep, lower, spec, m);
    }
    forall n, m | n in out.schemas && m in SchemaNames(Refs(out.schemas[n]))
      ensures m in out.schemas
    {
      assert Needed(keep, lower, spec, n);
      EdgeIsReachable(roots, Edges(spec.schemas), n, m);
      assert Needed(keep, lower, spec, m);
    }
  }

  lemma {:induction false} KeptItemIsIdempotent(lower: string -> string, methods: set<string>, item: PathItem)
    ensures KeptItem(lower, methods, KeptItem(lower, methods, item)) == KeptItem(lower, methods, item)
  {
    if item != [] {
      var front := KeptItem(lower, methods, item[..|item| - 1]);
      KeptItemIsIdempotent(lower, methods, item[..|item| - 1]);
      var e := item[|item| - 1];
      assert (front + [e])[..|front|] == front;
    }
  }

  lemma KeptPathsAreIdempotent(keep: Allowlist, lower: string -> string, spec: Spec, out: Spec)
    requires OperationsPresent(keep, lower, spec) && out.paths == KeptPaths(keep, lower, spec)
    ensures KeptPaths(keep, lower, out) == out.paths && OperationsPresent(keep, lower, out)
  {
    forall p | p in keep
      ensures KeptItem(lower, keep[p], out.paths[p]) == out.paths[p]
    {
      KeptItemIsIdempotent(lower, keep[p], spec.paths[p]);
    }
  }

  lemma SameNeeds(keep: Allowlist, lower: string -> string, spec: Spec, out: Spec, name: string)
    requires IsFiltered(keep, lower, spec, Some(out)) && RootSchemas(keep, lower, out) == RootSchemas(keep, lower, spec)
    ensures Needed(keep, lower, out, name) <==> Needed(keep, lower, spec, name)
  {
    var roots := RootSchemas(keep, lower, spec);
    forall y
      ensures Edges(out.schemas)(y) <= Edges(spec.schemas)(y)
      ensures Reachable(roots, Edges(spec.schemas), y) ==> Edges(out.schemas)(y) == Edges(spec.schemas)(y)
    {
      assert Needed(keep, lower, spec, y) <==> y in out.schemas;
    }
    SubgraphReachesTheSame(roots, Edges(spec.schemas), Edges(out.schemas), name);
  }

  /** Filtering the output again gives the same output. */
  lemma FilterIsIdempotent(keep: Allowlist, lower: string -> string, spec: Spec, out: Spec)
    requires IsFiltered(keep, lower, spec, Some(out))
    ensures IsFiltered(keep, lower, out, Some(out))
  {
    KeptPathsAreIdempotent(keep, lower, spec, out);
    forall n
      ensures Needed(keep, lower, out, n) <==> Needed(keep, lower, spec, n)
    {
      SameNeeds(keep, lower, spec, out, n);
    }
  }

  /** The promise leaves one possible result. */
  lemma FilterIsDetermined(keep: Allowlist, lower: string -> string, spec: Spec, r: Option<Spec>, q: Option<Spec>)
    requires IsFiltered(keep, lower, spec, r) && IsFiltered(keep, lower, spec, q)
    ensures r == q
  {
    if r.Some? {
      forall n
        ensures n in r.value.schemas <==> n in q.value.schemas
      {
      }
      assert r.value.schemas == q.value.schemas;
    }
  }
}
