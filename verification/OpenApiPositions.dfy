/** The filtered specification by positions: where a reference stands, which operations are kept and
    which schemas a chain of references leads to, stated over the specification's records alone. */
module OpenApiPositions {
  import opened Common
  import opened Reachability
  import opened OpenApiFilter
  import opened OpenApiNodes

  // ---- which schemas a node mentions ----

  /** The node mentions a schema. */
  ghost predicate Mentions(n: Node, name: string) {
    Refers(n, "#/components/schemas/" + name)
  }

  lemma NamesAreMentions(n: Node, name: string)
    ensures name in SchemaNames(Refs(n)) <==> Mentions(n, name)
  {
    var r := SCHEMA_PREFIX + name;
    WalkFindsExactly(n, r);
    assert r[|SCHEMA_PREFIX|..] == name;
    if name in SchemaNames(Refs(n)) {
      var q :| q in Refs(n) && SCHEMA_PREFIX <= q && q[|SCHEMA_PREFIX|..] == name;
      assert q == SCHEMA_PREFIX + q[|SCHEMA_PREFIX|..];
    }
  }

  // ---- which entries and operations are kept ----

  predicate IsKept(lower: string -> string, methods: set<string>, e: Entry) {
    || e.key == "summary" || e.key == "description" || e.key == "servers" || e.key == "parameters"
    || lower(e.key) in methods
  }

  lemma KeptSingle(lower: string -> string, methods: set<string>, e: Entry)
    ensures KeptItem(lower, methods, [e]) == if IsKept(lower, methods, e) then [e] else []
  {
    assert [e][..0] == [];
    assert KeptItem(lower, methods, []) == [];
  }

  /** Each part of a kept item comes from that part of the item; so its order is the item's. */
  lemma {:induction false} KeptParts(lower: string -> string, methods: set<string>, a: PathItem, b: PathItem)
    ensures KeptItem(lower, methods, a + b) == KeptItem(lower, methods, a) + KeptItem(lower, methods, b)
    decreases |b|
  {
    if b == [] {
      assert a + b == a;
    } else {
      var n := |b| - 1;
      assert (a + b)[..|a + b| - 1] == a + b[..n] && (a + b)[|a + b| - 1] == b[n];
      KeptParts(lower, methods, a, b[..n]);
    }
  }

  /** The kept item has exactly the kept entries. */
  lemma {:induction false} KeptMembers(lower: string -> string, methods: set<string>, item: PathItem)
    ensures forall e :: e in KeptItem(lower, methods, item) <==> e in item && IsKept(lower, methods, e)
  {
    if item != [] {
      var n := |item| - 1;
      KeptMembers(lower, methods, item[..n]);
      assert item == item[..n] + [item[n]];
    }
  }

  ghost predicate HasEach(lower: string -> string, methods: set<string>, item: PathItem) {
    forall m :: m in methods ==> exists e :: e in item && lower(e.key) == m
  }

  /** Every allowlisted operation is there: the path, with an entry for each method. */
  ghost predicate HasOperations(keep: Allowlist, lower: string -> string, spec: Spec) {
    forall p :: p in keep ==> p in spec.paths && HasEach(lower, keep[p], spec.paths[p])
  }

  lemma OperationsAre(keep: Allowlist, lower: string -> string, spec: Spec)
    ensures OperationsPresent(keep, lower, spec) <==> HasOperations(keep, lower, spec)
  {
    forall p | p in keep && p in spec.paths
      ensures HasMethods(lower, keep[p], spec.paths[p]) <==> HasEach(lower, keep[p], spec.paths[p])
    {
      MethodsAre(lower, keep[p], spec.paths[p]);
    }
  }

  lemma MethodsAre(lower: string -> string, methods: set<string>, item: PathItem)
    ensures HasMethods(lower, methods, item) <==> HasEach(lower, methods, item)
  {
    KeptMembers(lower, methods, item);
    forall m | m in methods
      ensures (exists e :: e in KeptItem(lower, methods, item) && lower(e.key) == m) <==>
        exists e :: e in item && lower(e.key) == m
    {
      if e :| e in item && lower(e.key) == m {
        assert e in KeptItem(lower, methods, item);
      }
    }
  }

  // ---- which schemas are needed ----

  /** A kept operation, or what it shares with its path, mentions a schema. */
  ghost predicate OperationMentions(keep: Allowlist, lower: string -> string, spec: Spec, name: string) {
    exists p, e :: p in keep && p in spec.paths && EntryMentions(spec.paths[p], e, name) && IsKept(lower, keep[p], e)
  }

  ghost predicate EntryMentions(item: PathItem, e: Entry, name: string) {
    e in item && Mentions(Dict([e]), name)
  }

  lemma EntryRefsAre(e: Entry, r: string)
    ensures r in RefsOfEntry(e) <==> r in Refs(Dict([e]))
  {
    RefsOfEntriesAre([e], r);
  }

  lemma RootsAreMentioned(keep: Allowlist, lower: string -> string, spec: Spec, name: string)
    ensures name in RootSchemas(keep, lower, spec) <==> OperationMentions(keep, lower, spec, name)
  {
    var r := SCHEMA_PREFIX + name;
    var paths := KeptPaths(keep, lower, spec);
    assert r[|SCHEMA_PREFIX|..] == name;
    if name in RootSchemas(keep, lower, spec) {
      var q :| q in RefsOfPaths(paths) && SCHEMA_PREFIX <= q && q[|SCHEMA_PREFIX|..] == name;
      assert q == r;
      var p :| p in paths && r in RefsOfEntries(paths[p]);
      RootIsMentioned(keep, lower, spec, name, p);
    }
    if OperationMentions(keep, lower, spec, name) {
      var p, e :| p in keep && p in spec.paths && EntryMentions(spec.paths[p], e, name) && IsKept(lower, keep[p], e);
      MentionedIsRoot(keep, lower, spec, name, p, e);
      assert p in paths && r in RefsOfEntries(paths[p]);
      assert r in RefsOfPaths(paths);
    }
  }

  lemma RootIsMentioned(keep: Allowlist, lower: string -> string, spec: Spec, name: string, p: string)
    requires p in keep && p in spec.paths
    requires SCHEMA_PREFIX + name in RefsOfEntries(KeptItem(lower, keep[p], spec.paths[p]))
    ensures OperationMentions(keep, lower, spec, name)
  {
    var r := SCHEMA_PREFIX + name;
    var kept := KeptItem(lower, keep[p], spec.paths[p]);
    KeptMembers(lower, keep[p], spec.paths[p]);
    RefsOfEntriesAre(kept, r);
    var i :| 0 <= i < |kept| && r in RefsOfEntry(kept[i]);
    EntryRefsAre(kept[i], r);
    WalkFindsExactly(Dict([kept[i]]), r);
    assert EntryMentions(spec.paths[p], kept[i], name);
  }

  lemma MentionedIsRoot(keep: Allowlist, lower: string -> string, spec: Spec, name: string, p: string, e: Entry)
    requires p in keep && p in spec.paths && EntryMentions(spec.paths[p], e, name) && IsKept(lower, keep[p], e)
    ensures SCHEMA_PREFIX + name in RefsOfEntries(KeptItem(lower, keep[p], spec.paths[p]))
  {
    var r := SCHEMA_PREFIX + name;
    var kept := KeptItem(lower, keep[p], spec.paths[p]);
    KeptMembers(lower, keep[p], spec.paths[p]);
    WalkFindsExactly(Dict([e]), r);
    EntryRefsAre(e, r);
    RefsOfEntriesAre(kept, r);
    assert e in kept;
    var i :| 0 <= i < |kept| && kept[i] == e;
    assert r in RefsOfEntry(kept[i]);
  }

  lemma EdgesAreMentions(schemas: map<string, Node>, from: string, name: string)
    ensures name in SchemaEdges(schemas, from) <==> from in schemas && Mentions(schemas[from], name)
  {
    if from in schemas {
      NamesAreMentions(schemas[from], name);
    }
  }

  /** A chain of schemas, each mentioned by the one before it and the first by a kept operation. */
  ghost predicate IsChain(keep: Allowlist, lower: string -> string, spec: Spec, chain: seq<string>) {
    && chain != [] && OperationMentions(keep, lower, spec, chain[0])
    && forall i :: 0 <= i < |chain| - 1 ==> Links(spec.schemas, chain[i], chain[i + 1])
  }

  ghost predicate Links(schemas: map<string, Node>, from: string, to: string) {
    from in schemas && Mentions(schemas[from], to)
  }

  ghost predicate ChainLeadsTo(keep: Allowlist, lower: string -> string, spec: Spec, name: string) {
    exists chain :: IsChain(keep, lower, spec, chain) && chain[|chain| - 1] == name
  }

  lemma ChainsArePaths(keep: Allowlist, lower: string -> string, spec: Spec, chain: seq<string>)
    ensures IsChain(keep, lower, spec, chain) <==>
      IsPath(RootSchemas(keep, lower, spec), Edges(spec.schemas), chain)
  {
    if chain != [] {
      RootsAreMentioned(keep, lower, spec, chain[0]);
      forall i | 0 <= i < |chain| - 1
        ensures Links(spec.schemas, chain[i], chain[i + 1]) <==> chain[i + 1] in Edges(spec.schemas)(chain[i])
      {
        EdgesAreMentions(spec.schemas, chain[i], chain[i + 1]);
      }
    }
  }

  lemma NeededExactlyWhen(keep: Allowlist, lower: string -> string, spec: Spec, name: string)
    ensures Needed(keep, lower, spec, name) <==> ChainLeadsTo(keep, lower, spec, name)
  {
    forall chain
      ensures IsChain(keep, lower, spec, chain) <==>
        IsPath(RootSchemas(keep, lower, spec), Edges(spec.schemas), chain)
    {
      ChainsArePaths(keep, lower, spec, chain);
    }
  }

  // ---- what the filter returns ----

  function FilteredInfo(): Node {
    Dict([Entry("title", Str("deploy-api (filtered)")), Entry("version", Str("0"))])
  }

  /** The output by positions. */
  ghost predicate IsOutput(keep: Allowlist, lower: string -> string, spec: Spec, out: Spec) {
    && out.paths.Keys == keep.Keys
    && (forall p :: p in keep ==> p in spec.paths && out.paths[p] == KeptItem(lower, keep[p], spec.paths[p]))
    && (forall n :: n in out.schemas <==> ChainLeadsTo(keep, lower, spec, n))
    && (forall n :: n in out.schemas ==> n in spec.schemas && out.schemas[n] == spec.schemas[n])
    && out.openapi == Some(if spec.openapi.None? then Str("3.0.0") else spec.openapi.value)
    && out.info == Some(if spec.info.None? then FilteredInfo() else spec.info.value)
  }

  /** `FilterSpec` fails exactly when an allowlisted operation is missing or a chain leads to a
      schema that does not exist; otherwise its output holds the kept entries of the allowlisted
      paths and exactly the schemas a chain leads to. */
  lemma FilterByPositions(keep: Allowlist, lower: string -> string, spec: Spec, r: Option<Spec>)
    requires IsFiltered(keep, lower, spec, r)
    ensures r.None? <==>
      !HasOperations(keep, lower, spec) || exists n :: ChainLeadsTo(keep, lower, spec, n) && n !in spec.schemas
    ensures r.Some? ==> IsOutput(keep, lower, spec, r.value)
  {
    OperationsAre(keep, lower, spec);
    forall n
      ensures Needed(keep, lower, spec, n) <==> ChainLeadsTo(keep, lower, spec, n)
    {
      NeededExactlyWhen(keep, lower, spec, n);
    }
  }

  /** Every schema mentioned anywhere in the output, in an operation or in a schema and however deep,
      is in the output. */
  lemma NothingDangles(keep: Allowlist, lower: string -> string, spec: Spec, out: Spec, name: string)
    requires IsFiltered(keep, lower, spec, Some(out))
    ensures (exists p :: p in out.paths && Mentions(Dict(out.paths[p]), name)) ==> name in out.schemas
    ensures (exists n :: n in out.schemas && Mentions(out.schemas[n], name)) ==> name in out.schemas
  {
    OutputIsSelfContained(keep, lower, spec, out);
    if p :| p in out.paths && Mentions(Dict(out.paths[p]), name) {
      PathMentionIsRoot(out, p, name);
    }
    if n :| n in out.schemas && Mentions(out.schemas[n], name) {
      NamesAreMentions(out.schemas[n], name);
    }
  }

  lemma PathMentionIsRoot(out: Spec, p: string, name: string)
    requires p in out.paths && Mentions(Dict(out.paths[p]), name)
    ensures name in SchemaNames(RefsOfPaths(out.paths))
  {
    var r := SCHEMA_PREFIX + name;
    WalkFindsExactly(Dict(out.paths[p]), r);
    assert r in RefsOfPaths(out.paths) && r[|SCHEMA_PREFIX|..] == name;
  }
}
