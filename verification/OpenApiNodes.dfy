/** JSON nodes and the references in them (the Reference Object of the OpenAPI Specification): the
    recursive search of scripts/filter-deploy-openapi.py, and the positions at which references
    stand. */
module OpenApiNodes {
  import opened Common

  /** A parsed JSON value; `Other` is a number, a boolean or null. */
  datatype Node = Dict(entries: seq<Entry>) | List(items: seq<Node>) | Str(text: string) | Other(id: int)
  datatype Entry = Entry(key: string, value: Node)

  /** Every string at a `$ref` key, at any depth. */
  function Refs(node: Node): set<string> {
    match node
    case Dict(es) => RefsOfEntries(es)
    case List(ns) => RefsOfItems(ns)
    case _ => {}
  }

  function RefsOfEntry(e: Entry): set<string> {
    if e.key == "$ref" && e.value.Str? then {e.value.text} else Refs(e.value)
  }

  function RefsOfEntries(es: seq<Entry>): set<string> {
    if es == [] then {} else RefsOfEntries(es[..|es| - 1]) + RefsOfEntry(es[|es| - 1])
  }

  function RefsOfItems(ns: seq<Node>): set<string> {
    if ns == [] then {} else RefsOfItems(ns[..|ns| - 1]) + Refs(ns[|ns| - 1])
  }

  // ---- where a reference stands ----

  /** The node below `n` that a path of entry and item indices leads to. */
  function Below(n: Node, path: seq<nat>): Option<Node>
    decreases |path|
  {
    if path == [] then Some(n)
    else match n
      case Dict(es) => if path[0] < |es| then Below(es[path[0]].value, path[1..]) else None
      case List(ns) => if path[0] < |ns| then Below(ns[path[0]], path[1..]) else None
      case _ => None
  }

  /** At the end of the path is a record whose `i`-th entry is the reference `r`. */
  ghost predicate RefersAt(n: Node, path: seq<nat>, i: nat, r: string) {
    var end := Below(n, path);
    end.Some? && end.value.Dict? && i < |end.value.entries| && end.value.entries[i] == Entry("$ref", Str(r))
  }

  ghost predicate Refers(n: Node, r: string) {
    exists path, i :: RefersAt(n, path, i, r)
  }

  lemma {:induction false} RefsOfEntriesAre(es: seq<Entry>, r: string)
    ensures r in RefsOfEntries(es) <==> exists i :: 0 <= i < |es| && r in RefsOfEntry(es[i])
  {
    if es != [] {
      var front := es[..|es| - 1];
      RefsOfEntriesAre(front, r);
      if r in RefsOfEntry(es[|es| - 1]) {
        assert r in RefsOfEntry(es[|es| - 1]);
      }
      if r in RefsOfEntries(front) {
        var i :| 0 <= i < |front| && r in RefsOfEntry(front[i]);
        assert es[i] == front[i];
      }
      if i :| 0 <= i < |es| - 1 && r in RefsOfEntry(es[i]) {
        assert front[i] == es[i];
      }
    }
  }

  lemma {:induction false} RefsOfItemsAre(ns: seq<Node>, r: string)
    ensures r in RefsOfItems(ns) <==> exists i :: 0 <= i < |ns| && r in Refs(ns[i])
  {
    if ns != [] {
      var front := ns[..|ns| - 1];
      RefsOfItemsAre(front, r);
      if r in Refs(ns[|ns| - 1]) {
        assert r in Refs(ns[|ns| - 1]);
      }
      if r in RefsOfItems(front) {
        var i :| 0 <= i < |front| && r in Refs(front[i]);
        assert ns[i] == front[i];
      }
      if i :| 0 <= i < |ns| - 1 && r in Refs(ns[i]) {
        assert front[i] == ns[i];
      }
    }
  }

  /** A reference found by the walk stands somewhere. */
  lemma {:induction false} FoundStands(n: Node, r: string) returns (path: seq<nat>, i: nat)
    requires r in Refs(n)
    ensures RefersAt(n, path, i, r)
    decreases n
  {
    match n {
      case Dict(es) =>
        RefsOfEntriesAre(es, r);
        var k :| 0 <= k < |es| && r in RefsOfEntry(es[k]);
        if es[k].key == "$ref" && es[k].value.Str? {
          path, i := [], k;
        } else {
          var rest;
          rest, i := FoundStands(es[k].value, r);
          path := [k] + rest;
          assert path[1..] == rest;
        }
      case List(ns) =>
        RefsOfItemsAre(ns, r);
        var k :| 0 <= k < |ns| && r in Refs(ns[k]);
        var rest;
        rest, i := FoundStands(ns[k], r);
        path := [k] + rest;
        assert path[1..] == rest;
    }
  }

  /** A reference that stands somewhere is found. */
  lemma {:induction false} StandingIsFound(n: Node, path: seq<nat>, i: nat, r: string)
    requires RefersAt(n, path, i, r)
    ensures r in Refs(n)
    decreases |path|
  {
    match n {
      case Dict(es) =>
        RefsOfEntriesAre(es, r);
        if path == [] {
          assert r in RefsOfEntry(es[i]);
        } else {
          StandingIsFound(es[path[0]].value, path[1..], i, r);
          assert r in RefsOfEntry(es[path[0]]);
        }
      case List(ns) =>
        RefsOfItemsAre(ns, r);
        StandingIsFound(ns[path[0]], path[1..], i, r);
      case _ =>
    }
  }

  /** The walk finds exactly the strings that stand at a `$ref` key, however deep. */
  lemma WalkFindsExactly(n: Node, r: string)
    ensures r in Refs(n) <==> Refers(n, r)
  {
    if r in Refs(n) {
      var path, i := FoundStands(n, r);
    }
    if Refers(n, r) {
      var path, i :| RefersAt(n, path, i, r);
      StandingIsFound(n, path, i, r);
    }
  }
}
