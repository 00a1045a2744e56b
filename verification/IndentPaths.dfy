/** The indentation-stack reader of YAML mapping lines (scripts/check_postgres_image_parity.py),
    from parsed lines on. */
module IndentPaths {

  /** A mapping line; an empty value opens a nested mapping. */
  datatype Line = Line(indent: nat, key: string, value: string)

  // ---- the reference: which lines enclose a line ----

  /** Line `j` opened a mapping that no line before `i` has closed. */
  ghost predicate IsOpen(lines: seq<Line>, j: nat, i: nat)
    requires i <= |lines|
  {
    j < i && lines[j].value == "" && forall k :: j < k < i ==> lines[k].indent > lines[j].indent
  }

  /** An earlier valueless key with smaller indent such that no mapping line in between has
      indent at or below its own. */
  ghost predicate Encloses(lines: seq<Line>, j: nat, i: nat)
    requires i < |lines|
  {
    IsOpen(lines, j, i) && lines[j].indent < lines[i].indent
  }

  /** The enclosing lines among the first `n`, in order. */
  ghost function Enclosing(lines: seq<Line>, i: nat, n: nat): (js: seq<nat>)
    requires n <= i < |lines|
    ensures forall m :: 0 <= m < |js| ==> js[m] < n && Encloses(lines, js[m], i)
  {
    if n == 0 then []
    else Enclosing(lines, i, n - 1) + (if Encloses(lines, n - 1, i) then [n - 1] else [])
  }

  ghost function KeysOf(lines: seq<Line>, js: seq<nat>): (ks: seq<string>)
    requires forall m :: 0 <= m < |js| ==> js[m] < |lines|
    ensures |ks| == |js|
  {
    seq(|js|, m requires 0 <= m < |js| => lines[js[m]].key)
  }

  ghost function PathOf(lines: seq<Line>, i: nat): seq<string>
    requires i < |lines|
  {
    KeysOf(lines, Enclosing(lines, i, i)) + [lines[i].key]
  }

  /** Every scalar of the first `n` lines with the path that encloses it. */
  ghost function Scalars(lines: seq<Line>, n: nat): seq<(seq<string>, string)>
    requires n <= |lines|
  {
    if n == 0 then []
    else
      var i := n - 1;
      Scalars(lines, i) + (if lines[i].value != "" then [(PathOf(lines, i), lines[i].value)] else [])
  }

  // ---- the stack ----

  ghost predicate Increasing(js: seq<nat>) {
    forall m, n :: 0 <= m < n < |js| ==> js[m] < js[n]
  }

  /** The stack is the open lines, oldest at the bottom. */
  ghost predicate StackIs(lines: seq<Line>, i: nat, js: seq<nat>, stack: seq<(nat, string)>)
    requires i <= |lines|
  {
    && |js| == |stack| && Increasing(js)
    && (forall m :: 0 <= m < |js| ==> js[m] < i && stack[m] == (lines[js[m]].indent, lines[js[m]].key))
    && (forall j: nat :: j in js <==> IsOpen(lines, j, i))
  }

  /** The stacked indents are strictly increasing. */
  lemma StackIndentsIncrease(lines: seq<Line>, i: nat, js: seq<nat>, stack: seq<(nat, string)>)
    requires i <= |lines| && StackIs(lines, i, js, stack)
    ensures forall m, n :: 0 <= m < n < |stack| ==> stack[m].0 < stack[n].0
  {
    forall m, n | 0 <= m < n < |stack|
      ensures stack[m].0 < stack[n].0
    {
      assert js[m] in js && js[n] in js;
      assert IsOpen(lines, js[m], i) && js[m] < js[n] < i;
    }
  }

  lemma {:induction false} EnclosingIsIncreasing(lines: seq<Line>, i: nat, n: nat)
    requires n <= i < |lines|
    ensures Increasing(Enclosing(lines, i, n))
    ensures forall j: nat :: j in Enclosing(lines, i, n) <==> j < n && Encloses(lines, j, i)
  {
    if n > 0 {
      EnclosingIsIncreasing(lines, i, n - 1);
    }
  }

  /** A set of numbers has one increasing enumeration. */
  lemma {:induction false} IncreasingIsUnique(a: seq<nat>, b: seq<nat>)
    requires Increasing(a) && Increasing(b) && forall j: nat :: j in a <==> j in b
    ensures a == b
    decreases |a|
  {
    SameEmptiness(a, b);
    if a != [] {
      var x, y := |a| - 1, |b| - 1;
      assert a[x] in b && b[y] in a;
      assert a[x] == b[y];
      forall j: nat
        ensures j in a[..x] <==> j in b[..y]
      {
        assert j in a[..x] <==> j in a && j != a[x];
        assert j in b[..y] <==> j in b && j != b[y];
      }
      IncreasingIsUnique(a[..x], b[..y]);
      assert a == a[..x] + [a[x]] && b == b[..y] + [b[y]];
    }
  }

  lemma SameEmptiness(a: seq<nat>, b: seq<nat>)
    requires forall j: nat :: j in a <==> j in b
    ensures a == [] <==> b == []
  {
    assert a != [] ==> a[0] in a;
    assert b != [] ==> b[0] in b;
  }

  /** The entries that survive the pops for a line of this indent. */
  ghost predicate Popped(stack: seq<(nat, string)>, indent: nat, n: nat) {
    && n <= |stack|
    && (n > 0 ==> stack[n - 1].0 < indent)
    && forall m :: n <= m < |stack| ==> stack[m].0 >= indent
  }

  lemma SurvivorsEnclose(lines: seq<Line>, i: nat, js: seq<nat>, stack: seq<(nat, string)>, n: nat, j: nat)
    requires i < |lines| && StackIs(lines, i, js, stack) && Popped(stack, lines[i].indent, n)
    ensures j in js[..n] <==> Encloses(lines, j, i)
  {
    if j in js[..n] {
      var m :| 0 <= m < n && js[m] == j;
      StackIndentsIncrease(lines, i, js, stack);
      assert stack[m].0 <= stack[n - 1].0;
      assert j in js;
    }
    if Encloses(lines, j, i) {
      assert j in js;
      var m :| 0 <= m < |js| && js[m] == j;
      assert stack[m].0 < lines[i].indent;
      assert js[..n][m] == j;
    }
  }

  /** After the pops for line `i`, the stack holds exactly the lines that enclose it. */
  lemma PoppedIsEnclosing(lines: seq<Line>, i: nat, js: seq<nat>, stack: seq<(nat, string)>, n: nat)
    requires i < |lines| && StackIs(lines, i, js, stack) && Popped(stack, lines[i].indent, n)
    ensures js[..n] == Enclosing(lines, i, i)
  {
    EnclosingIsIncreasing(lines, i, i);
    var kept, all := js[..n], Enclosing(lines, i, i);
    forall j: nat
      ensures j in kept <==> j in all
    {
      SurvivorsEnclose(lines, i, js, stack, n, j);
    }
    IncreasingIsUnique(kept, all);
  }

  function Pushed(stack: seq<(nat, string)>, n: nat, line: Line): seq<(nat, string)>
    requires n <= |stack|
  {
    stack[..n] + (if line.value == "" then [(line.indent, line.key)] else [])
  }

  ghost function PushedIndex(js: seq<nat>, n: nat, line: Line, i: nat): seq<nat>
    requires n <= |js|
  {
    js[..n] + (if line.value == "" then [i] else [])
  }

  /** The stack for the next line. */
  lemma StackAdvances(lines: seq<Line>, i: nat, js: seq<nat>, stack: seq<(nat, string)>, n: nat)
    requires i < |lines| && StackIs(lines, i, js, stack) && n <= |stack| && js[..n] == Enclosing(lines, i, i)
    ensures StackIs(lines, i + 1, PushedIndex(js, n, lines[i], i), Pushed(stack, n, lines[i]))
  {
    IndexAdvances(lines, i, js, n);
  }

  lemma IndexAdvances(lines: seq<Line>, i: nat, js: seq<nat>, n: nat)
    requires i < |lines| && n <= |js| && js[..n] == Enclosing(lines, i, i)
    ensures Increasing(PushedIndex(js, n, lines[i], i))
    ensures forall j: nat :: j in PushedIndex(js, n, lines[i], i) <==> IsOpen(lines, j, i + 1)
  {
    var js' := PushedIndex(js, n, lines[i], i);
    EnclosingIsIncreasing(lines, i, i);
    forall j: nat
      ensures j in js' <==> IsOpen(lines, j, i + 1)
    {
      OpenAdvances(lines, i, j);
    }
  }

  lemma OpenAdvances(lines: seq<Line>, i: nat, j: nat)
    requires i < |lines|
    ensures IsOpen(lines, j, i + 1) <==> Encloses(lines, j, i) || (j == i && lines[i].value == "")
  {
    if j < i && IsOpen(lines, j, i + 1) {
      assert lines[i].indent > lines[j].indent;
    }
  }

  /** The `while` loop that pops the stack; the result is how many entries are left. */
  method PopTo(stack: seq<(nat, string)>, indent: nat) returns (n: nat)
    ensures Popped(stack, indent, n)
  {
    n := |stack|;
    while n > 0 && stack[n - 1].0 >= indent
      invariant 0 <= n <= |stack|
      invariant forall m :: n <= m < |stack| ==> stack[m].0 >= indent
    {
      n := n - 1;
    }
  }

  function StackKeys(stack: seq<(nat, string)>): seq<string> {
    seq(|stack|, m requires 0 <= m < |stack| => stack[m].1)
  }

  lemma StackGivesPath(lines: seq<Line>, i: nat, js: seq<nat>, stack: seq<(nat, string)>, n: nat)
    requires i < |lines| && StackIs(lines, i, js, stack) && n <= |stack| && js[..n] == Enclosing(lines, i, i)
    ensures StackKeys(stack[..n]) + [lines[i].key] == PathOf(lines, i)
  {}

  function Assigned(stack: seq<(nat, string)>, n: nat, line: Line): seq<(seq<string>, string)>
    requires n <= |stack|
  {
    if line.value != "" then [(StackKeys(stack[..n]) + [line.key], line.value)] else []
  }

  /** One line of the loop. */
  lemma LineIsRead(lines: seq<Line>, i: nat, js: seq<nat>, stack: seq<(nat, string)>, n: nat)
    requires i < |lines| && StackIs(lines, i, js, stack) && Popped(stack, lines[i].indent, n)
    ensures StackIs(lines, i + 1, PushedIndex(js, n, lines[i], i), Pushed(stack, n, lines[i]))
    ensures Scalars(lines, i + 1) == Scalars(lines, i) + Assigned(stack, n, lines[i])
  {
    PoppedIsEnclosing(lines, i, js, stack, n);
    StackAdvances(lines, i, js, stack, n);
    StackGivesPath(lines, i, js, stack, n);
  }

  /** `mapping_scalars`: every scalar is given exactly the chain of keys that enclose it. */
  method MappingScalars(lines: seq<Line>) returns (assignments: seq<(seq<string>, string)>)
    ensures assignments == Scalars(lines, |lines|)
  {
    var stack: seq<(nat, string)> := [];
    assignments := [];
    ghost var js: seq<nat> := [];
    for i := 0 to |lines|
      invariant assignments == Scalars(lines, i)
      invariant StackIs(lines, i, js, stack)
    {
      var n := PopTo(stack, lines[i].indent);
      LineIsRead(lines, i, js, stack, n);
      assignments := assignments + Assigned(stack, n, lines[i]);
      js := PushedIndex(js, n, lines[i], i);
      stack := Pushed(stack, n, lines[i]);
    }
  }
}
