/** Reachability in a directed graph: the reference definition for both worklist searches. */
module Reachability {

  /** `p` starts at a root and follows edges. */
  ghost predicate IsPath<T(!new)>(roots: set<T>, succ: T -> set<T>, p: seq<T>) {
    && p != [] && p[0] in roots
    && forall i :: 0 <= i < |p| - 1 ==> p[i + 1] in succ(p[i])
  }

  ghost predicate Reachable<T(!new)>(roots: set<T>, succ: T -> set<T>, x: T) {
    exists p :: IsPath(roots, succ, p) && p[|p| - 1] == x
  }

  ghost predicate Closed<T(!new)>(roots: set<T>, succ: T -> set<T>, s: set<T>) {
    roots <= s && forall x :: x in s ==> succ(x) <= s
  }

  lemma RootIsReachable<T(!new)>(roots: set<T>, succ: T -> set<T>, x: T)
    requires x in roots
    ensures Reachable(roots, succ, x)
  {
    assert IsPath(roots, succ, [x]);
  }

  lemma EdgeIsReachable<T(!new)>(roots: set<T>, succ: T -> set<T>, x: T, y: T)
    requires Reachable(roots, succ, x) && y in succ(x)
    ensures Reachable(roots, succ, y)
  {
    var p :| IsPath(roots, succ, p) && p[|p| - 1] == x;
    var q := p + [y];
    assert forall i :: 0 <= i < |q| - 1 ==> q[i + 1] in succ(q[i]);
    assert IsPath(roots, succ, q);
  }

  /** A closed set contains everything reachable, so a closed set of reachable nodes is the
      least closed set. */
  lemma ReachableIsInClosed<T(!new)>(roots: set<T>, succ: T -> set<T>, s: set<T>, x: T)
    requires Closed(roots, succ, s) && Reachable(roots, succ, x)
    ensures x in s
  {
    var p :| IsPath(roots, succ, p) && p[|p| - 1] == x;
    PathStaysInClosed(roots, succ, s, p, |p| - 1);
  }

  lemma {:induction false} PathStaysInClosed<T(!new)>(roots: set<T>, succ: T -> set<T>, s: set<T>, p: seq<T>, i: nat)
    requires Closed(roots, succ, s) && IsPath(roots, succ, p) && i < |p|
    ensures p[i] in s
  {
    if i > 0 {
      PathStaysInClosed(roots, succ, s, p, i - 1);
      assert p[(i - 1) + 1] in succ(p[i - 1]);
    }
  }

  // ---- a worklist of nodes ----

  /** Everything met is reachable, and everything one step from a seen node has been met. */
  ghost predicate Searching<T(!new)>(roots: set<T>, succ: T -> set<T>, seen: set<T>, pending: set<T>) {
    && (forall x :: x in seen || x in pending ==> Reachable(roots, succ, x))
    && (forall x :: x in roots ==> x in seen || x in pending)
    && (forall x, y :: x in seen && y in succ(x) ==> y in seen || y in pending)
  }

  lemma SearchBegins<T(!new)>(roots: set<T>, succ: T -> set<T>)
    ensures Searching(roots, succ, {}, roots)
  {
    forall x | x in roots
      ensures Reachable(roots, succ, x)
    {
      RootIsReachable(roots, succ, x);
    }
  }

  lemma SearchDrops<T(!new)>(roots: set<T>, succ: T -> set<T>, seen: set<T>, pending: set<T>, x: T)
    requires Searching(roots, succ, seen, pending) && x in pending && x in seen
    ensures Searching(roots, succ, seen, pending - {x}) && |pending - {x}| < |pending|
  {}

  lemma LessUnseen<T(!new)>(nodes: set<T>, seen: set<T>, x: T)
    requires x in nodes && x !in seen
    ensures |nodes - (seen + {x})| < |nodes - seen|
  {
    assert nodes - (seen + {x}) == (nodes - seen) - {x};
  }

  /** Visiting a pending node adds its successors. */
  lemma SearchVisits<T(!new)>(roots: set<T>, succ: T -> set<T>, seen: set<T>, pending: set<T>, x: T, rest: set<T>)
    requires Searching(roots, succ, seen, pending) && x in pending
    requires rest == (pending - {x}) + (succ(x) - (seen + {x}))
    ensures Searching(roots, succ, seen + {x}, rest)
  {
    forall y | y in succ(x)
      ensures Reachable(roots, succ, y)
    {
      EdgeIsReachable(roots, succ, x, y);
    }
  }

  /** With nothing pending, exactly the reachable nodes have been seen. */
  lemma SearchEnds<T(!new)>(roots: set<T>, succ: T -> set<T>, seen: set<T>)
    requires Searching(roots, succ, seen, {})
    ensures forall x :: x in seen <==> Reachable(roots, succ, x)
  {
    forall x | Reachable(roots, succ, x)
      ensures x in seen
    {
      assert Closed(roots, succ, seen);
      ReachableIsInClosed(roots, succ, seen, x);
    }
  }

  /** A graph with fewer edges, but all of those at reachable nodes, reaches the same nodes. */
  lemma SubgraphReachesTheSame<T(!new)>(roots: set<T>, succ: T -> set<T>, sub: T -> set<T>, x: T)
    requires forall y :: sub(y) <= succ(y)
    requires forall y :: Reachable(roots, succ, y) ==> sub(y) == succ(y)
    ensures Reachable(roots, sub, x) <==> Reachable(roots, succ, x)
  {
    if Reachable(roots, sub, x) {
      var p :| IsPath(roots, sub, p) && p[|p| - 1] == x;
      assert forall i :: 0 <= i < |p| - 1 ==> p[i + 1] in sub(p[i]);
      assert IsPath(roots, succ, p);
    }
    if Reachable(roots, succ, x) {
      var p :| IsPath(roots, succ, p) && p[|p| - 1] == x;
      forall i | 0 <= i < |p| - 1
        ensures p[i + 1] in sub(p[i])
      {
        var q := p[..i + 1];
        assert IsPath(roots, succ, q) && q[|q| - 1] == p[i];
        assert Reachable(roots, succ, p[i]);
        assert p[i + 1] in succ(p[i]);
      }
      assert IsPath(roots, sub, p);
    }
  }
}
