/** How long undeployed changes have been on main (scripts/clawdi-deployment-lag.ts): the walk
    over first-parent history that skips commits by the footprint of the deployed commit. */
module DeploymentLag {
  import opened Common
  import opened RevisionProgram
  import opened ImageRevisions

  /** A commit after the deployed one: its tree, the paths `git diff --name-only` lists against
      its first parent, and its committer time in seconds. */
  datatype Commit = Commit(files: Files, listed: set<string>, time: int)

  /** The deployed tree and the first-parent commits from it to HEAD. */
  datatype History = History(deployed: Files, commits: seq<Commit>)

  datatype Lag =
    | UpToDate
    | Behind(commit: nat, ageSeconds: nat)
    | CannotCompare
    | NoEvidence

  function Head(h: History): Files {
    if h.commits == [] then h.deployed else h.commits[|h.commits| - 1].files
  }

  /** The tree after the first `i` commits. */
  function Tree(h: History, i: nat): Files
    requires i <= |h.commits|
  {
    if i == 0 then h.deployed else h.commits[i - 1].files
  }

  function Age(now: int, time: int): nat {
    if now > time then now - time else 0
  }

  predicate Touches(fp: Footprint, listed: set<string>) {
    exists p :: p in listed && Covered(fp, p)
  }

  type Outcome = Result<Revisions, Failure>

  /** How each commit evaluates. */
  function Outcomes(v: Reviser, h: History): (outs: seq<Outcome>)
    ensures |outs| == |h.commits|
    ensures forall i :: 0 <= i < |outs| ==> outs[i] == Evaluate(v, h.commits[i].files)
  {
    seq(|h.commits|, i requires 0 <= i < |h.commits| => Evaluate(v, h.commits[i].files))
  }

  /** The walk that evaluates every commit. */
  function FullWalk(outs: seq<Outcome>, h: History, now: int, base: Revisions, i: nat): Lag
    requires i <= |outs| == |h.commits|
    decreases |outs| - i
  {
    if i == |outs| then NoEvidence
    else if outs[i].Err? then CannotCompare
    else if ReleaseRequired(base, outs[i].value) then Behind(i, Age(now, h.commits[i].time))
    else FullWalk(outs, h, now, base, i + 1)
  }

  /** The reference: `deploymentLag` without the filter. */
  function FullLag(v: Reviser, h: History, now: int): Lag {
    var base := Evaluate(v, h.deployed);
    var head := Evaluate(v, Head(h));
    if base.Err? || head.Err? then CannotCompare
    else if !ReleaseRequired(base.value, head.value) then UpToDate
    else FullWalk(Outcomes(v, h), h, now, base.value, 0)
  }

  /** The walk that skips commits whose listing is not covered. */
  function FilteredWalk(outs: seq<Outcome>, fp: Footprint, h: History, now: int, base: Revisions, i: nat): Lag
    requires i <= |outs| == |h.commits|
    decreases |outs| - i
  {
    if i == |outs| then NoEvidence
    else if !Touches(fp, h.commits[i].listed) then FilteredWalk(outs, fp, h, now, base, i + 1)
    else if outs[i].Err? then CannotCompare
    else if ReleaseRequired(base, outs[i].value) then Behind(i, Age(now, h.commits[i].time))
    else FilteredWalk(outs, fp, h, now, base, i + 1)
  }

  function FilteredLag(v: Reviser, h: History, now: int): Lag {
    var base := Evaluate(v, h.deployed);
    var head := Evaluate(v, Head(h));
    if base.Err? || head.Err? then CannotCompare
    else if !ReleaseRequired(base.value, head.value) then UpToDate
    else FilteredWalk(Outcomes(v, h), RunOn(v.steps, h.deployed).seen, h, now, base.value, 0)
  }

  /** `deploymentLag`, on any history. */
  method ComputeLag(v: Reviser, h: History, now: int) returns (lag: Lag)
    ensures lag == FilteredLag(v, h, now)
  {
    var recorder := new Recorder(h.deployed);
    var base := recorder.Evaluate(v.steps);
    if base.Err? {
      return CannotCompare;
    }
    var fp := Footprint(recorder.paths, recorder.roots);
    var baseRevisions := v.finish(base.value);
    var head := Evaluate(v, Head(h));
    if head.Err? {
      return CannotCompare;
    }
    if !ReleaseRequired(baseRevisions, head.value) {
      return UpToDate;
    }
    ghost var outs := Outcomes(v, h);
    for i := 0 to |h.commits|
      invariant FilteredLag(v, h, now) == FilteredWalk(outs, fp, h, now, baseRevisions, i)
    {
      if !Touches(fp, h.commits[i].listed) {
        continue;
      }
      var r := Evaluate(v, h.commits[i].files);
      if r.Err? {
        return CannotCompare;
      }
      if ReleaseRequired(baseRevisions, r.value) {
        return Behind(i, Age(now, h.commits[i].time));
      }
    }
    return NoEvidence;
  }

  // ---- skipping loses nothing ----

  /** The hypothesis on the listings: a commit that changes a covered file lists some covered
      path. A complete listing of the changed paths satisfies it. */
  ghost predicate ListingsSuffice(fp: Footprint, h: History) {
    forall i: nat :: i < |h.commits| && !AgreeOnCovered(fp, Tree(h, i), Tree(h, i + 1)) ==>
      Touches(fp, h.commits[i].listed)
  }

  predicate Changed(s: Files, t: Files, p: string) {
    !((p in s <==> p in t) && (p in s ==> s[p] == t[p]))
  }

  /** Complete listings: every path whose content changed is listed. */
  ghost predicate ListingsAreComplete(h: History) {
    forall i: nat, p :: i < |h.commits| && Changed(Tree(h, i), Tree(h, i + 1), p) ==> p in h.commits[i].listed
  }

  ghost predicate NoFileAtRoot(fp: Footprint, h: History) {
    forall i: nat :: i <= |h.commits| ==> RootsAreDirectories(fp, Tree(h, i))
  }

  lemma CompleteListingsSuffice(fp: Footprint, h: History)
    requires ListingsAreComplete(h)
    ensures ListingsSuffice(fp, h)
  {
    forall i: nat | i < |h.commits| && !AgreeOnCovered(fp, Tree(h, i), Tree(h, i + 1))
      ensures Touches(fp, h.commits[i].listed)
    {
      var s, t := Tree(h, i), Tree(h, i + 1);
      var p :| Covered(fp, p) && Changed(s, t, p);
      assert p in h.commits[i].listed;
    }
  }

  /** A skipped commit evaluates as its parent does. */
  lemma SkippedChangesNothing(v: Reviser, h: History, i: nat)
    requires SelfContained(v.steps) && Evaluate(v, h.deployed).Ok? && i < |h.commits|
    requires
      var fp := RunOn(v.steps, h.deployed).seen;
      ListingsSuffice(fp, h) && NoFileAtRoot(fp, h) && !Touches(fp, h.commits[i].listed)
    ensures Evaluate(v, Tree(h, i + 1)) == Evaluate(v, Tree(h, i))
  {
    RevisionsDependOnFootprint(v, h.deployed, Tree(h, i), Tree(h, i + 1));
  }

  /** The `j`-th commit is not skipped, or evaluates as its parent does. */
  predicate Steady(outs: seq<Outcome>, fp: Footprint, h: History, base: Revisions, j: nat)
    requires j < |outs| == |h.commits|
  {
    Touches(fp, h.commits[j].listed) || outs[j] == (if j == 0 then Ok(base) else outs[j - 1])
  }

  /** Skipping is harmless when a skipped commit evaluates as its parent does. */
  lemma {:induction false} SkippingLosesNothing(
      outs: seq<Outcome>, fp: Footprint, h: History, now: int, base: Revisions, i: nat)
    requires i <= |outs| == |h.commits|
    requires forall j: nat :: j < |outs| ==> Steady(outs, fp, h, base, j)
    requires i > 0 ==> outs[i - 1] == Ok(base)
    ensures FilteredWalk(outs, fp, h, now, base, i) == FullWalk(outs, h, now, base, i)
    decreases |outs| - i
  {
    if i < |outs| {
      assert Steady(outs, fp, h, base, i);
    }
    if i < |outs| && outs[i] == Ok(base) {
      SkippingLosesNothing(outs, fp, h, now, base, i + 1);
    }
  }

  /** On a first-parent history whose listings suffice, failing evaluations included, the walk
      with the filter returns what evaluating every commit returns. */
  lemma FilterRefinesFullWalk(v: Reviser, h: History, now: int)
    requires SelfContained(v.steps)
    requires Evaluate(v, h.deployed).Ok? ==>
      var fp := RunOn(v.steps, h.deployed).seen;
      ListingsSuffice(fp, h) && NoFileAtRoot(fp, h)
    ensures FilteredLag(v, h, now) == FullLag(v, h, now)
  {
    var base := Evaluate(v, h.deployed);
    if base.Ok? {
      var outs, fp := Outcomes(v, h), RunOn(v.steps, h.deployed).seen;
      forall j: nat | j < |outs|
        ensures Steady(outs, fp, h, base.value, j)
      {
        if !Touches(fp, h.commits[j].listed) {
          SkippedChangesNothing(v, h, j);
        }
      }
      SkippingLosesNothing(outs, fp, h, now, base.value, 0);
    }
  }

  // ---- what the full walk returns ----

  /** Up to the `k`-th commit from the `i`-th, nothing differs from the base. */
  ghost predicate Unchanged(outs: seq<Outcome>, base: Revisions, i: nat, k: nat)
    requires k <= |outs|
  {
    forall j :: i <= j < k ==> outs[j] == Ok(base)
  }

  lemma {:induction false} FullWalkFindsFirst(outs: seq<Outcome>, h: History, now: int, base: Revisions, i: nat)
    requires i <= |outs| == |h.commits|
    requires forall j :: i <= j < |outs| ==> outs[j].Ok?
    ensures
      match FullWalk(outs, h, now, base, i)
      case Behind(k, age) =>
        && i <= k < |outs| && outs[k] != Ok(base) && Unchanged(outs, base, i, k)
        && age == Age(now, h.commits[k].time)
      case NoEvidence => Unchanged(outs, base, i, |outs|)
      case _ => false
    decreases |outs| - i
  {
    if i < |outs| && outs[i].value == base {
      FullWalkFindsFirst(outs, h, now, base, i + 1);
    }
  }

  /** When every tree can be evaluated, the lag is none exactly when HEAD has the deployed
      revisions, and otherwise names the first commit whose revisions differ from the deployed
      ones; the "no main commit evidence" error is never reached. */
  lemma LagIsEarliestChange(v: Reviser, h: History, now: int, base: Revisions)
    requires Evaluate(v, h.deployed) == Ok(base)
    requires forall i :: 0 <= i < |h.commits| ==> Evaluate(v, h.commits[i].files).Ok?
    ensures
      match FullLag(v, h, now)
      case UpToDate => Evaluate(v, Head(h)) == Ok(base)
      case Behind(k, age) =>
        && Evaluate(v, Head(h)) != Ok(base)
        && k < |h.commits|
        && (if h.commits[k].time < now then age == now - h.commits[k].time else age == 0)
        && Evaluate(v, h.commits[k].files) != Ok(base)
        && forall j :: 0 <= j < k ==> Evaluate(v, h.commits[j].files) == Ok(base)
      case _ => false
  {
    var outs := Outcomes(v, h);
    FullWalkFindsFirst(outs, h, now, base, 0);
    if h.commits != [] {
      assert Evaluate(v, Head(h)) == outs[|outs| - 1];
    }
    if FullLag(v, h, now).Behind? {
      var k := FullLag(v, h, now).commit;
      forall j | 0 <= j < k
        ensures Evaluate(v, h.commits[j].files) == Ok(base)
      {
        assert outs[j] == Ok(base);
      }
    }
  }

  /** The same of `deploymentLag` itself, for the image revisions and complete listings. */
  lemma ImageLagIsEarliestChange(x: Externals, h: History, now: int, base: Revisions)
    requires Evaluate(ImageReviser(x), h.deployed) == Ok(base)
    requires forall i :: 0 <= i < |h.commits| ==> Evaluate(ImageReviser(x), h.commits[i].files).Ok?
    requires ListingsAreComplete(h) && NoFileAtRoot(RunOn(Program(x), h.deployed).seen, h)
    ensures
      match FilteredLag(ImageReviser(x), h, now)
      case UpToDate => Evaluate(ImageReviser(x), Head(h)) == Ok(base)
      case Behind(k, age) =>
        && Evaluate(ImageReviser(x), Head(h)) != Ok(base)
        && k < |h.commits|
        && (if h.commits[k].time < now then age == now - h.commits[k].time else age == 0)
        && Evaluate(ImageReviser(x), h.commits[k].files) != Ok(base)
        && forall j :: 0 <= j < k ==> Evaluate(ImageReviser(x), h.commits[j].files) == Ok(base)
      case _ => false
  {
    ProgramIsSelfContained(x);
    CompleteListingsSuffice(RunOn(Program(x), h.deployed).seen, h);
    FilterRefinesFullWalk(ImageReviser(x), h, now);
    LagIsEarliestChange(ImageReviser(x), h, now, base);
  }

  lemma {:induction false} FilteredWalkSkips(
      outs: seq<Outcome>, fp: Footprint, h: History, now: int, base: Revisions, i: nat, k: nat)
    requires i <= k < |outs| == |h.commits| && Unchanged(outs, base, i, k) && outs[k] != Ok(base) && outs[k].Ok?
    ensures FilteredWalk(outs, fp, h, now, base, i) == Behind(k, Age(now, h.commits[k].time)) <==>
      Touches(fp, h.commits[k].listed)
    decreases k - i
  {
    if i < k {
      FilteredWalkSkips(outs, fp, h, now, base, i + 1, k);
    } else if !Touches(fp, h.commits[k].listed) {
      FilteredWalkIsLater(outs, fp, h, now, base, k + 1);
    }
  }

  lemma {:induction false} FilteredWalkIsLater(
      outs: seq<Outcome>, fp: Footprint, h: History, now: int, base: Revisions, i: nat)
    requires i <= |outs| == |h.commits|
    ensures FilteredWalk(outs, fp, h, now, base, i).Behind? ==> FilteredWalk(outs, fp, h, now, base, i).commit >= i
    decreases |outs| - i
  {
    if i < |outs| {
      FilteredWalkIsLater(outs, fp, h, now, base, i + 1);
    }
  }

  /** Exactly when the filter finds the earliest change: when that commit's own listing names a
      covered path. */
  lemma EarliestChangeIsFoundExactlyWhenListed(v: Reviser, h: History, now: int, base: Revisions, k: nat)
    requires Evaluate(v, h.deployed) == Ok(base) && k < |h.commits|
    requires Evaluate(v, Head(h)).Ok? && Evaluate(v, Head(h)) != Ok(base)
    requires Evaluate(v, h.commits[k].files).Ok? && Evaluate(v, h.commits[k].files) != Ok(base)
    requires forall j :: 0 <= j < k ==> Evaluate(v, h.commits[j].files) == Ok(base)
    ensures FilteredLag(v, h, now) == Behind(k, Age(now, h.commits[k].time)) <==>
      Touches(RunOn(v.steps, h.deployed).seen, h.commits[k].listed)
  {
    FilteredWalkSkips(Outcomes(v, h), RunOn(v.steps, h.deployed).seen, h, now, base, 0, k);
  }
}
