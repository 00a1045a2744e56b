/** Choosing the release an update feed points at, and the guard against moving it back
    (apps/desktop/src/update-rollout.ts). */
module FeedRollout {
  import opened Common

  /** `x.y.z` or `x.y.z-beta.n`. */
  datatype Version = Version(major: nat, minor: nat, patch: nat, beta: Option<nat>)

  /** Precedence of section 11 of Semantic Versioning 2.0.0: a pre-release is below its release. */
  predicate Below(a: Version, b: Version) {
    if a.major != b.major then a.major < b.major
    else if a.minor != b.minor then a.minor < b.minor
    else if a.patch != b.patch then a.patch < b.patch
    else a.beta.Some? && (b.beta.None? || a.beta.value < b.beta.value)
  }

  lemma BelowIsStrictTotal(a: Version, b: Version, c: Version)
    ensures !Below(a, a)
    ensures a != b ==> Below(a, b) != Below(b, a)
    ensures Below(a, b) && Below(b, c) ==> Below(a, c)
  {}

  /** The identifiers that section 11 compares, from left to right: the three numbers, whether it is
      a release, and the number of the beta. */
  function Identifiers(v: Version): seq<nat> {
    [v.major, v.minor, v.patch] + (if v.beta.None? then [1] else [0, v.beta.value])
  }

  /** The first place where two sequences of identifiers differ decides. */
  ghost predicate DecidedAt(a: seq<nat>, b: seq<nat>, i: nat) {
    i < |a| && i < |b| && a[i] < b[i] && forall j :: 0 <= j < i ==> a[j] == b[j]
  }

  /** So the order is precedence: a larger major beats any minor and patch, a larger minor any patch,
      a release its betas, and a later beta an earlier one. */
  lemma PrecedenceIsLeftToRight(a: Version, b: Version)
    ensures Below(a, b) <==> exists i: nat :: DecidedAt(Identifiers(a), Identifiers(b), i)
    ensures a.major < b.major ==> Below(a, b)
    ensures a.major == b.major && a.minor < b.minor ==> Below(a, b)
    ensures Below(a.(beta := Some(1)), a.(beta := Some(2))) && Below(a.(beta := Some(2)), a.(beta := None))
  {
    var x, y := Identifiers(a), Identifiers(b);
    if a.major != b.major {
      assert x[0] != y[0] && forall i: nat :: DecidedAt(x, y, i) ==> i == 0;
      assert DecidedAt(x, y, 0) <==> a.major < b.major;
    } else if a.minor != b.minor {
      assert x[1] != y[1] && forall i: nat :: DecidedAt(x, y, i) ==> i == 1;
      assert DecidedAt(x, y, 1) <==> a.minor < b.minor;
    } else if a.patch != b.patch {
      assert x[2] != y[2] && forall i: nat :: DecidedAt(x, y, i) ==> i == 2;
      assert DecidedAt(x, y, 2) <==> a.patch < b.patch;
    } else if a.beta.None? != b.beta.None? {
      assert x[3] != y[3] && forall i: nat :: DecidedAt(x, y, i) ==> i == 3;
      assert DecidedAt(x, y, 3) <==> b.beta.None?;
    } else if a.beta.Some? {
      assert forall i: nat :: DecidedAt(x, y, i) ==> i == 4;
      assert DecidedAt(x, y, 4) <==> a.beta.value < b.beta.value;
    }
  }

  datatype Channel = Stable | Beta

  /** A release as the feed reads it: the version of its tag if it is a desktop tag, and the
      fields that may be missing or of another type. */
  datatype Release = Release(
    version: Option<Version>, draft: Option<bool>, prerelease: Option<bool>, publishedAt: Option<int>)

  const DAY_MS := 24 * 60 * 60_000

  predicate OnChannel(r: Release, channel: Channel, paused: set<Version>) {
    && r.version.Some? && r.draft == Some(false) && r.prerelease == Some(channel.Beta?)
    && r.version.value.beta.Some? == channel.Beta?
    && r.version.value !in paused
  }

  /** A stable release needs a publication time. */
  predicate Undated(r: Release, channel: Channel, paused: set<Version>) {
    OnChannel(r, channel, paused) && channel.Stable? && r.publishedAt.None?
  }

  predicate Candidate(r: Release, channel: Channel, now: int, paused: set<Version>) {
    && OnChannel(r, channel, paused)
    && (channel.Stable? ==> r.publishedAt.Some? && now - r.publishedAt.value >= DAY_MS)
  }

  datatype Selection = Selection(release: Release, version: Version, staging: Option<nat>)

  function Selected(r: Release, channel: Channel, now: int): Selection
    requires r.version.Some?
  {
    Selection(r, r.version.value,
      if channel.Stable? && r.publishedAt.Some? && now - r.publishedAt.value < 2 * DAY_MS then Some(25) else None)
  }

  /** The first of the candidates with the highest version. */
  function Best(rs: seq<Release>, channel: Channel, now: int, paused: set<Version>): (best: Option<Release>)
    ensures best.Some? ==> best.value in rs && Candidate(best.value, channel, now, paused)
  {
    if rs == [] then None
    else
      var front := Best(rs[..|rs| - 1], channel, now, paused);
      var r := rs[|rs| - 1];
      if !Candidate(r, channel, now, paused) then front
      else if front.Some? && !Below(front.value.version.value, r.version.value) then front
      else Some(r)
  }

  /** `selectDesktopUpdateRelease`; it throws when a stable candidate has no publication time. */
  function Select(rs: seq<Release>, channel: Channel, now: int, paused: set<Version>): Result<Option<Selection>, ()> {
    if exists r :: r in rs && Undated(r, channel, paused) then Err(())
    else
      var best := Best(rs, channel, now, paused);
      Ok(if best.None? then None else Some(Selected(best.value, channel, now)))
  }

  /** `assertDesktopFeedDoesNotRegress`: true when it does not throw. */
  predicate Accepts(previous: Option<Version>, next: Option<Version>, paused: set<Version>) {
    previous.None? || previous.value in paused || (next.Some? && !Below(next.value, previous.value))
  }

  /** When there is any candidate, one is chosen, and no candidate is above the choice. */
  lemma {:induction false} BestIsHighest(rs: seq<Release>, channel: Channel, now: int, paused: set<Version>, r: Release)
    requires r in rs && Candidate(r, channel, now, paused)
    ensures
      var best := Best(rs, channel, now, paused);
      best.Some? && !Below(best.value.version.value, r.version.value)
  {
    var n := |rs| - 1;
    var front, last := rs[..n], rs[n];
    var best := Best(front, channel, now, paused);
    if r in front {
      BestIsHighest(front, channel, now, paused, r);
      if Candidate(last, channel, now, paused) {
        BelowIsStrictTotal(best.value.version.value, last.version.value, r.version.value);
        BelowIsStrictTotal(last.version.value, r.version.value, best.value.version.value);
      }
    } else {
      assert r == last;
      BelowIsStrictTotal(r.version.value, r.version.value, r.version.value);
    }
  }

  /** What a selection is: an eligible release of the feed, staged to a quarter of the users for
      its second day and to nobody before. */
  lemma SelectionIsEligible(rs: seq<Release>, channel: Channel, now: int, paused: set<Version>, sel: Selection)
    requires Select(rs, channel, now, paused) == Ok(Some(sel))
    ensures sel.release in rs && Some(sel.version) == sel.release.version && sel.version !in paused
    ensures sel.release.draft == Some(false) && sel.release.prerelease == Some(channel.Beta?)
    ensures channel.Beta? ==> sel.staging.None?
    ensures channel.Stable? ==>
      && sel.release.publishedAt.Some? && now - sel.release.publishedAt.value >= 24 * 3_600_000
      && sel.staging == (if now - sel.release.publishedAt.value < 48 * 3_600_000 then Some(25) else None)
  {}

  /** A published release of the channel that is not paused: a stable one without a beta number and a
      day old, or a pre-release with one. */
  predicate IsEligible(r: Release, channel: Channel, now: int, paused: set<Version>) {
    && r.version.Some? && r.version.value !in paused && r.draft == Some(false)
    && match channel
       case Stable =>
         && r.prerelease == Some(false) && r.version.value.beta.None?
         && r.publishedAt.Some? && r.publishedAt.value + 86_400_000 <= now
       case Beta => r.prerelease == Some(true) && r.version.value.beta.Some?
  }

  predicate CountsUndated(r: Release, paused: set<Version>) {
    && r.version.Some? && r.version.value.beta.None? && r.version.value !in paused
    && r.draft == r.prerelease == Some(false) && r.publishedAt.None?
  }

  /** The choice is the first release of the highest eligible version; there is none exactly when
      nothing is eligible, and the selection throws exactly when a stable release that could count
      has no date. */
  lemma SelectsTheHighest(rs: seq<Release>, channel: Channel, now: int, paused: set<Version>)
    ensures Select(rs, channel, now, paused).Err? <==>
      channel.Stable? && exists r :: r in rs && CountsUndated(r, paused)
    ensures Select(rs, channel, now, paused).Ok? ==>
      match Select(rs, channel, now, paused).value
      case None => forall r :: r in rs ==> !IsEligible(r, channel, now, paused)
      case Some(sel) => IsChosen(rs, channel, now, paused, sel.release)
  {
    forall r
      ensures Candidate(r, channel, now, paused) <==> IsEligible(r, channel, now, paused)
    {
    }
    forall r
      ensures Undated(r, channel, paused) <==> channel.Stable? && CountsUndated(r, paused)
    {
    }
    BestIsChosen(rs, channel, now, paused);
  }

  /** It stands at the `k`-th place, nothing before it is as high and nothing behind it higher. */
  ghost predicate ChosenAt(rs: seq<Release>, channel: Channel, now: int, paused: set<Version>, best: Release, k: nat) {
    && k < |rs| && rs[k] == best && IsEligible(best, channel, now, paused)
    && (forall i :: 0 <= i < k && IsEligible(rs[i], channel, now, paused) ==>
          Below(rs[i].version.value, best.version.value))
    && (forall i :: k < i < |rs| && IsEligible(rs[i], channel, now, paused) ==>
          !Below(best.version.value, rs[i].version.value))
  }

  ghost predicate IsChosen(rs: seq<Release>, channel: Channel, now: int, paused: set<Version>, best: Release) {
    exists k: nat :: ChosenAt(rs, channel, now, paused, best, k)
  }

  lemma {:induction false} BestIsChosen(rs: seq<Release>, channel: Channel, now: int, paused: set<Version>)
    ensures
      match Best(rs, channel, now, paused)
      case None => forall r :: r in rs ==> !IsEligible(r, channel, now, paused)
      case Some(best) => IsChosen(rs, channel, now, paused, best)
  {
    if rs != [] {
      var n := |rs| - 1;
      var front, last := rs[..n], rs[n];
      BestIsChosen(front, channel, now, paused);
      assert Candidate(last, channel, now, paused) <==> IsEligible(last, channel, now, paused);
      var best := Best(front, channel, now, paused);
      if best.None? {
        assert forall i :: 0 <= i < n ==> rs[i] in front;
        if Candidate(last, channel, now, paused) {
          assert Best(rs, channel, now, paused) == Some(last);
          assert ChosenAt(rs, channel, now, paused, last, n);
          assert IsChosen(rs, channel, now, paused, last);
        } else {
          assert forall r :: r in rs ==> r in front || r == last;
        }
      } else {
        var k: nat :| ChosenAt(front, channel, now, paused, best.value, k);
        LaterBest(rs, channel, now, paused, best.value, k);
      }
    }
  }

  lemma LaterBest(rs: seq<Release>, channel: Channel, now: int, paused: set<Version>, best: Release, k: nat)
    requires rs != [] && ChosenAt(rs[..|rs| - 1], channel, now, paused, best, k)
    ensures
      var last := rs[|rs| - 1];
      if IsEligible(last, channel, now, paused) && Below(best.version.value, last.version.value)
      then ChosenAt(rs, channel, now, paused, last, |rs| - 1) else ChosenAt(rs, channel, now, paused, best, k)
  {
    var n := |rs| - 1;
    var front, last := rs[..n], rs[n];
    assert forall i :: 0 <= i < n ==> front[i] == rs[i];
    if IsEligible(last, channel, now, paused) && Below(best.version.value, last.version.value) {
      forall i | 0 <= i < n && IsEligible(rs[i], channel, now, paused)
        ensures Below(rs[i].version.value, last.version.value)
      {
        BelowIsStrictTotal(rs[i].version.value, best.version.value, last.version.value);
      }
    }
  }

  /** As time passes a release stays eligible and its rollout never narrows. */
  lemma RolloutNeverNarrows(r: Release, channel: Channel, now: int, now': int, paused: set<Version>)
    requires Candidate(r, channel, now, paused) && now <= now'
    ensures Candidate(r, channel, now', paused)
    ensures Selected(r, channel, now).staging.None? ==> Selected(r, channel, now').staging.None?
  {}

  function VersionOf(s: Option<Selection>): Option<Version> {
    if s.None? then None else Some(s.value.version)
  }

  /** The releases of a later feed run: the clock has not gone back, no release was withdrawn and
      no further version paused. */
  ghost predicate Progress(rs: seq<Release>, now: int, paused: set<Version>,
                           rs': seq<Release>, now': int, paused': set<Version>) {
    now <= now' && paused' <= paused && forall r :: r in rs ==> r in rs'
  }

  /** As the feed progresses, the selected version never decreases on either channel, so the
      regression guard accepts the next selection. */
  lemma SelectionNeverDecreases(
      rs: seq<Release>, now: int, paused: set<Version>,
      rs': seq<Release>, now': int, paused': set<Version>, channel: Channel)
    requires Progress(rs, now, paused, rs', now', paused')
    requires Select(rs, channel, now, paused).Ok? && Select(rs', channel, now', paused').Ok?
    ensures
      var before := VersionOf(Select(rs, channel, now, paused).value);
      var after := VersionOf(Select(rs', channel, now', paused').value);
      && (before.Some? ==> after.Some? && !Below(after.value, before.value))
      && Accepts(before, after, paused')
  {
    var best := Best(rs, channel, now, paused);
    if best.Some? {
      assert Candidate(best.value, channel, now', paused');
      BestIsHighest(rs', channel, now', paused', best.value);
    }
  }

  /** The guard accepts a step that lowers or empties the feed exactly when the version it was at
      is paused; an accepted feed from an unpaused version is never empty. */
  lemma AcceptedRegressionWasPaused(previous: Version, next: Option<Version>, paused: set<Version>)
    requires next.None? || Below(next.value, previous)
    ensures Accepts(Some(previous), next, paused) <==> previous in paused
  {}

  /** Over any chain of accepted feed states in which no state's version was paused when the next
      was published, versions never decrease from the first to the last. */
  lemma {:induction false} FeedIsMonotone(feed: seq<Version>, pauses: seq<set<Version>>, k: nat)
    requires k < |feed| == |pauses|
    requires forall i: nat :: i < |feed| - 1 ==>
      Accepts(Some(feed[i]), Some(feed[i + 1]), pauses[i + 1]) && feed[i] !in pauses[i + 1]
    ensures !Below(feed[k], feed[0])
  {
    if k == 0 {
      BelowIsStrictTotal(feed[0], feed[0], feed[0]);
    } else {
      FeedIsMonotone(feed, pauses, k - 1);
      assert Accepts(Some(feed[k - 1]), Some(feed[(k - 1) + 1]), pauses[(k - 1) + 1]);
      BelowIsStrictTotal(feed[k], feed[0], feed[k - 1]);
      BelowIsStrictTotal(feed[k - 1], feed[k], feed[0]);
      BelowIsStrictTotal(feed[0], feed[k - 1], feed[k]);
    }
  }

  // ---- a whole history of feed runs ----

  /** The inputs of one run that prepares the update site. */
  datatype FeedRun = FeedRun(releases: seq<Release>, now: int, paused: set<Version>)

  function Choice(r: FeedRun, channel: Channel): Result<Option<Selection>, ()> {
    Select(r.releases, channel, r.now, r.paused)
  }

  /** A run that throws, in the selection or at the guard, leaves the feed as it is; any other puts
      its selection there, or removes the feed when there is none. */
  function Publish(feed: Option<Version>, r: FeedRun, channel: Channel): Option<Version> {
    var choice := Choice(r, channel);
    if choice.Err? || !Accepts(feed, VersionOf(choice.value), r.paused) then feed else VersionOf(choice.value)
  }

  /** The feed after the first `n` runs. */
  function FeedAfter(runs: seq<FeedRun>, channel: Channel, n: nat): Option<Version>
    requires n <= |runs|
  {
    if n == 0 then None else Publish(FeedAfter(runs, channel, n - 1), runs[n - 1], channel)
  }

  /** The feed stands below the version. */
  ghost predicate FeedBelow(feed: Option<Version>, v: Version) {
    feed.None? || Below(feed.value, v)
  }

  /** The `k`-th run took the feed down from a version that it pauses. */
  ghost predicate FallsByPause(runs: seq<FeedRun>, channel: Channel, k: nat)
    requires k < |runs|
  {
    var before := FeedAfter(runs, channel, k);
    before.Some? && before.value in runs[k].paused && FeedBelow(FeedAfter(runs, channel, k + 1), before.value)
  }

  /** In every history a feed that stands below a version it once had was taken down, in between, by
      a run that pauses the version it was then at. */
  lemma {:induction false} FeedFallsOnlyByPause(runs: seq<FeedRun>, channel: Channel, i: nat, j: nat)
    requires i <= j <= |runs|
    requires FeedAfter(runs, channel, i).Some?
    requires FeedBelow(FeedAfter(runs, channel, j), FeedAfter(runs, channel, i).value)
    ensures exists k: nat :: i <= k < j && FallsByPause(runs, channel, k)
    decreases j
  {
    var v := FeedAfter(runs, channel, i).value;
    BelowIsStrictTotal(v, v, v);
    var before := FeedAfter(runs, channel, j - 1);
    if FeedBelow(before, v) {
      FeedFallsOnlyByPause(runs, channel, i, j - 1);
    } else {
      var after := FeedAfter(runs, channel, j);
      if after.Some? {
        BelowIsStrictTotal(before.value, v, v);
        BelowIsStrictTotal(after.value, v, before.value);
        BelowIsStrictTotal(v, before.value, after.value);
      }
      StepFallsByPause(before, runs[j - 1], channel);
      assert FeedAfter(runs, channel, (j - 1) + 1) == after;
      assert FallsByPause(runs, channel, j - 1);
    }
  }

  lemma StepFallsByPause(feed: Option<Version>, r: FeedRun, channel: Channel)
    requires feed.Some? && FeedBelow(Publish(feed, r, channel), feed.value)
    ensures feed.value in r.paused
  {
    BelowIsStrictTotal(feed.value, feed.value, feed.value);
  }

  /** Whatever the feed holds was the selection of some run, from a release eligible then. */
  lemma {:induction false} FeedWasSelected(runs: seq<FeedRun>, channel: Channel, n: nat) returns (k: nat)
    requires n <= |runs| && FeedAfter(runs, channel, n).Some?
    ensures k < n && Choice(runs[k], channel).Ok?
    ensures VersionOf(Choice(runs[k], channel).value) == FeedAfter(runs, channel, n)
    ensures FeedAfter(runs, channel, n).value !in runs[k].paused
  {
    if FeedAfter(runs, channel, n) == FeedAfter(runs, channel, n - 1) {
      k := FeedWasSelected(runs, channel, n - 1);
    } else {
      k := n - 1;
      var sel := Choice(runs[k], channel).value.value;
      SelectionIsEligible(runs[k].releases, channel, runs[k].now, runs[k].paused, sel);
    }
  }

  ghost predicate Progresses(runs: seq<FeedRun>) {
    forall i: nat :: i + 1 < |runs| ==> Follows(runs[i], runs[i + 1])
  }

  ghost predicate Follows(r: FeedRun, next: FeedRun) {
    Progress(r.releases, r.now, r.paused, next.releases, next.now, next.paused)
  }

  /** When the clock only advances, releases are only added and nothing new is paused, no run is
      refused: the feed is always the latest selection, and it never goes down. */
  lemma {:induction false} ProgressIsNeverRefused(runs: seq<FeedRun>, channel: Channel, n: nat)
    requires 0 < n <= |runs| && Progresses(runs) && forall i :: 0 <= i < |runs| ==> Choice(runs[i], channel).Ok?
    ensures FeedAfter(runs, channel, n) == VersionOf(Choice(runs[n - 1], channel).value)
    ensures
      var before := FeedAfter(runs, channel, n - 1);
      before.Some? ==> !FeedBelow(FeedAfter(runs, channel, n), before.value)
  {
    if n > 1 {
      ProgressIsNeverRefused(runs, channel, n - 1);
      var r, next := runs[n - 2], runs[(n - 2) + 1];
      assert Follows(r, next);
      SelectionNeverDecreases(r.releases, r.now, r.paused, next.releases, next.now, next.paused, channel);
    } else {
      assert FeedAfter(runs, channel, 0) == None;
    }
  }

  /** Every release that could count on the stable channel has its date. */
  ghost predicate Dated(r: FeedRun, channel: Channel) {
    channel.Stable? ==> forall x :: x in r.releases ==> !CountsUndated(x, r.paused)
  }

  /** The highest eligible version of a run. */
  ghost predicate IsHighest(r: FeedRun, channel: Channel, v: Version) {
    && (exists x :: x in r.releases && IsEligible(x, channel, r.now, r.paused) && x.version == Some(v))
    && (forall x :: x in r.releases && IsEligible(x, channel, r.now, r.paused) ==> !Below(v, x.version.value))
  }

  ghost predicate NothingEligible(r: FeedRun, channel: Channel) {
    forall x :: x in r.releases ==> !IsEligible(x, channel, r.now, r.paused)
  }

  lemma ChosenIsHighest(r: FeedRun, channel: Channel, best: Release)
    requires IsChosen(r.releases, channel, r.now, r.paused, best)
    ensures best.version.Some? && IsHighest(r, channel, best.version.value)
  {
    var rs := r.releases;
    var k: nat :| ChosenAt(rs, channel, r.now, r.paused, best, k);
    assert best in rs && best.version == Some(best.version.value);
    forall x | x in rs && IsEligible(x, channel, r.now, r.paused)
      ensures !Below(best.version.value, x.version.value)
    {
      var i :| 0 <= i < |rs| && rs[i] == x;
      BelowIsStrictTotal(best.version.value, x.version.value, best.version.value);
      BelowIsStrictTotal(x.version.value, best.version.value, x.version.value);
    }
  }

  /** The selection is the highest eligible version. */
  lemma ChoiceIsHighest(r: FeedRun, channel: Channel)
    ensures Choice(r, channel).Ok? <==> Dated(r, channel)
    ensures Dated(r, channel) ==>
      match Choice(r, channel).value
      case None => NothingEligible(r, channel)
      case Some(sel) => IsHighest(r, channel, sel.version)
  {
    SelectsTheHighest(r.releases, channel, r.now, r.paused);
    if Dated(r, channel) && Choice(r, channel).value.Some? {
      var sel := Choice(r, channel).value.value;
      SelectionIsEligible(r.releases, channel, r.now, r.paused, sel);
      ChosenIsHighest(r, channel, sel.release);
    }
  }

  /** In every history a run with a date on every release that could count moves the feed to its
      highest eligible version exactly when the feed is empty, at a paused version or not above it,
      and empties the feed exactly when nothing is eligible and the feed's version is paused. */
  lemma FeedMovesExactlyWhen(runs: seq<FeedRun>, channel: Channel, n: nat)
    requires n < |runs|
    ensures
      var r, before, after := runs[n], FeedAfter(runs, channel, n), FeedAfter(runs, channel, n + 1);
      && (!Dated(r, channel) ==> after == before)
      && (Dated(r, channel) && NothingEligible(r, channel) ==>
            after == if before.Some? && before.value !in r.paused then before else None)
      && (Dated(r, channel) && !NothingEligible(r, channel) ==>
            exists v :: IsHighest(r, channel, v) &&
              after == if before.Some? && before.value !in r.paused && Below(v, before.value) then before else Some(v))
  {
    ChoiceIsHighest(runs[n], channel);
  }

  /** While the clock only advances, releases are only added and nothing new is paused, the feed
      always stands at the highest eligible version, and is empty exactly when there is none. */
  lemma FeedStandsAtTheHighest(runs: seq<FeedRun>, channel: Channel, n: nat)
    requires 0 < n <= |runs| && Progresses(runs) && forall i :: 0 <= i < |runs| ==> Dated(runs[i], channel)
    ensures
      match FeedAfter(runs, channel, n)
      case None => NothingEligible(runs[n - 1], channel)
      case Some(v) => IsHighest(runs[n - 1], channel, v)
  {
    forall i | 0 <= i < |runs| ensures Choice(runs[i], channel).Ok? { ChoiceIsHighest(runs[i], channel); }
    ProgressIsNeverRefused(runs, channel, n);
    ChoiceIsHighest(runs[n - 1], channel);
  }
}
