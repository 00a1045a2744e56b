/** The updater state machine: the pure reducer of apps/desktop/src/update-state.ts and the
    event handlers of apps/desktop/src/update-controller.ts. */
module UpdateController {

  datatype Mode = Disabled | CheckOnly | Install

  /** A JavaScript number as the clamp sees it. */
  datatype Number = Finite(value: real) | NonFinite

  datatype Percent = Unreported | Reported(value: real)

  datatype Status =
    | Off
    | Idle
    | Checking
    | Available(version: string)
    | Downloading(version: string, percent: Percent)
    | Ready(version: string)
    | Failed

  datatype StateEvent =
    | Check
    | Found(version: string, checkOnly: bool)
    | Progress(percent: Number)
    | Fetched(version: string)
    | NothingNew
    | Broken

  predicate CanCheck(s: Status) {
    s.Idle? || s.Failed? || s.Available?
  }

  function ClampPercent(n: Number): (p: real)
    ensures 0.0 <= p <= 100.0
    ensures n.Finite? && 0.0 <= n.value <= 100.0 ==> p == n.value
    ensures n.Finite? && n.value > 100.0 ==> p == 100.0
    ensures n.NonFinite? || n.value < 0.0 ==> p == 0.0
  {
    match n
    case NonFinite => 0.0
    case Finite(x) => if x < 0.0 then 0.0 else if x > 100.0 then 100.0 else x
  }

  /** `reduceDesktopUpdateState`. */
  function Reduce(s: Status, e: StateEvent): Status {
    if s.Off? then s
    else match e
      case Check => if CanCheck(s) then Checking else s
      case Found(v, checkOnly) =>
        if !s.Checking? then s else if checkOnly then Available(v) else Downloading(v, Unreported)
      case Progress(n) => if s.Downloading? then s.(percent := Reported(ClampPercent(n))) else s
      case Fetched(v) => if s.Downloading? then Ready(v) else s
      case NothingNew => if s.Checking? then Idle else s
      case Broken => Failed
  }

  /** The controller's fields; `announced` lists the versions given to `onUpdateAvailable`
      and `onUpdateReady`, in order. */
  datatype Controller = Controller(
    mode: Mode, status: Status, installing: bool, installError: bool,
    notified: set<string>, announced: seq<string>)

  /** What `quitAndInstall` does before it returns: emit an `error` event, throw, or neither. */
  datatype Quit = Quit(emitsError: bool, throws: bool)

  /** What the updater and its users may do, one atomic handler each. */
  datatype Event =
    | CheckingForUpdate
    | UpdateAvailable(version: string)
    | DownloadProgress(percent: Number)
    | UpdateNotAvailable
    | UpdateDownloaded(version: string)
    | UpdaterError
    | CheckRejected
    | InstallRequested(quit: Quit)

  function Initial(mode: Mode): Controller {
    Controller(mode, if mode.Disabled? then Off else Idle, false, false, {}, [])
  }

  function Transition(c: Controller, e: StateEvent): Controller {
    c.(status := Reduce(c.status, e))
  }

  function Announce(c: Controller, version: string): Controller {
    if version in c.notified then c
    else c.(notified := c.notified + {version}, announced := c.announced + [version])
  }

  /** Whether the `error` handler calls `onInstallError`. */
  predicate ErrorFailsInstallation(c: Controller) {
    c.installing || c.status.Ready?
  }

  function OnError(c: Controller): Controller {
    Transition(c.(installError := c.installError || c.installing, installing := false), Broken)
  }

  datatype InstallOutcome = Refused | Started | Threw

  predicate MayInstall(c: Controller) {
    c.mode.Install? && c.status.Ready? && !c.installing
  }

  /** `installDownloadedUpdate`: `quitAndInstall` may report its failure by an event, and the
      handler then runs before the call returns. */
  function InstallDownloaded(c: Controller, quit: Quit): (Controller, InstallOutcome) {
    if !MayInstall(c) then (c, Refused)
    else
      var started := c.(installing := true, installError := false);
      var quitted := if quit.emitsError then OnError(started) else started;
      if quit.throws || quitted.installError then (quitted.(installing := false), Threw)
      else (quitted, Started)
  }

  function Next(c: Controller, e: Event): Controller {
    if c.mode.Disabled? then c
    else match e
      case CheckingForUpdate => Transition(c, Check)
      case UpdateAvailable(v) =>
        var d := Transition(c, Found(v, !c.mode.Install?));
        if d.status.Available? then Announce(d, v) else d
      case DownloadProgress(n) => Transition(c, Progress(n))
      case UpdateNotAvailable => Transition(c, NothingNew)
      case UpdateDownloaded(v) =>
        if !c.mode.Install? then c
        else
          var d := Transition(c, Fetched(v));
          if d.status.Ready? then Announce(d, v) else d
      case UpdaterError => OnError(c)
      case CheckRejected => if c.status.Failed? then c else Transition(c, Broken)
      case InstallRequested(quit) => InstallDownloaded(c, quit).0
  }

  /** The controller after the first `n` events of a run. */
  function At(mode: Mode, events: seq<Event>, n: nat): Controller
    requires n <= |events|
  {
    if n == 0 then Initial(mode) else Next(At(mode, events, n - 1), events[n - 1])
  }

  predicate ReportsError(e: Event) {
    e.UpdaterError? || e.CheckRejected? || (e.InstallRequested? && e.quit.emitsError)
  }

  /** No state from the `i`-th to the `n`-th is the error state. */
  ghost predicate NoErrorSince(mode: Mode, events: seq<Event>, i: nat, n: nat)
    requires n <= |events|
  {
    forall k: nat :: i <= k <= n ==> !At(mode, events, k).status.Failed?
  }

  ghost predicate CheckedBefore(mode: Mode, events: seq<Event>, n: nat)
    requires n <= |events|
  {
    exists i: nat :: i < n && At(mode, events, i).status.Checking? && NoErrorSince(mode, events, i, n)
  }

  lemma {:induction false} ModeIsFixed(mode: Mode, events: seq<Event>, n: nat)
    requires n <= |events|
    ensures At(mode, events, n).mode == mode
    ensures mode.Disabled? ==> At(mode, events, n) == Initial(mode)
    ensures !mode.Disabled? ==> !At(mode, events, n).status.Off?
  {
    if n > 0 {
      ModeIsFixed(mode, events, n - 1);
    }
  }

  lemma DownloadStep(c: Controller, e: Event)
    requires Next(c, e).status.Downloading?
    ensures c.status.Downloading? || (c.status.Checking? && c.mode.Install?)
  {}

  lemma ReadyStep(c: Controller, e: Event)
    requires Next(c, e).status.Ready?
    ensures c.status.Ready? || (c.status.Downloading? && c.mode.Install?)
  {}

  lemma NoErrorExtends(mode: Mode, events: seq<Event>, i: nat, n: nat)
    requires 0 < n <= |events| && NoErrorSince(mode, events, i, n - 1) && !At(mode, events, n).status.Failed?
    ensures NoErrorSince(mode, events, i, n)
  {}

  /** A download in progress was preceded by a check with no error in between. */
  lemma {:induction false} DownloadFollowsCheck(mode: Mode, events: seq<Event>, n: nat)
    requires n <= |events| && At(mode, events, n).status.Downloading?
    ensures mode.Install? && CheckedBefore(mode, events, n)
  {
    ModeIsFixed(mode, events, n - 1);
    DownloadStep(At(mode, events, n - 1), events[n - 1]);
    var before := At(mode, events, n - 1).status;
    if before.Downloading? {
      DownloadFollowsCheck(mode, events, n - 1);
      var i: nat :| i < n - 1 && At(mode, events, i).status.Checking? && NoErrorSince(mode, events, i, n - 1);
      NoErrorExtends(mode, events, i, n);
    } else {
      NoErrorExtends(mode, events, n - 1, n);
    }
  }

  /** Some state before the `n`-th was a check, a later one a download, with no error since. */
  ghost predicate DownloadedBefore(mode: Mode, events: seq<Event>, n: nat)
    requires n <= |events|
  {
    exists i: nat, j: nat ::
      && i < j < n
      && At(mode, events, i).status.Checking?
      && At(mode, events, j).status.Downloading?
      && NoErrorSince(mode, events, i, n)
  }

  /** `ready` is reached only by checking, then downloading, with no error since that check. */
  lemma {:induction false} ReadyFollowsCheckAndDownload(mode: Mode, events: seq<Event>, n: nat)
    requires n <= |events| && At(mode, events, n).status.Ready?
    ensures mode.Install? && DownloadedBefore(mode, events, n)
  {
    ModeIsFixed(mode, events, n - 1);
    ReadyStep(At(mode, events, n - 1), events[n - 1]);
    var before := At(mode, events, n - 1).status;
    if before.Ready? {
      ReadyFollowsCheckAndDownload(mode, events, n - 1);
      var i: nat, j: nat :|
        && i < j < n - 1
        && At(mode, events, i).status.Checking?
        && At(mode, events, j).status.Downloading?
        && NoErrorSince(mode, events, i, n - 1);
      NoErrorExtends(mode, events, i, n);
    } else {
      DownloadFollowsCheck(mode, events, n - 1);
      var i: nat :| i < n - 1 && At(mode, events, i).status.Checking? && NoErrorSince(mode, events, i, n - 1);
      NoErrorExtends(mode, events, i, n);
    }
  }

  lemma ReadyIsLeft(c: Controller, e: Event)
    requires c.status.Ready? && Next(c, e).status != c.status
    ensures ReportsError(e) && Next(c, e).status.Failed?
  {}

  /** `ready` is left only through an error report, which puts the machine in the error state. */
  lemma {:induction false} ReadyIsLeftOnlyByError(mode: Mode, events: seq<Event>, n: nat, m: nat)
    requires n <= m <= |events|
    requires At(mode, events, n).status.Ready? && At(mode, events, m).status != At(mode, events, n).status
    ensures exists k: nat :: n <= k < m && ReportsError(events[k]) && At(mode, events, k + 1).status.Failed?
    decreases m
  {
    if At(mode, events, m - 1).status != At(mode, events, n).status {
      ReadyIsLeftOnlyByError(mode, events, n, m - 1);
    } else {
      ReadyIsLeft(At(mode, events, m - 1), events[m - 1]);
      assert ReportsError(events[m - 1]) && At(mode, events, (m - 1) + 1).status.Failed?;
    }
  }

  /** What the updater emits for a download without incident. */
  function Download(version: string): seq<Event> {
    [CheckingForUpdate, UpdateAvailable(version), UpdateDownloaded(version)]
  }

  lemma DownloadEndsReady(mode: Mode, version: string)
    requires mode.Install?
    ensures At(mode, Download(version), 3).status == Ready(version) && At(mode, Download(version), 3).mode == mode
  {
    var events := Download(version);
    assert At(mode, events, 0) == Initial(mode);
    assert At(mode, events, 1) == Initial(mode).(status := Checking);
    assert At(mode, events, 2) == Initial(mode).(status := Downloading(version, Unreported));
  }

  /** The controller after more events, from any state. */
  function Then(c: Controller, events: seq<Event>): Controller
    decreases |events|
  {
    if events == [] then c else Then(Next(c, events[0]), events[1..])
  }

  /** A run goes on from where its first part ended. */
  lemma {:induction false} RunGoesOn(mode: Mode, events: seq<Event>, more: seq<Event>)
    ensures At(mode, events + more, |events + more|) == Then(At(mode, events, |events|), more)
    decreases |more|
  {
    if more == [] {
      assert events + more == events;
    } else {
      var longer := events + [more[0]];
      assert events + more == longer + more[1..];
      RunGoesOn(mode, longer, more[1..]);
      SamePrefix(mode, events, longer, |events|);
    }
  }

  lemma {:induction false} SamePrefix(mode: Mode, events: seq<Event>, longer: seq<Event>, n: nat)
    requires n <= |events| && events <= longer
    ensures At(mode, longer, n) == At(mode, events, n)
  {
    if n > 0 {
      SamePrefix(mode, events, longer, n - 1);
    }
  }

  lemma ThenOne(c: Controller, a: Event)
    ensures Then(c, [a]) == Next(c, a)
  {
    assert [a][1..] == [];
  }

  lemma ThenTwo(c: Controller, a: Event, b: Event)
    ensures Then(c, [a, b]) == Next(Next(c, a), b)
  {
    assert [a, b][1..] == [b];
    ThenOne(Next(c, a), b);
  }

  lemma ThenThree(c: Controller, a: Event, b: Event, d: Event)
    ensures Then(c, [a, b, d]) == Next(Next(Next(c, a), b), d)
  {
    assert [a, b, d][1..] == [b, d];
    ThenTwo(Next(c, a), b, d);
  }

  lemma ThenFour(c: Controller, a: Event, b: Event, d: Event, e: Event)
    ensures Then(c, [a, b, d, e]) == Next(Next(Next(Next(c, a), b), d), e)
  {
    assert [a, b, d, e][1..] == [b, d, e];
    ThenThree(Next(c, a), b, d, e);
  }

  /** The status some further events lead a run to. */
  function Reached(mode: Mode, events: seq<Event>, more: seq<Event>): Status {
    At(mode, events + more, |events + more|).status
  }

  predicate Unoccupied(s: Status) {
    s.Idle? || s.Failed? || s.Available?
  }

  /** Whatever happened before: a check is begun exactly while the machine is idle, in the error
      state or only shows a version. */
  lemma CheckBeginsExactlyWhen(mode: Mode, events: seq<Event>)
    requires !mode.Disabled?
    ensures
      var before := At(mode, events, |events|).status;
      Reached(mode, events, [CheckingForUpdate]) == if Unoccupied(before) then Checking else before
  {
    ModeIsFixed(mode, events, |events|);
    RunGoesOn(mode, events, [CheckingForUpdate]);
    ThenOne(At(mode, events, |events|), CheckingForUpdate);
  }

  lemma SecondStep(mode: Mode, events: seq<Event>, e: Event)
    ensures
      var c := At(mode, events, |events|);
      Reached(mode, events, [CheckingForUpdate, e]) == Next(Next(c, CheckingForUpdate), e).status
  {
    RunGoesOn(mode, events, [CheckingForUpdate, e]);
    ThenTwo(At(mode, events, |events|), CheckingForUpdate, e);
  }

  /** A check ends idle when there is nothing new and in the error state when it fails. */
  lemma FruitlessCheck(mode: Mode, events: seq<Event>)
    requires !mode.Disabled? && Unoccupied(At(mode, events, |events|).status)
    ensures Reached(mode, events, [CheckingForUpdate, UpdateNotAvailable]) == Idle
    ensures Reached(mode, events, [CheckingForUpdate, CheckRejected]) == Failed
    ensures Reached(mode, events, [CheckingForUpdate, UpdaterError]) == Failed
  {
    ModeIsFixed(mode, events, |events|);
    SecondStep(mode, events, UpdateNotAvailable);
    SecondStep(mode, events, CheckRejected);
    SecondStep(mode, events, UpdaterError);
  }

  /** A check that finds something shows it when checking only; when installing it is downloaded,
      the last progress is reported, and what was fetched is ready. */
  lemma FruitfulCheck(mode: Mode, events: seq<Event>, v: string, w: string, n: Number)
    requires !mode.Disabled? && Unoccupied(At(mode, events, |events|).status)
    ensures mode.CheckOnly? ==> Reached(mode, events, [CheckingForUpdate, UpdateAvailable(v)]) == Available(v)
    ensures mode.Install? ==>
      && Reached(mode, events, [CheckingForUpdate, UpdateAvailable(v)]) == Downloading(v, Unreported)
      && Reached(mode, events, [CheckingForUpdate, UpdateAvailable(v), DownloadProgress(n)]) ==
           Downloading(v, Reported(ClampPercent(n)))
      && Reached(mode, events, [CheckingForUpdate, UpdateAvailable(v), DownloadProgress(n), UpdateDownloaded(w)]) ==
           Ready(w)
  {
    ModeIsFixed(mode, events, |events|);
    SecondStep(mode, events, UpdateAvailable(v));
    if mode.Install? {
      DownloadSteps(mode, events, v, w, n);
    }
  }

  lemma DownloadSteps(mode: Mode, events: seq<Event>, v: string, w: string, n: Number)
    ensures
      var found := Next(Next(At(mode, events, |events|), CheckingForUpdate), UpdateAvailable(v));
      && Reached(mode, events, [CheckingForUpdate, UpdateAvailable(v), DownloadProgress(n)]) ==
           Next(found, DownloadProgress(n)).status
      && Reached(mode, events, [CheckingForUpdate, UpdateAvailable(v), DownloadProgress(n), UpdateDownloaded(w)]) ==
           Next(Next(found, DownloadProgress(n)), UpdateDownloaded(w)).status
  {
    var c := At(mode, events, |events|);
    RunGoesOn(mode, events, [CheckingForUpdate, UpdateAvailable(v), DownloadProgress(n)]);
    ThenThree(c, CheckingForUpdate, UpdateAvailable(v), DownloadProgress(n));
    RunGoesOn(mode, events, [CheckingForUpdate, UpdateAvailable(v), DownloadProgress(n), UpdateDownloaded(w)]);
    ThenFour(c, CheckingForUpdate, UpdateAvailable(v), DownloadProgress(n), UpdateDownloaded(w));
  }

  // ---- announcements ----

  /** The `k`-th event tells the user of a version: found while a version is shown as available
      afterwards, or fetched while one is shown as ready. */
  ghost predicate Tells(mode: Mode, events: seq<Event>, k: nat, v: string) {
    && k < |events|
    && (|| (events[k] == UpdateAvailable(v) && At(mode, events, k + 1).status.Available?)
        || (events[k] == UpdateDownloaded(v) && At(mode, events, k + 1).status.Ready? && mode.Install?))
  }

  lemma AnnouncesOne(mode: Mode, events: seq<Event>, k: nat, v: string)
    requires k < |events| && !mode.Disabled?
    ensures v in At(mode, events, k + 1).notified <==> v in At(mode, events, k).notified || Tells(mode, events, k, v)
  {
    ModeIsFixed(mode, events, k);
  }

  lemma {:induction false} NotifiedExactlyWhen(mode: Mode, events: seq<Event>, n: nat, v: string)
    requires n <= |events| && !mode.Disabled?
    ensures v in At(mode, events, n).notified <==> exists k: nat :: k < n && Tells(mode, events, k, v)
  {
    if n > 0 {
      NotifiedExactlyWhen(mode, events, n - 1, v);
      AnnouncesOne(mode, events, n - 1, v);
    }
  }

  /** A version is announced, and by `TraceInvariants` once, exactly when some event of the run
      tells of it. */
  lemma AnnouncedExactlyWhenTold(mode: Mode, events: seq<Event>, n: nat, v: string)
    requires n <= |events| && !mode.Disabled?
    ensures v in At(mode, events, n).announced <==> exists k: nat :: k < n && Tells(mode, events, k, v)
  {
    TraceInvariants(mode, events, n);
    NotifiedExactlyWhen(mode, events, n, v);
  }

  /** What the user is told of is what the state shows, unless the event came while another version
      was shown already: the handlers then announce the version of the event. */
  lemma ToldIsShownExactlyWhen(mode: Mode, events: seq<Event>, k: nat, v: string)
    requires Tells(mode, events, k, v)
    ensures
      var before, after := At(mode, events, k).status, At(mode, events, k + 1).status;
      after.version == v <==>
        before.Checking? || before.Downloading? || before == Available(v) || before == Ready(v)
  {
    ModeIsFixed(mode, events, k);
  }

  /** It does happen: a second download reported while the first is ready. */
  lemma UnshownVersionIsAnnounced(v: string, w: string)
    requires v != w
    ensures
      var events := Download(v) + [UpdateDownloaded(w)];
      At(Install, events, 4).status == Ready(v) && At(Install, events, 4).announced == [v, w]
  {
    var events := Download(v);
    RunGoesOn(Install, events, [UpdateDownloaded(w)]);
    assert At(Install, events, 0) == Initial(Install);
    assert At(Install, events, 1) == Initial(Install).(status := Checking);
    assert At(Install, events, 2) == Initial(Install).(status := Downloading(v, Unreported));
    assert At(Install, events, 3) == Initial(Install).(status := Ready(v), notified := {v}, announced := [v]);
    ThenOne(At(Install, events, 3), UpdateDownloaded(w));
  }

  ghost predicate NoRepeats(s: seq<string>) {
    forall i, j :: 0 <= i < j < |s| ==> s[i] != s[j]
  }

  ghost predicate Consistent(c: Controller) {
    && NoRepeats(c.announced)
    && (forall v :: v in c.announced <==> v in c.notified)
    && (c.status.Downloading? && c.status.percent.Reported? ==> 0.0 <= c.status.percent.value <= 100.0)
    && (c.installing ==> c.mode.Install?)
  }

  lemma AnnounceKeeps(c: Controller, version: string)
    requires Consistent(c)
    ensures Consistent(Announce(c, version))
  {
    if version !in c.notified {
      var d := Announce(c, version);
      forall v
        ensures v in d.announced <==> v in d.notified
      {
        assert v in d.announced <==> v in c.announced || v == version;
      }
    }
  }

  lemma NextKeeps(c: Controller, e: Event)
    requires Consistent(c)
    ensures Consistent(Next(c, e))
  {
    if e.UpdateAvailable? {
      AnnounceKeeps(Transition(c, Found(e.version, !c.mode.Install?)), e.version);
    } else if e.UpdateDownloaded? {
      AnnounceKeeps(Transition(c, Fetched(e.version)), e.version);
    }
  }

  /** Over every event sequence: no version is announced twice, reported percentages stay
      within 0..100, and only install mode ever has an installation in flight. */
  lemma {:induction false} TraceInvariants(mode: Mode, events: seq<Event>, n: nat)
    requires n <= |events|
    ensures Consistent(At(mode, events, n))
  {
    if n > 0 {
      TraceInvariants(mode, events, n - 1);
      NextKeeps(At(mode, events, n - 1), events[n - 1]);
    }
  }

  class DesktopUpdateController {
    const mode: Mode
    var status: Status
    var installing: bool
    var installError: bool
    var notified: set<string>
    var announced: seq<string>

    function View(): Controller
      reads this
    {
      Controller(mode, status, installing, installError, notified, announced)
    }

    constructor (policy: Mode)
      ensures View() == Initial(policy)
    {
      mode := policy;
      status := if policy.Disabled? then Off else Idle;
      installing, installError := false, false;
      notified, announced := {}, [];
    }

    method MakeTransition(e: StateEvent)
      modifies this`status
      ensures status == Reduce(old(status), e)
    {
      status := Reduce(status, e);
    }

    method NotifyOnce(version: string)
      modifies this`notified, this`announced
      ensures View() == Announce(old(View()), version)
    {
      if version !in notified {
        notified := notified + {version};
        announced := announced + [version];
      }
    }

    method HandleAvailable(version: string)
      requires !mode.Disabled?
      modifies this
      ensures View() == Next(old(View()), UpdateAvailable(version))
    {
      MakeTransition(Found(version, !mode.Install?));
      if status.Available? {
        NotifyOnce(version);
      }
    }

    method HandleDownloaded(version: string)
      requires !mode.Disabled?
      modifies this
      ensures View() == Next(old(View()), UpdateDownloaded(version))
    {
      if !mode.Install? {
        return;
      }
      MakeTransition(Fetched(version));
      if status.Ready? {
        NotifyOnce(version);
      }
    }

    /** The `error` handler; the result says whether it calls `onInstallError`. */
    method HandleError() returns (installationFailed: bool)
      modifies this
      ensures View() == OnError(old(View()))
      ensures installationFailed == ErrorFailsInstallation(old(View()))
    {
      installationFailed := installing || status.Ready?;
      if installing {
        installError := true;
      }
      installing := false;
      MakeTransition(Broken);
    }

    method HandleRejectedCheck()
      requires !mode.Disabled?
      modifies this
      ensures View() == Next(old(View()), CheckRejected)
    {
      if !status.Failed? {
        MakeTransition(Broken);
      }
    }

    /** The result also says whether `onInstallError` was called on the way. */
    method InstallDownloadedUpdate(quit: Quit) returns (outcome: InstallOutcome, reported: bool)
      modifies this
      ensures (View(), outcome) == InstallDownloaded(old(View()), quit)
      ensures reported == (MayInstall(old(View())) && quit.emitsError)
      ensures outcome == Refused <==> mode != Install || !old(status).Ready? || old(installing)
      ensures outcome == Started <==> outcome != Refused && !quit.emitsError && !quit.throws
      ensures outcome == Started ==> installing && status == old(status)
      ensures outcome == Threw ==> !installing
    {
      reported := false;
      if !mode.Install? || !status.Ready? || installing {
        return Refused, false;
      }
      installing := true;
      installError := false;
      if quit.emitsError {
        reported := HandleError();
      }
      if quit.throws || installError {
        installing := false;
        return Threw, reported;
      }
      return Started, reported;
    }
  }
}
