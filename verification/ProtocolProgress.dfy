/** What the desktop protocol brings about: restarts that go through, exchanges that hand out
    their result, sign-outs that run every step, uninstallations that give the gate back. */
module ProtocolProgress {
  import opened Common
  import opened DesktopProtocol
  import opened ProtocolSafety
  import opened ProtocolTheorems
  import G = MutationGate
  import U = UpdateController

  // ---- the updater inside the application ----

  /** An event after which the `install` option has been called. */
  predicate CallsOption(s: Desktop, e: Event) {
    (e.DrainSeen? && !s.windows) || (e.StopReturns? && e.report.Some?)
  }

  function Report(e: Event): Option<bool> {
    if e.StopReturns? then e.report else None
  }

  lemma RecoverKeepsController(s: Desktop, i: nat)
    requires HasAttempt(s, i)
    ensures Recover(s, i).controller == s.controller
  {}

  lemma InstallIsAnEvent(c: U.Controller, quit: U.Quit)
    ensures U.InstallDownloaded(c, quit).0 == U.Next(c, U.InstallRequested(quit))
  {}

  /** Where the segment that calls the `install` option leads. */
  lemma OptionOutcome(s: Desktop, e: Event)
    requires Safe(s) && Possible(s, e) && CallsOption(s, e)
    ensures
      var i := |s.installer.attempts| - 1;
      var u := Entered(s, Report(e));
      var c := U.InstallDownloaded(s.controller, e.quit).0;
      && HasAttempt(u, i)
      && Step(s, e) == (
           if Last(s).onQuit then u
           else if c.installing then u.(controller := c)
           else Recover(u.(controller := c), i)).(clock := s.clock + 1)
  {
    var i := |s.installer.attempts| - 1;
    assert AttemptOk(s, i);
    InvokingStep(s, e, Report(e));
    if !Last(s).onQuit {
      InvokeInstallCases(Entered(s, Report(e)), i, e.quit);
    }
  }

  /** Each step of the application is at most one event of the updater. */
  lemma ControllerStep(s: Desktop, e: Event) returns (event: U.Event)
    requires Safe(s) && Possible(s, e)
    ensures Step(s, e).controller == s.controller || Step(s, e).controller == U.Next(s.controller, event)
  {
    event := if e.Updater? then e.event else U.UpdaterError;
    if e.Updater? {
      UpdaterRunsController(s, e.event);
    } else if CallsOption(s, e) {
      event := U.InstallRequested(e.quit);
      OptionRunsController(s, e);
    } else {
      OthersKeepController(s, e);
    }
  }

  lemma OptionRunsController(s: Desktop, e: Event)
    requires Safe(s) && Possible(s, e) && CallsOption(s, e)
    ensures Step(s, e).controller in {s.controller, U.Next(s.controller, U.InstallRequested(e.quit))}
  {
    OptionOutcome(s, e);
    InstallIsAnEvent(s.controller, e.quit);
    RecoverKeepsController(
      Entered(s, Report(e)).(controller := U.InstallDownloaded(s.controller, e.quit).0), |s.installer.attempts| - 1);
  }

  lemma UpdaterRunsController(s: Desktop, event: U.Event)
    requires Possible(s, Updater(event))
    ensures Step(s, Updater(event)).controller == U.Next(s.controller, event)
  {
    var t := s.(controller := U.Next(s.controller, event));
    if t.installer.recoverFailure.Some? && HasAttempt(t, t.installer.recoverFailure.value) {
      RecoverKeepsController(t, t.installer.recoverFailure.value);
    }
    assert Step(s, Updater(event)).controller == StepUpdater(s, event).controller;
  }

  lemma OthersKeepController(s: Desktop, e: Event)
    requires Possible(s, e) && !e.Updater? && !CallsOption(s, e)
    ensures Step(s, e).controller == s.controller
  {
    if e.StopReturns? {
      RecoverKeepsController(s, |s.installer.attempts| - 1);
    }
  }

  /** Within the application the updater behaves as it does alone: whatever it was before, its state
      is the outcome of some sequence of its own events, so every law of its runs holds. */
  lemma {:induction false} ControllerFollows(s: Desktop, run: seq<Event>, mode: U.Mode, events: seq<U.Event>)
    returns (longer: seq<U.Event>)
    requires Safe(s) && IsRun(s, run) && s.controller == U.At(mode, events, |events|)
    ensures After(s, run).controller == U.At(mode, longer, |longer|)
    decreases |run|
  {
    longer := events;
    if run != [] {
      var event := ControllerStep(s, run[0]);
      StepKeeps(s, run[0]);
      var t := Step(s, run[0]);
      if t.controller != s.controller {
        longer := events + [event];
        U.SamePrefix(mode, events, longer, |events|);
      }
      longer := ControllerFollows(t, run[1..], mode, longer);
    }
  }

  lemma ControllerHasItsOwnRun(windows: bool, mode: U.Mode, s: Desktop) returns (events: seq<U.Event>)
    requires Reachable(windows, mode, s)
    ensures s.controller == U.At(mode, events, |events|)
  {
    var run :| IsRun(Start(windows, mode), run) && After(Start(windows, mode), run) == s;
    StartIsSafe(windows, mode);
    events := ControllerFollows(Start(windows, mode), run, mode, []);
  }

  lemma ReadyMeansInstall(windows: bool, mode: U.Mode, s: Desktop)
    requires Reachable(windows, mode, s)
    ensures s.controller.mode == mode && (s.controller.status.Ready? ==> mode.Install?)
  {
    var events := ControllerHasItsOwnRun(windows, mode, s);
    U.ModeIsFixed(mode, events, |events|);
    if s.controller.status.Ready? {
      U.ReadyFollowsCheckAndDownload(mode, events, |events|);
    }
  }

  // ---- restarts ----

  /** A handed over attempt: the updater's own quit is let through, the gate is still held, and
      nothing but the installer and the updater has changed. */
  ghost predicate StaysHandedOver(s: Desktop, t: Desktop) {
    && s.installer.attempts != [] && LastIsAt(t, HandedOver)
    && |t.installer.attempts| == |s.installer.attempts| && Last(t).token == Last(s).token
    && Last(t).onQuit == Last(s).onQuit && t.installer.allowQuit && t.installer.inProgress && t.gate == s.gate && G.Holds(t.gate, Last(t).token)
    && t.controller.status == s.controller.status
    && t == s.(clock := s.clock + 1, installer := t.installer, controller := t.controller)
  }

  lemma TakenOver(s: Desktop, e: Event, u: Desktop, c: U.Controller)
    requires InstallerOk(s) && Possible(s, e) && CallsOption(s, e) && u == Entered(s, Report(e))
    requires c.status == s.controller.status && (c == s.controller || c.installing)
    ensures StaysHandedOver(s, u.(controller := c, clock := s.clock + 1))
    ensures Last(u).onQuit == Last(s).onQuit
  {
    assert AttemptOk(s, |s.installer.attempts| - 1);
  }

  /** A quit, or a restart that nothing goes wrong with, is handed over. */
  lemma HandedOverStep(s: Desktop, e: Event)
    requires Safe(s) && Possible(s, e) && CallsOption(s, e)
    requires Last(s).onQuit || (U.MayInstall(s.controller) && !e.quit.emitsError && !e.quit.throws)
    ensures StaysHandedOver(s, Step(s, e))
    ensures Step(s, e).controller.installing <==> !Last(s).onQuit
  {
    OptionOutcome(s, e);
    assert AttemptOk(s, |s.installer.attempts| - 1);
    var u := Entered(s, Report(e));
    if Last(s).onQuit {
      assert u.(controller := s.controller) == u;
      TakenOver(s, e, u, s.controller);
    } else {
      var c := U.InstallDownloaded(s.controller, e.quit).0;
      TakenOver(s, e, u, c);
    }
  }

  lemma NotInstallingYet(s: Desktop, e: Event)
    requires InstallerOk(s) && Possible(s, e) && CallsOption(s, e)
    ensures !s.controller.installing
  {}

  /** A restart stays handed over to the updater exactly when the update is ready and
      `quitAndInstall` neither throws nor reports an error; it is then the updater's to install.
      Otherwise it is recovered within the same segment. A quit is always handed over. */
  lemma RestartIsHandedOverExactlyWhen(windows: bool, mode: U.Mode, s: Desktop, e: Event)
    requires Reachable(windows, mode, s) && Possible(s, e) && CallsOption(s, e)
    ensures
      var t := Step(s, e);
      if Last(s).onQuit || (s.controller.status.Ready? && !e.quit.emitsError && !e.quit.throws)
      then StaysHandedOver(s, t) && (t.controller.installing <==> !Last(s).onQuit)
      else
        && !LastIsAt(t, HandedOver) && !t.installer.allowQuit
        && (if e.StopReturns? && e.report == Some(true) then LastIsAt(t, Restoring) else CleanlyEnded(t))
  {
    ReachableIsSafe(windows, mode, s);
    if !Last(s).onQuit && (e.quit.emitsError || e.quit.throws || !s.controller.status.Ready?) {
      FailedRestartRecoversAtOnce(windows, mode, s, e);
    } else {
      ReadyMeansInstall(windows, mode, s);
      NotInstallingYet(s, e);
      HandedOverStep(s, e);
    }
  }

  /** A restart of a ready update whose next segment calls the `install` option. */
  ghost predicate RestartUnderWay(s: Desktop, version: string) {
    && s.controller.status == U.Ready(version) && s.installer.attempts != [] && !Last(s).onQuit
    && s.installer.inProgress && !s.installer.allowQuit && G.Holds(s.gate, Last(s).token)
    && if s.windows then LastIsAt(s, Stopping) else LastIsAt(s, Draining) && s.gate.tokens[Last(s).token].drained
  }

  lemma ReadyOn(windows: bool, mode: U.Mode, version: string) returns (s: Desktop)
    requires mode.Install?
    ensures Reachable(windows, mode, s) && s.controller.status == U.Ready(version)
    ensures s == Start(windows, mode).(clock := s.clock, controller := s.controller)
  {
    var events := U.Download(version);
    U.DownloadEndsReady(mode, version);
    ReachByUpdater(windows, mode, events, 3);
    s := Start(windows, mode).(controller := U.At(mode, events, 3), clock := 3);
  }

  lemma RestartBegins(s: Desktop)
    requires s.controller.status.Ready? && s.gate == G.Fresh && s.installer == Installer(false, false, None, [])
    ensures
      var t := Step(s, RestartRequested);
      && t.installer == Installer(true, false, None, [Attempt(0, false, Draining, None, 0)])
      && t.gate.tokens == [G.Token(false, true)] && t.controller == s.controller && t.windows == s.windows
  {
    assert Step(s, RestartRequested) == CallInstall(s, false).(clock := s.clock + 1);
  }

  lemma WindowsStops(s: Desktop, quit: U.Quit)
    requires s.windows && Possible(s, DrainSeen(quit))
    ensures Step(s, DrainSeen(quit)) ==
      SetAttempt(s, |s.installer.attempts| - 1, Last(s).(stage := Stopping)).(clock := s.clock + 1)
  {}

  /** Such restarts exist, on every platform and for every version. */
  lemma RestartIsReachable(windows: bool, mode: U.Mode, version: string) returns (s: Desktop)
    requires mode.Install?
    ensures Reachable(windows, mode, s) && s.windows == windows && RestartUnderWay(s, version)
  {
    var ready := ReadyOn(windows, mode, version);
    RestartBegins(ready);
    ReachStep(windows, mode, ready, RestartRequested);
    s := Step(ready, RestartRequested);
    if windows {
      s := StoppingIsReachable(mode, s, version);
    }
  }

  lemma StoppingIsReachable(mode: U.Mode, s: Desktop, version: string) returns (t: Desktop)
    requires Reachable(true, mode, s) && s.windows && s.controller.status == U.Ready(version)
    requires s.installer == Installer(true, false, None, [Attempt(0, false, Draining, None, 0)])
    requires s.gate.tokens == [G.Token(false, true)]
    ensures Reachable(true, mode, t) && t.windows && RestartUnderWay(t, version)
  {
    var drain := DrainSeen(U.Quit(false, false));
    WindowsStops(s, drain.quit);
    ReachStep(true, mode, s, drain);
    t := Step(s, drain);
  }

  /** And they go through. */
  lemma RestartGoesThrough(windows: bool, mode: U.Mode, version: string) returns (s: Desktop)
    requires mode.Install?
    ensures Reachable(windows, mode, s) && LastIsAt(s, HandedOver) && !Last(s).onQuit
    ensures s.controller.status == U.Ready(version) && s.controller.installing && s.installer.allowQuit
  {
    var t := RestartIsReachable(windows, mode, version);
    var quit := U.Quit(false, false);
    s := RestartHandsOver(windows, mode, version, t, if windows then StopReturns(Some(true), quit) else DrainSeen(quit));
  }

  /** The segment that calls the `install` option without incident. */
  lemma RestartHandsOver(windows: bool, mode: U.Mode, version: string, t: Desktop, e: Event) returns (s: Desktop)
    requires Reachable(windows, mode, t) && t.windows == windows && RestartUnderWay(t, version)
    requires e == if windows then StopReturns(Some(true), U.Quit(false, false)) else DrainSeen(U.Quit(false, false))
    ensures Reachable(windows, mode, s) && LastIsAt(s, HandedOver) && !Last(s).onQuit
    ensures s.controller.status == U.Ready(version) && s.controller.installing && s.installer.allowQuit
  {
    RestartIsHandedOverExactlyWhen(windows, mode, t, e);
    ReachStep(windows, mode, t, e);
    s := Step(t, e);
  }

  // ---- accepted work can always settle, so every holder can drain ----

  /** Nothing but accepted work has gone on. */
  ghost predicate OnlyWorks(s: Desktop, t: Desktop) {
    && t == s.(clock := t.clock, gate := t.gate, exchanges := t.exchanges, others := t.others)
    && t.gate.reason == s.gate.reason && |t.gate.tokens| == |s.gate.tokens|
    && (forall i: nat :: i < |s.gate.tokens| ==> t.gate.tokens[i].released == s.gate.tokens[i].released)
  }

  lemma OtherSettlesWorks(s: Desktop)
    requires Safe(s) && s.others > 0
    ensures Possible(s, OtherSettles)
    ensures
      var t := Step(s, OtherSettles);
      Safe(t) && t.gate.active == s.gate.active - 1 && OnlyWorks(s, t)
  {
    StepKeeps(s, OtherSettles);
    assert Step(s, OtherSettles) == StepOther(s, OtherSettles).(clock := s.clock + 1);
  }

  lemma ExchangeSettlesWorks(s: Desktop, id: nat)
    requires Safe(s) && id < |s.exchanges| && s.exchanges[id].phase in {Returned, Rejected}
    ensures Possible(s, ExchangeSettles(id))
    ensures
      var t := Step(s, ExchangeSettles(id));
      Safe(t) && t.gate.active == s.gate.active - 1 && OnlyWorks(s, t)
  {
    assert id in Running(s);
    StepKeeps(s, ExchangeSettles(id));
    assert Step(s, ExchangeSettles(id)) == SettleExchange(s, id).(clock := s.clock + 1);
  }

  lemma ExchangeGivesUp(s: Desktop, id: nat)
    requires Safe(s) && id < |s.exchanges| && s.exchanges[id].phase in {Admitted, Exchanging, Rechecking}
    ensures Possible(s, ExchangeResumes(id, false))
    ensures
      var t := Step(s, ExchangeResumes(id, false));
      Safe(t) && t.gate == s.gate && OnlyWorks(s, t) && id < |t.exchanges| && t.exchanges[id].phase == Rejected
  {
    StepKeeps(s, ExchangeResumes(id, false));
  }

  lemma {:induction false} RunsJoin(s: Desktop, a: seq<Event>, b: seq<Event>)
    requires IsRun(s, a) && IsRun(After(s, a), b)
    ensures IsRun(s, a + b) && After(s, a + b) == After(After(s, a), b)
    decreases |a|
  {
    if a == [] {
      assert a + b == b;
    } else {
      RunsJoin(Step(s, a[0]), a[1..], b);
      assert (a + b)[1..] == a[1..] + b;
    }
  }

  lemma OneStepRun(s: Desktop, e: Event)
    requires Possible(s, e)
    ensures IsRun(s, [e]) && After(s, [e]) == Step(s, e)
  {
    assert [e][1..] == [];
  }

  /** One accepted action settles. */
  lemma OneSettles(s: Desktop) returns (run: seq<Event>)
    requires Safe(s) && s.gate.active > 0
    ensures IsRun(s, run)
    ensures
      var t := After(s, run);
      Safe(t) && t.gate.active == s.gate.active - 1 && OnlyWorks(s, t)
  {
    if s.others > 0 {
      run := [OtherSettles];
      OtherSettlesWorks(s);
      OneStepRun(s, OtherSettles);
    } else {
      var id :| id in Running(s);
      run := OneExchangeSettles(s, id);
    }
  }

  lemma OneExchangeSettles(s: Desktop, id: nat) returns (run: seq<Event>)
    requires Safe(s) && id < |s.exchanges| && Unsettled(s.exchanges[id])
    ensures IsRun(s, run)
    ensures
      var t := After(s, run);
      Safe(t) && t.gate.active == s.gate.active - 1 && OnlyWorks(s, t)
  {
    if s.exchanges[id].phase in {Returned, Rejected} {
      run := [ExchangeSettles(id)];
      ExchangeSettlesWorks(s, id);
      OneStepRun(s, ExchangeSettles(id));
    } else {
      var e := ExchangeResumes(id, false);
      ExchangeGivesUp(s, id);
      OneStepRun(s, e);
      ExchangeSettlesWorks(Step(s, e), id);
      OneStepRun(Step(s, e), ExchangeSettles(id));
      RunsJoin(s, [e], [ExchangeSettles(id)]);
      run := [e] + [ExchangeSettles(id)];
    }
  }

  /** From every safe state all accepted work can settle, without a step of anyone else's, and
      then every `drained` promise has resolved. */
  lemma {:induction false} EveryHolderDrains(s: Desktop) returns (run: seq<Event>)
    requires Safe(s)
    ensures IsRun(s, run)
    ensures
      var t := After(s, run);
      && Safe(t) && OnlyWorks(s, t) && t.gate.active == 0 && Running(t) == {} && t.others == 0
      && forall i: nat :: i < |t.gate.tokens| ==> t.gate.tokens[i].drained
    decreases s.gate.active
  {
    if s.gate.active == 0 {
      run := [];
      assert |Running(s)| == 0;
    } else {
      var first := OneSettles(s);
      var t := After(s, first);
      var rest := EveryHolderDrains(t);
      RunsJoin(s, first, rest);
      run := first + rest;
    }
  }

  // ---- sign-out ----

  /** How many steps a sign-out still has before it. */
  function Remaining(at: Cleanup): nat {
    match at
    case Cancelling => 6
    case AwaitingDrain => 5
    case Revoking => 4
    case Clearing => 3
    case LoggingOut => 2
    case Showing => 1
    case Finished => 0
  }

  lemma ResumingMovesOn(s: Desktop)
    requires Possible(s, SignOutResumes)
    ensures
      var t := Step(s, SignOutResumes);
      && |t.signOuts| == |s.signOuts|
      && Remaining(t.signOuts[|t.signOuts| - 1].at) == Remaining(s.signOuts[|s.signOuts| - 1].at) - 1
  {
    assert Step(s, SignOutResumes) == ResumeSignOut(s).(clock := s.clock + 1);
  }

  lemma SignOutStepWorks(s: Desktop)
    requires Safe(s) && s.signingOut
    requires
      var k := s.signOuts[|s.signOuts| - 1];
      k.at == AwaitingDrain ==> k.token < |s.gate.tokens| && s.gate.tokens[k.token].drained
    ensures Possible(s, SignOutResumes)
    ensures
      var t := Step(s, SignOutResumes);
      && Safe(t) && |t.signOuts| == |s.signOuts|
      && Remaining(t.signOuts[|t.signOuts| - 1].at) == Remaining(s.signOuts[|s.signOuts| - 1].at) - 1
  {
    assert SignOutOk(s, |s.signOuts| - 1);
    StepKeeps(s, SignOutResumes);
    ResumingMovesOn(s);
  }

  lemma DrainedSignOutWorks(s: Desktop)
    requires Safe(s) && s.signOuts != [] && s.signingOut
    requires forall i: nat :: i < |s.gate.tokens| ==> s.gate.tokens[i].drained
    ensures Possible(s, SignOutResumes)
    ensures
      var t := Step(s, SignOutResumes);
      && Safe(t) && |t.signOuts| == |s.signOuts|
      && Remaining(t.signOuts[|t.signOuts| - 1].at) == Remaining(s.signOuts[|s.signOuts| - 1].at) - 1
  {
    assert SignOutOk(s, |s.signOuts| - 1);
    SignOutStepWorks(s);
  }

  /** A sign-out can take its next step once all accepted work has settled. */
  lemma SignOutMovesOn(s: Desktop) returns (run: seq<Event>)
    requires Safe(s) && s.signOuts != [] && s.signingOut
    ensures IsRun(s, run)
    ensures
      var t := After(s, run);
      && Safe(t) && |t.signOuts| == |s.signOuts|
      && Remaining(t.signOuts[|t.signOuts| - 1].at) < Remaining(s.signOuts[|s.signOuts| - 1].at)
  {
    var settle := EveryHolderDrains(s);
    var t := After(s, settle);
    DrainedSignOutWorks(t);
    OneStepRun(t, SignOutResumes);
    RunsJoin(s, settle, [SignOutResumes]);
    run := settle + [SignOutResumes];
  }

  /** Every sign-out can be brought to its end, whoever is working when it begins. */
  lemma {:induction false} EverySignOutCanFinish(s: Desktop) returns (run: seq<Event>)
    requires Safe(s) && s.signOuts != []
    ensures IsRun(s, run)
    ensures
      var t := After(s, run);
      && Safe(t) && |t.signOuts| == |s.signOuts| && t.signOuts[|t.signOuts| - 1].at == Finished && !t.signingOut
      && t.signOuts[|t.signOuts| - 1].token < |t.gate.tokens|
      && t.gate.tokens[t.signOuts[|t.signOuts| - 1].token].released
    decreases Remaining(s.signOuts[|s.signOuts| - 1].at)
  {
    assert SignOutOk(s, |s.signOuts| - 1);
    if !s.signingOut {
      run := [];
    } else {
      var first := SignOutMovesOn(s);
      var rest := EverySignOutCanFinish(After(s, first));
      RunsJoin(s, first, rest);
      run := first + rest;
    }
  }

  /** A sign-out begins exactly when none is under way and the gate is free. */
  lemma SignOutBeginsExactlyWhen(windows: bool, mode: U.Mode, s: Desktop)
    requires Reachable(windows, mode, s)
    ensures
      var t := Step(s, SignOutRequested);
      if s.signingOut || G.Blocked(s.gate) then t == s.(clock := s.clock + 1)
      else
        && |t.signOuts| == |s.signOuts| + 1 && t.signingOut
        && G.Holds(t.gate, t.signOuts[|s.signOuts|].token) && t.signOuts[|s.signOuts|].begunAt == s.clock
        && t == s.(clock := s.clock + 1, gate := t.gate, owners := t.owners, signingOut := true, signOuts := t.signOuts)
  {
    ReachableIsSafe(windows, mode, s);
    assert Step(s, SignOutRequested) == RequestSignOut(s).(clock := s.clock + 1);
  }

  // ---- exchanges and other actions ----

  /** Work is admitted exactly while nobody holds the gate, and then counts as active. */
  lemma WorkIsAdmittedExactlyWhen(windows: bool, mode: U.Mode, s: Desktop)
    requires Reachable(windows, mode, s)
    ensures
      var t, u := Step(s, ExchangeRequested), Step(s, OtherRequested);
      if G.Blocked(s.gate) then t == u == s.(clock := s.clock + 1)
      else
        && t == s.(clock := s.clock + 1, gate := t.gate, exchanges := t.exchanges)
        && t.exchanges == s.exchanges + [Exchange(Admitted, s.clock, None, None)]
        && u == s.(clock := s.clock + 1, gate := t.gate, others := s.others + 1)
        && t.gate.active == s.gate.active + 1
  {
    ReachableIsSafe(windows, mode, s);
    assert Step(s, ExchangeRequested) == RequestExchange(s).(clock := s.clock + 1);
    assert Step(s, OtherRequested) == StepOther(s, OtherRequested).(clock := s.clock + 1);
  }

  // ---- uninstalling and quitting ----

  /** An uninstallation that is over gives the gate back exactly when the application is not
      about to quit. */
  lemma UninstallGivesBackExactlyWhen(windows: bool, mode: U.Mode, s: Desktop)
    requires Reachable(windows, mode, s) && Possible(s, UninstallEnds)
    ensures
      var t := Step(s, UninstallEnds);
      && t.uninstalling.None? && (G.Blocked(t.gate) <==> s.quitting)
      && (t.gate.tokens[s.uninstalling.value].released <==> !s.quitting)
      && t == s.(clock := s.clock + 1, gate := t.gate, uninstalling := None)
  {
    ReachableIsSafe(windows, mode, s);
    G.ReleaseKeeps(s.gate, s.uninstalling.value);
    assert Step(s, UninstallEnds) == EndUninstall(s).(clock := s.clock + 1);
  }

  /** A quit is deferred exactly when no uninstallation is under way and either an attempt is in
      progress that the updater has not taken over, or an update is ready and it is Windows, work is
      running or somebody holds the gate. Elsewhere an idle application just quits. */
  lemma QuitIsDeferredExactlyWhen(windows: bool, mode: U.Mode, s: Desktop)
    requires Reachable(windows, mode, s)
    ensures DefersQuit(s) <==>
      && s.uninstalling.None? && !LastIsAt(s, HandedOver)
      && (|| (s.installer.attempts != [] && !LastIsAt(s, Ended))
          || (s.controller.status.Ready?
              && (s.windows || s.others > 0 || Running(s) != {} || exists t: nat :: G.Holds(s.gate, t))))
  {
    ReachableIsSafe(windows, mode, s);
    if s.gate.active == 0 {
      assert |Running(s)| == 0;
    }
  }

  lemma InstallCallBegins(s: Desktop)
    requires G.Exclusive(s.gate) && (s.installer.inProgress || s.controller.status.Ready?)
    ensures
      var t := CallInstall(s, true);
      if s.installer.inProgress || G.Blocked(s.gate) then t == s
      else
        && t.installer.inProgress && LastIsAt(t, Draining) && Last(t).onQuit && G.Holds(t.gate, Last(t).token)
        && |t.installer.attempts| == |s.installer.attempts| + 1
        && t == s.(gate := t.gate, owners := t.owners, installer := t.installer)
  {
  }

  /** A quit that is not deferred goes through; a deferred one becomes an installation exactly
      when the gate is free and none is under way. */
  lemma QuitGoesThroughExactlyWhen(windows: bool, mode: U.Mode, s: Desktop)
    requires Reachable(windows, mode, s)
    ensures
      var t := Step(s, QuitRequested);
      if !DefersQuit(s) then t == s.(clock := s.clock + 1, quitting := true)
      else if s.installer.inProgress || G.Blocked(s.gate) then t == s.(clock := s.clock + 1)
      else
        && t.installer.inProgress && LastIsAt(t, Draining) && Last(t).onQuit && G.Holds(t.gate, Last(t).token)
        && |t.installer.attempts| == |s.installer.attempts| + 1
        && t == s.(clock := s.clock + 1, gate := t.gate, owners := t.owners, installer := t.installer)
  {
    ReachableIsSafe(windows, mode, s);
    assert Step(s, QuitRequested) == RequestQuit(s).(clock := s.clock + 1);
    if DefersQuit(s) {
      InstallCallBegins(s);
    }
  }
}
