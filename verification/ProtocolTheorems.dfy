/** The promises of the desktop protocol, over every run from a fresh start. */
module ProtocolTheorems {
  import opened Common
  import opened DesktopProtocol
  import opened ProtocolSafety
  import G = MutationGate
  import U = UpdateController

  lemma StartIsSafe(windows: bool, mode: U.Mode)
    ensures Safe(Start(windows, mode))
  {
    assert Running(Start(windows, mode)) == {};
  }

  lemma {:induction false} RunKeepsSafe(s: Desktop, events: seq<Event>)
    requires Safe(s) && IsRun(s, events)
    ensures Safe(After(s, events))
    decreases |events|
  {
    if events != [] {
      StepKeeps(s, events[0]);
      RunKeepsSafe(Step(s, events[0]), events[1..]);
    }
  }

  /** A state some run reaches on the given platform and update policy. */
  ghost predicate Reachable(windows: bool, mode: U.Mode, s: Desktop) {
    exists events :: IsRun(Start(windows, mode), events) && After(Start(windows, mode), events) == s
  }

  lemma ReachableIsSafe(windows: bool, mode: U.Mode, s: Desktop)
    requires Reachable(windows, mode, s)
    ensures Safe(s)
  {
    var events :| IsRun(Start(windows, mode), events) && After(Start(windows, mode), events) == s;
    StartIsSafe(windows, mode);
    RunKeepsSafe(Start(windows, mode), events);
  }

  // ---- update attempts ----

  /** The updater's own quit is let through only by an attempt in progress that still holds
      the drained gate and, on Windows, has the answer of the stop step. */
  lemma QuitIsAllowedOnlyWhenDrained(windows: bool, mode: U.Mode, s: Desktop)
    requires Reachable(windows, mode, s) && s.installer.allowQuit
    ensures s.installer.inProgress && LastIsAt(s, HandedOver)
    ensures G.Holds(s.gate, Last(s).token) && G.Blocked(s.gate) && s.gate.active == 0
    ensures s.windows ==> Last(s).stop.Some?
  {
    ReachableIsSafe(windows, mode, s);
    assert AttemptOk(s, |s.installer.attempts| - 1);
    assert G.Holds(s.gate, Last(s).token);
  }

  /** While work is running under a ready update a quit is deferred exactly when no uninstallation
      is under way: only that lets a quit interrupt work. */
  lemma QuitInterruptsWorkExactlyWhen(windows: bool, mode: U.Mode, s: Desktop)
    requires Reachable(windows, mode, s) && s.controller.status.Ready?
    ensures s.gate.active > 0 ==> (!DefersQuit(s) <==> s.uninstalling.Some?)
    ensures !DefersQuit(s) && s.uninstalling.None? ==> s.gate.active == 0 && Running(s) == {} && s.others == 0
    ensures s.gate.active > 0 && s.uninstalling.None? ==> !RequestQuit(s).quitting || s.quitting
  {
    ReachableIsSafe(windows, mode, s);
    if s.installer.allowQuit {
      QuitIsAllowedOnlyWhenDrained(windows, mode, s);
    }
    if s.gate.active == 0 {
      assert |Running(s)| == 0;
    }
  }

  /** And it does happen: an uninstallation requested while work runs and an update is ready waits
      for its drain, and a quit then passes. */
  lemma UninstallLetsQuitThrough(mode: U.Mode, version: string) returns (s: Desktop)
    requires mode.Install?
    ensures Reachable(false, mode, s) && s.controller.status == U.Ready(version)
    ensures s.gate.active == 1 && s.uninstalling.Some? && !DefersQuit(s) && !s.quitting && RequestQuit(s).quitting
  {
    var ready := ReadyIsReachable(mode, version);
    ReachStep(false, mode, ready, OtherRequested);
    var busy := Step(ready, OtherRequested);
    assert busy == StepOther(ready, OtherRequested).(clock := ready.clock + 1);
    ReachStep(false, mode, busy, UninstallRequested);
    s := Step(busy, UninstallRequested);
    assert s == RequestUninstall(busy).(clock := busy.clock + 1);
  }

  /** All flags reset and the token given back. */
  ghost predicate CleanlyEnded(s: Desktop) {
    && LastIsAt(s, Ended)
    && !s.installer.inProgress && !s.installer.allowQuit && s.installer.recoverFailure.None?
    && !s.controller.installing
    && Last(s).token < |s.gate.tokens| && s.gate.tokens[Last(s).token].released
    && Last(s).restores == (if Last(s).stop == Some(true) then 1 else 0)
  }

  /** Every attempt that is over gave back its token and restored the services once if the
      stop step had reported true, never otherwise; all but the newest are over; and when the
      newest is over, every flag is reset. */
  lemma EveryAttemptIsAccountedFor(windows: bool, mode: U.Mode, s: Desktop, i: nat)
    requires Reachable(windows, mode, s) && i < |s.installer.attempts|
    ensures
      var a := s.installer.attempts[i];
      && (i < |s.installer.attempts| - 1 ==> a.stage == Ended)
      && a.restores <= 1
      && (a.stage == Ended ==>
            && a.token < |s.gate.tokens| && s.gate.tokens[a.token].released
            && (a.restores == 1 <==> a.stop == Some(true)))
      && (a.stage != Ended ==> G.Holds(s.gate, a.token))
    ensures LastIsAt(s, Ended) ==> CleanlyEnded(s)
  {
    ReachableIsSafe(windows, mode, s);
    assert AttemptOk(s, i);
    assert AttemptOk(s, |s.installer.attempts| - 1);
  }

  lemma EndedIsClean(s: Desktop)
    requires Safe(s) && LastIsAt(s, Ended)
    ensures CleanlyEnded(s)
  {
    assert AttemptOk(s, |s.installer.attempts| - 1);
  }

  /** What `recover` does to an attempt that was handed over. */
  lemma RecoverEffect(s: Desktop, i: nat)
    requires i == |s.installer.attempts| - 1 && HasAttempt(s, i) && LastIsAt(s, HandedOver)
    ensures
      var t := Recover(s, i);
      && |t.installer.attempts| == i + 1 && Last(t).token == Last(s).token && !t.installer.allowQuit
      && LastIsAt(t, if Last(s).stop == Some(true) then Restoring else Ended)
  {}

  lemma ErrorStep(s: Desktop)
    requires InstallerOk(s) && LastIsAt(s, HandedOver) && HasAttempt(s, |s.installer.attempts| - 1)
    ensures
      var t := s.(controller := U.OnError(s.controller));
      Step(s, Updater(U.UpdaterError)) ==
        (if !Last(s).onQuit || s.controller.status.Ready? then Recover(t, |s.installer.attempts| - 1) else t)
          .(clock := s.clock + 1)
  {
    assert Step(s, Updater(U.UpdaterError)) == StepUpdater(s, U.UpdaterError).(clock := s.clock + 1);
  }

  /** Where an error leaves an attempt that was handed over. */
  lemma ErrorStage(s: Desktop)
    requires InstallerOk(s) && LastIsAt(s, HandedOver) && HasAttempt(s, |s.installer.attempts| - 1)
    ensures
      var t := Step(s, Updater(U.UpdaterError));
      if !Last(s).onQuit || s.controller.status.Ready? then
        LastIsAt(t, if Last(s).stop == Some(true) then Restoring else Ended) && !t.installer.allowQuit
      else LastIsAt(t, HandedOver)
  {
    ErrorStep(s);
    RecoverEffect(s.(controller := U.OnError(s.controller)), |s.installer.attempts| - 1);
  }

  /** An updater error after hand-over is recovered exactly when the attempt is a restart or the
      update is still ready; a restart therefore always recovers. */
  lemma ErrorAfterHandOver(windows: bool, mode: U.Mode, s: Desktop)
    requires Reachable(windows, mode, s) && LastIsAt(s, HandedOver)
    ensures
      var t := Step(s, Updater(U.UpdaterError));
      && (!Last(s).onQuit || s.controller.status.Ready? <==> !LastIsAt(t, HandedOver))
      && (!LastIsAt(t, HandedOver) ==>
            && !t.installer.allowQuit
            && (if Last(s).stop == Some(true) then LastIsAt(t, Restoring) else CleanlyEnded(t)))
  {
    ReachableIsSafe(windows, mode, s);
    assert AttemptOk(s, |s.installer.attempts| - 1);
    ErrorStage(s);
    SafeStep(s, Updater(U.UpdaterError));
  }

  /** A step keeps the system safe, and an attempt it ends ended cleanly. */
  lemma SafeStep(s: Desktop, e: Event)
    requires Safe(s) && Possible(s, e)
    ensures Safe(Step(s, e)) && (LastIsAt(Step(s, e), Ended) ==> CleanlyEnded(Step(s, e)))
  {
    StepKeeps(s, e);
    if LastIsAt(Step(s, e), Ended) {
      EndedIsClean(Step(s, e));
    }
  }

  lemma {:induction false} RunExtends(s: Desktop, events: seq<Event>, e: Event)
    requires IsRun(s, events) && Possible(After(s, events), e)
    ensures IsRun(s, events + [e]) && After(s, events + [e]) == Step(After(s, events), e)
    decreases |events|
  {
    if events == [] {
      assert [e][1..] == [];
    } else {
      RunExtends(Step(s, events[0]), events[1..], e);
      assert (events + [e])[1..] == events[1..] + [e];
    }
  }

  lemma ReachStep(windows: bool, mode: U.Mode, s: Desktop, e: Event)
    requires Reachable(windows, mode, s) && Possible(s, e)
    ensures Reachable(windows, mode, Step(s, e))
  {
    var events :| IsRun(Start(windows, mode), events) && After(Start(windows, mode), events) == s;
    RunExtends(Start(windows, mode), events, e);
  }

  lemma ReachUpdater(windows: bool, mode: U.Mode, s: Desktop, event: U.Event)
    requires Reachable(windows, mode, s) && !event.InstallRequested? && !event.UpdaterError?
    ensures Reachable(windows, mode, s.(controller := U.Next(s.controller, event), clock := s.clock + 1))
  {
    ReachStep(windows, mode, s, Updater(event));
    assert Step(s, Updater(event)) == StepUpdater(s, event).(clock := s.clock + 1);
  }

  /** The updater's own events, errors aside, reach every state of the controller on their own. */
  lemma {:induction false} ReachByUpdater(windows: bool, mode: U.Mode, events: seq<U.Event>, n: nat)
    requires n <= |events|
    requires forall i :: 0 <= i < n ==> !events[i].InstallRequested? && !events[i].UpdaterError?
    ensures Reachable(windows, mode, Start(windows, mode).(controller := U.At(mode, events, n), clock := n))
  {
    var s := Start(windows, mode);
    if n == 0 {
      assert IsRun(s, []) && After(s, []) == s;
      assert s == s.(controller := U.At(mode, events, 0), clock := 0);
    } else {
      ReachByUpdater(windows, mode, events, n - 1);
      ReachUpdater(windows, mode, s.(controller := U.At(mode, events, n - 1), clock := n - 1), events[n - 1]);
    }
  }

  lemma ReadyIsReachable(mode: U.Mode, version: string) returns (s: Desktop)
    requires mode.Install?
    ensures Reachable(false, mode, s) && s.controller.status == U.Ready(version) && s.controller.mode == mode
    ensures s == Start(false, mode).(clock := s.clock, controller := s.controller)
  {
    var events := U.Download(version);
    U.DownloadEndsReady(mode, version);
    ReachByUpdater(false, mode, events, 3);
    s := Start(false, mode).(controller := U.At(mode, events, 3), clock := 3);
  }

  /** A quit attempt waits for its drain while the update has already failed. */
  ghost predicate FailedDrain(s: Desktop) {
    && s.controller.status.Failed? && !s.windows
    && s.installer == Installer(true, false, None, [Attempt(0, true, Draining, None, 0)])
    && s.gate.tokens == [G.Token(false, true)]
  }

  /** A quit under a ready update while one action runs. */
  ghost predicate BusyAndReady(s: Desktop) {
    && s.controller.status.Ready? && !s.controller.mode.Disabled? && !s.windows
    && s.gate == G.Gate(1, None, {}, []) && s.others == 1 && s.uninstalling.None?
    && s.installer == Installer(false, false, None, [])
  }

  lemma FailedDrainIsReachable(mode: U.Mode) returns (s: Desktop)
    requires mode.Install?
    ensures Reachable(false, mode, s) && FailedDrain(s)
  {
    var ready := ReadyIsReachable(mode, "2.0.0");
    ReachStep(false, mode, ready, OtherRequested);
    var busy := Step(ready, OtherRequested);
    assert busy == StepOther(ready, OtherRequested).(clock := ready.clock + 1);
    ReachStep(false, mode, busy, QuitRequested);
    var called := Step(busy, QuitRequested);
    QuitWaits(busy);
    ReachStep(false, mode, called, Updater(U.UpdaterError));
    var failed := Step(called, Updater(U.UpdaterError));
    WaitingThenFailed(called);
    ReachStep(false, mode, failed, OtherSettles);
    s := Step(failed, OtherSettles);
    FailedThenDrained(failed);
  }

  /** The quit attempt waits for the running action. */
  ghost predicate Waiting(s: Desktop) {
    && s.gate.active == 1 && s.gate.waiters == {0} && s.gate.tokens == [G.Token(false, false)] && s.others == 1
    && !s.windows && !s.controller.mode.Disabled? && !s.controller.status.Off?
    && s.installer == Installer(true, false, None, [Attempt(0, true, Draining, None, 0)])
  }

  lemma QuitWaits(s: Desktop)
    requires BusyAndReady(s)
    ensures Waiting(Step(s, QuitRequested))
  {
    InstallWaits(s);
    assert Step(s, QuitRequested) == RequestQuit(s).(clock := s.clock + 1);
  }

  lemma InstallWaits(s: Desktop)
    requires BusyAndReady(s)
    ensures DefersQuit(s) && Waiting(CallInstall(s, true).(clock := s.clock + 1))
  {}

  lemma WaitingThenFailed(s: Desktop)
    requires Waiting(s)
    ensures Waiting(Step(s, Updater(U.UpdaterError))) && Step(s, Updater(U.UpdaterError)).controller.status.Failed?
  {
    assert Step(s, Updater(U.UpdaterError)) == StepUpdater(s, U.UpdaterError).(clock := s.clock + 1);
  }

  lemma FailedThenDrained(s: Desktop)
    requires Waiting(s) && s.controller.status.Failed?
    ensures FailedDrain(Step(s, OtherSettles))
  {
    assert Step(s, OtherSettles) == StepOther(s, OtherSettles).(clock := s.clock + 1);
    assert G.Leave(s.gate).tokens == [G.Token(false, true)];
  }

  /** The quit attempt is the exception: an error that arrives while it waits for the drain
      takes the update out of `ready`, the attempt is handed over all the same, and a later
      updater error then leaves the gate blocked. */
  lemma QuitAttemptMayStayHandedOver() returns (s: Desktop)
    ensures Reachable(false, U.Install, s) && LastIsAt(s, HandedOver) && Last(s).onQuit
    ensures !s.controller.status.Ready?
    ensures
      var t := Step(s, Updater(U.UpdaterError));
      LastIsAt(t, HandedOver) && t.installer.allowQuit && G.Blocked(t.gate)
  {
    s := FailedDrainIsReachable(U.Install);
    var drain := DrainSeen(U.Quit(false, false));
    ReachStep(false, U.Install, s, drain);
    InvokingStep(s, drain, None);
    s := Step(s, drain);
    ErrorAfterHandOver(false, U.Install, s);
    ReachStep(false, U.Install, s, Updater(U.UpdaterError));
    var t := Step(s, Updater(U.UpdaterError));
    ReachableIsSafe(false, U.Install, t);
    QuitIsAllowedOnlyWhenDrained(false, U.Install, t);
  }

  /** The segment that calls the `install` option, from the stop report or the drain. */
  lemma InvokingStep(s: Desktop, e: Event, report: Option<bool>)
    requires Possible(s, e)
    requires (e.DrainSeen? && !s.windows && report.None? && Last(s).stop.None?)
          || (e.StopReturns? && report == e.report && report.Some?)
    ensures HasAttempt(Entered(s, report), |s.installer.attempts| - 1)
    ensures Step(s, e) ==
      InvokeInstall(Entered(s, report), |s.installer.attempts| - 1, e.quit).(clock := s.clock + 1)
  {
    HandOverIsInvoke(s, |s.installer.attempts| - 1, report, e.quit);
    if e.DrainSeen? {
      DrainHandsOver(s, e.quit);
    } else {
      StopHandsOver(s, e.report, e.quit);
    }
  }

  lemma DrainHandsOver(s: Desktop, quit: U.Quit)
    requires Possible(s, DrainSeen(quit)) && !s.windows && Last(s).stop.None?
    ensures
      var i := |s.installer.attempts| - 1;
      Step(s, DrainSeen(quit)) ==
        HandOver(SetAttempt(s, i, Last(s).(stop := None)), i, quit).(clock := s.clock + 1)
  {
    var i := |s.installer.attempts| - 1;
    assert s.installer.attempts[i := Last(s)] == s.installer.attempts;
    assert Step(s, DrainSeen(quit)) == SeeDrain(s, quit).(clock := s.clock + 1);
  }

  lemma StopHandsOver(s: Desktop, report: Option<bool>, quit: U.Quit)
    requires Possible(s, StopReturns(report, quit)) && report.Some?
    ensures
      var i := |s.installer.attempts| - 1;
      Step(s, StopReturns(report, quit)) ==
        HandOver(SetAttempt(s, i, Last(s).(stop := report)), i, quit).(clock := s.clock + 1)
  {}

  /** `quitAndInstall` failing by an event or by an exception, or a refused restart, recovers
      within the same segment. */
  lemma FailedRestartRecoversAtOnce(windows: bool, mode: U.Mode, s: Desktop, e: Event)
    requires Reachable(windows, mode, s) && Possible(s, e)
    requires (e.DrainSeen? && !s.windows) || (e.StopReturns? && e.report.Some?)
    requires !Last(s).onQuit
    requires e.quit.emitsError || e.quit.throws || !s.controller.status.Ready?
    ensures
      var t := Step(s, e);
      && t.installer.attempts != [] && Last(t).token == Last(s).token && !t.installer.allowQuit
      && (if e.StopReturns? && e.report == Some(true) then LastIsAt(t, Restoring) else CleanlyEnded(t))
  {
    ReachableIsSafe(windows, mode, s);
    assert AttemptOk(s, |s.installer.attempts| - 1);
    FailedRestartStage(s, e, if e.StopReturns? then e.report else None);
    SafeStep(s, e);
  }

  lemma FailedRestartStage(s: Desktop, e: Event, report: Option<bool>)
    requires Possible(s, e) && !s.controller.installing
    requires (e.DrainSeen? && !s.windows && report.None? && Last(s).stop.None?)
          || (e.StopReturns? && report == e.report && report.Some?)
    requires !Last(s).onQuit && (e.quit.emitsError || e.quit.throws || !s.controller.status.Ready?)
    ensures
      var t := Step(s, e);
      && t.installer.attempts != [] && Last(t).token == Last(s).token && !t.installer.allowQuit
      && LastIsAt(t, if report == Some(true) then Restoring else Ended)
  {
    var i := |s.installer.attempts| - 1;
    InvokingStep(s, e, report);
    var u := Entered(s, report);
    InvokeInstallCases(u, i, e.quit);
    var c := U.InstallDownloaded(u.controller, e.quit).0;
    assert !c.installing;
    RecoverEffect(u.(controller := c), i);
  }

  /** The attempts other than the `i`-th are the same in both states. */
  ghost predicate OthersSame(s: Desktop, t: Desktop, i: nat) {
    && |t.installer.attempts| == |s.installer.attempts|
    && forall j: nat :: j < |s.installer.attempts| && j != i ==>
         t.installer.attempts[j] == s.installer.attempts[j]
  }

  lemma RecoverTouchesOne(s: Desktop, i: nat)
    requires HasAttempt(s, i)
    ensures OthersSame(s, Recover(s, i), i)
  {}

  lemma InvokeTouchesOne(s: Desktop, i: nat, quit: U.Quit)
    requires HasAttempt(s, i) && s.installer.recoverFailure == Some(i) && !s.controller.installing
    ensures OthersSame(s, InvokeInstall(s, i, quit), i)
  {
    if !s.installer.attempts[i].onQuit {
      InvokeInstallCases(s, i, quit);
      RecoverTouchesOne(s.(controller := U.InstallDownloaded(s.controller, quit).0), i);
    }
  }

  lemma InvokingStepTouchesOne(s: Desktop, e: Event)
    requires InstallerOk(s) && Possible(s, e) && ((e.DrainSeen? && !s.windows) || (e.StopReturns? && e.report.Some?))
    ensures OthersSame(s, Step(s, e), |s.installer.attempts| - 1)
  {
    var i := |s.installer.attempts| - 1;
    assert AttemptOk(s, i);
    var report := if e.StopReturns? then e.report else None;
    InvokingStep(s, e, report);
    InvokeTouchesOne(Entered(s, report), i, e.quit);
  }

  lemma InstallerUntouched(s: Desktop, e: Event)
    requires Possible(s, e)
    requires !e.Updater? && !e.QuitRequested? && !e.RestartRequested?
    requires !e.DrainSeen? && !e.StopReturns? && !e.RestoreReturns?
    ensures Step(s, e).installer == s.installer
  {}

  lemma UpdaterTouchesLast(s: Desktop, event: U.Event)
    requires InstallerOk(s) && !event.InstallRequested?
    ensures
      var t := StepUpdater(s, event);
      if s.installer.recoverFailure.Some? && LastIsAt(s, HandedOver) then OthersSame(s, t, |s.installer.attempts| - 1)
      else t.installer.attempts == s.installer.attempts
  {
    if s.installer.recoverFailure.Some? {
      var i := |s.installer.attempts| - 1;
      assert AttemptOk(s, i);
      RecoverTouchesOne(s.(controller := U.Next(s.controller, event)), i);
    }
  }

  /** The `i`-th attempt is as it was, and the newest one if it was being restored. */
  ghost predicate Stands(a: Installer, b: Installer, i: nat)
    requires i < |a.attempts|
  {
    && i < |b.attempts| && b.attempts[i] == a.attempts[i]
    && (a.attempts[i].stage == Restoring ==> |b.attempts| == |a.attempts|)
  }

  /** An attempt that is over, or is being restored. */
  predicate IsClosing(s: Desktop, i: nat) {
    i < |s.installer.attempts| && (s.installer.attempts[i].stage == Ended || s.installer.attempts[i].stage == Restoring)
  }

  lemma UpdaterStands(s: Desktop, event: U.Event, i: nat)
    requires InstallerOk(s) && !event.InstallRequested? && IsClosing(s, i)
    ensures Stands(s.installer, Step(s, Updater(event)).installer, i)
  {
    UpdaterTouchesLast(s, event);
    assert Step(s, Updater(event)).installer == StepUpdater(s, event).installer;
  }

  lemma InstallStands(s: Desktop, onQuit: bool, i: nat)
    requires InstallerOk(s) && IsClosing(s, i)
    ensures Stands(s.installer, CallInstall(s, onQuit).installer, i)
  {}

  lemma QuitStands(s: Desktop, i: nat)
    requires InstallerOk(s) && IsClosing(s, i)
    ensures Stands(s.installer, Step(s, QuitRequested).installer, i)
  {
    InstallStands(s, true, i);
    assert Step(s, QuitRequested).installer == RequestQuit(s).installer;
  }

  lemma RestartStands(s: Desktop, i: nat)
    requires InstallerOk(s) && IsClosing(s, i)
    ensures Stands(s.installer, Step(s, RestartRequested).installer, i)
  {
    InstallStands(s, false, i);
    assert Step(s, RestartRequested).installer == CallInstall(s, false).installer;
  }

  lemma TouchingOneStands(s: Desktop, t: Desktop, i: nat)
    requires AttemptsOk(s) && IsClosing(s, i) && OthersSame(s, t, |s.installer.attempts| - 1)
    requires !IsClosing(s, |s.installer.attempts| - 1)
    ensures Stands(s.installer, t.installer, i)
  {}

  lemma FinishStands(s: Desktop, i: nat)
    requires AttemptsOk(s) && IsClosing(s, i) && s.installer.attempts[i].stage == Ended && Possible(s, RestoreReturns)
    ensures Stands(s.installer, Step(s, RestoreReturns).installer, i)
  {
    assert Step(s, RestoreReturns).installer == FinishRecovery(s, |s.installer.attempts| - 1).installer;
  }

  lemma DrainStands(s: Desktop, quit: U.Quit, i: nat)
    requires InstallerOk(s) && Possible(s, DrainSeen(quit)) && IsClosing(s, i)
    ensures Stands(s.installer, Step(s, DrainSeen(quit)).installer, i)
  {
    var t := Step(s, DrainSeen(quit));
    if s.windows {
      assert t.installer == SeeDrain(s, quit).installer;
    } else {
      InvokingStepTouchesOne(s, DrainSeen(quit));
    }
    TouchingOneStands(s, t, i);
  }

  lemma StopStands(s: Desktop, report: Option<bool>, quit: U.Quit, i: nat)
    requires InstallerOk(s) && Possible(s, StopReturns(report, quit)) && IsClosing(s, i)
    ensures Stands(s.installer, Step(s, StopReturns(report, quit)).installer, i)
  {
    var t := Step(s, StopReturns(report, quit));
    if report.None? {
      RecoverTouchesOne(s, |s.installer.attempts| - 1);
      assert t.installer == Recover(s, |s.installer.attempts| - 1).installer;
    } else {
      InvokingStepTouchesOne(s, StopReturns(report, quit));
    }
    TouchingOneStands(s, t, i);
  }

  /** No step changes an attempt that is over, and none but its own return ends a restoration. */
  lemma StepKeepsAttempt(s: Desktop, e: Event, i: nat)
    requires InstallerOk(s) && Possible(s, e) && IsClosing(s, i)
    requires s.installer.attempts[i].stage == Restoring ==> !e.RestoreReturns?
    ensures Stands(s.installer, Step(s, e).installer, i)
  {
    match e {
      case Updater(event) => UpdaterStands(s, event, i);
      case QuitRequested => QuitStands(s, i);
      case RestartRequested => RestartStands(s, i);
      case DrainSeen(quit) => DrainStands(s, quit, i);
      case StopReturns(report, quit) => StopStands(s, report, quit, i);
      case RestoreReturns => FinishStands(s, i);
      case _ => InstallerUntouched(s, e);
    }
  }

  lemma {:induction false} EndedStaysEnded(s: Desktop, events: seq<Event>, i: nat)
    requires Safe(s) && IsRun(s, events) && i < |s.installer.attempts|
    requires s.installer.attempts[i].stage == Ended
    ensures i < |After(s, events).installer.attempts|
    ensures After(s, events).installer.attempts[i] == s.installer.attempts[i]
    decreases |events|
  {
    if events != [] {
      StepKeeps(s, events[0]);
      StepKeepsAttempt(s, events[0], i);
      EndedStaysEnded(Step(s, events[0]), events[1..], i);
    }
  }

  lemma RestoreReturnEnds(s: Desktop)
    requires Safe(s) && LastIsAt(s, Restoring)
    ensures Possible(s, RestoreReturns) && Safe(Step(s, RestoreReturns)) && CleanlyEnded(Step(s, RestoreReturns))
    ensures |Step(s, RestoreReturns).installer.attempts| == |s.installer.attempts|
  {
    var i := |s.installer.attempts| - 1;
    assert AttemptOk(s, i);
    StepKeeps(s, RestoreReturns);
    var t := Step(s, RestoreReturns);
    assert t.installer == FinishRecovery(s, i).installer;
    EndedIsClean(t);
  }

  /** A restoration under way is left only by its own return, whatever else happens, and that
      return ends the attempt cleanly and for good. */
  lemma RestorationEndsTheAttempt(s: Desktop, events: seq<Event>)
    requires Safe(s) && LastIsAt(s, Restoring) && IsRun(s, events)
    ensures
      var t := After(s, events);
      if RestoreReturns !in events then
        && |t.installer.attempts| == |s.installer.attempts| && LastIsAt(t, Restoring)
        && Possible(t, RestoreReturns) && CleanlyEnded(Step(t, RestoreReturns))
      else
        && |s.installer.attempts| <= |t.installer.attempts|
        && t.installer.attempts[|s.installer.attempts| - 1].stage == Ended
  {
    if RestoreReturns in events {
      RestorationReturns(s, events);
    } else {
      RestorationPersists(s, events);
      RestoreReturnEnds(After(s, events));
    }
  }

  lemma RestoringStep(s: Desktop, e: Event)
    requires Safe(s) && LastIsAt(s, Restoring) && Possible(s, e) && e != RestoreReturns
    ensures Safe(Step(s, e)) && LastIsAt(Step(s, e), Restoring)
    ensures |Step(s, e).installer.attempts| == |s.installer.attempts|
  {
    StepKeeps(s, e);
    StepKeepsAttempt(s, e, |s.installer.attempts| - 1);
  }

  lemma {:induction false} RestorationPersists(s: Desktop, events: seq<Event>)
    requires Safe(s) && LastIsAt(s, Restoring) && IsRun(s, events) && RestoreReturns !in events
    ensures Safe(After(s, events)) && LastIsAt(After(s, events), Restoring)
    ensures |After(s, events).installer.attempts| == |s.installer.attempts|
    decreases |events|
  {
    if events != [] {
      RestoringStep(s, events[0]);
      RestorationPersists(Step(s, events[0]), events[1..]);
    }
  }

  lemma ReturnThenStays(s: Desktop, events: seq<Event>)
    requires Safe(s) && LastIsAt(s, Restoring) && IsRun(s, events) && events != [] && events[0] == RestoreReturns
    ensures |s.installer.attempts| <= |After(s, events).installer.attempts|
    ensures After(s, events).installer.attempts[|s.installer.attempts| - 1].stage == Ended
  {
    RestoreReturnEnds(s);
    EndedStaysEnded(Step(s, RestoreReturns), events[1..], |s.installer.attempts| - 1);
  }

  lemma {:induction false} RestorationReturns(s: Desktop, events: seq<Event>)
    requires Safe(s) && LastIsAt(s, Restoring) && IsRun(s, events) && RestoreReturns in events
    ensures |s.installer.attempts| <= |After(s, events).installer.attempts|
    ensures After(s, events).installer.attempts[|s.installer.attempts| - 1].stage == Ended
    decreases |events|
  {
    if events[0] == RestoreReturns {
      ReturnThenStays(s, events);
    } else {
      RestoringStep(s, events[0]);
      RestorationReturns(Step(s, events[0]), events[1..]);
    }
  }

  // ---- sign-out ----

  /** A session exchange that handed out a result is isolated from every sign-out: either it
      passed its recheck before the sign-out began and settled before the revoke, clear and
      logout steps, or it was admitted after the sign-out gave the gate back and rechecked
      after the sign-out was over. */
  lemma HandedOutResultsAreIsolated(windows: bool, mode: U.Mode, s: Desktop, i: nat, j: nat)
    requires Reachable(windows, mode, s) && i < |s.exchanges| && j < |s.signOuts|
    requires s.exchanges[i].phase == Settled(true)
    ensures
      var x, k := s.exchanges[i], s.signOuts[j];
      && x.recheckedAt.Some? && x.settledAt.Some?
      && (|| (&& x.recheckedAt.value < k.begunAt
              && (k.revokedAt.Some? ==> x.settledAt.value < k.revokedAt.value))
          || (&& k.releasedAt.Some? && k.releasedAt.value < x.admittedAt
              && k.endedAt.Some? && k.endedAt.value < x.recheckedAt.value))
  {
    ReachableIsSafe(windows, mode, s);
    assert ExchangeOk(s, s.exchanges[i]);
    assert Isolated(s.exchanges[i], s.signOuts[j]);
  }

  /** From its beginning to its release a sign-out admits nothing, and no exchange is unsettled
      once it has passed its drain. */
  lemma SignOutExcludesExchanges(windows: bool, mode: U.Mode, s: Desktop, j: nat)
    requires Reachable(windows, mode, s) && j < |s.signOuts| && s.signOuts[j].releasedAt.None?
    ensures RequestExchange(s) == s && s.signingOut
    ensures s.signOuts[j].revokedAt.Some? ==> Running(s) == {}
    ensures forall i: nat, ok :: i < |s.exchanges| && s.exchanges[i].phase == Rechecking ==>
      ResumeExchange(s.exchanges[i], s.signingOut, ok, s.clock).phase == Rejected
  {
    ReachableIsSafe(windows, mode, s);
    assert SignOutOk(s, j);
    assert G.Holds(s.gate, s.signOuts[j].token);
    if s.signOuts[j].revokedAt.Some? {
      assert |Running(s)| == 0;
    }
  }

  /** The second release, in the `finally` of sign-out, leaves a later holder's block alone. */
  lemma SecondReleaseIsHarmless(windows: bool, mode: U.Mode, s: Desktop)
    requires Reachable(windows, mode, s) && Possible(s, SignOutResumes)
    requires s.signOuts[|s.signOuts| - 1].at == Showing
    ensures Step(s, SignOutResumes).gate == s.gate
    ensures !Step(s, SignOutResumes).signingOut
  {
    ReachableIsSafe(windows, mode, s);
    assert SignOutOk(s, |s.signOuts| - 1);
    assert Step(s, SignOutResumes).gate == ResumeSignOut(s).gate;
  }
}
