/** `DesktopUpdateInstallation` as an object over the gate and the updater
    (apps/desktop/src/update-install.ts), one method for each segment between awaits.

    Each method is given, as a ghost, the state of the whole application that the objects are part
    of; it is proved to take the objects where the segment takes that state, and the segments that
    `install` is made of to keep the whole application safe. */
module UpdateInstallation {
  import opened Common
  import opened DesktopProtocol
  import opened ProtocolSafety
  import G = MutationGate
  import U = UpdateController

  lemma FailureKeepsAttempts(d: Desktop, i: nat)
    requires HasAttempt(d, i)
    ensures HasAttempt(RecoverAfterFailure(d), i)
  {}

  lemma InstallIsSafe(d: Desktop, onQuit: bool)
    ensures Safe(d) ==> Safe(CallInstall(d, onQuit).(clock := d.clock + 1))
  {
    if Safe(d) {
      InstallCalledKeeps(d, onQuit);
    }
  }

  class DesktopUpdateInstallation {
    const windows: bool
    const mutations: G.DesktopMutations
    const controller: U.DesktopUpdateController
    var inProgress: bool
    var allowQuit: bool
    var recoverFailure: Option<nat>
    /** What each call of `install` captured: its token, `stopped` and `recovery`. */
    var attempts: seq<Attempt>

    constructor (windows: bool, mutations: G.DesktopMutations, controller: U.DesktopUpdateController)
      ensures this.windows == windows && this.mutations == mutations && this.controller == controller
      ensures Fields() == Start(windows, controller.mode).installer
    {
      this.windows, this.mutations, this.controller := windows, mutations, controller;
      inProgress, allowQuit, recoverFailure, attempts := false, false, None, [];
    }

    function Fields(): Installer
      reads this
    {
      Installer(inProgress, allowQuit, recoverFailure, attempts)
    }

    /** The objects are in the part of `d` they own. */
    ghost predicate Matches(d: Desktop)
      reads this, mutations, controller
    {
      && windows == d.windows && Fields() == d.installer
      && mutations.State() == d.gate && controller.View() == d.controller
    }

    /** `install` up to `await admission.drained`. */
    method Install(onQuit: bool, ghost d: Desktop) returns (outcome: Result<(), string>)
      requires Matches(d)
      modifies this, mutations
      ensures Matches(CallInstall(d, onQuit))
      ensures Safe(d) ==> Safe(CallInstall(d, onQuit).(clock := d.clock + 1))
      ensures outcome.Err? <==> !d.installer.inProgress && d.controller.status.Ready? && G.Refuses(d.gate)
    {
      InstallIsSafe(d, onQuit);
      if inProgress || !controller.status.Ready? {
        return Ok(());
      }
      var admission := mutations.AcquireToken("Clawdi is preparing an update. Try again after it finishes.");
      if admission.Err? {
        return Err(admission.error);
      }
      inProgress := true;
      attempts := attempts + [Attempt(admission.value, onQuit, Draining, None, 0)];
      return Ok(());
    }

    method FinishRecoveryOf(i: nat, ghost d: Desktop)
      requires Matches(d) && HasAttempt(d, i)
      modifies this, mutations
      ensures Matches(FinishRecovery(d, i))
    {
      inProgress := false;
      recoverFailure := None;
      attempts := attempts[i := attempts[i].(stage := Ended)];
      mutations.ReleaseToken(attempts[i].token);
    }

    /** The closure `recover` of the `i`-th attempt, up to its await. */
    method RecoverAttempt(i: nat, ghost d: Desktop)
      requires Matches(d) && HasAttempt(d, i)
      modifies this, mutations
      ensures Matches(Recover(d, i))
      ensures !allowQuit && i < |attempts| && (attempts[i].stage == Restoring || attempts[i].stage == Ended)
    {
      RecoverCloses(d, i);
      allowQuit := false;
      if attempts[i].stage != Restoring && attempts[i].stage != Ended {
        if attempts[i].stop == Some(true) {
          attempts := attempts[i := attempts[i].(stage := Restoring, restores := attempts[i].restores + 1)];
        } else {
          FinishRecoveryOf(i, d.(installer := d.installer.(allowQuit := false)));
        }
      }
    }

    method RecoverAfterUpdaterFailure(ghost d: Desktop)
      requires Matches(d) && (d.installer.recoverFailure.Some? ==> HasAttempt(d, d.installer.recoverFailure.value))
      modifies this, mutations
      ensures Matches(RecoverAfterFailure(d))
      ensures recoverFailure.Some? ==> HasAttempt(RecoverAfterFailure(d), recoverFailure.value)
    {
      if recoverFailure.Some? {
        RecoverAttempt(recoverFailure.value, d);
      }
    }

    /** The call of the `install` option and the `catch` around it. */
    method InvokeAttempt(i: nat, quit: U.Quit, ghost d: Desktop)
      requires Matches(d) && HasAttempt(d, i)
      requires d.installer.recoverFailure.Some? ==> HasAttempt(d, d.installer.recoverFailure.value)
      modifies this, mutations, controller
      ensures Matches(InvokeInstall(d, i, quit))
    {
      if !attempts[i].onQuit {
        var outcome, reported := controller.InstallDownloadedUpdate(quit);
        EndInvocation(i, outcome.Started?, reported, d.(controller := U.InstallDownloaded(d.controller, quit).0));
      }
    }

    /** The recoveries that follow the call: of the error handler on the way, and of the `catch`. */
    method EndInvocation(i: nat, started: bool, reported: bool, ghost c: Desktop)
      requires Matches(c) && HasAttempt(c, i)
      requires c.installer.recoverFailure.Some? ==> HasAttempt(c, c.installer.recoverFailure.value)
      modifies this, mutations
      ensures
        var t := if reported then RecoverAfterFailure(c) else c;
        HasAttempt(t, i) && Matches(if started then t else Recover(t, i))
    {
      FailureKeepsAttempts(c, i);
      if reported {
        RecoverAfterUpdaterFailure(c);
      }
      if !started {
        RecoverAttempt(i, if reported then RecoverAfterFailure(c) else c);
      }
    }

    /** The rest of `install` once the services are stopped. */
    method HandOverAttempt(i: nat, quit: U.Quit, ghost d: Desktop)
      requires Matches(d) && HasAttempt(d, i)
      modifies this, mutations, controller
      ensures Matches(HandOver(d, i, quit))
    {
      allowQuit := true;
      recoverFailure := Some(i);
      attempts := attempts[i := attempts[i].(stage := HandedOver)];
      InvokeAttempt(i, quit, d.(installer := Fields()));
    }

    method ResumeAfterDrain(quit: U.Quit, ghost d: Desktop)
      requires Matches(d) && Possible(d, DrainSeen(quit))
      modifies this, mutations, controller
      ensures Matches(SeeDrain(d, quit))
      ensures Safe(d) ==> Safe(SeeDrain(d, quit).(clock := d.clock + 1))
    {
      if Safe(d) {
        DrainSeenKeeps(d, quit);
      }
      var i := |attempts| - 1;
      if windows {
        attempts := attempts[i := attempts[i].(stage := Stopping)];
      } else {
        HandOverAttempt(i, quit, d);
      }
    }

    method ResumeAfterStop(report: Option<bool>, quit: U.Quit, ghost d: Desktop)
      requires Matches(d) && Possible(d, StopReturns(report, quit))
      modifies this, mutations, controller
      ensures Matches(ReturnFromStop(d, report, quit))
      ensures Safe(d) ==> Safe(ReturnFromStop(d, report, quit).(clock := d.clock + 1))
    {
      if Safe(d) {
        StopReturnsKeeps(d, report, quit);
      }
      var i := |attempts| - 1;
      if report.None? {
        RecoverAttempt(i, d);
      } else {
        attempts := attempts[i := attempts[i].(stop := report)];
        HandOverAttempt(i, quit, SetAttempt(d, i, Last(d).(stop := report)));
      }
    }

    method ShouldDeferQuitNow(ghost d: Desktop) returns (defer: bool)
      requires Matches(d)
      ensures defer == ShouldDeferQuit(d)
    {
      if allowQuit {
        return false;
      }
      if inProgress {
        return true;
      }
      return controller.status.Ready? && (windows || mutations.active > 0 || mutations.reason.Some?);
    }
  }
}
