/** The desktop application as one concurrent system: the admission gate, the updater, the
    update installer (apps/desktop/src/update-install.ts), sign-out, uninstalling, the dashboard
    session exchange, the installer wiring and the quit handler (apps/desktop/src/main.ts).

    Each event is one atomic segment between two awaits. The environment decides what the
    CLI, the updater and the user do, and when. Times are step numbers of the run. */
module DesktopProtocol {
  import opened Common
  import G = MutationGate
  import U = UpdateController

  // ---- the update installer ----

  datatype Stage = Draining | Stopping | HandedOver | Restoring | Ended

  /** One call of `install` that obtained the gate. `stop` is what `stopBackgroundServices`
      reported, if it was called and returned; `restores` counts the calls of
      `restoreBackgroundServices`. */
  datatype Attempt = Attempt(token: nat, onQuit: bool, stage: Stage, stop: Option<bool>, restores: nat)

  /** The fields of `DesktopUpdateInstallation`; `recoverFailure` names the attempt whose
      `recover` closure is stored. */
  datatype Installer = Installer(
    inProgress: bool, allowQuit: bool, recoverFailure: Option<nat>, attempts: seq<Attempt>)

  // ---- session exchanges and sign-out ----

  datatype Phase = Admitted | Exchanging | Rechecking | Returned | Rejected | Settled(ok: bool)

  datatype Exchange = Exchange(
    phase: Phase, admittedAt: nat, recheckedAt: Option<nat>, settledAt: Option<nat>)

  /** Where `signOutOfDesktop` is suspended. */
  datatype Cleanup = Cancelling | AwaitingDrain | Revoking | Clearing | LoggingOut | Showing | Finished

  datatype SignOut = SignOut(
    token: nat, at: Cleanup, begunAt: nat, revokedAt: Option<nat>, releasedAt: Option<nat>, endedAt: Option<nat>)

  /** Who called `block`. */
  datatype Owner = Update(attempt: nat) | SigningOut(index: nat) | Uninstall

  /** `uninstalling` holds the token of the uninstallation under way; the flag of that name is set
      exactly while there is one. */
  datatype Desktop = Desktop(
    windows: bool, clock: nat,
    gate: G.Gate, owners: seq<Owner>,
    controller: U.Controller, installer: Installer,
    signingOut: bool, signOuts: seq<SignOut>,
    uninstalling: Option<nat>, quitting: bool,
    exchanges: seq<Exchange>, others: nat)

  function Start(windows: bool, mode: U.Mode): Desktop {
    Desktop(windows, 0, G.Fresh, [], U.Initial(mode), Installer(false, false, None, []), false, [],
            None, false, [], 0)
  }

  datatype Event =
    | ExchangeRequested
    | ExchangeResumes(id: nat, ok: bool)
    | ExchangeSettles(id: nat)
    | OtherRequested
    | OtherSettles
    | SignOutRequested
    | SignOutResumes
    | UninstallRequested
    | UninstallPrepares
    | UninstallEnds
    | QuitRequested
    | RestartRequested
    | DrainSeen(quit: U.Quit)
    | StopReturns(report: Option<bool>, quit: U.Quit)
    | RestoreReturns
    | Updater(event: U.Event)

  function Last(s: Desktop): Attempt
    requires s.installer.attempts != []
  {
    s.installer.attempts[|s.installer.attempts| - 1]
  }

  predicate LastIsAt(s: Desktop, stage: Stage) {
    s.installer.attempts != [] && Last(s).stage == stage
  }

  predicate Unsettled(x: Exchange) {
    !x.phase.Settled?
  }

  /** Which continuations may run now. */
  predicate Possible(s: Desktop, e: Event) {
    match e
    case ExchangeResumes(id, _) =>
      id < |s.exchanges| && (s.exchanges[id].phase in {Admitted, Exchanging, Rechecking})
    case ExchangeSettles(id) =>
      id < |s.exchanges| && s.exchanges[id].phase in {Returned, Rejected} && s.gate.active > 0
    case OtherSettles => s.others > 0 && s.gate.active > 0
    case SignOutResumes =>
      && s.signOuts != []
      && var k := s.signOuts[|s.signOuts| - 1];
      && k.at != Finished && k.token < |s.gate.tokens|
      && (k.at == AwaitingDrain ==> s.gate.tokens[k.token].drained)
    case UninstallPrepares =>
      && s.uninstalling.Some? && s.uninstalling.value < |s.gate.tokens|
      && s.gate.tokens[s.uninstalling.value].drained
    case UninstallEnds => s.uninstalling.Some? && s.uninstalling.value < |s.gate.tokens|
    case DrainSeen(_) =>
      LastIsAt(s, Draining) && Last(s).token < |s.gate.tokens| && s.gate.tokens[Last(s).token].drained
    case StopReturns(_, _) => LastIsAt(s, Stopping) && Last(s).token < |s.gate.tokens|
    case RestoreReturns => LastIsAt(s, Restoring) && Last(s).token < |s.gate.tokens|
    case Updater(event) => !event.InstallRequested?
    case _ => true
  }

  // ---- the update installer's segments ----

  function SetAttempt(s: Desktop, i: nat, a: Attempt): Desktop
    requires i < |s.installer.attempts|
  {
    s.(installer := s.installer.(attempts := s.installer.attempts[i := a]))
  }

  predicate HasAttempt(s: Desktop, i: nat) {
    i < |s.installer.attempts| && s.installer.attempts[i].token < |s.gate.tokens|
  }

  /** The `finally` of the recovery. */
  function FinishRecovery(s: Desktop, i: nat): Desktop
    requires HasAttempt(s, i)
  {
    var a := s.installer.attempts[i];
    s.(installer := Installer(false, s.installer.allowQuit, None, s.installer.attempts[i := a.(stage := Ended)]),
       gate := G.Release(s.gate, a.token))
  }

  /** The closure `recover`; a recovery already begun is not begun again. */
  function Recover(s: Desktop, i: nat): Desktop
    requires HasAttempt(s, i)
  {
    var t := s.(installer := s.installer.(allowQuit := false));
    var a := s.installer.attempts[i];
    if a.stage == Restoring || a.stage == Ended then t
    else if a.stop == Some(true) then SetAttempt(t, i, a.(stage := Restoring, restores := a.restores + 1))
    else FinishRecovery(t, i)
  }

  function RecoverAfterFailure(s: Desktop): Desktop {
    if s.installer.recoverFailure.Some? && HasAttempt(s, s.installer.recoverFailure.value)
    then Recover(s, s.installer.recoverFailure.value)
    else s
  }

  /** `install` calls its `install` option and recovers when that throws or returns false. */
  function InvokeInstall(s: Desktop, i: nat, quit: U.Quit): Desktop
    requires HasAttempt(s, i)
  {
    if s.installer.attempts[i].onQuit then s
    else
      var (c, outcome) := U.InstallDownloaded(s.controller, quit);
      var reported := U.MayInstall(s.controller) && quit.emitsError;
      var t := if reported then RecoverAfterFailure(s.(controller := c)) else s.(controller := c);
      if outcome.Started? then t else Recover(t, i)
  }

  /** From the end of the stop step to the end of `install`. */
  function HandOver(s: Desktop, i: nat, quit: U.Quit): Desktop
    requires HasAttempt(s, i)
  {
    var a := s.installer.attempts[i].(stage := HandedOver);
    InvokeInstall(
      s.(installer := Installer(s.installer.inProgress, true, Some(i), s.installer.attempts[i := a])), i, quit)
  }

  /** `install` up to its first await; it throws when another holder has the gate. */
  function CallInstall(s: Desktop, onQuit: bool): Desktop {
    if s.installer.inProgress || !s.controller.status.Ready? || G.Refuses(s.gate) then s
    else
      s.(gate := G.Block(s.gate, "Clawdi is preparing an update. Try again after it finishes."),
         owners := s.owners + [Update(|s.installer.attempts|)],
         installer := s.installer.(inProgress := true,
           attempts := s.installer.attempts + [Attempt(|s.gate.tokens|, onQuit, Draining, None, 0)]))
  }

  /** Only Windows stops the background services first. */
  function SeeDrain(s: Desktop, quit: U.Quit): Desktop
    requires Possible(s, DrainSeen(quit))
  {
    var i := |s.installer.attempts| - 1;
    if s.windows then SetAttempt(s, i, Last(s).(stage := Stopping)) else HandOver(s, i, quit)
  }

  function ReturnFromStop(s: Desktop, report: Option<bool>, quit: U.Quit): Desktop
    requires Possible(s, StopReturns(report, quit))
  {
    var i := |s.installer.attempts| - 1;
    if report.None? then Recover(s, i) else HandOver(SetAttempt(s, i, Last(s).(stop := report)), i, quit)
  }

  // ---- sign-out ----

  function RequestSignOut(s: Desktop): Desktop {
    if s.signingOut || G.Refuses(s.gate) then s
    else
      s.(gate := G.Block(s.gate, "Clawdi is signing out."),
         owners := s.owners + [SigningOut(|s.signOuts|)],
         signingOut := true,
         signOuts := s.signOuts + [SignOut(|s.gate.tokens|, Cancelling, s.clock, None, None, None)])
  }

  /** The next state of the sign-out under way. */
  function Advance(k: SignOut, now: nat): SignOut
    requires k.at != Finished
  {
    match k.at
    case Cancelling => k.(at := AwaitingDrain)
    case AwaitingDrain => k.(at := Revoking, revokedAt := Some(now))
    case Revoking => k.(at := Clearing)
    case Clearing => k.(at := LoggingOut)
    case LoggingOut => k.(at := Showing, releasedAt := Some(now))
    case Showing => k.(at := Finished, endedAt := Some(now))
  }

  /** Both the end of the cleanup and the `finally` release the token. */
  function ResumeSignOut(s: Desktop): Desktop
    requires Possible(s, SignOutResumes)
  {
    var n := |s.signOuts|;
    var k := s.signOuts[n - 1];
    s.(gate := if k.at == LoggingOut || k.at == Showing then G.Release(s.gate, k.token) else s.gate,
       signingOut := s.signingOut && k.at != Showing,
       signOuts := s.signOuts[n - 1 := Advance(k, s.clock)])
  }

  // ---- session exchanges and other actions run through the gate ----

  function RequestExchange(s: Desktop): Desktop {
    if G.Refuses(s.gate) then s
    else s.(gate := G.Enter(s.gate), exchanges := s.exchanges + [Exchange(Admitted, s.clock, None, None)])
  }

  /** The account is tested on admission and again after the exchange. */
  function ResumeExchange(x: Exchange, signingOut: bool, ok: bool, now: nat): Exchange {
    if x.phase == Exchanging then x.(phase := if ok then Rechecking else Rejected)
    else if signingOut || !ok then x.(phase := Rejected)
    else if x.phase == Admitted then x.(phase := Exchanging)
    else x.(phase := Returned, recheckedAt := Some(now))
  }

  function SettleExchange(s: Desktop, id: nat): Desktop
    requires Possible(s, ExchangeSettles(id))
  {
    var x := s.exchanges[id];
    s.(gate := G.Leave(s.gate),
       exchanges := s.exchanges[id := x.(phase := Settled(x.phase == Returned), settledAt := Some(s.clock))])
  }

  function StepOther(s: Desktop, e: Event): Desktop
    requires Possible(s, e)
    requires e.OtherRequested? || e.OtherSettles?
  {
    match e
    case OtherRequested =>
      if G.Refuses(s.gate) then s else s.(gate := G.Enter(s.gate), others := s.others + 1)
    case OtherSettles => s.(gate := G.Leave(s.gate), others := s.others - 1)
  }

  // ---- uninstalling and quitting ----

  /** `uninstallClawdi` up to its first await; a second one throws at the gate. */
  function RequestUninstall(s: Desktop): Desktop {
    if G.Refuses(s.gate) then s
    else
      s.(gate := G.Block(s.gate, "Clawdi is uninstalling."), owners := s.owners + [Uninstall],
         uninstalling := Some(|s.gate.tokens|))
  }

  /** Its `finally`, whether it was cancelled, failed or is about to quit. */
  function EndUninstall(s: Desktop): Desktop
    requires Possible(s, UninstallEnds)
  {
    s.(uninstalling := None, gate := if s.quitting then s.gate else G.Release(s.gate, s.uninstalling.value))
  }

  /** The `before-quit` handler: a deferred quit becomes an installation. */
  function RequestQuit(s: Desktop): Desktop {
    if DefersQuit(s) then CallInstall(s, true) else s.(quitting := true)
  }

  /** The updater's handlers; the `error` handler ends in `recoverAfterFailure` when it takes
      the error for a failed installation. */
  function StepUpdater(s: Desktop, event: U.Event): Desktop {
    var t := s.(controller := U.Next(s.controller, event));
    if event.UpdaterError? && !s.controller.mode.Disabled? && U.ErrorFailsInstallation(s.controller)
    then RecoverAfterFailure(t) else t
  }

  function Act(s: Desktop, e: Event): Desktop
    requires Possible(s, e)
  {
    match e
    case ExchangeRequested => RequestExchange(s)
    case ExchangeResumes(id, ok) =>
      s.(exchanges := s.exchanges[id := ResumeExchange(s.exchanges[id], s.signingOut, ok, s.clock)])
    case ExchangeSettles(id) => SettleExchange(s, id)
    case OtherRequested | OtherSettles => StepOther(s, e)
    case SignOutRequested => RequestSignOut(s)
    case SignOutResumes => ResumeSignOut(s)
    case UninstallRequested => RequestUninstall(s)
    case UninstallPrepares => s.(quitting := true)
    case UninstallEnds => EndUninstall(s)
    case QuitRequested => RequestQuit(s)
    case RestartRequested => CallInstall(s, false)
    case DrainSeen(quit) => SeeDrain(s, quit)
    case StopReturns(report, quit) => ReturnFromStop(s, report, quit)
    case RestoreReturns => FinishRecovery(s, |s.installer.attempts| - 1)
    case Updater(event) => StepUpdater(s, event)
  }

  function Step(s: Desktop, e: Event): Desktop
    requires Possible(s, e)
  {
    Act(s, e).(clock := s.clock + 1)
  }

  ghost predicate IsRun(s: Desktop, events: seq<Event>)
    decreases |events|
  {
    events == [] || (Possible(s, events[0]) && IsRun(Step(s, events[0]), events[1..]))
  }

  ghost function After(s: Desktop, events: seq<Event>): Desktop
    requires IsRun(s, events)
    decreases |events|
  {
    if events == [] then s else After(Step(s, events[0]), events[1..])
  }

  /** `shouldDeferQuit`. */
  predicate ShouldDeferQuit(s: Desktop) {
    && !s.installer.allowQuit
    && (s.installer.inProgress
        || (s.controller.status.Ready? && (s.windows || s.gate.active > 0 || G.Blocked(s.gate))))
  }

  /** What the `before-quit` handler makes of it. */
  predicate DefersQuit(s: Desktop) {
    s.uninstalling.None? && ShouldDeferQuit(s)
  }
}
