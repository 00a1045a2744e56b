/** What happened on the way: laws that look back over a whole run of the desktop protocol. */
module ProtocolTraces {
  import opened Common
  import opened DesktopProtocol
  import opened ProtocolSafety
  import opened ProtocolTheorems
  import G = MutationGate
  import U = UpdateController

  /** The states a run passes through, the first being a fresh start. */
  ghost predicate IsTrace(windows: bool, mode: U.Mode, trace: seq<Desktop>, events: seq<Event>) {
    && |trace| == |events| + 1 && trace[0] == Start(windows, mode)
    && forall i: nat :: i < |events| ==> Follows(trace, events, i)
  }

  ghost predicate Follows(trace: seq<Desktop>, events: seq<Event>, i: nat) {
    && i < |events| && i + 1 < |trace|
    && Possible(trace[i], events[i]) && trace[i + 1] == Step(trace[i], events[i])
  }

  lemma {:induction false} TraceIsReachable(
      windows: bool, mode: U.Mode, trace: seq<Desktop>, events: seq<Event>, n: nat)
    requires IsTrace(windows, mode, trace, events) && n < |trace|
    ensures Reachable(windows, mode, trace[n])
  {
    if n == 0 {
      assert IsRun(Start(windows, mode), []) && After(Start(windows, mode), []) == trace[0];
    } else {
      TraceIsReachable(windows, mode, trace, events, n - 1);
      assert Follows(trace, events, n - 1);
      ReachStep(windows, mode, trace[n - 1], events[n - 1]);
    }
  }

  lemma TraceIsSafe(windows: bool, mode: U.Mode, trace: seq<Desktop>, events: seq<Event>, n: nat)
    requires IsTrace(windows, mode, trace, events) && n < |trace|
    ensures Safe(trace[n])
  {
    TraceIsReachable(windows, mode, trace, events, n);
    ReachableIsSafe(windows, mode, trace[n]);
  }

  // ---- what the installer and the updater leave alone ----

  /** Nothing but the gate, the updater and the installer has changed. */
  ghost predicate OnlyUpdates(s: Desktop, t: Desktop) {
    t == s.(gate := t.gate, controller := t.controller, installer := t.installer, clock := t.clock)
  }

  predicate IsInstallers(e: Event) {
    e.DrainSeen? || e.StopReturns? || e.RestoreReturns? || e.Updater?
  }

  lemma RecoverFrame(s: Desktop, i: nat)
    requires HasAttempt(s, i)
    ensures OnlyUpdates(s, Recover(s, i)) && HasAttempt(Recover(s, i), i)
  {}

  lemma FailureFrame(s: Desktop)
    ensures OnlyUpdates(s, RecoverAfterFailure(s))
    ensures forall i: nat :: HasAttempt(s, i) ==> HasAttempt(RecoverAfterFailure(s), i)
  {
    if s.installer.recoverFailure.Some? && HasAttempt(s, s.installer.recoverFailure.value) {
      RecoverFrame(s, s.installer.recoverFailure.value);
    }
  }

  lemma HandOverFrame(s: Desktop, i: nat, quit: U.Quit)
    requires HasAttempt(s, i)
    ensures OnlyUpdates(s, HandOver(s, i, quit))
  {
    var a := s.installer.attempts[i].(stage := HandedOver);
    var u := s.(installer := Installer(s.installer.inProgress, true, Some(i), s.installer.attempts[i := a]));
    InvokeFrame(u, i, quit);
  }

  lemma InvokeFrame(s: Desktop, i: nat, quit: U.Quit)
    requires HasAttempt(s, i)
    ensures OnlyUpdates(s, InvokeInstall(s, i, quit))
  {
    var c := s.(controller := U.InstallDownloaded(s.controller, quit).0);
    FailureFrame(c);
    RecoverFrame(c, i);
    RecoverFrame(RecoverAfterFailure(c), i);
  }

  lemma DrainFrame(s: Desktop, quit: U.Quit)
    requires Possible(s, DrainSeen(quit))
    ensures OnlyUpdates(s, Step(s, DrainSeen(quit)))
  {
    if !s.windows {
      HandOverFrame(s, |s.installer.attempts| - 1, quit);
    }
  }

  lemma StopFrame(s: Desktop, report: Option<bool>, quit: U.Quit)
    requires Possible(s, StopReturns(report, quit))
    ensures OnlyUpdates(s, Step(s, StopReturns(report, quit)))
  {
    var i := |s.installer.attempts| - 1;
    RecoverFrame(s, i);
    HandOverFrame(SetAttempt(s, i, Last(s).(stop := report)), i, quit);
  }

  lemma InstallerStepFrame(s: Desktop, e: Event)
    requires Possible(s, e) && IsInstallers(e)
    ensures OnlyUpdates(s, Step(s, e))
  {
    match e {
      case DrainSeen(quit) => DrainFrame(s, quit);
      case StopReturns(report, quit) => StopFrame(s, report, quit);
      case RestoreReturns =>
      case Updater(event) => FailureFrame(s.(controller := U.Next(s.controller, event)));
    }
  }

  // ---- sign-out ----

  /** The step of a sign-out that comes right before another. */
  function Prior(at: Cleanup): Cleanup
    requires at != Cancelling
  {
    match at
    case AwaitingDrain => Cancelling
    case Revoking => AwaitingDrain
    case Clearing => Revoking
    case LoggingOut => Clearing
    case Showing => LoggingOut
    case Finished => Showing
  }

  ghost predicate IsAt(s: Desktop, j: nat, at: Cleanup) {
    j < |s.signOuts| && s.signOuts[j].at == at
  }

  /** A sign-out is as it was, has moved on by one step, or is new. */
  ghost predicate Moves(s: Desktop, t: Desktop, j: nat)
    requires j < |t.signOuts|
  {
    || t.signOuts[j].at == Cancelling
    || (j < |s.signOuts| && t.signOuts[j].at == s.signOuts[j].at)
    || (j < |s.signOuts| && s.signOuts[j].at == Prior(t.signOuts[j].at))
  }

  /** Exchanges and other actions. */
  predicate IsWork(e: Event) {
    e.ExchangeRequested? || e.ExchangeResumes? || e.ExchangeSettles? || e.OtherRequested? || e.OtherSettles?
  }

  lemma WorkKeepsSignOuts(s: Desktop, e: Event)
    requires Possible(s, e) && IsWork(e)
    ensures Step(s, e).signOuts == s.signOuts && Step(s, e).signingOut == s.signingOut
  {
  }

  lemma QuitsKeepSignOuts(s: Desktop, e: Event)
    requires Possible(s, e) && !IsWork(e) && !IsInstallers(e) && !e.SignOutRequested? && !e.SignOutResumes?
    ensures Step(s, e).signOuts == s.signOuts && Step(s, e).signingOut == s.signingOut
  {
  }

  lemma OthersKeepSignOuts(s: Desktop, e: Event)
    requires Possible(s, e) && !e.SignOutRequested? && !e.SignOutResumes?
    ensures Step(s, e).signOuts == s.signOuts && Step(s, e).signingOut == s.signingOut
  {
    if IsInstallers(e) {
      InstallerStepFrame(s, e);
    } else if IsWork(e) {
      WorkKeepsSignOuts(s, e);
    } else {
      QuitsKeepSignOuts(s, e);
    }
  }

  lemma SignOutMoves(s: Desktop, e: Event, j: nat)
    requires Possible(s, e) && j < |Step(s, e).signOuts|
    ensures Moves(s, Step(s, e), j)
  {
    if e.SignOutRequested? {
      assert Step(s, e).signOuts == RequestSignOut(s).signOuts;
    } else if e.SignOutResumes? {
      assert Step(s, e).signOuts == ResumeSignOut(s).signOuts;
    } else {
      OthersKeepSignOuts(s, e);
    }
  }

  /** Every step of a sign-out was entered from the one before it. */
  lemma {:induction false} PriorStepWasTaken(
      windows: bool, mode: U.Mode, trace: seq<Desktop>, events: seq<Event>, n: nat, j: nat) returns (m: nat)
    requires IsTrace(windows, mode, trace, events) && n < |trace| && j < |trace[n].signOuts|
    requires trace[n].signOuts[j].at != Cancelling
    ensures m < n && IsAt(trace[m], j, Prior(trace[n].signOuts[j].at))
  {
    assert n > 0;
    assert Follows(trace, events, n - 1);
    SignOutMoves(trace[n - 1], events[n - 1], j);
    if trace[n - 1].signOuts[j].at == trace[n].signOuts[j].at {
      m := PriorStepWasTaken(windows, mode, trace, events, n - 1, j);
    } else {
      m := n - 1;
    }
  }

  /** A sign-out at one of its destructive steps holds the drained gate and nothing is running. */
  ghost predicate TakenAlone(s: Desktop, j: nat, at: Cleanup) {
    IsAt(s, j, at) && G.Holds(s.gate, s.signOuts[j].token) && s.gate.active == 0 && Running(s) == {} && s.signingOut
  }

  lemma DestructiveStepIsAlone(
      windows: bool, mode: U.Mode, trace: seq<Desktop>, events: seq<Event>, m: nat, j: nat, at: Cleanup)
    requires IsTrace(windows, mode, trace, events) && m < |trace| && IsAt(trace[m], j, at)
    requires at == Revoking || at == Clearing || at == LoggingOut
    ensures TakenAlone(trace[m], j, at)
  {
    TraceIsSafe(windows, mode, trace, events, m);
    assert SignOutOk(trace[m], j);
    assert G.Holds(trace[m].gate, trace[m].signOuts[j].token);
    assert |Running(trace[m])| == 0;
  }

  ghost predicate StepsInOrder(trace: seq<Desktop>, j: nat, a: nat, b: nat, c: nat, n: nat) {
    && a < b < c < n < |trace|
    && TakenAlone(trace[a], j, Revoking) && TakenAlone(trace[b], j, Clearing) && TakenAlone(trace[c], j, LoggingOut)
  }

  /** A sign-out that gave the gate back had revoked the sessions, cleared the local one and logged
      out, in that order, each time alone and before the release. */
  lemma SignOutRunsEveryStep(windows: bool, mode: U.Mode, trace: seq<Desktop>, events: seq<Event>, n: nat, j: nat)
    requires IsTrace(windows, mode, trace, events) && n < |trace| && j < |trace[n].signOuts|
    requires !G.Holds(trace[n].gate, trace[n].signOuts[j].token)
    ensures exists a: nat, b: nat, c: nat :: StepsInOrder(trace, j, a, b, c, n)
  {
    TraceIsSafe(windows, mode, trace, events, n);
    assert SignOutOk(trace[n], j);
    var shown := n;
    if trace[n].signOuts[j].at == Finished {
      shown := PriorStepWasTaken(windows, mode, trace, events, n, j);
    }
    var c := PriorStepWasTaken(windows, mode, trace, events, shown, j);
    var b := PriorStepWasTaken(windows, mode, trace, events, c, j);
    var a := PriorStepWasTaken(windows, mode, trace, events, b, j);
    DestructiveStepIsAlone(windows, mode, trace, events, a, j, Revoking);
    DestructiveStepIsAlone(windows, mode, trace, events, b, j, Clearing);
    DestructiveStepIsAlone(windows, mode, trace, events, c, j, LoggingOut);
    assert StepsInOrder(trace, j, a, b, c, n);
  }

  // ---- session exchanges ----

  predicate Resumes(e: Event, id: nat) {
    e.ExchangeResumes? && e.id == id
  }

  /** How often an exchange has gone on after an await. */
  function Resumptions(events: seq<Event>, n: nat, id: nat): nat
    requires n <= |events|
  {
    if n == 0 then 0 else Resumptions(events, n - 1, id) + if Resumes(events[n - 1], id) then 1 else 0
  }

  /** The call it awaited failed or disagreed, or it looked for a sign-out, which it does first and
      last, and found one under way. */
  ghost predicate Spoils(trace: seq<Desktop>, events: seq<Event>, n: nat, id: nat) {
    && n < |events| && n < |trace| && Resumes(events[n], id)
    && (!events[n].ok || (trace[n].signingOut && Resumptions(events, n, id) != 1))
  }

  ghost predicate Spoilt(trace: seq<Desktop>, events: seq<Event>, n: nat, id: nat) {
    exists k: nat :: k < n && Spoils(trace, events, k, id)
  }

  /** Where an exchange is that has gone on so often without being spoilt. */
  predicate HasComeTo(x: Exchange, resumptions: nat) {
    match x.phase
    case Admitted => resumptions == 0
    case Exchanging => resumptions == 1
    case Rechecking => resumptions == 2
    case Returned => resumptions == 3
    case Rejected => false
    case Settled(ok) => ok && resumptions == 3
  }

  predicate WasTurnedDown(x: Exchange) {
    x.phase == Rejected || x.phase == Settled(false)
  }

  lemma OthersKeepExchanges(s: Desktop, e: Event)
    requires Possible(s, e) && !e.ExchangeRequested? && !e.ExchangeResumes? && !e.ExchangeSettles?
    ensures Step(s, e).exchanges == s.exchanges
  {
    if IsInstallers(e) {
      InstallerStepFrame(s, e);
    }
  }

  /** One step of the application, seen by one exchange. */
  lemma ExchangeMoves(s: Desktop, e: Event, id: nat, resumptions: nat)
    requires Possible(s, e) && id < |s.exchanges|
    ensures id < |Step(s, e).exchanges|
    ensures
      var x, y := s.exchanges[id], Step(s, e).exchanges[id];
      && (WasTurnedDown(x) ==> WasTurnedDown(y))
      && (HasComeTo(x, resumptions) && !Resumes(e, id) ==> HasComeTo(y, resumptions))
      && (HasComeTo(x, resumptions) && Resumes(e, id) ==>
            if !e.ok || (s.signingOut && resumptions != 1) then WasTurnedDown(y) else HasComeTo(y, resumptions + 1))
  {
    if e.ExchangeRequested? {
      assert Step(s, e).exchanges == RequestExchange(s).exchanges;
    } else if e.ExchangeSettles? {
      assert Step(s, e).exchanges == SettleExchange(s, e.id).exchanges;
    } else if !e.ExchangeResumes? {
      OthersKeepExchanges(s, e);
    }
  }

  lemma NewExchange(s: Desktop, e: Event, id: nat)
    requires Possible(s, e) && |s.exchanges| <= id < |Step(s, e).exchanges|
    ensures e.ExchangeRequested? && id == |s.exchanges| && Step(s, e).exchanges[id].phase == Admitted
  {
    if !e.ExchangeRequested? && !e.ExchangeResumes? && !e.ExchangeSettles? {
      OthersKeepExchanges(s, e);
    }
  }

  lemma {:induction false} NotYetResumed(
      windows: bool, mode: U.Mode, trace: seq<Desktop>, events: seq<Event>, n: nat, id: nat)
    requires IsTrace(windows, mode, trace, events) && n < |trace| && |trace[n].exchanges| <= id
    ensures Resumptions(events, n, id) == 0 && !Spoilt(trace, events, n, id)
  {
    if n > 0 {
      assert Follows(trace, events, n - 1);
      if id < |trace[n - 1].exchanges| {
        ExchangeMoves(trace[n - 1], events[n - 1], id, 0);
      }
      NotYetResumed(windows, mode, trace, events, n - 1, id);
      assert !Resumes(events[n - 1], id);
    }
  }

  /** In every run an exchange is turned down exactly when it was spoilt; any other is where its
      resumptions have brought it, and hands out its result after the third. */
  lemma {:induction false} ExchangeIsTurnedDownExactlyWhen(
      windows: bool, mode: U.Mode, trace: seq<Desktop>, events: seq<Event>, n: nat, id: nat)
    requires IsTrace(windows, mode, trace, events) && n < |trace| && id < |trace[n].exchanges|
    ensures
      var x := trace[n].exchanges[id];
      if Spoilt(trace, events, n, id) then WasTurnedDown(x) else HasComeTo(x, Resumptions(events, n, id))
  {
    assert n > 0;
    var s, e := trace[n - 1], events[n - 1];
    assert Follows(trace, events, n - 1);
    if id < |s.exchanges| {
      ExchangeIsTurnedDownExactlyWhen(windows, mode, trace, events, n - 1, id);
      ExchangeMoves(s, e, id, Resumptions(events, n - 1, id));
      SpoiltSoFar(trace, events, n, id);
    } else {
      NewExchange(s, e, id);
      NotYetResumed(windows, mode, trace, events, n - 1, id);
      SpoiltSoFar(trace, events, n, id);
    }
  }

  lemma SpoiltSoFar(trace: seq<Desktop>, events: seq<Event>, n: nat, id: nat)
    requires 0 < n <= |events|
    ensures Spoilt(trace, events, n, id) <==> Spoilt(trace, events, n - 1, id) || Spoils(trace, events, n - 1, id)
  {}

  /** So a result is handed out exactly to an exchange that went on three times, each call agreeing,
      and saw no sign-out the first and the last time. */
  lemma ResultIsHandedOutExactlyWhen(
      windows: bool, mode: U.Mode, trace: seq<Desktop>, events: seq<Event>, n: nat, id: nat)
    requires IsTrace(windows, mode, trace, events) && n < |trace| && id < |trace[n].exchanges|
    ensures trace[n].exchanges[id].phase in {Returned, Settled(true)} <==>
      Resumptions(events, n, id) == 3 && !Spoilt(trace, events, n, id)
  {
    ExchangeIsTurnedDownExactlyWhen(windows, mode, trace, events, n, id);
  }
}
