/** What every run of the desktop protocol keeps, and what follows for update attempts, for
    quitting and for sign-out. */
module ProtocolSafety {
  import opened Common
  import opened DesktopProtocol
  import G = MutationGate
  import U = UpdateController

  // ---- the invariant, one part for each concern ----

  function Running(s: Desktop): set<nat> {
    set i: nat | i < |s.exchanges| && Unsettled(s.exchanges[i])
  }

  /** The gate is exclusive, its count is the number of admitted unsettled actions, every token has
      one owner, and an uninstallation under way holds its own. */
  ghost predicate GateOk(s: Desktop) {
    && G.Exclusive(s.gate)
    && s.gate.active == s.others + |Running(s)|
    && |s.owners| == |s.gate.tokens|
    && (s.uninstalling.Some? ==>
          && s.uninstalling.value < |s.owners| && s.owners[s.uninstalling.value] == Uninstall
          && G.Holds(s.gate, s.uninstalling.value))
  }

  ghost predicate AttemptOk(s: Desktop, i: nat)
    requires i < |s.installer.attempts|
  {
    var a := s.installer.attempts[i];
    && a.token < |s.gate.tokens| && a.token < |s.owners| && s.owners[a.token] == Update(i)
    && (a.stage == Ended <==> s.gate.tokens[a.token].released)
    && (a.stage != Draining ==> s.gate.tokens[a.token].drained)
    && (a.stage == Draining || a.stage == Stopping ==> a.stop == None)
    && (a.stage == Restoring ==> a.stop == Some(true))
    && (a.stage == HandedOver && s.windows ==> a.stop.Some?)
    && (!s.windows ==> a.stop == None && a.stage != Stopping)
    && a.restores == (if a.stop == Some(true) && (a.stage == Restoring || a.stage == Ended) then 1 else 0)
  }

  /** Everything but the controller's `installing` flag, which the hand-over segment sets and
      clears on its way. */
  ghost predicate AttemptsOk(s: Desktop) {
    var n := |s.installer.attempts|;
    && (forall i: nat :: i < n ==> AttemptOk(s, i))
    && (forall i: nat :: i < n - 1 ==> s.installer.attempts[i].stage == Ended)
    && (s.installer.inProgress <==> n > 0 && Last(s).stage != Ended)
    && (s.installer.allowQuit <==> LastIsAt(s, HandedOver))
    && (s.installer.recoverFailure.Some? ==>
          s.installer.recoverFailure.value == n - 1 && (LastIsAt(s, HandedOver) || LastIsAt(s, Restoring)))
    && (LastIsAt(s, HandedOver) ==> s.installer.recoverFailure.Some?)
  }

  ghost predicate InstallerOk(s: Desktop) {
    && AttemptsOk(s)
    && (s.controller.installing <==> LastIsAt(s, HandedOver) && !Last(s).onQuit)
    && (s.controller.mode.Disabled? ==> s.controller.status.Off? && s.installer.attempts == [])
  }

  ghost predicate SignOutOk(s: Desktop, i: nat)
    requires i < |s.signOuts|
  {
    var k := s.signOuts[i];
    && k.token < |s.gate.tokens| && k.token < |s.owners| && s.owners[k.token] == SigningOut(i)
    && (s.gate.tokens[k.token].released <==> k.at == Showing || k.at == Finished)
    && (k.at != Cancelling && k.at != AwaitingDrain ==> s.gate.tokens[k.token].drained)
    && (k.revokedAt.Some? <==> k.at != Cancelling && k.at != AwaitingDrain)
    && (k.releasedAt.Some? <==> k.at == Showing || k.at == Finished)
    && (k.endedAt.Some? <==> k.at == Finished)
    && k.begunAt < s.clock
    && (k.releasedAt.Some? ==> k.begunAt < k.releasedAt.value < s.clock)
    && (k.endedAt.Some? ==> k.endedAt.value < s.clock)
  }

  ghost predicate SignOutsOk(s: Desktop) {
    var n := |s.signOuts|;
    && (forall i: nat :: i < n ==> SignOutOk(s, i))
    && (forall i: nat :: i < n - 1 ==> s.signOuts[i].at == Finished)
    && (s.signingOut <==> n > 0 && s.signOuts[n - 1].at != Finished)
  }

  ghost predicate ExchangeOk(s: Desktop, x: Exchange) {
    && x.admittedAt < s.clock
    && (x.recheckedAt.Some? <==> x.phase == Returned || x.phase == Settled(true))
    && (x.recheckedAt.Some? ==> x.admittedAt < x.recheckedAt.value < s.clock)
    && (x.settledAt.Some? <==> x.phase.Settled?)
    && (x.settledAt.Some? ==> x.settledAt.value < s.clock)
  }

  /** An exchange admitted before a sign-out rechecked before it began and settled before it
      revoked; any other was admitted after its release and rechecked after its end. */
  ghost predicate Isolated(x: Exchange, k: SignOut) {
    if x.admittedAt < k.begunAt then
      && (x.recheckedAt.Some? ==> x.recheckedAt.value < k.begunAt)
      && (k.revokedAt.Some? ==> x.settledAt.Some? && x.settledAt.value < k.revokedAt.value)
    else
      && k.releasedAt.Some? && k.releasedAt.value < x.admittedAt
      && (x.recheckedAt.Some? ==> k.endedAt.Some? && k.endedAt.value < x.recheckedAt.value)
  }

  ghost predicate ExchangesOk(s: Desktop) {
    && (forall i: nat :: i < |s.exchanges| ==> ExchangeOk(s, s.exchanges[i]))
    && (forall i: nat, j: nat :: i < |s.exchanges| && j < |s.signOuts| ==>
          Isolated(s.exchanges[i], s.signOuts[j]))
  }

  ghost predicate Safe(s: Desktop) {
    GateOk(s) && InstallerOk(s) && SignOutsOk(s) && ExchangesOk(s)
  }

  // ---- frames: what the other components may change ----

  /** Tokens keep their owner; `drained` never reverts; `released` changes for at most the
      tokens of one owner class. */
  ghost predicate TokensGrow(s: Desktop, t: Desktop) {
    && |s.owners| == |s.gate.tokens| <= |t.gate.tokens| == |t.owners|
    && (forall i: nat :: i < |s.owners| ==> t.owners[i] == s.owners[i])
    && (forall i: nat :: i < |s.owners| && s.gate.tokens[i].drained ==> t.gate.tokens[i].drained)
  }

  ghost predicate SameReleases(s: Desktop, t: Desktop, i: nat)
    requires TokensGrow(s, t)
  {
    i < |s.owners| ==> t.gate.tokens[i].released == s.gate.tokens[i].released
  }

  lemma InstallerFrame(s: Desktop, t: Desktop)
    requires InstallerOk(s) && TokensGrow(s, t)
    requires t.installer == s.installer && t.windows == s.windows
    requires t.controller.installing == s.controller.installing
    requires t.controller.mode == s.controller.mode && (t.controller.mode.Disabled? ==> t.controller.status.Off?)
    requires forall i: nat :: i < |s.owners| && s.owners[i].Update? ==> SameReleases(s, t, i)
    ensures InstallerOk(t)
  {
    forall i: nat | i < |t.installer.attempts|
      ensures AttemptOk(t, i)
    {
      assert AttemptOk(s, i);
      assert SameReleases(s, t, s.installer.attempts[i].token);
    }
  }

  lemma SignOutFrame(s: Desktop, t: Desktop)
    requires SignOutsOk(s) && TokensGrow(s, t)
    requires t.signOuts == s.signOuts && t.signingOut == s.signingOut && s.clock <= t.clock
    requires forall i: nat :: i < |s.owners| && s.owners[i].SigningOut? ==> SameReleases(s, t, i)
    ensures SignOutsOk(t)
  {
    forall i: nat | i < |t.signOuts|
      ensures SignOutOk(t, i)
    {
      assert SignOutOk(s, i);
      assert SameReleases(s, t, s.signOuts[i].token);
    }
  }

  lemma ExchangeFrame(s: Desktop, t: Desktop)
    requires ExchangesOk(s)
    requires t.signOuts == s.signOuts && t.exchanges == s.exchanges && s.clock <= t.clock
    ensures ExchangesOk(t)
  {}

  // ---- each step keeps the invariant ----

  lemma GateStepGrows(s: Desktop, t: Desktop)
    requires GateOk(s) && t.owners == s.owners
    requires t.gate == s.gate || (s.gate.active > 0 && t.gate == G.Leave(s.gate)) || t.gate == G.Enter(s.gate)
    ensures TokensGrow(s, t)
    ensures forall i: nat :: i < |s.owners| ==> SameReleases(s, t, i)
  {}

  lemma BlockGrows(s: Desktop, t: Desktop, reason: string)
    requires GateOk(s) && reason != "" && !G.Refuses(s.gate)
    requires t.gate == G.Block(s.gate, reason) && |t.owners| == |s.owners| + 1 && s.owners <= t.owners
    requires t.uninstalling == s.uninstalling
      || (t.uninstalling == Some(|s.owners|) && t.owners[|s.owners|] == Uninstall)
    requires t.others == s.others && t.exchanges == s.exchanges
    ensures TokensGrow(s, t) && GateOk(t)
    ensures forall i: nat :: i < |s.owners| ==> SameReleases(s, t, i)
  {
    G.BlockKeeps(s.gate, reason);
    assert Running(t) == Running(s);
  }

  lemma ReleaseGrows(s: Desktop, t: Desktop, token: nat)
    requires GateOk(s) && token < |s.gate.tokens|
    requires t.gate == G.Release(s.gate, token) && t.owners == s.owners
    requires t.uninstalling == None || (t.uninstalling == s.uninstalling && !s.owners[token].Uninstall?)
    requires t.others == s.others && t.exchanges == s.exchanges
    ensures TokensGrow(s, t) && GateOk(t)
    ensures forall i: nat :: i < |s.owners| && i != token ==> SameReleases(s, t, i)
    ensures t.gate.tokens[token].released
  {
    G.ReleaseKeeps(s.gate, token);
    assert Running(t) == Running(s);
  }

  /** A step that touches only the gate, and releases no token of an update or a sign-out. */
  lemma GateOnlyKeeps(s: Desktop, t: Desktop)
    requires Safe(s) && GateOk(t) && TokensGrow(s, t)
    requires t == s.(gate := t.gate, owners := t.owners, others := t.others, uninstalling := t.uninstalling,
                     quitting := t.quitting, clock := s.clock + 1)
    requires forall i: nat :: i < |s.owners| && !s.owners[i].Uninstall? ==> SameReleases(s, t, i)
    ensures Safe(t)
  {
    InstallerFrame(s, t);
    SignOutFrame(s, t);
    ExchangeFrame(s, t);
  }

  lemma UnchangedKeeps(s: Desktop)
    requires Safe(s)
    ensures Safe(s.(clock := s.clock + 1))
  {
    var t := s.(clock := s.clock + 1);
    assert Running(t) == Running(s);
    GateOnlyKeeps(s, t);
  }

  lemma OtherKeeps(s: Desktop, e: Event)
    requires Safe(s) && Possible(s, e)
    requires e.OtherRequested? || e.OtherSettles?
    ensures Safe(StepOther(s, e).(clock := s.clock + 1))
  {
    var t := StepOther(s, e).(clock := s.clock + 1);
    if G.Refuses(s.gate) && e.OtherRequested? {
      UnchangedKeeps(s);
    } else {
      assert Running(t) == Running(s);
      match e {
        case OtherRequested => G.EnterKeeps(s.gate); GateStepGrows(s, t);
        case OtherSettles => G.LeaveKeeps(s.gate); GateStepGrows(s, t);
      }
      GateOnlyKeeps(s, t);
    }
  }

  lemma UninstallRequestedKeeps(s: Desktop)
    requires Safe(s)
    ensures Safe(RequestUninstall(s).(clock := s.clock + 1))
  {
    if G.Refuses(s.gate) {
      UnchangedKeeps(s);
    } else {
      var t := RequestUninstall(s).(clock := s.clock + 1);
      BlockGrows(s, t, "Clawdi is uninstalling.");
      GateOnlyKeeps(s, t);
    }
  }

  lemma UninstallEndsKeeps(s: Desktop)
    requires Safe(s) && Possible(s, UninstallEnds)
    ensures Safe(EndUninstall(s).(clock := s.clock + 1))
  {
    var t := EndUninstall(s).(clock := s.clock + 1);
    if s.quitting {
      assert Running(t) == Running(s);
      GateStepGrows(s, t);
    } else {
      ReleaseGrows(s, t, s.uninstalling.value);
    }
    GateOnlyKeeps(s, t);
  }

  lemma QuittingKeeps(s: Desktop)
    requires Safe(s)
    ensures Safe(s.(quitting := true, clock := s.clock + 1))
  {
    var t := s.(quitting := true, clock := s.clock + 1);
    assert Running(t) == Running(s);
    GateStepGrows(s, t);
    GateOnlyKeeps(s, t);
  }

  lemma QuitRequestedKeeps(s: Desktop)
    requires Safe(s)
    ensures Safe(RequestQuit(s).(clock := s.clock + 1))
  {
    if DefersQuit(s) {
      InstallCalledKeeps(s, true);
    } else {
      QuittingKeeps(s);
    }
  }

  /** The recheck passes only while no sign-out is under way, and then every past sign-out has
      ended; none of them began while this exchange was running. */
  lemma RecheckIsIsolated(s: Desktop, id: nat, j: nat)
    requires Safe(s) && !s.signingOut && id < |s.exchanges| && j < |s.signOuts|
    requires Unsettled(s.exchanges[id])
    ensures s.signOuts[j].at == Finished && s.exchanges[id].admittedAt >= s.signOuts[j].begunAt
    ensures s.signOuts[j].endedAt.Some? && s.signOuts[j].endedAt.value < s.clock
  {
    assert SignOutOk(s, j);
    assert Isolated(s.exchanges[id], s.signOuts[j]);
    assert ExchangeOk(s, s.exchanges[id]);
  }

  function Resumed(s: Desktop, id: nat, ok: bool): Desktop
    requires id < |s.exchanges|
  {
    var x := ResumeExchange(s.exchanges[id], s.signingOut, ok, s.clock);
    s.(exchanges := s.exchanges[id := x], clock := s.clock + 1)
  }

  lemma ExchangeResumesKeeps(s: Desktop, id: nat, ok: bool)
    requires Safe(s) && Possible(s, ExchangeResumes(id, ok))
    ensures Safe(Resumed(s, id, ok))
  {
    var t := Resumed(s, id, ok);
    assert Running(t) == Running(s);
    GateStepGrows(s, t);
    InstallerFrame(s, t);
    SignOutFrame(s, t);
    assert ExchangeOk(s, s.exchanges[id]);
    forall i: nat, j: nat | i < |t.exchanges| && j < |t.signOuts|
      ensures Isolated(t.exchanges[i], t.signOuts[j])
    {
      assert Isolated(s.exchanges[i], s.signOuts[j]);
      if i == id && t.exchanges[id].phase == Returned {
        RecheckIsIsolated(s, id, j);
      }
    }
  }

  lemma ExchangeSettlesKeeps(s: Desktop, id: nat)
    requires Safe(s) && Possible(s, ExchangeSettles(id))
    ensures Safe(SettleExchange(s, id).(clock := s.clock + 1))
  {
    var t := SettleExchange(s, id).(clock := s.clock + 1);
    assert Running(t) == Running(s) - {id};
    G.LeaveKeeps(s.gate);
    GateStepGrows(s, t);
    InstallerFrame(s, t);
    SignOutFrame(s, t);
    assert ExchangeOk(s, s.exchanges[id]);
    forall i: nat, j: nat | i < |t.exchanges| && j < |t.signOuts|
      ensures Isolated(t.exchanges[i], t.signOuts[j])
    {
      assert Isolated(s.exchanges[i], s.signOuts[j]);
    }
  }

  lemma NewExchangeIsIsolated(s: Desktop, t: Desktop)
    requires G.Exclusive(s.gate) && SignOutsOk(s) && ExchangesOk(s) && !G.Refuses(s.gate)
    requires t.exchanges == s.exchanges + [Exchange(Admitted, s.clock, None, None)]
    requires t.signOuts == s.signOuts && t.clock == s.clock + 1
    ensures ExchangesOk(t)
  {
    forall i: nat, j: nat | i < |t.exchanges| && j < |t.signOuts|
      ensures Isolated(t.exchanges[i], t.signOuts[j])
    {
      assert SignOutOk(s, j);
      if i < |s.exchanges| {
        assert Isolated(s.exchanges[i], s.signOuts[j]);
      } else {
        assert !G.Holds(s.gate, s.signOuts[j].token);
      }
    }
  }

  /** An admitted request finds no holder, so every sign-out so far has released the gate. */
  lemma ExchangeRequestedKeeps(s: Desktop)
    requires Safe(s)
    ensures Safe(RequestExchange(s).(clock := s.clock + 1))
  {
    var t := RequestExchange(s).(clock := s.clock + 1);
    if G.Refuses(s.gate) {
      assert Running(t) == Running(s);
      ExchangeFrame(s, t);
    } else {
      assert Running(t) == Running(s) + {|s.exchanges|};
      G.EnterKeeps(s.gate);
      NewExchangeIsIsolated(s, t);
    }
    GateStepGrows(s, t);
    InstallerFrame(s, t);
    SignOutFrame(s, t);
  }

  lemma SignOutRequestedKeeps(s: Desktop)
    requires Safe(s)
    ensures Safe(RequestSignOut(s).(clock := s.clock + 1))
  {
    if s.signingOut || G.Refuses(s.gate) {
      UnchangedKeeps(s);
    } else {
      var t := RequestSignOut(s).(clock := s.clock + 1);
      BlockGrows(s, t, "Clawdi is signing out.");
      InstallerFrame(s, t);
      NewSignOutIsOk(s, t);
    }
  }

  lemma NewSignOutIsOk(s: Desktop, t: Desktop)
    requires SignOutsOk(s) && ExchangesOk(s) && TokensGrow(s, t) && !s.signingOut && t.signingOut
    requires t.exchanges == s.exchanges && t.clock == s.clock + 1
    requires |t.owners| == |s.owners| + 1 && t.owners[|s.owners|] == SigningOut(|s.signOuts|)
    requires !t.gate.tokens[|s.owners|].released
    requires t.signOuts == s.signOuts + [SignOut(|s.owners|, Cancelling, s.clock, None, None, None)]
    requires forall i: nat :: i < |s.owners| ==> SameReleases(s, t, i)
    ensures SignOutsOk(t) && ExchangesOk(t)
  {
    forall i: nat | i < |t.signOuts|
      ensures SignOutOk(t, i)
    {
      if i < |s.signOuts| {
        assert SignOutOk(s, i);
        assert SameReleases(s, t, s.signOuts[i].token);
      }
    }
    forall i: nat, j: nat | i < |t.exchanges| && j < |t.signOuts|
      ensures Isolated(t.exchanges[i], t.signOuts[j])
    {
      assert ExchangeOk(s, s.exchanges[i]);
      if j < |s.signOuts| {
        assert Isolated(s.exchanges[i], s.signOuts[j]);
      }
    }
  }

  /** A sign-out passes its drain only when no exchange is unsettled. */
  lemma DrainedMeansSettled(s: Desktop, j: nat)
    requires Safe(s) && j < |s.signOuts|
    requires s.signOuts[j].token < |s.gate.tokens|
    requires s.signOuts[j].at == AwaitingDrain && s.gate.tokens[s.signOuts[j].token].drained
    ensures forall i: nat :: i < |s.exchanges| ==> !Unsettled(s.exchanges[i])
  {
    assert SignOutOk(s, j);
    assert G.Holds(s.gate, s.signOuts[j].token);
    assert |Running(s)| == 0;
    forall i: nat | i < |s.exchanges|
      ensures !Unsettled(s.exchanges[i])
    {
      assert i !in Running(s);
    }
  }

  /** Moving the current sign-out to `k` is safe when `k` is consistent and isolated. */
  lemma SignOutAdvance(s: Desktop, t: Desktop, k: SignOut)
    requires Safe(s) && s.signOuts != [] && TokensGrow(s, t) && GateOk(t)
    requires t.exchanges == s.exchanges && t.clock == s.clock + 1
    requires t.signOuts == s.signOuts[|s.signOuts| - 1 := k]
    requires SignOutOk(t, |s.signOuts| - 1) && (t.signingOut <==> k.at != Finished)
    requires forall i: nat :: i < |s.owners| && i != k.token ==> SameReleases(s, t, i)
    requires forall x :: x in s.exchanges && ExchangeOk(s, x) && Isolated(x, s.signOuts[|s.signOuts| - 1]) ==>
                           Isolated(x, k)
    ensures SignOutsOk(t) && ExchangesOk(t)
  {
    var n := |s.signOuts|;
    forall i: nat | i < n
      ensures SignOutOk(t, i)
    {
      assert SignOutOk(s, i);
      if i != n - 1 {
        assert SameReleases(s, t, s.signOuts[i].token);
      }
    }
    forall i: nat, j: nat | i < |t.exchanges| && j < n
      ensures Isolated(t.exchanges[i], t.signOuts[j])
    {
      assert Isolated(s.exchanges[i], s.signOuts[j]);
      assert s.exchanges[i] in s.exchanges && ExchangeOk(s, s.exchanges[i]);
    }
  }

  lemma SignOutResumesKeeps(s: Desktop)
    requires Safe(s) && Possible(s, SignOutResumes)
    ensures Safe(ResumeSignOut(s).(clock := s.clock + 1))
  {
    var t := ResumeSignOut(s).(clock := s.clock + 1);
    var n := |s.signOuts|;
    assert SignOutOk(s, n - 1);
    SignOutReleases(s, t, s.signOuts[n - 1]);
    InstallerFrame(s, t);
    AdvanceIsIsolated(s, n - 1);
    AdvanceIsOk(s, t, n - 1);
    SignOutAdvance(s, t, Advance(s.signOuts[n - 1], s.clock));
  }

  /** What a segment of sign-out does to the gate. */
  lemma SignOutReleases(s: Desktop, t: Desktop, k: SignOut)
    requires GateOk(s) && k.token < |s.gate.tokens| && t.owners == s.owners && t.uninstalling == s.uninstalling
    requires !s.owners[k.token].Uninstall?
    requires t.gate == if k.at == LoggingOut || k.at == Showing then G.Release(s.gate, k.token) else s.gate
    requires t.others == s.others && t.exchanges == s.exchanges
    ensures TokensGrow(s, t) && GateOk(t)
    ensures forall i: nat :: i < |s.owners| && i != k.token ==> SameReleases(s, t, i)
    ensures t.gate.tokens[k.token].released <==>
      s.gate.tokens[k.token].released || k.at == LoggingOut || k.at == Showing
  {
    if k.at == LoggingOut || k.at == Showing {
      ReleaseGrows(s, t, k.token);
    } else {
      assert Running(t) == Running(s);
      GateStepGrows(s, t);
    }
  }

  lemma AdvanceIsOk(s: Desktop, t: Desktop, j: nat)
    requires j < |s.signOuts| && SignOutOk(s, j) && s.signOuts[j].at != Finished
    requires t.signOuts == s.signOuts[j := Advance(s.signOuts[j], s.clock)] && t.clock == s.clock + 1
    requires TokensGrow(s, t)
    requires s.signOuts[j].at == AwaitingDrain ==> s.gate.tokens[s.signOuts[j].token].drained
    requires t.gate.tokens[s.signOuts[j].token].released <==>
      s.gate.tokens[s.signOuts[j].token].released || s.signOuts[j].at == LoggingOut
    ensures SignOutOk(t, j)
  {
  }

  lemma AdvanceIsIsolated(s: Desktop, j: nat)
    requires Safe(s) && j < |s.signOuts| && s.signOuts[j].at != Finished
    requires s.signOuts[j].token < |s.gate.tokens|
    requires s.signOuts[j].at == AwaitingDrain ==> s.gate.tokens[s.signOuts[j].token].drained
    ensures forall x :: x in s.exchanges && ExchangeOk(s, x) && Isolated(x, s.signOuts[j]) ==>
                          Isolated(x, Advance(s.signOuts[j], s.clock))
  {
    assert SignOutOk(s, j);
    if s.signOuts[j].at == AwaitingDrain {
      DrainedMeansSettled(s, j);
    }
  }

  // ---- the update installer ----

  /** `t` is a safe outcome of recovering the newest attempt of `s`. */
  ghost predicate Recovered(s: Desktop, t: Desktop, i: nat)
    requires s.installer.attempts != []
  {
    && GateOk(t) && AttemptsOk(t) && HasAttempt(t, i) && TokensGrow(s, t)
    && (LastIsAt(t, Restoring) || LastIsAt(t, Ended)) && Last(t).token == Last(s).token
    && t == s.(gate := t.gate, installer := t.installer)
    && (forall j: nat :: j < |s.owners| && j != Last(s).token ==> SameReleases(s, t, j))
  }

  lemma BeginRestoring(s: Desktop, t: Desktop, i: nat)
    requires GateOk(s) && AttemptsOk(s) && i == |s.installer.attempts| - 1 && HasAttempt(s, i)
    requires LastIsAt(s, HandedOver) && Last(s).stop == Some(true)
    requires t == SetAttempt(s.(installer := s.installer.(allowQuit := false)), i,
                             Last(s).(stage := Restoring, restores := Last(s).restores + 1))
    ensures Recovered(s, t, i)
  {
    assert AttemptOk(s, i);
    assert Running(t) == Running(s);
    forall j: nat | j < |t.installer.attempts|
      ensures AttemptOk(t, j)
    {
      assert AttemptOk(s, j);
    }
  }

  lemma EndAtOnce(s: Desktop, t: Desktop, i: nat)
    requires GateOk(s) && AttemptsOk(s) && i == |s.installer.attempts| - 1 && HasAttempt(s, i)
    requires (LastIsAt(s, HandedOver) || LastIsAt(s, Stopping)) && Last(s).stop != Some(true)
    requires t == FinishRecovery(s.(installer := s.installer.(allowQuit := false)), i)
    ensures Recovered(s, t, i)
  {
    assert AttemptOk(s, i);
    ReleaseGrows(s, t, Last(s).token);
    forall j: nat | j < |t.installer.attempts|
      ensures AttemptOk(t, j)
    {
      assert AttemptOk(s, j);
      if j != i {
        assert SameReleases(s, t, s.installer.attempts[j].token);
      }
    }
  }

  lemma RecoverAgain(s: Desktop, t: Desktop, i: nat)
    requires GateOk(s) && AttemptsOk(s) && i == |s.installer.attempts| - 1 && HasAttempt(s, i)
    requires LastIsAt(s, Restoring) || LastIsAt(s, Ended)
    requires t == s.(installer := s.installer.(allowQuit := false))
    ensures Recovered(s, t, i)
  {
    assert s.installer.allowQuit == false;
    assert t == s;
    assert Running(t) == Running(s);
  }

  lemma RecoverKeeps(s: Desktop, i: nat)
    requires GateOk(s) && AttemptsOk(s) && i == |s.installer.attempts| - 1
    requires Last(s).stage != Draining && HasAttempt(s, i)
    ensures Recovered(s, Recover(s, i), i)
  {
    assert AttemptOk(s, i);
    if LastIsAt(s, Restoring) || LastIsAt(s, Ended) {
      RecoverAgain(s, Recover(s, i), i);
    } else if Last(s).stop == Some(true) {
      BeginRestoring(s, Recover(s, i), i);
    } else {
      EndAtOnce(s, Recover(s, i), i);
    }
  }

  /** The state in which `install` calls its `install` option. */
  function Entered(s: Desktop, report: Option<bool>): Desktop
    requires s.installer.attempts != []
  {
    var n := |s.installer.attempts|;
    s.(installer := Installer(s.installer.inProgress, true, Some(n - 1),
         s.installer.attempts[n - 1 := Last(s).(stop := report, stage := HandedOver)]))
  }

  lemma EnteredIsOk(s: Desktop, report: Option<bool>)
    requires Safe(s) && (LastIsAt(s, Draining) || LastIsAt(s, Stopping))
    requires Last(s).token < |s.gate.tokens| && s.gate.tokens[Last(s).token].drained
    requires report.Some? <==> s.windows
    ensures GateOk(Entered(s, report)) && AttemptsOk(Entered(s, report))
    ensures HasAttempt(Entered(s, report), |s.installer.attempts| - 1)
  {
    var t := Entered(s, report);
    assert Running(t) == Running(s);
    forall j: nat | j < |t.installer.attempts|
      ensures AttemptOk(t, j)
    {
      assert AttemptOk(s, j);
    }
  }

  /** A second `recover` changes nothing. */
  lemma RecoverIsIdempotent(s: Desktop, i: nat)
    requires HasAttempt(s, i)
    ensures HasAttempt(Recover(s, i), i) && Recover(Recover(s, i), i) == Recover(s, i)
  {
    RecoverCloses(s, i);
    var t := Recover(s, i);
    assert t.(installer := t.installer.(allowQuit := false)) == t;
  }

  lemma RecoverCloses(s: Desktop, i: nat)
    requires HasAttempt(s, i)
    ensures
      var t := Recover(s, i);
      && HasAttempt(t, i) && !t.installer.allowQuit
      && (t.installer.attempts[i].stage == Restoring || t.installer.attempts[i].stage == Ended)
  {}

  /** The two ways the `install` option ends: it took over, or its failure was recovered. */
  lemma InvokeInstallCases(t: Desktop, i: nat, quit: U.Quit)
    requires HasAttempt(t, i) && t.installer.recoverFailure == Some(i)
    requires !t.controller.installing && !t.installer.attempts[i].onQuit
    ensures
      var c := U.InstallDownloaded(t.controller, quit).0;
      && c.mode == t.controller.mode
      && InvokeInstall(t, i, quit) ==
         (if c.installing then t.(controller := c) else Recover(t.(controller := c), i))
  {
    var u := t.(controller := U.InstallDownloaded(t.controller, quit).0);
    RecoverIsIdempotent(u, i);
  }

  lemma ControllerAfterInvokeKeeps(t: Desktop, i: nat, c: U.Controller)
    requires GateOk(t) && AttemptsOk(t) && LastIsAt(t, HandedOver) && !Last(t).onQuit && !c.mode.Disabled?
    requires i == |t.installer.attempts| - 1 && HasAttempt(t, i)
    ensures
      var u := t.(controller := c);
      var end := if c.installing then u else Recover(u, i);
      && GateOk(end) && InstallerOk(end) && TokensGrow(t, end)
      && (forall j: nat :: j < |t.owners| && j != Last(t).token ==> SameReleases(t, end, j))
      && end == t.(gate := end.gate, controller := end.controller, installer := end.installer)
  {
    var u := t.(controller := c);
    assert Running(u) == Running(t);
    AttemptsFrame(t, u);
    if !c.installing {
      RecoverKeeps(u, i);
      forall j: nat | j < |t.owners| && j != Last(t).token
        ensures SameReleases(t, Recover(u, i), j)
      {
        assert SameReleases(u, Recover(u, i), j);
      }
    }
  }

  lemma InvokeInstallKeeps(t: Desktop, i: nat, quit: U.Quit)
    requires GateOk(t) && AttemptsOk(t) && LastIsAt(t, HandedOver) && !t.controller.installing
    requires !t.controller.mode.Disabled?
    requires i == |t.installer.attempts| - 1 && HasAttempt(t, i)
    ensures
      var end := InvokeInstall(t, i, quit);
      && GateOk(end) && InstallerOk(end) && TokensGrow(t, end)
      && (forall j: nat :: j < |t.owners| && j != Last(t).token ==> SameReleases(t, end, j))
      && end == t.(gate := end.gate, controller := end.controller, installer := end.installer)
  {
    if !Last(t).onQuit {
      InvokeInstallCases(t, i, quit);
      ControllerAfterInvokeKeeps(t, i, U.InstallDownloaded(t.controller, quit).0);
    }
  }

  lemma AttemptsFrame(s: Desktop, t: Desktop)
    requires AttemptsOk(s)
    requires t.installer == s.installer && t.windows == s.windows && t.gate == s.gate && t.owners == s.owners
    ensures AttemptsOk(t)
  {
    forall i: nat | i < |t.installer.attempts|
      ensures AttemptOk(t, i)
    {
      assert AttemptOk(s, i);
    }
  }

  /** A segment of the installer, by way of a state `t` with the same gate, leaves the
      sign-outs and the exchanges alone. */
  lemma InstallerSegmentKeeps(s: Desktop, t: Desktop, end: Desktop, token: nat)
    requires Safe(s) && t == s.(installer := t.installer, controller := t.controller)
    requires GateOk(end) && InstallerOk(end) && TokensGrow(t, end)
    requires end == t.(gate := end.gate, controller := end.controller, installer := end.installer)
    requires token < |s.owners| && s.owners[token].Update?
    requires forall j: nat :: j < |t.owners| && j != token ==> SameReleases(t, end, j)
    ensures Safe(end.(clock := s.clock + 1))
  {
    var next := end.(clock := s.clock + 1);
    assert Running(next) == Running(end);
    InstallerFrame(end, next);
    assert TokensGrow(s, next);
    forall j: nat | j < |s.owners| && s.owners[j].SigningOut?
      ensures SameReleases(s, next, j)
    {
      assert SameReleases(t, end, j);
    }
    SignOutFrame(s, next);
    ExchangeFrame(s, next);
  }

  lemma HandOverIsInvoke(s: Desktop, i: nat, report: Option<bool>, quit: U.Quit)
    requires i == |s.installer.attempts| - 1 && HasAttempt(s, i)
    ensures HandOver(SetAttempt(s, i, Last(s).(stop := report)), i, quit)
         == InvokeInstall(Entered(s, report), i, quit)
  {
    var r := SetAttempt(s, i, Last(s).(stop := report));
    var t := Entered(s, report);
    assert r.installer.attempts[i := Last(t)] == t.installer.attempts;
  }

  lemma HandOverKeeps(s: Desktop, r: Desktop, report: Option<bool>, quit: U.Quit)
    requires Safe(s) && (LastIsAt(s, Draining) || LastIsAt(s, Stopping))
    requires Last(s).token < |s.gate.tokens| && s.gate.tokens[Last(s).token].drained
    requires report.Some? <==> s.windows
    requires r == SetAttempt(s, |s.installer.attempts| - 1, Last(s).(stop := report))
    ensures HasAttempt(r, |s.installer.attempts| - 1)
    ensures Safe(HandOver(r, |s.installer.attempts| - 1, quit).(clock := s.clock + 1))
  {
    var i := |s.installer.attempts| - 1;
    var t := Entered(s, report);
    EnteredIsOk(s, report);
    InvokeInstallKeeps(t, i, quit);
    HandOverIsInvoke(s, i, report, quit);
    assert AttemptOk(s, i);
    InstallerSegmentKeeps(s, t, InvokeInstall(t, i, quit), Last(s).token);
  }

  /** A recovery leaves the whole system safe. */
  lemma RecoveryKeeps(s: Desktop, c: U.Controller)
    requires Safe(s) && s.installer.attempts != [] && Last(s).stage != Draining
    requires HasAttempt(s, |s.installer.attempts| - 1)
    requires !c.installing && !c.mode.Disabled?
    ensures Safe(Recover(s.(controller := c), |s.installer.attempts| - 1).(clock := s.clock + 1))
  {
    var i := |s.installer.attempts| - 1;
    var t := s.(controller := c);
    assert Running(t) == Running(s);
    AttemptsFrame(s, t);
    RecoverKeeps(t, i);
    assert AttemptOk(s, i);
    InstallerSegmentKeeps(s, t, Recover(t, i), Last(s).token);
  }

  lemma InstallCalledKeeps(s: Desktop, onQuit: bool)
    requires Safe(s)
    ensures Safe(CallInstall(s, onQuit).(clock := s.clock + 1))
  {
    if s.installer.inProgress || !s.controller.status.Ready? || G.Refuses(s.gate) {
      UnchangedKeeps(s);
    } else {
      var t := CallInstall(s, onQuit).(clock := s.clock + 1);
      BlockGrows(s, t, "Clawdi is preparing an update. Try again after it finishes.");
      NewAttemptIsOk(s, t, onQuit);
      SignOutFrame(s, t);
      ExchangeFrame(s, t);
    }
  }

  lemma NewAttemptIsOk(s: Desktop, t: Desktop, onQuit: bool)
    requires InstallerOk(s) && TokensGrow(s, t) && t.windows == s.windows
    requires t.controller == s.controller && s.controller.status.Ready? && !s.installer.inProgress
    requires |t.owners| == |s.owners| + 1 && t.owners[|s.owners|] == Update(|s.installer.attempts|)
    requires !t.gate.tokens[|s.owners|].released
    requires t.installer == s.installer.(inProgress := true,
      attempts := s.installer.attempts + [Attempt(|s.owners|, onQuit, Draining, None, 0)])
    requires forall i: nat :: i < |s.owners| ==> SameReleases(s, t, i)
    ensures InstallerOk(t)
  {
    forall i: nat | i < |t.installer.attempts|
      ensures AttemptOk(t, i)
    {
      if i < |s.installer.attempts| {
        assert AttemptOk(s, i);
        assert SameReleases(s, t, s.installer.attempts[i].token);
      }
    }
  }

  lemma DrainSeenKeeps(s: Desktop, quit: U.Quit)
    requires Safe(s) && Possible(s, DrainSeen(quit))
    ensures Safe(SeeDrain(s, quit).(clock := s.clock + 1))
  {
    if s.windows {
      StoppingKeeps(s);
    } else {
      DrainedHandOverKeeps(s, quit);
    }
  }

  lemma DrainedHandOverKeeps(s: Desktop, quit: U.Quit)
    requires Safe(s) && !s.windows && LastIsAt(s, Draining) && HasAttempt(s, |s.installer.attempts| - 1)
    requires s.gate.tokens[Last(s).token].drained
    ensures Safe(HandOver(s, |s.installer.attempts| - 1, quit).(clock := s.clock + 1))
  {
    var i := |s.installer.attempts| - 1;
    assert AttemptOk(s, i);
    assert s.installer.attempts[i := Last(s)] == s.installer.attempts;
    HandOverKeeps(s, s, None, quit);
  }

  lemma StoppingKeeps(s: Desktop)
    requires Safe(s) && s.windows && LastIsAt(s, Draining)
    requires Last(s).token < |s.gate.tokens| && s.gate.tokens[Last(s).token].drained
    ensures Safe(SetAttempt(s, |s.installer.attempts| - 1, Last(s).(stage := Stopping)).(clock := s.clock + 1))
  {
    var t := SetAttempt(s, |s.installer.attempts| - 1, Last(s).(stage := Stopping)).(clock := s.clock + 1);
    assert Running(t) == Running(s);
    StoppingIsOk(s, t);
    GateStepGrows(s, t);
    SignOutFrame(s, t);
    ExchangeFrame(s, t);
  }

  lemma StoppingIsOk(s: Desktop, t: Desktop)
    requires InstallerOk(s) && s.windows && LastIsAt(s, Draining)
    requires Last(s).token < |s.gate.tokens| && s.gate.tokens[Last(s).token].drained
    requires t.windows == s.windows && t.gate == s.gate && t.owners == s.owners && t.controller == s.controller
    requires t.installer == s.installer.(attempts :=
      s.installer.attempts[|s.installer.attempts| - 1 := Last(s).(stage := Stopping)])
    ensures InstallerOk(t)
  {
    forall j: nat | j < |t.installer.attempts|
      ensures AttemptOk(t, j)
    {
      assert AttemptOk(s, j);
    }
  }

  lemma StopReturnsKeeps(s: Desktop, report: Option<bool>, quit: U.Quit)
    requires Safe(s) && Possible(s, StopReturns(report, quit))
    ensures Safe(ReturnFromStop(s, report, quit).(clock := s.clock + 1))
  {
    if report.None? {
      StopFailedKeeps(s);
    } else {
      StopReportedKeeps(s, report, quit);
    }
  }

  lemma StopReportedKeeps(s: Desktop, report: Option<bool>, quit: U.Quit)
    requires Safe(s) && LastIsAt(s, Stopping) && HasAttempt(s, |s.installer.attempts| - 1) && report.Some?
    ensures
      var i := |s.installer.attempts| - 1;
      Safe(HandOver(SetAttempt(s, i, Last(s).(stop := report)), i, quit).(clock := s.clock + 1))
  {
    var i := |s.installer.attempts| - 1;
    assert AttemptOk(s, i);
    HandOverKeeps(s, SetAttempt(s, i, Last(s).(stop := report)), report, quit);
  }

  lemma StopFailedKeeps(s: Desktop)
    requires Safe(s) && LastIsAt(s, Stopping) && HasAttempt(s, |s.installer.attempts| - 1)
    ensures Safe(Recover(s, |s.installer.attempts| - 1).(clock := s.clock + 1))
  {
    assert s.(controller := s.controller) == s;
    RecoveryKeeps(s, s.controller);
  }

  lemma RestoreReturnsKeeps(s: Desktop)
    requires Safe(s) && Possible(s, RestoreReturns)
    ensures Safe(FinishRecovery(s, |s.installer.attempts| - 1).(clock := s.clock + 1))
  {
    var i := |s.installer.attempts| - 1;
    var t := FinishRecovery(s, i).(clock := s.clock + 1);
    assert AttemptOk(s, i);
    ReleaseGrows(s, t, Last(s).token);
    FinishedIsOk(s, t);
    SignOutFrame(s, t);
    ExchangeFrame(s, t);
  }

  lemma FinishedIsOk(s: Desktop, t: Desktop)
    requires InstallerOk(s) && LastIsAt(s, Restoring) && Last(s).token < |s.owners| && TokensGrow(s, t)
    requires t.windows == s.windows && t.controller == s.controller
    requires
      var i := |s.installer.attempts| - 1;
      t.installer == Installer(false, s.installer.allowQuit, None, s.installer.attempts[i := Last(s).(stage := Ended)])
    requires t.gate.tokens[Last(s).token].released
    requires forall j: nat :: j < |s.owners| && j != Last(s).token ==> SameReleases(s, t, j)
    ensures InstallerOk(t)
  {
    var i := |s.installer.attempts| - 1;
    assert AttemptOk(s, i);
    forall j: nat | j < |t.installer.attempts|
      ensures AttemptOk(t, j)
    {
      assert AttemptOk(s, j);
      if j != i {
        assert SameReleases(s, t, s.installer.attempts[j].token);
      }
    }
  }

  lemma UpdaterTouchesInstalling(c: U.Controller, event: U.Event)
    requires !event.InstallRequested?
    ensures
      var d := U.Next(c, event);
      && d.mode == c.mode
      && (event.UpdaterError? && !c.mode.Disabled? ==> !d.installing && d == U.OnError(c))
      && (!event.UpdaterError? || c.mode.Disabled? ==> d.installing == c.installing)
      && (c.mode.Disabled? ==> d == c)
  {}

  lemma ControllerOnlyKeeps(s: Desktop, end: Desktop)
    requires Safe(s) && end == s.(controller := end.controller, clock := s.clock + 1)
    requires end.controller.installing == s.controller.installing
    requires end.controller.mode == s.controller.mode
    requires end.controller.mode.Disabled? ==> end.controller.status.Off?
    ensures Safe(end)
  {
    assert Running(end) == Running(s);
    GateStepGrows(s, end);
    InstallerFrame(s, end);
    SignOutFrame(s, end);
    ExchangeFrame(s, end);
  }

  lemma UpdaterKeeps(s: Desktop, event: U.Event)
    requires Safe(s) && !event.InstallRequested?
    ensures Safe(StepUpdater(s, event).(clock := s.clock + 1))
  {
    var t := s.(controller := U.Next(s.controller, event));
    var end := StepUpdater(s, event).(clock := s.clock + 1);
    UpdaterTouchesInstalling(s.controller, event);
    assert Running(t) == Running(s);
    if event.UpdaterError? && !s.controller.mode.Disabled? && U.ErrorFailsInstallation(s.controller)
       && s.installer.recoverFailure.Some? {
      assert AttemptOk(s, |s.installer.attempts| - 1);
      RecoveryKeeps(s, t.controller);
      assert end == Recover(t, |s.installer.attempts| - 1).(clock := s.clock + 1);
    } else {
      ControllerOnlyKeeps(s, end);
    }
  }

  lemma StepKeeps(s: Desktop, e: Event)
    requires Safe(s) && Possible(s, e)
    ensures Safe(Step(s, e))
  {
    match e {
      case ExchangeRequested => ExchangeRequestedKeeps(s);
      case ExchangeResumes(id, ok) => ExchangeResumesKeeps(s, id, ok);
      case ExchangeSettles(id) => ExchangeSettlesKeeps(s, id);
      case OtherRequested | OtherSettles => OtherKeeps(s, e);
      case SignOutRequested => SignOutRequestedKeeps(s);
      case SignOutResumes => SignOutResumesKeeps(s);
      case UninstallRequested => UninstallRequestedKeeps(s);
      case UninstallPrepares => QuittingKeeps(s);
      case UninstallEnds => UninstallEndsKeeps(s);
      case QuitRequested => QuitRequestedKeeps(s);
      case RestartRequested => InstallCalledKeeps(s, false);
      case DrainSeen(quit) => DrainSeenKeeps(s, quit);
      case StopReturns(report, quit) => StopReturnsKeeps(s, report, quit);
      case RestoreReturns => RestoreReturnsKeeps(s);
      case Updater(event) => UpdaterKeeps(s, event);
    }
  }
}
