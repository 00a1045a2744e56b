/** How the promise of a command is settled, read off the events alone. */
module CommandSettlement {
  import opened Common
  import opened Utf8
  import opened CommandRunner

  /** What an event that disturbs a calm run terminates it with. A stream over its bound comes before
      a line on which the callback throws. */
  function Cause(out: Text, err: Text, e: Event): Error {
    match e
    case TimedOut => TooLong
    case Aborted => Cancelled
    case _ =>
      if |Encode(out + OutOf(e))| > 1_048_576 || |Encode(err + ErrOf(e))| > 1_048_576 then TooMuchOutput
      else BadProgress
  }

  /** The first event after which the run is no longer calm. */
  ghost predicate Disturbs(c: Callback, events: seq<Event>, t: nat) {
    t < |events| && Calm(c, events[..t]) && !Calm(c, events[..t + 1])
  }

  function CauseAt(events: seq<Event>, t: nat): Error
    requires t < |events|
  {
    Cause(OutText(events[..t]), ErrText(events[..t]), events[t])
  }

  /** The settlement that a settling event makes of the run up to it. */
  ghost predicate SettlesWith(c: Callback, events: seq<Event>, j: nat, s: Settlement)
    requires j < |events| && Settles(events[j])
  {
    var front := events[..j + 1];
    if events[j].ChildError? then s == Rejected(Spawn)
    else if !Calm(c, front) then exists t: nat :: Disturbs(c, front, t) && s == Rejected(CauseAt(front, t))
    else s == if events[j].success then Resolved(OutText(front), ErrText(front)) else Rejected(Failed)
  }

  // ---- which termination is recorded ----

  lemma StdoutCause(r: Run, chunk: Text)
    requires Sound(r) && !r.settled && r.termination.None?
    ensures OnStdout(r, chunk).termination ==
      if |Encode(r.out + chunk)| > MAX_OUTPUT_BYTES then Some(TooMuchOutput) else None
  {}

  lemma StderrCause(r: Run, c: Callback, chunk: Text)
    requires Sound(r) && Faithful(r, c) && !r.settled && r.termination.None?
    ensures
      var t := OnStderr(r, c, chunk).termination;
      t.Some? ==> t.value == if |Encode(r.err + chunk)| > MAX_OUTPUT_BYTES then TooMuchOutput else BadProgress
  {}

  lemma TerminationIsKept(r: Run, c: Callback, chunk: Text)
    requires r.termination.Some?
    ensures OnStderr(r, c, chunk).termination == r.termination && OnStdout(r, chunk).termination == r.termination
  {}

  /** A calm run is terminated by the first event that disturbs it, with that event's cause. */
  lemma NextCause(r: Run, c: Callback, e: Event)
    requires Sound(r) && Faithful(r, c) && !r.settled && r.termination.None? && Next(r, c, e).termination.Some?
    ensures Next(r, c, e).termination == Some(Cause(r.out, r.err, e))
  {
    NothingWritten(r, c);
    match e {
      case Stdout(chunk) => StdoutCause(r, chunk);
      case Stderr(chunk) => StderrCause(r, c, chunk);
      case Close(success, outTail, errTail) =>
        ClosingTerminatesNothing(r, c, success, outTail, errTail);
        CloseCause(r, c, outTail, errTail);
      case _ =>
    }
  }

  lemma CloseCause(r: Run, c: Callback, outTail: Text, errTail: Text)
    requires Sound(r) && Faithful(r, c) && !r.settled && r.termination.None?
    ensures
      var t := OnStderr(OnStdout(r, outTail), c, errTail).termination;
      t.Some? ==>
        t.value == if |Encode(r.out + outTail)| > MAX_OUTPUT_BYTES || |Encode(r.err + errTail)| > MAX_OUTPUT_BYTES
                   then TooMuchOutput else BadProgress
  {
    var s := OnStdout(r, outTail);
    StdoutCause(r, outTail);
    if s.termination.Some? {
      TerminationIsKept(s, c, errTail);
    } else {
      StdoutIsSound(r, outTail);
      StdoutIsFaithful(r, c, outTail);
      StdoutStreams(r, outTail);
      StderrCause(s, c, errTail);
    }
  }

  lemma NextKeepsTermination(r: Run, c: Callback, e: Event)
    requires r.termination.Some?
    ensures Next(r, c, e).termination == r.termination
  {
    if e.Close? {
      TerminationIsKept(r, c, e.outTail);
      TerminationIsKept(OnStdout(r, e.outTail), c, e.errTail);
      ClosingTerminatesNothing(r, c, e.success, e.outTail, e.errTail);
    } else if e.Stderr? {
      TerminationIsKept(r, c, e.chunk);
    }
  }

  lemma DisturbedNow(c: Callback, front: seq<Event>, e: Event)
    requires OnlyLastSettles(front + [e]) && Calm(c, front) && !Calm(c, front + [e])
    ensures After(c, front + [e]).termination == Some(Cause(OutText(front), ErrText(front), e))
  {
    var events := front + [e];
    assert events[..|events| - 1] == front;
    assert forall i :: 0 <= i < |front| ==> !Settles(events[i]) && front[i] == events[i];
    InStepUntilSettled(c, front);
    InStepUntilSettled(c, events);
    StreamsAreTheEvents(c, front);
    NextCause(After(c, front), c, e);
  }

  /** Up to the event that settles the promise, a run that is not calm was terminated with the cause
      of the first event that disturbed it. */
  lemma {:induction false} TerminationIsFirstCause(c: Callback, events: seq<Event>, n: nat) returns (t: nat)
    requires n <= |events| && OnlyLastSettles(events) && !Calm(c, events[..n])
    ensures Disturbs(c, events, t) && After(c, events[..n]).termination == Some(CauseAt(events, t))
  {
    if n == 0 {
      NoEventIsCalm(c);
      assert false;
    }
    var front, e := events[..n - 1], events[n - 1];
    assert events[..n] == front + [e];
    if Calm(c, front) {
      t := n - 1;
      assert events[..t + 1] == events[..n];
      DisturbedNow(c, front, e);
    } else {
      t := TerminationIsFirstCause(c, events, n - 1);
      assert events[..n][..n - 1] == front;
      NextKeepsTermination(After(c, front), c, e);
    }
  }

  // ---- the settlement ----

  lemma CloseSettles(r: Run, c: Callback, e: Event)
    requires Sound(r) && !r.settled && e.Close?
    ensures
      var t := Next(r, c, e);
      t.settlements == [
        if t.termination.Some? then Rejected(t.termination.value)
        else if e.success then Resolved(t.out, t.err) else Rejected(Failed)]
  {
    StdoutIsSound(r, e.outTail);
    StderrIsSound(OnStdout(r, e.outTail), c, e.errTail);
  }

  lemma SettlesNow(c: Callback, events: seq<Event>) returns (s: Settlement)
    requires events != [] && OnlyLastSettles(events) && Settles(events[|events| - 1])
    ensures After(c, events).settlements == [s] && SettlesWith(c, events, |events| - 1, s)
  {
    var front, e := events[..|events| - 1], events[|events| - 1];
    InStepUntilSettled(c, front);
    InStepUntilSettled(c, events);
    StreamsAreTheEvents(c, events);
    assert events[..(|events| - 1) + 1] == events;
    var r := After(c, front);
    if e.ChildError? {
      s := Rejected(Spawn);
      assert r.settlements == [];
    } else {
      CloseSettles(r, c, e);
      s := After(c, events).settlements[0];
      if !Calm(c, events) {
        var t := TerminationIsFirstCause(c, events, |events|);
      }
    }
  }

  lemma SettledStays(r: Run, c: Callback, e: Event)
    requires r.settled
    ensures Next(r, c, e).settlements == r.settlements && Next(r, c, e).settled
  {}

  /** For any order of events: the promise stays open until a child error or a close, and is then
      settled once and for all by the first of them. A child error rejects it as such. A close
      resolves it, with everything written, exactly when the run was calm up to and including it
      and the exit code was zero; it rejects a calm run as failed and any other with the first thing
      that disturbed it. */
  lemma {:induction false} PromiseIsSettledByFirst(c: Callback, events: seq<Event>)
    ensures (forall i :: 0 <= i < |events| ==> !Settles(events[i])) ==> After(c, events).settlements == []
    ensures forall j: nat :: FirstSettles(events, j) ==>
      |After(c, events).settlements| == 1 && SettlesWith(c, events, j, After(c, events).settlements[0])
  {
    if forall i :: 0 <= i < |events| ==> !Settles(events[i]) {
      InStepUntilSettled(c, events);
    }
    forall j: nat | FirstSettles(events, j)
      ensures |After(c, events).settlements| == 1 && SettlesWith(c, events, j, After(c, events).settlements[0])
    {
      SettledAt(c, events, j);
    }
  }

  lemma {:induction false} SettledAt(c: Callback, events: seq<Event>, j: nat)
    requires FirstSettles(events, j)
    ensures After(c, events).settled
    ensures |After(c, events).settlements| == 1 && SettlesWith(c, events, j, After(c, events).settlements[0])
    decreases |events|
  {
    if |events| == j + 1 {
      var s := SettlesNow(c, events);
      InStepUntilSettled(c, events);
    } else {
      var front := events[..|events| - 1];
      assert front[..j + 1] == events[..j + 1] && front[j] == events[j];
      SettledAt(c, front, j);
      SettledStays(After(c, front), c, events[|events| - 1]);
    }
  }

  ghost predicate IsResolved(r: Run) {
    |r.settlements| == 1 && r.settlements[0].Resolved?
  }

  ghost predicate ClosesCalmly(c: Callback, events: seq<Event>, j: nat) {
    FirstSettles(events, j) && events[j].Close? && events[j].success && Calm(c, events[..j + 1])
  }

  lemma ResolvedBy(c: Callback, events: seq<Event>, j: nat)
    requires FirstSettles(events, j)
    ensures IsResolved(After(c, events)) <==> ClosesCalmly(c, events, j)
  {
    SettledAt(c, events, j);
    var s := After(c, events).settlements[0];
    assert SettlesWith(c, events, j, s);
  }

  lemma FirstSettlesOnce(events: seq<Event>, i: nat, j: nat)
    requires FirstSettles(events, i) && FirstSettles(events, j)
    ensures i == j
  {}

  /** So it is resolved exactly by a first settling close with exit code zero after a calm run. */
  lemma ResolvedExactlyWhen(c: Callback, events: seq<Event>)
    ensures IsResolved(After(c, events)) <==> exists j: nat :: ClosesCalmly(c, events, j)
  {
    if j: nat :| FirstSettles(events, j) {
      ResolvedBy(c, events, j);
      forall i: nat | ClosesCalmly(c, events, i) ensures i == j { FirstSettlesOnce(events, i, j); }
    } else {
      forall i | 0 <= i < |events| ensures !Settles(events[i]) { NotSettledYet(events, i); }
      InStepUntilSettled(c, events);
    }
  }
}
