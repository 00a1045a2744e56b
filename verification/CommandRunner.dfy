/** Running a CLI command (apps/desktop/src/command-runner.ts): bounded output, progress lines
    split from a stream of chunks, and one settlement of the promise.

    Chunks are the texts the `StringDecoder`s return; the environment decides their boundaries,
    the order of events and when the progress callback throws. */
module CommandRunner {
  import opened Common
  import opened Utf8

  const MAX_OUTPUT_BYTES := 1024 * 1024
  const NEWLINE: Point := 10

  datatype Error = TooLong | Cancelled | TooMuchOutput | BadProgress | Spawn | Failed

  datatype Settlement = Resolved(stdout: Text, stderr: Text) | Rejected(error: Error)

  /** The variables of one run. `out` and `err` are everything the child has written so far,
      `lines` what the callback was given and `settlements` how the promise was settled. */
  datatype Run = Run(
    stdout: Text, stderr: Text, partial: Text,
    settled: bool, termination: Option<Error>,
    out: Text, err: Text, lines: seq<Text>, settlements: seq<Settlement>)

  const Started := Run([], [], [], false, None, [], [], [], [])

  /** Whether there is a progress callback, and whether it throws on the last of the lines it
      has been given. */
  datatype Callback = NoCallback | Callback(throws: seq<Text> -> bool)

  datatype Event =
    | Stdout(chunk: Text)
    | Stderr(chunk: Text)
    | TimedOut
    | Aborted
    | ChildError
    | Close(success: bool, outTail: Text, errTail: Text)

  function Terminate(r: Run, e: Error): Run {
    if r.settled || r.termination.Some? then r else r.(termination := Some(e))
  }

  function Finish(r: Run, s: Settlement): Run {
    if r.settled then r else r.(settled := true, settlements := r.settlements + [s])
  }

  predicate Overflows(current: Text, chunk: Text) {
    |Encode(current + chunk)| > MAX_OUTPUT_BYTES
  }

  function OnStdout(r: Run, chunk: Text): Run {
    var s := r.(out := r.out + chunk);
    if Overflows(r.stdout, chunk) then Terminate(s, TooMuchOutput) else s.(stdout := r.stdout + chunk)
  }

  /** `stderr = append(stderr, chunk)`. */
  function AppendStderr(r: Run, chunk: Text): Run {
    var s := r.(err := r.err + chunk);
    if Overflows(r.stderr, chunk) then Terminate(s, TooMuchOutput) else s.(stderr := r.stderr + chunk)
  }

  /** The index of the first newline, or the length. */
  function NewlineIndex(t: Text): (i: nat)
    ensures i <= |t| && (i < |t| ==> t[i] == NEWLINE) && forall j :: 0 <= j < i ==> t[j] != NEWLINE
  {
    if t == [] then 0 else if t[0] == NEWLINE then 0 else 1 + NewlineIndex(t[1..])
  }

  predicate HasLine(t: Text) {
    NewlineIndex(t) < |t|
  }

  /** Where the delivery loop stops: the lines given, the text kept and whether the callback
      threw. A line it throws on is not removed from the text. */
  datatype Delivery = Delivery(lines: seq<Text>, partial: Text, threw: bool)

  /** The loop that gives complete lines to the callback until it throws. */
  function Deliver(given: seq<Text>, partial: Text, throws: seq<Text> -> bool): Delivery
    decreases |partial|
  {
    if !HasLine(partial) then Delivery(given, partial, false)
    else
      var i := NewlineIndex(partial);
      var lines := given + [partial[..i]];
      if throws(lines) then Delivery(lines, partial, true) else Deliver(lines, partial[i + 1..], throws)
  }

  function OnStderr(r: Run, c: Callback, chunk: Text): Run {
    var s := AppendStderr(r, chunk);
    if c.NoCallback? || s.termination.Some? then s
    else
      var d := Deliver(s.lines, s.partial + chunk, c.throws);
      var t := s.(lines := d.lines, partial := d.partial);
      if d.threw then Terminate(t, BadProgress) else t
  }

  function OnClose(r: Run, c: Callback, success: bool, outTail: Text, errTail: Text): Run {
    var s := OnStderr(OnStdout(r, outTail), c, errTail);
    if s.termination.Some? then Finish(s, Rejected(s.termination.value))
    else if success then Finish(s, Resolved(s.stdout, s.stderr))
    else Finish(s, Rejected(Failed))
  }

  function Next(r: Run, c: Callback, e: Event): Run {
    match e
    case Stdout(chunk) => OnStdout(r, chunk)
    case Stderr(chunk) => OnStderr(r, c, chunk)
    case TimedOut => Terminate(r, TooLong)
    case Aborted => Terminate(r, Cancelled)
    case ChildError => Finish(r, Rejected(Spawn))
    case Close(success, outTail, errTail) => OnClose(r, c, success, outTail, errTail)
  }

  function After(c: Callback, events: seq<Event>): Run {
    if events == [] then Started else Next(After(c, events[..|events| - 1]), c, events[|events| - 1])
  }

  // ---- the reference: splitting the whole stream ----

  /** The newline-terminated lines of a text. */
  function Lines(t: Text): seq<Text>
    decreases |t|
  {
    if !HasLine(t) then [] else [t[..NewlineIndex(t)]] + Lines(t[NewlineIndex(t) + 1..])
  }

  /** What is left after the last newline. */
  function Tail(t: Text): Text
    decreases |t|
  {
    if !HasLine(t) then t else Tail(t[NewlineIndex(t) + 1..])
  }

  /** The lines given are exactly those of the stream so far, and what is kept is its tail. */
  ghost predicate InStep(r: Run) {
    r.lines == Lines(r.err) && r.partial == Tail(r.err)
  }

  /** Unless something terminated the run, the callback is in step with the stream; in any case
      it was given a prefix of the stream's lines. */
  ghost predicate Faithful(r: Run, c: Callback) {
    && r.lines <= Lines(r.err)
    && (c.Callback? && r.termination.None? ==> InStep(r))
    && (c.NoCallback? ==> r.lines == [])
  }

  lemma NewlineInPrefix(t: Text, u: Text)
    requires HasLine(t)
    ensures NewlineIndex(t + u) == NewlineIndex(t)
  {
    if t[0] != NEWLINE {
      assert (t + u)[1..] == t[1..] + u;
      NewlineInPrefix(t[1..], u);
    }
  }

  /** Splitting may be resumed from the tail. */
  lemma {:induction false} LinesResume(t: Text, u: Text)
    ensures Lines(t + u) == Lines(t) + Lines(Tail(t) + u)
    ensures Tail(t + u) == Tail(Tail(t) + u)
    decreases |t|
  {
    if HasLine(t) {
      var i := NewlineIndex(t);
      NewlineInPrefix(t, u);
      assert (t + u)[..i] == t[..i] && (t + u)[i + 1..] == t[i + 1..] + u;
      LinesResume(t[i + 1..], u);
    }
  }

  lemma {:induction false} TailHasNoLine(t: Text)
    ensures !HasLine(Tail(t))
    decreases |t|
  {
    if HasLine(t) {
      TailHasNoLine(t[NewlineIndex(t) + 1..]);
    }
  }

  /** The delivery loop gives the lines of what it holds, in order, up to one it throws on. */
  lemma {:induction false} DeliverFollowsLines(given: seq<Text>, partial: Text, throws: seq<Text> -> bool)
    ensures
      var d := Deliver(given, partial, throws);
      && given <= d.lines <= given + Lines(partial)
      && (if d.threw then HasLine(d.partial) else d.lines == given + Lines(partial) && d.partial == Tail(partial))
    decreases |partial|
  {
    if HasLine(partial) {
      var i := NewlineIndex(partial);
      var lines := given + [partial[..i]];
      assert given + Lines(partial) == lines + Lines(partial[i + 1..]);
      if !throws(lines) {
        DeliverFollowsLines(lines, partial[i + 1..], throws);
      }
    }
  }

  /** The callback throws on the `k`-th of some lines, given after the others. */
  predicate ThrowsAt(throws: seq<Text> -> bool, given: seq<Text>, lines: seq<Text>, k: nat) {
    k < |lines| && throws(given + lines[..k + 1])
  }

  ghost predicate ThrowsOn(throws: seq<Text> -> bool, given: seq<Text>, lines: seq<Text>) {
    exists k: nat :: ThrowsAt(throws, given, lines, k)
  }

  /** The delivery loop throws exactly when the callback throws on one of the lines held. */
  lemma {:induction false} DeliverThrowsExactlyWhen(given: seq<Text>, partial: Text, throws: seq<Text> -> bool)
    ensures Deliver(given, partial, throws).threw <==> ThrowsOn(throws, given, Lines(partial))
    decreases |partial|
  {
    if HasLine(partial) {
      var i := NewlineIndex(partial);
      var line, rest := partial[..i], partial[i + 1..];
      FirstThrow(given, line, Lines(rest), throws);
      if !throws(given + [line]) {
        DeliverThrowsExactlyWhen(given + [line], rest, throws);
      }
    }
  }

  lemma FirstThrow(given: seq<Text>, line: Text, later: seq<Text>, throws: seq<Text> -> bool)
    ensures ThrowsOn(throws, given, [line] + later) <==>
      throws(given + [line]) || ThrowsOn(throws, given + [line], later)
  {
    var all := [line] + later;
    assert all[..0 + 1] == [line];
    if throws(given + [line]) {
      assert ThrowsAt(throws, given, all, 0);
    }
    forall k: nat | k < |later|
      ensures ThrowsAt(throws, given, all, k + 1) <==> ThrowsAt(throws, given + [line], later, k)
    {
      assert given + all[..(k + 1) + 1] == (given + [line]) + later[..k + 1];
    }
    if ThrowsOn(throws, given + [line], later) {
      var k: nat :| ThrowsAt(throws, given + [line], later, k);
      assert ThrowsAt(throws, given, all, k + 1);
    }
    if ThrowsOn(throws, given, all) && !throws(given + [line]) {
      var k: nat :| ThrowsAt(throws, given, all, k);
      assert k > 0;
      assert ThrowsAt(throws, given, all, (k - 1) + 1);
      assert ThrowsAt(throws, given + [line], later, k - 1);
    }
  }

  /** A throw on some of the lines is on the first ones or, given after these, on the others. */
  lemma {:induction false} ThrowsOnAppended(throws: seq<Text> -> bool, given: seq<Text>, a: seq<Text>, b: seq<Text>)
    ensures ThrowsOn(throws, given, a + b) <==> ThrowsOn(throws, given, a) || ThrowsOn(throws, given + a, b)
    decreases |a|
  {
    if a == [] {
      assert a + b == b && given + a == given;
      assert !ThrowsOn(throws, given, a) by {
        forall k: nat ensures !ThrowsAt(throws, given, a, k) {}
      }
    } else {
      var line, rest := a[0], a[1..];
      assert a == [line] + rest && a + b == [line] + (rest + b);
      FirstThrow(given, line, rest, throws);
      FirstThrow(given, line, rest + b, throws);
      ThrowsOnAppended(throws, given + [line], rest, b);
      assert given + a == (given + [line]) + rest;
    }
  }

  /** The callback throws while the promise is already settled and nothing has terminated the
      run, as after an `error` event of the child. */
  ghost predicate ThrowsUnheard(r: Run, c: Callback, chunk: Text) {
    && c.Callback? && r.settled && r.termination.None?
    && ThrowsOn(c.throws, r.lines, Lines(r.partial + chunk))
  }

  /** A chunk of the error stream keeps the callback faithful to the stream exactly when no throw
      goes unheard. */
  lemma StderrIsFaithfulExactlyWhen(r: Run, c: Callback, chunk: Text)
    requires Faithful(r, c)
    ensures Faithful(OnStderr(r, c, chunk), c) <==> !ThrowsUnheard(r, c, chunk)
  {
    LinesGrow(r.err, chunk);
    if c.Callback? && r.termination.None? {
      DeliverThrowsExactlyWhen(r.lines, r.partial + chunk, c.throws);
      DeliveryInStep(r.err, chunk, c.throws);
    }
  }

  lemma LinesGrow(t: Text, u: Text)
    ensures Lines(t) <= Lines(t + u)
  {
    LinesResume(t, u);
  }

  /** From a state in step, the loop ends in step unless it threw. */
  lemma DeliveryInStep(t: Text, chunk: Text, throws: seq<Text> -> bool)
    ensures
      var d := Deliver(Lines(t), Tail(t) + chunk, throws);
      && d.lines <= Lines(t + chunk)
      && (d.threw <==> !(d.lines == Lines(t + chunk) && d.partial == Tail(t + chunk)))
  {
    LinesResume(t, chunk);
    TailHasNoLine(t + chunk);
    DeliverFollowsLines(Lines(t), Tail(t) + chunk, throws);
  }

  /** A throw that goes unheard is repeated by the next chunk, even by the empty one of the
      `close` event: the callback is given more lines than the stream has. */
  lemma UnheardThrowRepeatsTheLine(r: Run, c: Callback, line: Text)
    requires Faithful(r, c) && c.Callback? && r.settled && r.termination.None?
    requires r.partial == [] && !HasLine(line) && c.throws(r.lines + [line])
    ensures
      var s := Next(Next(r, c, Stderr(line + [NEWLINE])), c, Close(true, [], []));
      s.lines == r.lines + [line, line] && !(s.lines <= Lines(s.err))
  {
    var chunk := line + [NEWLINE];
    GivesOneLine(r, c, line, chunk);
    var s := OnStderr(r, c, chunk);
    CloseGivesItAgain(s, c, line, chunk);
    LinesResume(r.err, chunk);
    OneLine(line);
    assert (r.lines + [line]) + [line] == r.lines + [line, line];
  }

  /** It does happen: the child reports an error, then writes a line the callback throws on, then
      closes. */
  lemma UnheardThrowHappens(c: Callback, line: Text)
    requires c.Callback? && !HasLine(line) && c.throws([line])
    ensures
      var r := After(c, [ChildError, Stderr(line + [NEWLINE]), Close(true, [], [])]);
      r.lines == [line, line] && !(r.lines <= Lines(r.err))
  {
    var a, b, d := ChildError, Stderr(line + [NEWLINE]), Close(true, [], []);
    assert [a, b, d][..2] == [a, b] && [a, b][..1] == [a] && [a][..0] == [];
    var r := After(c, [a]);
    assert After(c, []) == Started && r == Next(After(c, []), c, a);
    assert [] + [Rejected(Spawn)] == [Rejected(Spawn)];
    assert After(c, [a, b, d]) == Next(Next(r, c, b), c, d);
    assert [] + [line] == [line];
    UnheardThrowRepeatsTheLine(r, c, line);
  }

  lemma CloseGivesItAgain(s: Run, c: Callback, line: Text, chunk: Text)
    requires c.Callback? && s.settled && s.termination.None? && s.partial == chunk
    requires !HasLine(line) && chunk == line + [NEWLINE]
    ensures
      var t := Next(s, c, Close(true, [], []));
      t.lines == s.lines + [line] && t.err == s.err
  {
    var u := OnStdout(s, []);
    assert u.partial + [] == chunk && u.err + [] == s.err;
    DeliverOneLine(u.lines, line, c.throws);
    assert OnStderr(u, c, []).lines == s.lines + [line];
  }

  lemma GivesOneLine(r: Run, c: Callback, line: Text, chunk: Text)
    requires c.Callback? && r.settled && r.termination.None? && r.partial == []
    requires !HasLine(line) && chunk == line + [NEWLINE]
    ensures
      var s := OnStderr(r, c, chunk);
      && s.lines == r.lines + [line] && s.termination.None? && s.settled && s.err == r.err + chunk
      && (c.throws(r.lines + [line]) ==> s.partial == chunk)
  {
    assert r.partial + chunk == chunk;
    DeliverOneLine(r.lines, line, c.throws);
  }

  lemma OneLine(line: Text)
    requires !HasLine(line)
    ensures Lines(line + [NEWLINE]) == [line]
  {
    FirstNewline(line);
    var chunk := line + [NEWLINE];
    assert chunk[..|line|] == line && chunk[|line| + 1..] == [];
    assert Lines([]) == [];
  }

  /** One complete line is given once, and kept if the callback throws on it. */
  lemma DeliverOneLine(given: seq<Text>, line: Text, throws: seq<Text> -> bool)
    requires !HasLine(line)
    ensures
      var d := Deliver(given, line + [NEWLINE], throws);
      && d.lines == given + [line] && d.threw == throws(given + [line])
      && (d.threw ==> d.partial == line + [NEWLINE])
  {
    FirstNewline(line);
    var chunk := line + [NEWLINE];
    assert chunk[..|line|] == line && chunk[|line| + 1..] == [];
    assert !HasLine([]);
  }

  lemma FirstNewline(line: Text)
    requires !HasLine(line)
    ensures NewlineIndex(line + [NEWLINE]) == |line|
  {
    if line != [] {
      assert (line + [NEWLINE])[1..] == line[1..] + [NEWLINE];
      FirstNewline(line[1..]);
    }
  }

  // ---- whole runs ----

  /** The event makes the callback throw on no line unheard. */
  ghost predicate Heard(r: Run, c: Callback, e: Event) {
    match e
    case Stderr(chunk) => !ThrowsUnheard(r, c, chunk)
    case Close(_, outTail, errTail) => !ThrowsUnheard(OnStdout(r, outTail), c, errTail)
    case _ => true
  }

  /** Settled at most once, and nothing the child wrote is missing while neither settled nor
      terminated. */
  ghost predicate Sound(r: Run) {
    && |r.settlements| == (if r.settled then 1 else 0)
    && |Encode(r.stdout)| <= MAX_OUTPUT_BYTES && |Encode(r.stderr)| <= MAX_OUTPUT_BYTES
    && (!r.settled && r.termination.None? ==> r.stdout == r.out && r.stderr == r.err)
    && (forall s :: s in r.settlements && s.Resolved? ==>
          |Encode(s.stdout)| <= MAX_OUTPUT_BYTES && |Encode(s.stderr)| <= MAX_OUTPUT_BYTES)
  }

  lemma StderrIsSound(r: Run, c: Callback, chunk: Text)
    requires Sound(r)
    ensures Sound(OnStderr(r, c, chunk))
    ensures OnStderr(r, c, chunk).settled == r.settled && OnStderr(r, c, chunk).settlements == r.settlements
  {}

  lemma StdoutIsSound(r: Run, chunk: Text)
    requires Sound(r)
    ensures Sound(OnStdout(r, chunk)) && OnStdout(r, chunk).settlements == r.settlements
  {}

  lemma NextIsSound(r: Run, c: Callback, e: Event)
    requires Sound(r)
    ensures Sound(Next(r, c, e))
  {
    match e {
      case Stdout(chunk) => StdoutIsSound(r, chunk);
      case Stderr(chunk) => StderrIsSound(r, c, chunk);
      case Close(success, outTail, errTail) =>
        StdoutIsSound(r, outTail);
        StderrIsSound(OnStdout(r, outTail), c, errTail);
      case _ =>
    }
  }

  lemma NextIsFaithful(r: Run, c: Callback, e: Event)
    requires Faithful(r, c) && Heard(r, c, e)
    ensures Faithful(Next(r, c, e), c)
  {
    match e {
      case Stdout(chunk) => StdoutIsFaithful(r, c, chunk);
      case Stderr(chunk) => StderrIsFaithfulExactlyWhen(r, c, chunk);
      case TimedOut => TerminateIsFaithful(r, c, TooLong);
      case Aborted => TerminateIsFaithful(r, c, Cancelled);
      case ChildError => FaithfulFrame(r, Finish(r, Rejected(Spawn)), c);
      case Close(success, outTail, errTail) => CloseIsFaithful(r, c, success, outTail, errTail);
    }
  }

  lemma TerminateIsFaithful(r: Run, c: Callback, e: Error)
    requires Faithful(r, c)
    ensures Faithful(Terminate(r, e), c)
  {
    FaithfulFrame(r, Terminate(r, e), c);
  }

  lemma CloseIsFaithful(r: Run, c: Callback, success: bool, outTail: Text, errTail: Text)
    requires Faithful(r, c) && !ThrowsUnheard(OnStdout(r, outTail), c, errTail)
    ensures Faithful(OnClose(r, c, success, outTail, errTail), c)
  {
    var s := OnStdout(r, outTail);
    StdoutIsFaithful(r, c, outTail);
    StderrIsFaithfulExactlyWhen(s, c, errTail);
    FaithfulFrame(OnStderr(s, c, errTail), OnClose(r, c, success, outTail, errTail), c);
  }

  lemma FaithfulFrame(r: Run, s: Run, c: Callback)
    requires Faithful(r, c) && s.lines == r.lines && s.partial == r.partial && s.err == r.err
    requires s.termination.None? ==> r.termination.None?
    ensures Faithful(s, c)
  {}

  lemma StdoutIsFaithful(r: Run, c: Callback, chunk: Text)
    requires Faithful(r, c)
    ensures Faithful(OnStdout(r, chunk), c)
  {
    FaithfulFrame(r, OnStdout(r, chunk), c);
  }

  // ---- what the child wrote and how the run was ended, read off the events ----

  function OutOf(e: Event): Text {
    match e
    case Stdout(chunk) => chunk
    case Close(_, outTail, _) => outTail
    case _ => []
  }

  function ErrOf(e: Event): Text {
    match e
    case Stderr(chunk) => chunk
    case Close(_, _, errTail) => errTail
    case _ => []
  }

  function OutText(events: seq<Event>): Text {
    if events == [] then [] else OutText(events[..|events| - 1]) + OutOf(events[|events| - 1])
  }

  function ErrText(events: seq<Event>): Text {
    if events == [] then [] else ErrText(events[..|events| - 1]) + ErrOf(events[|events| - 1])
  }

  lemma {:induction false} StreamsAreTheEvents(c: Callback, events: seq<Event>)
    ensures After(c, events).out == OutText(events) && After(c, events).err == ErrText(events)
  {
    if events != [] {
      StreamsAreTheEvents(c, events[..|events| - 1]);
      NextStreams(After(c, events[..|events| - 1]), c, events[|events| - 1]);
    }
  }

  lemma NextStreams(r: Run, c: Callback, e: Event)
    ensures Next(r, c, e).out == r.out + OutOf(e) && Next(r, c, e).err == r.err + ErrOf(e)
  {
    match e {
      case Stdout(chunk) => StdoutStreams(r, chunk);
      case Stderr(chunk) => StderrStreams(r, c, chunk);
      case Close(success, outTail, errTail) =>
        StdoutStreams(r, outTail);
        StderrStreams(OnStdout(r, outTail), c, errTail);
      case _ =>
    }
    assert r.out + [] == r.out && r.err + [] == r.err;
  }

  lemma StdoutStreams(r: Run, chunk: Text)
    ensures OnStdout(r, chunk).out == r.out + chunk && OnStdout(r, chunk).err == r.err
  {}

  lemma StderrStreams(r: Run, c: Callback, chunk: Text)
    ensures OnStderr(r, c, chunk).out == r.out && OnStderr(r, c, chunk).err == r.err + chunk
  {}

  predicate Settles(e: Event) {
    e.ChildError? || e.Close?
  }

  predicate Interrupts(e: Event) {
    e.TimedOut? || e.Aborted?
  }

  /** Nothing in these events terminates the run: no timeout and no abort, neither stream over the
      bound, and no line of the error stream on which the callback throws. */
  ghost predicate Calm(c: Callback, events: seq<Event>) {
    && (forall i :: 0 <= i < |events| ==> !Interrupts(events[i]))
    && |Encode(OutText(events))| <= MAX_OUTPUT_BYTES && |Encode(ErrText(events))| <= MAX_OUTPUT_BYTES
    && (c.Callback? ==> !ThrowsOn(c.throws, [], Lines(ErrText(events))))
  }

  /** Calm so far, and this event keeps it so. */
  ghost predicate StaysCalm(c: Callback, out: Text, err: Text, e: Event) {
    && !Interrupts(e)
    && |Encode(out + OutOf(e))| <= MAX_OUTPUT_BYTES && |Encode(err + ErrOf(e))| <= MAX_OUTPUT_BYTES
    && (c.Callback? ==> !ThrowsOn(c.throws, Lines(err), Lines(Tail(err) + ErrOf(e))))
  }

  lemma CalmStep(c: Callback, events: seq<Event>)
    requires events != []
    ensures
      var front, e := events[..|events| - 1], events[|events| - 1];
      Calm(c, events) <==> Calm(c, front) && StaysCalm(c, OutText(front), ErrText(front), e)
  {
    var front, e := events[..|events| - 1], events[|events| - 1];
    EncodingGrows(OutText(front), OutOf(e));
    EncodingGrows(ErrText(front), ErrOf(e));
    if c.Callback? {
      ThrowsStep(c.throws, ErrText(front), ErrOf(e));
    }
    InterruptStep(events);
  }

  lemma EncodingGrows(a: Text, b: Text)
    ensures |Encode(a)| <= |Encode(a + b)|
  {
    EncodeAppends(a, b);
  }

  lemma ThrowsStep(throws: seq<Text> -> bool, err: Text, chunk: Text)
    ensures ThrowsOn(throws, [], Lines(err + chunk)) <==>
      ThrowsOn(throws, [], Lines(err)) || ThrowsOn(throws, Lines(err), Lines(Tail(err) + chunk))
  {
    LinesResume(err, chunk);
    ThrowsOnAppended(throws, [], Lines(err), Lines(Tail(err) + chunk));
    assert [] + Lines(err) == Lines(err);
  }

  lemma InterruptStep(events: seq<Event>)
    requires events != []
    ensures
      var front, e := events[..|events| - 1], events[|events| - 1];
      (forall i :: 0 <= i < |events| ==> !Interrupts(events[i])) <==>
        (forall i :: 0 <= i < |front| ==> !Interrupts(front[i])) && !Interrupts(e)
  {
    var front := events[..|events| - 1];
    assert forall i :: 0 <= i < |front| ==> front[i] == events[i];
  }

  /** While the promise is not settled, an event terminates the run exactly when it is not calm. */
  lemma TerminatesExactlyWhen(r: Run, c: Callback, e: Event)
    requires Sound(r) && Faithful(r, c) && !r.settled
    ensures Next(r, c, e).termination.None? <==> r.termination.None? && StaysCalm(c, r.out, r.err, e)
  {
    if r.termination.Some? {
      TerminationStays(r, c, e);
    } else {
      TerminatesNow(r, c, e);
    }
  }

  lemma TerminatesNow(r: Run, c: Callback, e: Event)
    requires Sound(r) && Faithful(r, c) && !r.settled && r.termination.None?
    ensures Next(r, c, e).termination.None? <==> StaysCalm(c, r.out, r.err, e)
  {
    NothingWritten(r, c);
    match e {
      case Stdout(chunk) => StdoutTerminates(r, chunk);
      case Stderr(chunk) => StderrTerminates(r, c, chunk);
      case Close(success, outTail, errTail) =>
        CloseTerminates(r, c, outTail, errTail);
        ClosingTerminatesNothing(r, c, success, outTail, errTail);
      case _ =>
    }
  }

  lemma StdoutTerminates(r: Run, chunk: Text)
    requires Sound(r) && !r.settled && r.termination.None?
    ensures OnStdout(r, chunk).termination.None? <==> |Encode(r.out + chunk)| <= MAX_OUTPUT_BYTES
  {}

  lemma ClosingTerminatesNothing(r: Run, c: Callback, success: bool, outTail: Text, errTail: Text)
    ensures
      OnClose(r, c, success, outTail, errTail).termination == OnStderr(OnStdout(r, outTail), c, errTail).termination
  {}

  /** An event that writes nothing to a stream leaves it as calm as it was. */
  lemma NothingWritten(r: Run, c: Callback)
    requires Sound(r) && Faithful(r, c) && !r.settled && r.termination.None?
    ensures |Encode(r.out + [])| <= MAX_OUTPUT_BYTES && |Encode(r.err + [])| <= MAX_OUTPUT_BYTES
    ensures c.Callback? ==> !ThrowsOn(c.throws, Lines(r.err), Lines(Tail(r.err) + []))
  {
    assert r.out + [] == r.out && r.err + [] == r.err && Tail(r.err) + [] == Tail(r.err);
    TailHasNoLine(r.err);
    if c.Callback? {
      forall k: nat ensures !ThrowsAt(c.throws, Lines(r.err), [], k) {}
    }
  }

  lemma StderrTerminates(r: Run, c: Callback, chunk: Text)
    requires Sound(r) && Faithful(r, c) && !r.settled && r.termination.None?
    ensures OnStderr(r, c, chunk).termination.None? <==>
      && |Encode(r.err + chunk)| <= MAX_OUTPUT_BYTES
      && (c.Callback? ==> !ThrowsOn(c.throws, Lines(r.err), Lines(Tail(r.err) + chunk)))
  {
    if c.Callback? {
      DeliverThrowsExactlyWhen(r.lines, r.partial + chunk, c.throws);
    }
  }

  lemma CloseTerminates(r: Run, c: Callback, outTail: Text, errTail: Text)
    requires Sound(r) && Faithful(r, c) && !r.settled && r.termination.None?
    ensures
      var s := OnStderr(OnStdout(r, outTail), c, errTail);
      s.termination.None? <==>
        && |Encode(r.out + outTail)| <= MAX_OUTPUT_BYTES && |Encode(r.err + errTail)| <= MAX_OUTPUT_BYTES
        && (c.Callback? ==> !ThrowsOn(c.throws, Lines(r.err), Lines(Tail(r.err) + errTail)))
  {
    StdoutIsSound(r, outTail);
    StdoutIsFaithful(r, c, outTail);
    var s := OnStdout(r, outTail);
    if s.termination.None? {
      StderrTerminates(s, c, errTail);
    } else {
      TerminationStays(s, c, Stderr(errTail));
    }
  }

  /** None but the last of the events settles the promise. */
  ghost predicate OnlyLastSettles(events: seq<Event>) {
    forall i :: 0 <= i < |events| - 1 ==> !Settles(events[i])
  }

  /** Up to the event that settles the promise the callback is in step, and the run has not been
      terminated exactly when its events were calm. */
  lemma {:induction false} InStepUntilSettled(c: Callback, events: seq<Event>)
    requires OnlyLastSettles(events)
    ensures
      var r := After(c, events);
      && Sound(r) && Faithful(r, c)
      && (r.termination.None? <==> Calm(c, events))
      && (r.settled <==> events != [] && Settles(events[|events| - 1]))
  {
    StreamsAreTheEvents(c, events);
    if events == [] {
      NoEventIsCalm(c);
    } else {
      var front, e := events[..|events| - 1], events[|events| - 1];
      InStepUntilSettled(c, front);
      StreamsAreTheEvents(c, front);
      var r := After(c, front);
      NextIsSound(r, c, e);
      NextIsFaithful(r, c, e);
      TerminatesExactlyWhen(r, c, e);
      CalmStep(c, events);
      NextSettles(r, c, e);
    }
  }

  lemma NoEventIsCalm(c: Callback)
    ensures Calm(c, [])
  {
    if c.Callback? {
      forall k: nat ensures !ThrowsAt(c.throws, [], Lines([]), k) {}
    }
  }

  lemma NextSettles(r: Run, c: Callback, e: Event)
    ensures Next(r, c, e).settled == (r.settled || Settles(e))
  {}

  // ---- after the settlement ----

  /** How many lines were given again, or are held to be. */
  function Repeats(r: Run): int {
    |r.lines| + |Lines(r.partial)| - |Lines(r.err)|
  }

  /** Settled without a termination: the callback is still given lines. */
  ghost predicate Late(r: Run) {
    r.settled && r.termination.None? && Tail(r.partial) == Tail(r.err)
  }

  lemma {:induction false} DeliverCounts(given: seq<Text>, partial: Text, throws: seq<Text> -> bool)
    ensures
      var d := Deliver(given, partial, throws);
      && Tail(d.partial) == Tail(partial)
      && |d.lines| + |Lines(d.partial)| == |given| + |Lines(partial)| + (if d.threw then 1 else 0)
    decreases |partial|
  {
    if HasLine(partial) {
      var i := NewlineIndex(partial);
      var lines := given + [partial[..i]];
      if !throws(lines) {
        DeliverCounts(lines, partial[i + 1..], throws);
      }
    }
  }

  /** Each unheard throw repeats one line more, and none is ever taken back. */
  lemma LateChunk(r: Run, c: Callback, chunk: Text)
    requires Late(r) && c.Callback?
    ensures
      var t := OnStderr(r, c, chunk);
      && Late(t) && t.err == r.err + chunk
      && Repeats(t) == Repeats(r) + (if ThrowsUnheard(r, c, chunk) then 1 else 0)
  {
    DeliverThrowsExactlyWhen(r.lines, r.partial + chunk, c.throws);
    DeliverCounts(r.lines, r.partial + chunk, c.throws);
    LinesResume(r.partial, chunk);
    LinesResume(r.err, chunk);
  }

  lemma InStepRepeatsNothing(r: Run)
    requires InStep(r)
    ensures Repeats(r) == 0 && Tail(r.partial) == Tail(r.err)
  {
    TailHasNoLine(r.err);
  }

  lemma LateNext(r: Run, c: Callback, e: Event)
    requires Late(r) && c.Callback?
    ensures
      var t := Next(r, c, e);
      && Late(t)
      && Repeats(t) == Repeats(r) + (if ThrowsUnheard(r, c, ErrOf(e)) && (e.Stderr? || e.Close?) then 1 else 0)
  {
    match e {
      case Stderr(chunk) => LateChunk(r, c, chunk);
      case Close(_, outTail, errTail) => LateChunk(OnStdout(r, outTail), c, errTail);
      case _ =>
    }
  }

  /** The first event that settles the promise. */
  ghost predicate FirstSettles(events: seq<Event>, j: nat) {
    j < |events| && Settles(events[j]) && forall i :: 0 <= i < j ==> !Settles(events[i])
  }

  /** The lines of the error stream that are complete only after the first `n` events. */
  ghost function LinesAfter(events: seq<Event>, n: nat): seq<Text>
    requires n <= |events|
    decreases |events|
  {
    if n == |events| then []
    else
      var front, e := events[..|events| - 1], events[|events| - 1];
      LinesAfter(front, n) + Lines(Tail(ErrText(front)) + ErrOf(e))
  }

  /** Together with the lines of the first `n` events they are the lines of the stream. */
  lemma {:induction false} LinesAfterAreTheRest(events: seq<Event>, n: nat)
    requires n <= |events|
    ensures Lines(ErrText(events)) == Lines(ErrText(events[..n])) + LinesAfter(events, n)
    decreases |events|
  {
    if n == |events| {
      assert events[..n] == events;
    } else {
      var front, e := events[..|events| - 1], events[|events| - 1];
      assert front[..n] == events[..n];
      LinesAfterAreTheRest(front, n);
      LinesResume(ErrText(front), ErrOf(e));
    }
  }

  /** A calm run was settled, and the callback throws on a line that came later. */
  ghost predicate ThrowsLate(c: Callback, events: seq<Event>, j: nat) {
    && c.Callback? && FirstSettles(events, j) && Calm(c, events[..j + 1])
    && ThrowsOn(c.throws, Lines(ErrText(events[..j + 1])), LinesAfter(events, j + 1))
  }

  /** After a calm settlement: the run stays unterminated, and lines are repeated exactly when the
      callback throws on one that came later. */
  lemma {:induction false} LateRun(c: Callback, events: seq<Event>, j: nat)
    requires c.Callback? && FirstSettles(events, j) && Calm(c, events[..j + 1])
    ensures
      var r := After(c, events);
      && Late(r) && Repeats(r) >= 0
      && (if Repeats(r) == 0 then InStep(r) else !InStep(r))
      && (Repeats(r) > 0 <==> ThrowsLate(c, events, j))
    decreases |events|, 1
  {
    if |events| == j + 1 {
      assert events[..j + 1] == events;
      InStepUntilSettled(c, events);
      InStepRepeatsNothing(After(c, events));
      forall k: nat ensures !ThrowsAt(c.throws, Lines(ErrText(events)), [], k) {}
    } else {
      LateStep(c, events, j);
    }
  }

  lemma {:induction false} LateStep(c: Callback, events: seq<Event>, j: nat)
    requires c.Callback? && FirstSettles(events, j) && Calm(c, events[..j + 1]) && j + 1 < |events|
    ensures
      var r := After(c, events);
      && Late(r) && Repeats(r) >= 0
      && (if Repeats(r) == 0 then InStep(r) else !InStep(r))
      && (Repeats(r) > 0 <==> ThrowsLate(c, events, j))
    decreases |events|, 0
  {
    var front, e := events[..|events| - 1], events[|events| - 1];
    assert front[..j + 1] == events[..j + 1];
    LateRun(c, front, j);
    StreamsAreTheEvents(c, front);
    var r := After(c, front);
    LateNext(r, c, e);
    LateOutcome(r, c, e);
    LinesAfterAreTheRest(front, j + 1);
    ThrowsOnAppended(c.throws, Lines(ErrText(events[..j + 1])), LinesAfter(front, j + 1),
      Lines(Tail(ErrText(front)) + ErrOf(e)));
  }

  /** In step, an event that writes to the error stream keeps the callback so exactly when it throws
      on none of the new lines. */
  lemma LateChunkOutcome(r: Run, c: Callback, chunk: Text)
    requires Late(r) && c.Callback? && InStep(r)
    ensures
      var t := OnStderr(r, c, chunk);
      && (InStep(t) <==> !ThrowsOn(c.throws, Lines(r.err), Lines(Tail(r.err) + chunk)))
      && (Repeats(t) == 0 <==> InStep(t))
  {
    LateChunk(r, c, chunk);
    InStepRepeatsNothing(r);
    DeliverThrowsExactlyWhen(r.lines, r.partial + chunk, c.throws);
    DeliveryInStep(r.err, chunk, c.throws);
  }

  lemma QuietOutcome(r: Run, c: Callback, e: Event)
    requires Late(r) && c.Callback? && InStep(r) && !e.Stderr? && !e.Close?
    ensures InStep(Next(r, c, e)) && Repeats(Next(r, c, e)) == 0
    ensures !ThrowsOn(c.throws, Lines(r.err), Lines(Tail(r.err) + ErrOf(e)))
  {
    InStepRepeatsNothing(r);
    TailHasNoLine(r.err);
    assert Tail(r.err) + [] == Tail(r.err);
    forall k: nat ensures !ThrowsAt(c.throws, Lines(r.err), [], k) {}
  }

  lemma LateOutcome(r: Run, c: Callback, e: Event)
    requires Late(r) && c.Callback?
    ensures Repeats(Next(r, c, e)) != 0 ==> !InStep(Next(r, c, e))
    ensures InStep(r) ==>
      && (InStep(Next(r, c, e)) <==> !ThrowsOn(c.throws, Lines(r.err), Lines(Tail(r.err) + ErrOf(e))))
      && (Repeats(Next(r, c, e)) == 0 <==> InStep(Next(r, c, e)))
  {
    var t := Next(r, c, e);
    if InStep(t) {
      InStepRepeatsNothing(t);
    }
    if InStep(r) {
      match e {
        case Stderr(chunk) => LateChunkOutcome(r, c, chunk);
        case Close(_, outTail, errTail) => LateChunkOutcome(OnStdout(r, outTail), c, errTail);
        case _ => QuietOutcome(r, c, e);
      }
    }
  }

  lemma {:induction false} TerminatedStaysFaithful(c: Callback, events: seq<Event>, j: nat)
    requires FirstSettles(events, j) && (c.NoCallback? || !Calm(c, events[..j + 1]))
    ensures Faithful(After(c, events), c) && (c.NoCallback? || After(c, events).termination.Some?)
  {
    if |events| == j + 1 {
      assert events[..j + 1] == events;
      InStepUntilSettled(c, events);
    } else {
      var front, e := events[..|events| - 1], events[|events| - 1];
      assert front[..j + 1] == events[..j + 1];
      TerminatedStaysFaithful(c, front, j);
      NextIsFaithful(After(c, front), c, e);
      TerminationStays(After(c, front), c, e);
    }
  }

  lemma TerminationStays(r: Run, c: Callback, e: Event)
    ensures r.termination.Some? ==> Next(r, c, e).termination.Some?
  {}

  /** Streaming refines whole-buffer splitting: for any chunking and any order of events, the
      callback is given a prefix of the lines of the whole error stream, and all of them if nothing
      terminated the run, exactly when the run was not settled in calm before a line on which the
      callback throws. */
  lemma StreamingRefinesSplitting(c: Callback, events: seq<Event>)
    ensures Faithful(After(c, events), c) <==> !(exists j: nat :: ThrowsLate(c, events, j))
  {
    if exists j: nat :: FirstSettles(events, j) {
      var j: nat :| FirstSettles(events, j);
      forall i: nat | FirstSettles(events, i)
        ensures i == j
      {
      }
      if c.Callback? && Calm(c, events[..j + 1]) {
        LateRun(c, events, j);
        assert Faithful(After(c, events), c) <==> InStep(After(c, events));
      } else {
        TerminatedStaysFaithful(c, events, j);
      }
    } else {
      NeverSettled(c, events);
    }
  }

  lemma {:induction false} NeverSettled(c: Callback, events: seq<Event>)
    requires !exists j: nat :: FirstSettles(events, j)
    ensures Faithful(After(c, events), c)
  {
    forall i | 0 <= i < |events|
      ensures !Settles(events[i])
    {
      NotSettledYet(events, i);
    }
    InStepUntilSettled(c, events);
  }

  lemma {:induction false} NotSettledYet(events: seq<Event>, i: nat)
    requires i < |events| && !exists j: nat :: FirstSettles(events, j)
    ensures !Settles(events[i])
  {
    forall k | 0 <= k < i
      ensures !Settles(events[k])
    {
      NotSettledYet(events, k);
    }
    assert !FirstSettles(events, i);
  }

  /** The ordinary run, which the `close` event or an error ends, needs no condition. */
  lemma OrdinaryRunIsFaithful(c: Callback, events: seq<Event>)
    requires OnlyLastSettles(events)
    ensures Faithful(After(c, events), c)
  {
    InStepUntilSettled(c, events);
  }

  // ---- what Node.js promises of the events ----

  predicate Writes(e: Event) {
    OutOf(e) != [] || ErrOf(e) != []
  }

  /** The events of one child process: nothing is written after `close`; and an `error` means that
      the child could not be spawned, in which case it writes nothing, or could not be killed, in
      which case a termination had been asked for. */
  ghost predicate FromChild(c: Callback, events: seq<Event>) {
    && (forall i, j :: 0 <= i < j < |events| && events[i].Close? ==> !Writes(events[j]))
    && (forall i :: 0 <= i < |events| && events[i].ChildError? ==>
          (forall j :: 0 <= j < |events| ==> !Writes(events[j])) || !Calm(c, events[..i]))
  }

  lemma {:induction false} SilentFrom(events: seq<Event>, n: nat)
    requires n <= |events| && forall i :: n <= i < |events| ==> !Writes(events[i])
    ensures LinesAfter(events, n) == []
    decreases |events|
  {
    if n < |events| {
      var front, e := events[..|events| - 1], events[|events| - 1];
      forall i | n <= i < |front| ensures !Writes(front[i]) { assert front[i] == events[i]; }
      SilentFrom(front, n);
      TailHasNoLine(ErrText(front));
      assert Tail(ErrText(front)) + ErrOf(e) == Tail(ErrText(front));
    }
  }

  /** Nothing is written after a calm settlement. */
  lemma SettledInSilence(c: Callback, events: seq<Event>, j: nat, i: nat)
    requires FromChild(c, events) && FirstSettles(events, j) && Calm(c, events[..j + 1]) && j < i < |events|
    ensures !Writes(events[i])
  {
    if events[j].ChildError? {
      assert events[..j + 1][..|events[..j + 1]| - 1] == events[..j];
      CalmStep(c, events[..j + 1]);
    }
  }

  lemma NothingLate(c: Callback, events: seq<Event>, j: nat)
    requires FromChild(c, events)
    ensures !ThrowsLate(c, events, j)
  {
    if FirstSettles(events, j) && Calm(c, events[..j + 1]) {
      forall i | j + 1 <= i < |events| ensures !Writes(events[i]) { SettledInSilence(c, events, j, i); }
      SilentFrom(events, j + 1);
    }
  }

  /** Under that promise streaming refines splitting without any further condition. */
  lemma ChildRunIsFaithful(c: Callback, events: seq<Event>)
    requires FromChild(c, events)
    ensures Faithful(After(c, events), c)
  {
    StreamingRefinesSplitting(c, events);
    forall j: nat ensures !ThrowsLate(c, events, j) { NothingLate(c, events, j); }
  }

  /** The run in which a line is given twice is not one of them. */
  lemma UnheardThrowIsNoChild(c: Callback, line: Text)
    requires c.Callback?
    ensures !FromChild(c, [ChildError, Stderr(line + [NEWLINE]), Close(true, [], [])])
  {
    var events := [ChildError, Stderr(line + [NEWLINE]), Close(true, [], [])];
    assert events[0].ChildError? && events[..0] == [];
    NoEventIsCalm(c);
    assert Writes(events[1]);
  }

  /** The promise settles at most once, in every run. */
  lemma {:induction false} SettlesAtMostOnce(c: Callback, events: seq<Event>)
    ensures Sound(After(c, events)) && |After(c, events).settlements| <= 1
  {
    if events != [] {
      SettlesAtMostOnce(c, events[..|events| - 1]);
      NextIsSound(After(c, events[..|events| - 1]), c, events[|events| - 1]);
    }
  }

  /** The event that resolves the promise resolves it with everything the child ever wrote, within
      the byte bound. */
  lemma ResolutionIsComplete(c: Callback, events: seq<Event>, e: Event, stdout: Text, stderr: Text)
    requires !After(c, events).settled
    requires Resolved(stdout, stderr) in Next(After(c, events), c, e).settlements
    ensures
      var r := Next(After(c, events), c, e);
      && r.settlements == [Resolved(stdout, stderr)] && stdout == r.out && stderr == r.err
      && |Encode(stdout)| <= MAX_OUTPUT_BYTES && |Encode(stderr)| <= MAX_OUTPUT_BYTES
  {
    SettlesAtMostOnce(c, events);
    ResolvesWithEverything(After(c, events), c, e, stdout, stderr);
  }

  lemma ResolvesWithEverything(r: Run, c: Callback, e: Event, stdout: Text, stderr: Text)
    requires Sound(r) && !r.settled && Resolved(stdout, stderr) in Next(r, c, e).settlements
    ensures
      var t := Next(r, c, e);
      && t.settlements == [Resolved(stdout, stderr)] && stdout == t.out && stderr == t.err
      && |Encode(stdout)| <= MAX_OUTPUT_BYTES && |Encode(stderr)| <= MAX_OUTPUT_BYTES
  {
    NextIsSound(r, c, e);
    if e.Close? {
      StdoutIsSound(r, e.outTail);
      StderrIsSound(OnStdout(r, e.outTail), c, e.errTail);
    }
  }

  // ---- the closures over the shared variables ----

  /** `runCommand` after the child was spawned. */
  class Command {
    const callback: Callback
    var stdout: Text
    var stderr: Text
    var partial: Text
    var settled: bool
    var termination: Option<Error>
    ghost var out: Text
    ghost var err: Text
    var lines: seq<Text>
    var settlements: seq<Settlement>

    ghost function View(): Run
      reads this
    {
      Run(stdout, stderr, partial, settled, termination, out, err, lines, settlements)
    }

    constructor (callback: Callback)
      ensures this.callback == callback && View() == Started
    {
      this.callback := callback;
      stdout, stderr, partial, settled, termination := [], [], [], false, None;
      out, err, lines, settlements := [], [], [], [];
    }

    method TerminateWith(e: Error)
      modifies this`termination
      ensures View() == Terminate(old(View()), e)
    {
      if !settled && termination.None? {
        termination := Some(e);
      }
    }

    method FinishWith(s: Settlement)
      modifies this`settled, this`settlements
      ensures View() == Finish(old(View()), s)
    {
      if !settled {
        settled := true;
        settlements := settlements + [s];
      }
    }

    method HandleStdout(chunk: Text)
      modifies this
      ensures View() == OnStdout(old(View()), chunk)
    {
      out := out + chunk;
      if Overflows(stdout, chunk) {
        TerminateWith(TooMuchOutput);
      } else {
        stdout := stdout + chunk;
      }
    }

    /** The loop inside the `try`. */
    method GiveLines(throws: seq<Text> -> bool) returns (threw: bool)
      modifies this`lines, this`partial
      ensures Delivery(lines, partial, threw) == Deliver(old(lines), old(partial), throws)
    {
      var newline := NewlineIndex(partial);
      while newline < |partial|
        invariant newline == NewlineIndex(partial)
        invariant Deliver(lines, partial, throws) == Deliver(old(lines), old(partial), throws)
        decreases |partial|
      {
        lines := lines + [partial[..newline]];
        if throws(lines) {
          return true;
        }
        partial := partial[newline + 1..];
        newline := NewlineIndex(partial);
      }
      return false;
    }

    method ConsumeStderr(chunk: Text)
      modifies this
      ensures View() == OnStderr(old(View()), callback, chunk)
    {
      err := err + chunk;
      if Overflows(stderr, chunk) {
        TerminateWith(TooMuchOutput);
      } else {
        stderr := stderr + chunk;
      }
      if callback.NoCallback? || termination.Some? {
        return;
      }
      partial := partial + chunk;
      var threw := GiveLines(callback.throws);
      if threw {
        TerminateWith(BadProgress);
      }
    }

    method HandleClose(success: bool, outTail: Text, errTail: Text)
      modifies this
      ensures View() == OnClose(old(View()), callback, success, outTail, errTail)
      ensures settled && (old(settled) ==> settlements == old(settlements))
      ensures !old(settled) ==>
        settlements == old(settlements) + [
          if termination.Some? then Rejected(termination.value)
          else if success then Resolved(stdout, stderr)
          else Rejected(Failed)]
    {
      HandleStdout(outTail);
      ConsumeStderr(errTail);
      if termination.Some? {
        FinishWith(Rejected(termination.value));
      } else if success {
        FinishWith(Resolved(stdout, stderr));
      } else {
        FinishWith(Rejected(Failed));
      }
    }
  }
}
