/** The admission gate of the desktop application (apps/desktop/src/mutations.ts).

    Work is admitted by `run`, an exclusive holder obtains a token by `block`. A token
    carries the captured `released` flag and whether its `drained` promise has resolved.
    Tokens are named by the order in which `block` issued them. */
module MutationGate {
  import opened Common

  datatype Token = Token(released: bool, drained: bool)

  datatype Gate = Gate(active: nat, reason: Option<string>, waiters: set<nat>, tokens: seq<Token>)

  /** The two tests the source makes of `reason`: `run` and `block` test truthiness. */
  predicate Refuses(g: Gate) {
    g.reason.Some? && g.reason.value != ""
  }

  /** The getter `blocked` compares with null. */
  predicate Blocked(g: Gate) {
    g.reason.Some?
  }

  const Fresh := Gate(0, None, {}, [])

  // ---- the atomic segments of `run`, `block` and `release` ----

  function Enter(g: Gate): Gate {
    if Refuses(g) then g else g.(active := g.active + 1)
  }

  /** The `finally` part of `run`. */
  function Leave(g: Gate): Gate
    requires g.active > 0
  {
    if g.active == 1 then
      Gate(0, g.reason, {}, seq(|g.tokens|, i requires 0 <= i < |g.tokens| =>
        if i in g.waiters then g.tokens[i].(drained := true) else g.tokens[i]))
    else g.(active := g.active - 1)
  }

  function Block(g: Gate, reason: string): Gate {
    if Refuses(g) then g
    else
      var id := |g.tokens|;
      Gate(g.active, Some(reason),
           if g.active == 0 then g.waiters else g.waiters + {id},
           g.tokens + [Token(false, g.active == 0)])
  }

  function Release(g: Gate, t: nat): Gate
    requires t < |g.tokens|
  {
    if g.tokens[t].released then g
    else g.(reason := None, tokens := g.tokens[t := g.tokens[t].(released := true)])
  }

  // ---- the invariant ----

  predicate Holds(g: Gate, t: nat) {
    t < |g.tokens| && !g.tokens[t].released
  }

  /** Blocked exactly when one token is unreleased; a waiter is exactly an undrained token;
      nobody waits when nothing is active; a drained holder runs alone. */
  ghost predicate Exclusive(g: Gate) {
    && (Blocked(g) <==> exists t: nat :: Holds(g, t))
    && (forall t: nat, u: nat :: Holds(g, t) && Holds(g, u) ==> t == u)
    && (Blocked(g) ==> Refuses(g))
    && (forall t: nat :: t in g.waiters <==> t < |g.tokens| && !g.tokens[t].drained)
    && (g.active == 0 ==> g.waiters == {})
    && (forall t: nat :: Holds(g, t) && g.tokens[t].drained ==> g.active == 0)
  }

  datatype Event = Run | Settle | Acquire(reason: string) | Free(token: nat)

  /** Only admitted work settles and only issued tokens are released. */
  predicate Enabled(g: Gate, e: Event) {
    match e
    case Run => true
    case Settle => g.active > 0
    case Acquire(reason) => reason != ""
    case Free(t) => t < |g.tokens|
  }

  function Next(g: Gate, e: Event): Gate
    requires Enabled(g, e)
  {
    match e
    case Run => Enter(g)
    case Settle => Leave(g)
    case Acquire(reason) => Block(g, reason)
    case Free(t) => Release(g, t)
  }

  ghost predicate IsRun(g: Gate, events: seq<Event>)
    decreases |events|
  {
    events == [] || (Enabled(g, events[0]) && IsRun(Next(g, events[0]), events[1..]))
  }

  ghost function After(g: Gate, events: seq<Event>): Gate
    requires IsRun(g, events)
    decreases |events|
  {
    if events == [] then g else After(Next(g, events[0]), events[1..])
  }

  lemma EnterKeeps(g: Gate)
    requires Exclusive(g)
    ensures Exclusive(Enter(g))
  {
    forall t: nat ensures Holds(g, t) == Holds(Enter(g), t) {}
  }

  lemma LeaveKeeps(g: Gate)
    requires Exclusive(g) && g.active > 0
    ensures Exclusive(Leave(g))
    ensures forall t: nat :: Holds(Leave(g), t) == Holds(g, t)
  {
    forall t: nat ensures Holds(Leave(g), t) == Holds(g, t) {}
    if Blocked(g) {
      var t :| Holds(g, t);
      assert Holds(Leave(g), t);
    }
  }

  lemma BlockKeeps(g: Gate, reason: string)
    requires Exclusive(g) && reason != ""
    ensures Exclusive(Block(g, reason))
    ensures !Refuses(g) ==> Holds(Block(g, reason), |g.tokens|)
  {
    if !Refuses(g) {
      var h := Block(g, reason);
      assert Holds(h, |g.tokens|);
      forall t: nat | Holds(h, t)
        ensures t == |g.tokens|
      {
        if t < |g.tokens| {
          assert Holds(g, t);
        }
      }
    }
  }

  lemma ReleaseKeeps(g: Gate, t: nat)
    requires Exclusive(g) && t < |g.tokens|
    ensures Exclusive(Release(g, t))
    ensures Holds(g, t) ==> !Blocked(Release(g, t))
    ensures !Holds(g, t) ==> Release(g, t) == g
  {
    if Holds(g, t) {
      var h := Release(g, t);
      assert forall u: nat :: Holds(h, u) ==> Holds(g, u);
    }
  }

  /** Every step of every interleaving keeps the gate exclusive. */
  lemma {:induction false} ExclusiveInEveryRun(g: Gate, events: seq<Event>)
    requires Exclusive(g) && IsRun(g, events)
    ensures Exclusive(After(g, events))
    decreases |events|
  {
    if events != [] {
      match events[0] {
        case Run => EnterKeeps(g);
        case Settle => LeaveKeeps(g);
        case Acquire(reason) => BlockKeeps(g, reason);
        case Free(t) => ReleaseKeeps(g, t);
      }
      ExclusiveInEveryRun(Next(g, events[0]), events[1..]);
    }
  }

  /** A resolved `drained` and a `released` flag never revert. */
  lemma {:induction false} TokensAreMonotone(g: Gate, events: seq<Event>, t: nat)
    requires IsRun(g, events) && t < |g.tokens|
    ensures
      var h := After(g, events);
      && t < |h.tokens|
      && (g.tokens[t].released ==> h.tokens[t].released)
      && (g.tokens[t].drained ==> h.tokens[t].drained)
    decreases |events|
  {
    if events != [] {
      TokensAreMonotone(Next(g, events[0]), events[1..], t);
    }
  }

  /** Between the moment a token's `drained` resolves and its release, however many events
      pass, no action is active and none is admitted. */
  lemma DrainedHolderRunsAlone(g: Gate, events: seq<Event>, t: nat)
    requires Exclusive(g) && Holds(g, t) && g.tokens[t].drained
    requires IsRun(g, events) && Holds(After(g, events), t)
    ensures After(g, events).active == 0
    ensures Enter(After(g, events)) == After(g, events)
  {
    ExclusiveInEveryRun(g, events);
    TokensAreMonotone(g, events, t);
    assert Blocked(After(g, events));
  }

  /** A repeated release, however late and whoever holds the gate by then, changes nothing. */
  lemma LateReleaseChangesNothing(g: Gate, t: nat, events: seq<Event>)
    requires t < |g.tokens| && IsRun(Release(g, t), events)
    ensures
      var h := After(Release(g, t), events);
      t < |h.tokens| && Release(h, t) == h
  {
    TokensAreMonotone(Release(g, t), events, t);
  }

  function Times(n: nat, e: Event): seq<Event> {
    seq(n, _ => e)
  }

  lemma {:induction false} RunsJoin(g: Gate, a: seq<Event>, b: seq<Event>)
    requires IsRun(g, a) && IsRun(After(g, a), b)
    ensures IsRun(g, a + b) && After(g, a + b) == After(After(g, a), b)
    decreases |a|
  {
    if a == [] {
      assert a + b == b;
    } else {
      assert (a + b)[1..] == a[1..] + b;
      RunsJoin(Next(g, a[0]), a[1..], b);
    }
  }

  lemma {:induction false} WorkIsAdmitted(g: Gate, n: nat)
    requires g.reason.None?
    ensures IsRun(g, Times(n, Run)) && After(g, Times(n, Run)) == g.(active := g.active + n)
    decreases n
  {
    if n > 0 {
      assert Times(n, Run)[1..] == Times(n - 1, Run);
      WorkIsAdmitted(Next(g, Run), n - 1);
    }
  }

  /** While some of the accepted work is running nobody is told that the gate has drained. */
  lemma {:induction false} WorkSettles(g: Gate, n: nat)
    requires n <= g.active && Exclusive(g)
    ensures IsRun(g, Times(n, Settle))
    ensures
      var h := After(g, Times(n, Settle));
      && h.active == g.active - n && h.reason == g.reason && |h.tokens| == |g.tokens|
      && (forall t: nat :: Holds(h, t) == Holds(g, t))
      && (n < g.active ==> h.tokens == g.tokens)
      && (0 < n == g.active ==> forall t: nat :: t < |h.tokens| ==> h.tokens[t].drained)
    decreases n
  {
    if n > 0 {
      assert Times(n, Settle)[1..] == Times(n - 1, Settle);
      LeaveKeeps(g);
      WorkSettles(Next(g, Settle), n - 1);
    }
  }

  /** From any free gate: a holder that comes while `n` actions run keeps the gate, is told that it
      has drained exactly when all of them have settled, and by its release frees the gate. */
  lemma HolderWaitsForAllWork(g: Gate, n: nat, m: nat, reason: string)
    requires Exclusive(g) && !Blocked(g) && m <= g.active + n && reason != ""
    ensures
      var events := Times(n, Run) + [Acquire(reason)] + Times(m, Settle);
      && IsRun(g, events)
      && var h, t := After(g, events), |g.tokens|;
      && Holds(h, t) && h.reason == Some(reason) && h.active == g.active + n - m
      && (h.tokens[t].drained <==> m == g.active + n)
      && IsRun(g, events + [Free(t)]) && !Blocked(After(g, events + [Free(t)]))
  {
    WorkIsAdmitted(g, n);
    var admitted := After(g, Times(n, Run));
    ExclusiveInEveryRun(g, Times(n, Run));
    BlockKeeps(admitted, reason);
    var held := Block(admitted, reason);
    OneEvent(admitted, Acquire(reason));
    RunsJoin(g, Times(n, Run), [Acquire(reason)]);
    WorkSettles(held, m);
    RunsJoin(g, Times(n, Run) + [Acquire(reason)], Times(m, Settle));
    var events := Times(n, Run) + [Acquire(reason)] + Times(m, Settle);
    OneEvent(After(g, events), Free(|g.tokens|));
    RunsJoin(g, events, [Free(|g.tokens|)]);
  }

  lemma OneEvent(g: Gate, e: Event)
    requires Enabled(g, e)
    ensures IsRun(g, [e]) && After(g, [e]) == Next(g, e)
  {
    assert [e][1..] == [];
  }

  /** The truthiness test makes an empty reason a hole: the gate reports itself blocked by a
      drained holder and still admits work. */
  lemma EmptyReasonAdmitsWork()
    ensures
      var g := Block(Fresh, "");
      Blocked(g) && Holds(g, 0) && g.tokens[0].drained && Enter(g).active == 1
  {}

  /** A new holder keeps work out, and the gate exclusive, exactly when its reason is not empty. */
  lemma HolderExcludesWorkExactlyWhen(g: Gate, reason: string)
    requires Exclusive(g) && !Refuses(g)
    ensures
      var h := Block(g, reason);
      && (Enter(h) == h <==> reason != "")
      && (Exclusive(h) <==> reason != "")
  {
    if reason != "" {
      BlockKeeps(g, reason);
    }
  }

  /** `DesktopMutations`. Token ids stand for the closures that `block` returns. */
  class DesktopMutations {
    var active: nat
    var reason: Option<string>
    var waiters: set<nat>
    var tokens: seq<Token>

    function State(): Gate
      reads this
    {
      Gate(active, reason, waiters, tokens)
    }

    constructor ()
      ensures State() == Fresh && Exclusive(State())
    {
      active, reason, waiters, tokens := 0, None, {}, [];
    }

    /** `run` up to its await; an error carries the reason of the present holder. */
    method RunEnter() returns (admitted: Result<(), string>)
      modifies this
      ensures State() == Enter(old(State()))
      ensures admitted == if Refuses(old(State())) then Err(old(reason).value) else Ok(())
    {
      if reason.Some? && reason.value != "" {
        return Err(reason.value);
      }
      active := active + 1;
      return Ok(());
    }

    /** The `finally` of `run`: the last action out resolves every waiter. */
    method RunLeave()
      requires active > 0 && Exclusive(State())
      modifies this
      ensures State() == Leave(old(State())) && Exclusive(State())
    {
      LeaveKeeps(State());
      active := active - 1;
      if active == 0 {
        while waiters != {}
          invariant waiters <= old(waiters)
          invariant active == old(active) - 1 && reason == old(reason)
          invariant |tokens| == old(|tokens|)
          invariant forall i :: 0 <= i < |tokens| ==>
            tokens[i] == if i in old(waiters) - waiters then old(tokens)[i].(drained := true) else old(tokens)[i]
        {
          var t :| t in waiters;
          tokens := tokens[t := tokens[t].(drained := true)];
          waiters := waiters - {t};
        }
        assert tokens == Leave(old(State())).tokens;
      }
    }

    method AcquireToken(why: string) returns (token: Result<nat, string>)
      modifies this
      ensures State() == Block(old(State()), why)
      ensures token == if Refuses(old(State())) then Err(old(reason).value) else Ok(old(|tokens|))
    {
      if reason.Some? && reason.value != "" {
        return Err(reason.value);
      }
      reason := Some(why);
      var id := |tokens|;
      if active == 0 {
        tokens := tokens + [Token(false, true)];
      } else {
        tokens := tokens + [Token(false, false)];
        waiters := waiters + {id};
      }
      return Ok(id);
    }

    method ReleaseToken(t: nat)
      requires t < |tokens|
      modifies this
      ensures State() == Release(old(State()), t)
    {
      if tokens[t].released {
        return;
      }
      tokens := tokens[t := tokens[t].(released := true)];
      reason := None;
    }
  }
}
