/** The wallet checkout, subscription upgrade and plan change protocol of the fixture server
    (scripts/ui-parity/fixture-api.ts). Amounts are integer cents; the clock and the price list
    are parameters. */
module CheckoutLedger {
  import opened Common

  datatype Funding = Wallet | Stripe | NoFunding
  datatype Mode = New | Existing | NoMode

  /** The `expires_at` of a quote: not a string, a string that is no date, or a time. */
  datatype Expiry = NoText | NoDate | At(time: int)

  /** The quote a checkout confirms; an amount that is no number is `None`. */
  datatype Quote = Quote(expiresAt: Expiry, debit: Option<int>, balanceBefore: Option<int>)

  /** A checkout request body. Equal bodies are those with equal JSON text; `rest` stands for
      what the handler does not read, and `strayQuote` is a truthy quote that is no object. */
  datatype Body = Body(
    upgradeDeployment: Option<string>, funding: Funding, mode: Mode,
    config: Option<Config>, quote: Option<Quote>,
    plan: string, term: int, subscription: string, rest: string, strayQuote: bool)

  datatype Config = Config(deployRequestId: string, plan: string)

  datatype Subscription = Subscription(plan: string, term: int, funding: Funding, price: nat, pending: Option<string>)

  /** `subscribable` is `start_action === "subscribe"`. */
  datatype Deployment = Deployment(plan: string, subscribable: bool, subscription: Option<Subscription>)

  datatype Activation = Activation(debited: Option<nat>, balanceAfter: int)

  datatype Reply = Reply(status: nat, activation: Option<Activation>)

  datatype NewEntry = NewEntry(body: Body, activation: Activation, debit: nat)

  /** `projection` is the deferred application of the subscription; `applied` counts how often
      it was applied. */
  datatype UpgradeEntry = UpgradeEntry(
    body: Body, activation: Activation, debit: nat, projection: Option<Subscription>, applied: nat)

  datatype ChangeKind = Switch | Upgrade | Downgrade

  datatype PlanQuote = PlanQuote(
    deployment: string, kind: ChangeKind, amount: Option<nat>, target: Subscription, expiresAt: int)

  /** `settleAt` is `None` when the operation never settles; `settled` counts settlements. */
  datatype Operation = Operation(quote: PlanQuote, settleAt: Option<int>, done: bool, settled: nat)

  datatype Server = Server(
    balance: int,
    deployments: map<string, Deployment>,
    reusable: map<string, Subscription>,
    checkouts: map<string, NewEntry>,
    upgrades: map<string, UpgradeEntry>,
    lostResponses: nat,
    quotes: seq<PlanQuote>,
    operations: map<nat, Operation>)

  /** What a server is configured with: prices in cents, ids of new deployments and whether plan
      changes ever finish. */
  datatype Setup = Setup(prices: map<(string, int), nat>, newId: nat -> string, finishes: bool)

  /** A string that is no date compares as not yet past. */
  predicate Expired(q: Quote, now: int) {
    match q.expiresAt
    case NoText => true
    case NoDate => false
    case At(time) => time <= now
  }

  /** `applySubscription`: a fresh subscription with nothing pending. */
  function ApplyTo(ds: map<string, Deployment>, id: string, sub: Subscription): map<string, Deployment> {
    if id in ds then ds[id := Deployment(sub.plan, false, Some(sub.(pending := None)))] else ds
  }

  // ---- POST /v2/subscription/checkout ----

  function Checkout(u: Setup, s: Server, key: string, body: Body, now: int): (Server, Reply) {
    if key == "" then (s, Reply(400, None))
    else if key in s.checkouts then
      (s, if s.checkouts[key].body == body then Reply(202, Some(s.checkouts[key].activation)) else Reply(409, None))
    else if body.upgradeDeployment.Some? then UpgradeCheckout(u, s, key, body, body.upgradeDeployment.value, now)
    else NewCheckout(u, s, key, body, now)
  }

  function NewCheckout(u: Setup, s: Server, key: string, body: Body, now: int): (Server, Reply) {
    if body.funding != Wallet || body.mode != New || body.config.None? || body.quote.None? then (s, Reply(400, None))
    else if body.config.value.deployRequestId != key then (s, Reply(409, None))
    else if (body.plan, body.term) !in u.prices || body.config.value.plan != body.plan then (s, Reply(400, None))
    else
      var debit := u.prices[(body.plan, body.term)];
      if Expired(body.quote.value, now) then (s, Reply(409, None))
      else if body.quote.value.debit != Some(debit) || body.quote.value.balanceBefore != Some(s.balance)
      then (s, Reply(409, None))
      else if s.balance < debit then (s, Reply(402, None))
      else
        var id := u.newId(|s.checkouts| + 1);
        var activation := Activation(Some(debit), s.balance - debit);
        (s.(balance := s.balance - debit,
            deployments := if id in s.deployments then s.deployments
                           else s.deployments[id := Deployment(NormalPlan(body.plan), false, None)],
            checkouts := s.checkouts[key := NewEntry(body, activation, debit)]),
         Reply(202, Some(activation)))
  }

  function NormalPlan(plan: string): string {
    if plan == "compute_performance" then "compute_performance" else "compute_basic"
  }

  function NormalTerm(term: int): int {
    if term == 12 then 12 else 1
  }

  /** `upgradeCheckout`. */
  function UpgradeCheckout(u: Setup, s: Server, key: string, body: Body, id: string, now: int): (Server, Reply) {
    if id !in s.deployments then (s, Reply(404, None))
    else if body.mode == Existing then AssignExisting(s, body, id)
    else if body.funding != Wallet || body.mode != New || body.quote.None? then (s, Reply(400, None))
    else if key in s.upgrades then
      var e := s.upgrades[key];
      if e.body != body then (s, Reply(409, None)) else (Replayed(s, key, id), Reply(202, Some(e.activation)))
    else if !s.deployments[id].subscribable then (s, Reply(400, None))
    else if Expired(body.quote.value, now) then (s, Reply(409, None))
    else
      var plan, term := NormalPlan(body.plan), NormalTerm(body.term);
      if (plan, term) !in u.prices then (s, Reply(400, None))
      else
        var debit := u.prices[(plan, term)];
        if body.quote.value.debit != Some(debit) then (s, Reply(409, None))
        else if s.balance < debit then (s, Reply(402, None))
        else DebitUpgrade(s, key, body, id, debit, Subscription(plan, term, Wallet, debit, None))
  }

  function AssignExisting(s: Server, body: Body, id: string): (Server, Reply) {
    if body.subscription !in s.reusable || s.reusable[body.subscription].funding == NoFunding
       || body.quote.Some? || body.strayQuote
    then (s, Reply(409, None))
    else
      var sub := s.reusable[body.subscription];
      (s.(reusable := s.reusable - {body.subscription}, deployments := ApplyTo(s.deployments, id, sub)),
       Reply(202, Some(Activation(None, s.balance))))
  }

  /** A replay applies the subscription if the lost first response has not. */
  function Replayed(s: Server, key: string, id: string): Server
    requires key in s.upgrades
  {
    var e := s.upgrades[key];
    if e.projection.None? then s
    else s.(deployments := ApplyTo(s.deployments, id, e.projection.value),
            upgrades := s.upgrades[key := e.(projection := None, applied := e.applied + 1)])
  }

  /** The debit; in lost-first mode the response is dropped and the application deferred. */
  function DebitUpgrade(s: Server, key: string, body: Body, id: string, debit: nat, sub: Subscription)
    : (Server, Reply)
  {
    var activation := Activation(Some(debit), s.balance - debit);
    if s.lostResponses > 0 then
      (s.(balance := s.balance - debit, lostResponses := s.lostResponses - 1,
          upgrades := s.upgrades[key := UpgradeEntry(body, activation, debit, Some(sub), 0)]),
       Reply(503, None))
    else
      (s.(balance := s.balance - debit, deployments := ApplyTo(s.deployments, id, sub),
          upgrades := s.upgrades[key := UpgradeEntry(body, activation, debit, None, 1)]),
       Reply(202, Some(activation)))
  }

  // ---- plan changes ----

  datatype QuoteRequest = QuoteRequest(deployment: string, plan: string, term: int, funding: Funding)

  function Price(u: Setup, plan: string, term: int): Option<nat> {
    if (plan, term) in u.prices then Some(u.prices[(plan, term)]) else None
  }

  const MINUTE := 60_000

  /** POST /v2/subscription/plan/quote; the new quote gets the next operation id. */
  function QuoteChange(u: Setup, s: Server, q: QuoteRequest, now: int): (Server, Reply) {
    if q.deployment !in s.deployments || s.deployments[q.deployment].subscription.None? then (s, Reply(404, None))
    else
      var sub := s.deployments[q.deployment].subscription.value;
      var currentPlan, currentTerm := s.deployments[q.deployment].plan, NormalTerm(sub.term);
      var currentFunding := if sub.funding == Wallet then Wallet else Stripe;
      var plan, term := NormalPlan(q.plan), NormalTerm(q.term);
      var funding := if q.funding == Stripe then Stripe else Wallet;
      var targetPrice := Price(u, plan, term);
      if targetPrice.None? then (s, Reply(400, None))
      else
        var included := sub.funding == NoFunding;
        var switching := !included && funding != currentFunding;
        if switching && funding == Stripe then (s, Reply(409, None))
        else
          var listed := Price(u, currentPlan, currentTerm);
          var currentPrice := if included || listed.None? then 0 else listed.value;
          var kind := if switching then Switch
                      else if targetPrice.value * currentTerm > currentPrice * term || term > currentTerm then Upgrade
                      else Downgrade;
          var cents := if kind == Upgrade && targetPrice.value > currentPrice then targetPrice.value - currentPrice
                       else 0;
          var walletPays :=
            (if switching then funding else currentFunding) == Wallet || (included && funding == Wallet);
          var payer := if switching || included then funding else currentFunding;
          var newPlan, newTerm := if switching then currentPlan else plan, if switching then currentTerm else term;
          var newPrice := Price(u, newPlan, newTerm);
          var target :=
            Subscription(NormalPlan(newPlan), newTerm, payer, if newPrice.Some? then newPrice.value else 0, None);
          var quote := PlanQuote(q.deployment, kind, if kind == Upgrade && walletPays then Some(cents) else None,
                                 target, now + 15 * MINUTE);
          (s.(quotes := s.quotes + [quote]), Reply(200, None))
  }

  /** The list price of a plan and a term, nothing when it is not on the list. */
  function ListPrice(u: Setup, plan: string, term: int): nat {
    if (plan, term) in u.prices then u.prices[(plan, term)] else 0
  }

  /** What an accepted quote request promises. It is a switch of payer exactly when the card paid and
      the wallet is to: plan and term stay and it costs nothing. Otherwise it is an upgrade exactly
      when the term gets longer or the monthly price rises, charged to the wallet exactly when the
      wallet is to pay, with the difference to the price already paid; else a downgrade. */
  lemma QuoteIsFair(u: Setup, s: Server, q: QuoteRequest, now: int)
    requires QuoteChange(u, s, q, now).1.status == 200
    ensures
      var t := QuoteChange(u, s, q, now).0;
      && q.deployment in s.deployments && s.deployments[q.deployment].subscription.Some?
      && |t.quotes| == |s.quotes| + 1 && t == s.(quotes := s.quotes + [t.quotes[|s.quotes|]])
      && var quote, d := t.quotes[|s.quotes|], s.deployments[q.deployment];
      && var sub, paid := d.subscription.value, Paid(u, d);
      && quote.deployment == q.deployment && quote.expiresAt == now + 900_000 && quote.target.pending == None
      && (quote.kind == Switch <==> sub.funding == Stripe && q.funding != Stripe)
      && (quote.kind == Switch ==>
            && quote.target == Subscription(
                 NormalPlan(d.plan), NormalTerm(sub.term), Wallet, ListPrice(u, d.plan, NormalTerm(sub.term)), None)
            && quote.amount.None?)
      && (quote.kind != Switch ==>
            && quote.target.plan == NormalPlan(q.plan) && quote.target.term == NormalTerm(q.term)
            && (quote.target.plan, quote.target.term) in u.prices
            && quote.target.price == ListPrice(u, quote.target.plan, quote.target.term)
            && (quote.target.funding == Wallet <==> sub.funding == Wallet || (sub.funding == NoFunding && q.funding != Stripe))
            && (quote.target.funding == Wallet || quote.target.funding == Stripe)
            && (quote.kind == Upgrade <==>
                  || quote.target.term > NormalTerm(sub.term)
                  || quote.target.price * NormalTerm(sub.term) > paid * quote.target.term)
            && (quote.amount.Some? <==> quote.kind == Upgrade && quote.target.funding == Wallet))
      && (quote.amount.Some? ==>
            quote.amount.value == if paid <= quote.target.price then quote.target.price - paid else 0)
  {}

  /** A quote is refused exactly when there is no subscription to change, the wanted plan is not on
      offer, or a card would have to be given. */
  lemma QuoteIsRefusedExactlyWhen(u: Setup, s: Server, q: QuoteRequest, now: int)
    ensures
      var (t, reply) := QuoteChange(u, s, q, now);
      && (reply.status != 200 ==> t == s)
      && (reply.status == 404 <==> q.deployment !in s.deployments || s.deployments[q.deployment].subscription.None?)
      && (reply.status != 404 ==>
            && (reply.status == 400 <==> (NormalPlan(q.plan), NormalTerm(q.term)) !in u.prices)
            && (reply.status == 409 <==>
                  && (NormalPlan(q.plan), NormalTerm(q.term)) in u.prices
                  && s.deployments[q.deployment].subscription.value.funding == Wallet && q.funding == Stripe)
            && reply.status in {200, 400, 409})
  {}

  /** The list price of the present plan and term, nothing for an included subscription. */
  function Paid(u: Setup, d: Deployment): nat
    requires d.subscription.Some?
  {
    if d.subscription.value.funding == NoFunding then 0
    else
      var listed := Price(u, d.plan, NormalTerm(d.subscription.value.term));
      if listed.Some? then listed.value else 0
  }

  predicate Due(op: Operation, now: int) {
    !op.done && op.settleAt.Some? && op.settleAt.value <= now
  }

  /** What settling an operation takes from the wallet. */
  function Debit(q: PlanQuote): nat {
    if q.kind == Downgrade || q.amount.None? then 0 else q.amount.value
  }

  /** `readPlanChangeOperation`: a due operation settles when it is read, unless its deployment
      is gone, in which case the read throws. */
  function ReadOperation(s: Server, id: nat, now: int): Server {
    if id !in s.operations || !Due(s.operations[id], now) || s.operations[id].quote.deployment !in s.deployments then s
    else Settle(s, id)
  }

  predicate ReadThrows(s: Server, id: nat, now: int) {
    id in s.operations && Due(s.operations[id], now) && s.operations[id].quote.deployment !in s.deployments
  }

  function Settle(s: Server, id: nat): Server
    requires id in s.operations
  {
    var op := s.operations[id];
    var q := op.quote;
    var d := q.deployment;
    s.(balance := s.balance - Debit(q),
       deployments :=
         if q.kind != Downgrade then ApplyTo(s.deployments, d, q.target)
         else if d in s.deployments && s.deployments[d].subscription.Some? then
           s.deployments[d := s.deployments[d].(subscription :=
             Some(s.deployments[d].subscription.value.(pending := Some(q.target.plan))))]
         else s.deployments,
       operations := s.operations[id := op.(done := true, settled := op.settled + 1)])
  }

  /** POST /v2/subscription/plan/change; `header` is the idempotency key. */
  function AcceptChange(u: Setup, s: Server, header: Option<nat>, id: nat, now: int): (Server, Reply) {
    if header != Some(id) then (s, Reply(400, None))
    else if id in s.operations then
      (ReadOperation(s, id, now), Reply(if ReadThrows(s, id, now) then 500 else 202, None))
    else if id >= |s.quotes| then (s, Reply(404, None))
    else
      var q := s.quotes[id];
      if q.expiresAt <= now then (s, Reply(409, None))
      else if q.deployment !in s.deployments then (s, Reply(404, None))
      else if q.amount.Some? && s.balance < q.amount.value then (s, Reply(402, None))
      else
        (ReadOperation(s.(operations := s.operations[id := NewOperation(u, q, now)]), id, now), Reply(202, None))
  }

  function NewOperation(u: Setup, q: PlanQuote, now: int): Operation {
    Operation(q, if !u.finishes then None else Some(now + if q.kind == Upgrade then 3_000 else 0), false, 0)
  }

  // ---- runs ----

  /** `Elsewhere` is any other handler: it may do anything to the deployments. */
  datatype Request =
    | Pay(key: string, body: Body, now: int)
    | AskQuote(request: QuoteRequest, now: int)
    | Accept(header: Option<nat>, id: nat, now: int)
    | Poll(id: nat, now: int)
    | Elsewhere(deployments: map<string, Deployment>)

  function Serve(u: Setup, s: Server, r: Request): Server {
    match r
    case Pay(key, body, now) => Checkout(u, s, key, body, now).0
    case AskQuote(q, now) => QuoteChange(u, s, q, now).0
    case Accept(header, id, now) => AcceptChange(u, s, header, id, now).0
    case Poll(id, now) => ReadOperation(s, id, now)
    case Elsewhere(ds) => s.(deployments := ds)
  }

  function ServeAll(u: Setup, s: Server, rs: seq<Request>): Server
    decreases |rs|
  {
    if rs == [] then s else ServeAll(u, Serve(u, s, rs[0]), rs[1..])
  }

  // ---- sums over ledgers ----

  ghost function Total<K(!new)>(m: map<K, int>): int
    decreases |m|
  {
    if m == map[] then 0
    else
      var k :| k in m;
      m[k] + Total(m - {k})
  }

  lemma {:induction false} TotalTakes<K(!new)>(m: map<K, int>, k: K)
    requires k in m
    ensures Total(m) == m[k] + Total(m - {k})
    decreases |m|
  {
    var j :| j in m && Total(m) == m[j] + Total(m - {j});
    if j != k {
      TotalTakes(m - {j}, k);
      TotalTakes(m - {k}, j);
      assert m - {j} - {k} == m - {k} - {j};
    }
  }

  lemma TotalSets<K(!new)>(m: map<K, int>, k: K, v: int)
    ensures Total(m[k := v]) == Total(m) + v - (if k in m then m[k] else 0)
  {
    TotalTakes(m[k := v], k);
    if k in m {
      TotalTakes(m, k);
      assert m[k := v] - {k} == m - {k};
    } else {
      assert m[k := v] - {k} == m;
    }
  }

  ghost function CheckoutDebits(s: Server): map<string, int> {
    map k | k in s.checkouts :: s.checkouts[k].debit
  }

  ghost function UpgradeDebits(s: Server): map<string, int> {
    map k | k in s.upgrades :: s.upgrades[k].debit
  }

  ghost function SettledDebits(s: Server): map<nat, int> {
    map k | k in s.operations :: if s.operations[k].done then Debit(s.operations[k].quote) else 0
  }

  /** Money that has left the wallet, as the three ledgers record it. */
  ghost function Recorded(s: Server): int {
    Total(CheckoutDebits(s)) + Total(UpgradeDebits(s)) + Total(SettledDebits(s))
  }

  /** A body the upgrade handler charges for. */
  predicate Chargeable(body: Body) {
    body.upgradeDeployment.Some? && body.mode == New && body.funding == Wallet && body.quote.Some?
  }

  predicate OrderlyUpgrade(e: UpgradeEntry) {
    Chargeable(e.body) && e.applied == (if e.projection.Some? then 0 else 1)
  }

  predicate OrderlyOperation(op: Operation) {
    op.settled == (if op.done then 1 else 0)
  }

  /** Every recorded checkout is of a new subscription; every recorded upgrade is applied once or
      still waits for its replay; every operation has settled once or not yet. */
  ghost predicate Orderly(s: Server) {
    && (forall k :: k in s.checkouts ==> s.checkouts[k].body.upgradeDeployment.None?)
    && (forall k :: k in s.upgrades ==> OrderlyUpgrade(s.upgrades[k]))
    && (forall k :: k in s.operations ==> OrderlyOperation(s.operations[k]))
  }

  /** Balance and recorded debits together never change. */
  ghost function Wealth(s: Server): int {
    s.balance + Recorded(s)
  }

  lemma CheckoutRecorded(s: Server, t: Server, key: string, e: NewEntry)
    requires key !in s.checkouts && t.checkouts == s.checkouts[key := e]
    requires t.upgrades == s.upgrades && t.operations == s.operations
    ensures Recorded(t) == Recorded(s) + e.debit
  {
    assert CheckoutDebits(t) == CheckoutDebits(s)[key := e.debit];
    TotalSets(CheckoutDebits(s), key, e.debit);
    assert UpgradeDebits(t) == UpgradeDebits(s) && SettledDebits(t) == SettledDebits(s);
  }

  lemma UpgradeRecorded(s: Server, t: Server, key: string, e: UpgradeEntry)
    requires t.upgrades == s.upgrades[key := e] && t.checkouts == s.checkouts && t.operations == s.operations
    ensures Recorded(t) == Recorded(s) + e.debit - (if key in s.upgrades then s.upgrades[key].debit else 0)
  {
    assert UpgradeDebits(t) == UpgradeDebits(s)[key := e.debit];
    TotalSets(UpgradeDebits(s), key, e.debit);
    assert CheckoutDebits(t) == CheckoutDebits(s) && SettledDebits(t) == SettledDebits(s);
  }

  function SettledDebit(op: Operation): int {
    if op.done then Debit(op.quote) else 0
  }

  lemma OperationRecorded(s: Server, t: Server, id: nat, op: Operation)
    requires t.operations == s.operations[id := op] && t.checkouts == s.checkouts && t.upgrades == s.upgrades
    ensures Recorded(t) ==
      Recorded(s) + SettledDebit(op) - (if id in s.operations then SettledDebit(s.operations[id]) else 0)
  {
    assert SettledDebits(t) == SettledDebits(s)[id := SettledDebit(op)];
    TotalSets(SettledDebits(s), id, SettledDebit(op));
    assert CheckoutDebits(t) == CheckoutDebits(s) && UpgradeDebits(t) == UpgradeDebits(s);
  }

  lemma SameLedgers(s: Server, t: Server)
    requires t.checkouts == s.checkouts && t.upgrades == s.upgrades && t.operations == s.operations
    ensures Recorded(t) == Recorded(s) && (Orderly(s) ==> Orderly(t))
  {
    assert CheckoutDebits(t) == CheckoutDebits(s) && UpgradeDebits(t) == UpgradeDebits(s)
        && SettledDebits(t) == SettledDebits(s);
  }

  lemma NewCheckoutConserves(u: Setup, s: Server, key: string, body: Body, now: int)
    requires Orderly(s) && key !in s.checkouts && body.upgradeDeployment.None?
    ensures Wealth(NewCheckout(u, s, key, body, now).0) == Wealth(s) && Orderly(NewCheckout(u, s, key, body, now).0)
  {
    var t := NewCheckout(u, s, key, body, now).0;
    if key in t.checkouts {
      CheckoutRecorded(s, t, key, t.checkouts[key]);
    } else {
      SameLedgers(s, t);
    }
  }

  lemma UpgradeEntryKeepsOrder(s: Server, t: Server, key: string, e: UpgradeEntry)
    requires Orderly(s) && OrderlyUpgrade(e) && t.upgrades == s.upgrades[key := e] && t.operations == s.operations
    requires t.checkouts == s.checkouts
    ensures Orderly(t)
  {}

  lemma DebitUpgradeConserves(s: Server, key: string, body: Body, id: string, debit: nat, sub: Subscription)
    requires Orderly(s) && key !in s.upgrades && Chargeable(body)
    ensures
      var t := DebitUpgrade(s, key, body, id, debit, sub).0;
      Wealth(t) == Wealth(s) && Orderly(t)
  {
    var t := DebitUpgrade(s, key, body, id, debit, sub).0;
    UpgradeCharged(s, t, key, t.upgrades[key]);
  }

  lemma UpgradeCharged(s: Server, t: Server, key: string, e: UpgradeEntry)
    requires Orderly(s) && OrderlyUpgrade(e) && key !in s.upgrades && t.balance == s.balance - e.debit
    requires t.upgrades == s.upgrades[key := e] && t.checkouts == s.checkouts && t.operations == s.operations
    ensures Wealth(t) == Wealth(s) && Orderly(t)
  {
    UpgradeRecorded(s, t, key, e);
    UpgradeEntryKeepsOrder(s, t, key, e);
  }

  lemma ReplayConserves(s: Server, key: string, id: string)
    requires Orderly(s) && key in s.upgrades
    ensures
      var t := Replayed(s, key, id);
      && t.balance == s.balance && Recorded(t) == Recorded(s) && Orderly(t)
      && t.upgrades[key].applied == 1 && t.upgrades[key].projection.None?
  {
    var t := Replayed(s, key, id);
    assert OrderlyUpgrade(s.upgrades[key]);
    if t != s {
      UpgradeRecorded(s, t, key, t.upgrades[key]);
      UpgradeEntryKeepsOrder(s, t, key, t.upgrades[key]);
    }
  }

  lemma ChargeConserves(u: Setup, s: Server, key: string, body: Body, id: string, now: int)
    requires Orderly(s) && Chargeable(body) && key !in s.upgrades && id in s.deployments
    ensures
      var t := UpgradeCheckout(u, s, key, body, id, now).0;
      Wealth(t) == Wealth(s) && Orderly(t)
  {
    var plan, term := NormalPlan(body.plan), NormalTerm(body.term);
    if (plan, term) in u.prices {
      var debit := u.prices[(plan, term)];
      DebitUpgradeConserves(s, key, body, id, debit, Subscription(plan, term, Wallet, debit, None));
    }
  }

  lemma UpgradeConserves(u: Setup, s: Server, key: string, body: Body, id: string, now: int)
    requires Orderly(s) && body.upgradeDeployment == Some(id)
    ensures
      var t := UpgradeCheckout(u, s, key, body, id, now).0;
      Wealth(t) == Wealth(s) && Orderly(t)
  {
    if id in s.deployments {
      if body.mode == Existing {
        SameLedgers(s, AssignExisting(s, body, id).0);
      } else if Chargeable(body) {
        if key in s.upgrades {
          ReplayConserves(s, key, id);
        } else {
          ChargeConserves(u, s, key, body, id, now);
        }
      }
    }
  }

  lemma CheckoutConserves(u: Setup, s: Server, key: string, body: Body, now: int)
    requires Orderly(s)
    ensures Wealth(Checkout(u, s, key, body, now).0) == Wealth(s) && Orderly(Checkout(u, s, key, body, now).0)
  {
    if key !in s.checkouts {
      if body.upgradeDeployment.Some? {
        UpgradeConserves(u, s, key, body, body.upgradeDeployment.value, now);
      } else {
        NewCheckoutConserves(u, s, key, body, now);
      }
    }
  }

  lemma ReadConserves(s: Server, id: nat, now: int)
    requires Orderly(s)
    ensures Wealth(ReadOperation(s, id, now)) == Wealth(s) && Orderly(ReadOperation(s, id, now))
  {
    var t := ReadOperation(s, id, now);
    if t != s {
      OperationRecorded(s, t, id, t.operations[id]);
    }
  }

  lemma AcceptConserves(u: Setup, s: Server, header: Option<nat>, id: nat, now: int)
    requires Orderly(s)
    ensures Wealth(AcceptChange(u, s, header, id, now).0) == Wealth(s) && Orderly(AcceptChange(u, s, header, id, now).0)
  {
    if id in s.operations {
      ReadConserves(s, id, now);
    } else if id < |s.quotes| {
      var t := s.(operations := s.operations[id := NewOperation(u, s.quotes[id], now)]);
      AcceptanceIsFree(s, t, id, t.operations[id]);
      ReadConserves(t, id, now);
    }
  }

  lemma AcceptanceIsFree(s: Server, t: Server, id: nat, op: Operation)
    requires Orderly(s) && id !in s.operations && !op.done && op.settled == 0
    requires t == s.(operations := s.operations[id := op])
    ensures Wealth(t) == Wealth(s) && Orderly(t)
  {
    OperationRecorded(s, t, id, op);
  }

  lemma ServeConserves(u: Setup, s: Server, r: Request)
    requires Orderly(s)
    ensures Wealth(Serve(u, s, r)) == Wealth(s) && Orderly(Serve(u, s, r))
  {
    match r {
      case Pay(key, body, now) => CheckoutConserves(u, s, key, body, now);
      case AskQuote(q, now) => SameLedgers(s, Serve(u, s, r));
      case Accept(header, id, now) => AcceptConserves(u, s, header, id, now);
      case Poll(id, now) => ReadConserves(s, id, now);
      case Elsewhere(ds) => SameLedgers(s, Serve(u, s, r));
    }
  }

  /** A server before its first request. */
  predicate Fresh(s: Server) {
    s.checkouts == map[] && s.upgrades == map[] && s.operations == map[] && s.quotes == []
  }

  lemma {:induction false} WealthIsConstant(u: Setup, s: Server, rs: seq<Request>)
    requires Orderly(s)
    ensures Wealth(ServeAll(u, s, rs)) == Wealth(s) && Orderly(ServeAll(u, s, rs))
    decreases |rs|
  {
    if rs != [] {
      ServeConserves(u, s, rs[0]);
      WealthIsConstant(u, Serve(u, s, rs[0]), rs[1..]);
    }
  }

  /** In every request sequence the balance is the initial one minus the recorded checkout
      debits of both ledgers minus what settled plan changes took, each deferred subscription is
      applied at most once and each operation settles at most once. */
  lemma BalanceIsAccountedFor(u: Setup, s: Server, rs: seq<Request>)
    requires Fresh(s)
    ensures
      var t := ServeAll(u, s, rs);
      && t.balance == s.balance - Total(CheckoutDebits(t)) - Total(UpgradeDebits(t)) - Total(SettledDebits(t))
      && (forall k :: k in t.upgrades ==> t.upgrades[k].applied <= 1)
      && (forall k :: k in t.operations ==> t.operations[k].settled <= 1)
  {
    assert CheckoutDebits(s) == map[] && UpgradeDebits(s) == map[] && SettledDebits(s) == map[];
    WealthIsConstant(u, s, rs);
  }

  // ---- each key debits once in each ledger ----

  /** What a ledger has recorded it keeps, and a done operation stays as it is. */
  ghost predicate Keeps(s: Server, t: Server) {
    && (forall k :: k in s.checkouts ==> k in t.checkouts && t.checkouts[k] == s.checkouts[k])
    && (forall k :: k in s.upgrades ==> k in t.upgrades && SameCharge(t.upgrades[k], s.upgrades[k]))
    && (forall k :: k in s.operations ==> k in t.operations && SameOperation(t.operations[k], s.operations[k]))
    && s.quotes <= t.quotes
  }

  predicate SameCharge(a: UpgradeEntry, b: UpgradeEntry) {
    && a.body == b.body && a.activation == b.activation && a.debit == b.debit
    && (b.projection.None? || a.projection.Some? ==> a == b)
  }

  predicate SameOperation(a: Operation, b: Operation) {
    a.quote == b.quote && (b.done ==> a == b)
  }

  lemma ReplayKeeps(s: Server, key: string, id: string)
    requires key in s.upgrades
    ensures Keeps(s, Replayed(s, key, id))
  {}

  lemma DebitUpgradeKeeps(s: Server, key: string, body: Body, id: string, debit: nat, sub: Subscription)
    requires key !in s.upgrades
    ensures Keeps(s, DebitUpgrade(s, key, body, id, debit, sub).0)
  {}

  lemma SameLedgersKeep(s: Server, t: Server)
    requires t.checkouts == s.checkouts && t.upgrades == s.upgrades && t.operations == s.operations
    requires s.quotes <= t.quotes
    ensures Keeps(s, t)
  {}

  lemma UpgradeKeeps(u: Setup, s: Server, key: string, body: Body, id: string, now: int)
    ensures Keeps(s, UpgradeCheckout(u, s, key, body, id, now).0)
  {
    SameLedgersKeep(s, s);
    if id in s.deployments {
      if body.mode == Existing {
        SameLedgersKeep(s, AssignExisting(s, body, id).0);
      } else if key in s.upgrades {
        ReplayKeeps(s, key, id);
      } else {
        var plan, term := NormalPlan(body.plan), NormalTerm(body.term);
        if (plan, term) in u.prices {
          var debit := u.prices[(plan, term)];
          DebitUpgradeKeeps(s, key, body, id, debit, Subscription(plan, term, Wallet, debit, None));
        }
      }
    }
  }

  lemma NewCheckoutKeeps(u: Setup, s: Server, key: string, body: Body, now: int)
    requires key !in s.checkouts
    ensures Keeps(s, NewCheckout(u, s, key, body, now).0)
  {}

  lemma ReadKeeps(s: Server, id: nat, now: int)
    ensures Keeps(s, ReadOperation(s, id, now))
  {}

  lemma AcceptKeeps(u: Setup, s: Server, header: Option<nat>, id: nat, now: int)
    ensures Keeps(s, AcceptChange(u, s, header, id, now).0)
  {
    SameLedgersKeep(s, s);
    if id in s.operations {
      ReadKeeps(s, id, now);
    } else if id < |s.quotes| {
      ReadKeeps(s.(operations := s.operations[id := NewOperation(u, s.quotes[id], now)]), id, now);
    }
  }

  lemma CheckoutKeeps(u: Setup, s: Server, key: string, body: Body, now: int)
    ensures Keeps(s, Checkout(u, s, key, body, now).0)
  {
    SameLedgersKeep(s, s);
    if key !in s.checkouts {
      if body.upgradeDeployment.Some? {
        UpgradeKeeps(u, s, key, body, body.upgradeDeployment.value, now);
      } else {
        NewCheckoutKeeps(u, s, key, body, now);
      }
    }
  }

  lemma ServeKeeps(u: Setup, s: Server, r: Request)
    ensures Keeps(s, Serve(u, s, r))
  {
    match r {
      case Pay(key, body, now) => CheckoutKeeps(u, s, key, body, now);
      case AskQuote(q, now) => SameLedgersKeep(s, QuoteChange(u, s, q, now).0);
      case Accept(header, id, now) => AcceptKeeps(u, s, header, id, now);
      case Poll(id, now) => ReadKeeps(s, id, now);
      case Elsewhere(ds) => SameLedgersKeep(s, s.(deployments := ds));
    }
  }

  lemma {:induction false} LedgersOnlyGrow(u: Setup, s: Server, rs: seq<Request>)
    ensures Keeps(s, ServeAll(u, s, rs))
    decreases |rs|
  {
    if rs != [] {
      ServeKeeps(u, s, rs[0]);
      LedgersOnlyGrow(u, Serve(u, s, rs[0]), rs[1..]);
    }
  }

  /** Every operation carries out the quote it was accepted for. */
  ghost predicate FollowsQuotes(s: Server) {
    forall id :: id in s.operations ==> id < |s.quotes| && s.operations[id].quote == s.quotes[id]
  }

  lemma ServeFollowsQuotes(u: Setup, s: Server, r: Request)
    requires FollowsQuotes(s)
    ensures FollowsQuotes(Serve(u, s, r))
  {
    match r {
      case Pay(key, body, now) => CheckoutTouchesNoQuote(u, s, key, body, now);
      case AskQuote(q, now) =>
      case Accept(header, id, now) => AcceptFollowsQuotes(u, s, header, id, now);
      case Poll(id, now) => ReadFollowsQuotes(s, id, now);
      case Elsewhere(ds) =>
    }
  }

  lemma CheckoutTouchesNoQuote(u: Setup, s: Server, key: string, body: Body, now: int)
    ensures
      var t := Checkout(u, s, key, body, now).0;
      t.quotes == s.quotes && t.operations == s.operations
  {}

  lemma ReadFollowsQuotes(s: Server, id: nat, now: int)
    requires FollowsQuotes(s)
    ensures FollowsQuotes(ReadOperation(s, id, now))
  {}

  lemma AcceptFollowsQuotes(u: Setup, s: Server, header: Option<nat>, id: nat, now: int)
    requires FollowsQuotes(s)
    ensures FollowsQuotes(AcceptChange(u, s, header, id, now).0)
  {
    if id in s.operations {
      ReadFollowsQuotes(s, id, now);
    } else if id < |s.quotes| {
      ReadFollowsQuotes(s.(operations := s.operations[id := NewOperation(u, s.quotes[id], now)]), id, now);
    }
  }

  /** In every request sequence quotes are never changed, and an operation carries out, once, the
      quote whose id it has. */
  lemma {:induction false} OperationsFollowQuotes(u: Setup, s: Server, rs: seq<Request>)
    requires FollowsQuotes(s)
    ensures FollowsQuotes(ServeAll(u, s, rs)) && s.quotes <= ServeAll(u, s, rs).quotes
    decreases |rs|
  {
    LedgersOnlyGrow(u, s, rs);
    if rs != [] {
      ServeFollowsQuotes(u, s, rs[0]);
      OperationsFollowQuotes(u, Serve(u, s, rs[0]), rs[1..]);
    }
  }

  /** What every handler keeps: the ledgers only grow, and orderly ledgers stay orderly and account
      for every change of the balance. */
  ghost predicate Lawful(s: Server, t: Server) {
    Keeps(s, t) && (Orderly(s) ==> Orderly(t) && Wealth(t) == Wealth(s))
  }

  lemma CheckoutIsLawful(u: Setup, s: Server, key: string, body: Body, now: int)
    ensures Lawful(s, Checkout(u, s, key, body, now).0)
  {
    CheckoutKeeps(u, s, key, body, now);
    if Orderly(s) {
      CheckoutConserves(u, s, key, body, now);
    }
  }

  lemma AcceptIsLawful(u: Setup, s: Server, header: Option<nat>, id: nat, now: int)
    ensures Lawful(s, AcceptChange(u, s, header, id, now).0)
  {
    AcceptKeeps(u, s, header, id, now);
    if Orderly(s) {
      AcceptConserves(u, s, header, id, now);
    }
  }

  lemma ReadIsLawful(s: Server, id: nat, now: int)
    ensures Lawful(s, ReadOperation(s, id, now))
  {
    ReadKeeps(s, id, now);
    if Orderly(s) {
      ReadConserves(s, id, now);
    }
  }

  /** A new-subscription key, once charged, is never charged again: whatever happens in between,
      the same body is answered with the first activation and any other body is refused, and
      neither changes the server. */
  lemma CheckoutReplays(u: Setup, s: Server, rs: seq<Request>, key: string, body: Body, now: int)
    requires key != "" && key in s.checkouts
    ensures
      var t := ServeAll(u, s, rs);
      Checkout(u, t, key, body, now) ==
        (t, if body == s.checkouts[key].body then Reply(202, Some(s.checkouts[key].activation)) else Reply(409, None))
  {
    LedgersOnlyGrow(u, s, rs);
  }

  /** An upgrade key, once charged, is never charged again in its ledger, even when the first
      response was lost. The same body gets the first activation exactly when the deployment is
      still there and the key has not been charged in the other ledger as well; the subscription
      has then been applied once, and a further replay changes nothing. Otherwise nothing changes. */
  lemma UpgradeReplays(u: Setup, s: Server, rs: seq<Request>, key: string, now: int)
    requires Orderly(s) && key != "" && key in s.upgrades
    ensures
      var t := ServeAll(u, s, rs);
      var body := s.upgrades[key].body;
      var (after, reply) := Checkout(u, t, key, body, now);
      && body.upgradeDeployment.Some?
      && (reply.status == 202 <==> key !in t.checkouts && body.upgradeDeployment.value in t.deployments)
      && after.balance == t.balance && Recorded(after) == Recorded(t)
      && (if reply.status == 202 then
            && reply == Reply(202, Some(s.upgrades[key].activation))
            && key in after.upgrades && after.upgrades[key].applied == 1
            && Checkout(u, after, key, body, now) == (after, reply)
          else after == t && reply == Reply(if key in t.checkouts then 409 else 404, None))
  {
    LedgersOnlyGrow(u, s, rs);
    WealthIsConstant(u, s, rs);
    var t := ServeAll(u, s, rs);
    assert OrderlyUpgrade(s.upgrades[key]) && SameCharge(t.upgrades[key], s.upgrades[key]);
    ReplayReply(u, t, key, now);
  }

  lemma ReplayReply(u: Setup, t: Server, key: string, now: int)
    requires Orderly(t) && key != "" && key in t.upgrades && Chargeable(t.upgrades[key].body)
    ensures
      var body := t.upgrades[key].body;
      var id := body.upgradeDeployment.value;
      var (after, reply) := Checkout(u, t, key, body, now);
      && after.balance == t.balance && Recorded(after) == Recorded(t)
      && (if key !in t.checkouts && id in t.deployments then
            && reply == Reply(202, Some(t.upgrades[key].activation))
            && key in after.upgrades && after.upgrades[key].applied == 1
            && Checkout(u, after, key, body, now) == (after, reply)
          else after == t && reply == Reply(if key in t.checkouts then 409 else 404, None))
  {
    if key !in t.checkouts {
      ReplayConserves(t, key, t.upgrades[key].body.upgradeDeployment.value);
    }
  }

  /** Once the other ledger has the key too, the upgrade entry never changes again: a subscription
      whose first response was lost by then is paid for and never applied. */
  lemma {:induction false} DoubleChargedUpgradeIsStuck(u: Setup, s: Server, rs: seq<Request>, key: string)
    requires key in s.checkouts && key in s.upgrades
    ensures
      var t := ServeAll(u, s, rs);
      key in t.checkouts && key in t.upgrades && t.upgrades[key] == s.upgrades[key]
    decreases |rs|
  {
    if rs != [] {
      StuckStep(u, s, rs[0], key);
      DoubleChargedUpgradeIsStuck(u, Serve(u, s, rs[0]), rs[1..], key);
    }
  }

  lemma StuckStep(u: Setup, s: Server, r: Request, key: string)
    requires key in s.checkouts && key in s.upgrades
    ensures
      var t := Serve(u, s, r);
      key in t.checkouts && key in t.upgrades && t.upgrades[key] == s.upgrades[key]
  {
    if r.Pay? {
      CheckoutTouchesOneKey(u, s, r.key, r.body, r.now, key);
    }
  }

  lemma CheckoutTouchesOneKey(u: Setup, s: Server, key: string, body: Body, now: int, other: string)
    requires other in s.checkouts && other in s.upgrades
    ensures
      var t := Checkout(u, s, key, body, now).0;
      other in t.checkouts && other in t.upgrades && t.upgrades[other] == s.upgrades[other]
  {}

  /** Whatever its body, no later upgrade request under a charged key takes money again. */
  lemma UpgradeKeyIsChargedOnce(u: Setup, s: Server, rs: seq<Request>, key: string, body: Body, now: int)
    requires key in s.upgrades && body.upgradeDeployment.Some?
    ensures
      var t := ServeAll(u, s, rs);
      var after := Checkout(u, t, key, body, now).0;
      after.balance == t.balance && key in after.upgrades && after.upgrades[key].debit == s.upgrades[key].debit
  {
    LedgersOnlyGrow(u, s, rs);
    var t := ServeAll(u, s, rs);
    assert SameCharge(t.upgrades[key], s.upgrades[key]);
  }

  /** No checkout debit, in either ledger, takes a non-negative balance below zero. */
  lemma NoCheckoutOverdraws(u: Setup, s: Server, key: string, body: Body, now: int)
    requires s.balance >= 0
    ensures Checkout(u, s, key, body, now).0.balance >= 0
  {}

  // ---- where the once-per-key and the never-below-zero readings stop ----

  const PLAN := "compute_basic"

  function OnePlan(): Setup {
    Setup(map[(PLAN, 1) := 300], n => "new", true)
  }

  /** A wallet upgrade of the agent at the listed price. */
  function UpgradeBody(): Body {
    Body(Some("agent"), Wallet, New, None, Some(Quote(At(9), Some(300), None)), PLAN, 1, "", "", false)
  }

  /** A new wallet subscription at the listed price, quoted at this balance. */
  function NewBody(balance: int): Body {
    var quote := Quote(At(9), Some(300), Some(balance));
    Body(None, Wallet, New, Some(Config("key", PLAN)), Some(quote), PLAN, 1, "", "", false)
  }

  /** One agent waiting for a subscription and a balance for two. */
  function Waiting(): Server {
    Server(600, map["agent" := Deployment(PLAN, true, None)], map[], map[], map[], 0, [], map[])
  }

  /** One idempotency key can be charged twice, once in each ledger: the new-subscription
      ledger does not see the upgrade ledger's keys. */
  lemma OneKeyTwoLedgers()
    ensures
      var upgrade, first := UpgradeBody(), NewBody(300);
      var t := ServeAll(OnePlan(), Waiting(), [Pay("key", upgrade, 0), Pay("key", first, 0)]);
      "key" in t.upgrades && "key" in t.checkouts && t.balance == 0
  {
    var upgrade, first := UpgradeBody(), NewBody(300);
    var u, s := OnePlan(), Waiting();
    var rs := [Pay("key", upgrade, 0), Pay("key", first, 0)];
    var t := Serve(u, s, rs[0]);
    assert t.balance == 300 && "key" in t.upgrades && t.checkouts == map[];
    var w := Serve(u, t, rs[1]);
    assert rs[1..] == [rs[1]] && rs[1..][1..] == [];
    assert ServeAll(u, s, rs) == ServeAll(u, t, rs[1..]) == ServeAll(u, w, []);
  }

  /** If moreover the response to the upgrade is lost, the wallet has paid for both and no further
      requests ever apply the upgrade. */
  lemma LostUpgradeIsNeverMadeGood(rs: seq<Request>)
    ensures
      var paid := [Pay("key", UpgradeBody(), 0), Pay("key", NewBody(300), 0)];
      var s := ServeAll(OnePlan(), Waiting().(lostResponses := 1), paid);
      var t := ServeAll(OnePlan(), s, rs);
      && s.balance == 0 && "key" in s.checkouts
      && "key" in t.upgrades && t.upgrades["key"].debit == 300 && t.upgrades["key"].applied == 0
  {
    var u, w := OnePlan(), Waiting().(lostResponses := 1);
    var paid := [Pay("key", UpgradeBody(), 0), Pay("key", NewBody(300), 0)];
    var v := Serve(u, w, paid[0]);
    assert v.balance == 300 && v.checkouts == map[];
    assert "key" in v.upgrades && v.upgrades["key"].debit == 300 && v.upgrades["key"].applied == 0;
    var s := Serve(u, v, paid[1]);
    assert s.balance == 0 && "key" in s.checkouts && s.upgrades == v.upgrades;
    assert paid[1..] == [paid[1]] && paid[1..][1..] == [];
    assert ServeAll(u, w, paid) == ServeAll(u, v, paid[1..]) == ServeAll(u, s, []) == s;
    DoubleChargedUpgradeIsStuck(u, s, rs, "key");
  }

  /** A current confirmation of a new subscription at its listed price, within the balance. */
  predicate ConfirmsNewCharge(u: Setup, s: Server, key: string, body: Body, now: int) {
    && body.funding == Wallet && body.mode == New && body.quote.Some? && !Expired(body.quote.value, now)
    && body.config == Some(Config(key, body.plan)) && (body.plan, body.term) in u.prices
    && body.quote.value.debit == Some(u.prices[(body.plan, body.term)])
    && body.quote.value.balanceBefore == Some(s.balance)
    && u.prices[(body.plan, body.term)] <= s.balance
  }

  /** A key charged for an upgrade is charged a second time exactly by such a confirmation. */
  lemma SecondChargeExactlyWhen(u: Setup, s: Server, key: string, body: Body, now: int)
    requires key != "" && key in s.upgrades && key !in s.checkouts
    ensures
      var t := Checkout(u, s, key, body, now).0;
      && (key in t.checkouts <==> body.upgradeDeployment.None? && ConfirmsNewCharge(u, s, key, body, now))
      && t.balance == s.balance - (if key in t.checkouts then u.prices[(body.plan, body.term)] else 0)
  {}

  // ---- when a settlement can overdraw the wallet ----

  predicate Waits(op: Operation) {
    !op.done && op.settleAt.Some?
  }

  /** What the unsettled operations on these deployments are still to take. */
  ghost function Owed(s: Server, ds: set<string>): map<nat, int> {
    map id | id in s.operations && Waits(s.operations[id]) && s.operations[id].quote.deployment in ds
      :: Debit(s.operations[id].quote)
  }

  /** Of these, the ones a poll can settle now or later. */
  ghost function Pending(s: Server): map<nat, int> {
    Owed(s, s.deployments.Keys)
  }

  ghost predicate OnlyPolls(rs: seq<Request>) {
    forall i :: 0 <= i < |rs| ==> rs[i].Poll?
  }

  lemma {:induction false} TotalIsNonNegative<K(!new)>(m: map<K, int>)
    requires forall k :: k in m ==> m[k] >= 0
    ensures Total(m) >= 0
    decreases |m|
  {
    if m != map[] {
      var k :| k in m;
      TotalTakes(m, k);
      TotalIsNonNegative(m - {k});
    }
  }

  /** Settling takes from the wallet what it takes from the owed sum. */
  lemma SettlePays(s: Server, id: nat, ds: set<string>)
    requires id in s.operations && Waits(s.operations[id]) && s.operations[id].quote.deployment in ds
    ensures
      var t := Settle(s, id);
      && t.balance == s.balance - Debit(s.operations[id].quote)
      && Owed(t, ds) == Owed(s, ds) - {id} && Total(Owed(t, ds)) == Total(Owed(s, ds)) - Debit(s.operations[id].quote)
  {
    assert Owed(Settle(s, id), ds) == Owed(s, ds) - {id};
    TotalTakes(Owed(s, ds), id);
  }

  lemma SettleKeepsDeployments(s: Server, id: nat)
    requires id in s.operations
    ensures Settle(s, id).deployments.Keys == s.deployments.Keys
  {}

  lemma PollConserves(s: Server, id: nat, now: int)
    ensures
      var t := ReadOperation(s, id, now);
      t.deployments.Keys == s.deployments.Keys && t.balance - Total(Pending(t)) == s.balance - Total(Pending(s))
  {
    if ReadOperation(s, id, now) != s {
      SettleKeepsDeployments(s, id);
      SettlePays(s, id, s.deployments.Keys);
    }
  }

  lemma {:induction false} PollsConserve(u: Setup, s: Server, rs: seq<Request>)
    requires OnlyPolls(rs)
    ensures
      var t := ServeAll(u, s, rs);
      t.balance - Total(Pending(t)) == s.balance - Total(Pending(s))
    decreases |rs|
  {
    if rs != [] {
      PollConserves(s, rs[0].id, rs[0].now);
      PollsConserve(u, Serve(u, s, rs[0]), rs[1..]);
    }
  }

  /** Polling every pending operation late enough settles them all. */
  lemma {:induction false} PollAll(u: Setup, s: Server) returns (rs: seq<Request>)
    ensures OnlyPolls(rs) && Pending(ServeAll(u, s, rs)) == map[]
    decreases |Pending(s)|
  {
    if Pending(s) == map[] {
      rs := [];
    } else {
      var id :| id in Pending(s);
      var poll := Poll(id, s.operations[id].settleAt.value);
      var t := Serve(u, s, poll);
      assert t == Settle(s, id);
      SettleKeepsDeployments(s, id);
      SettlePays(s, id, s.deployments.Keys);
      var rest := PollAll(u, t);
      rs := [poll] + rest;
      assert rs[1..] == rest;
    }
  }

  lemma OwedIsNonNegative(s: Server, ds: set<string>)
    ensures Total(Owed(s, ds)) >= 0
  {
    TotalIsNonNegative(Owed(s, ds));
  }

  /** A plan change is tested against the balance when it is accepted and taken from it when it
      settles. However they are polled, the settlements never overdraw the wallet exactly when the
      balance covers all that are pending. */
  lemma PollsNeverOverdrawExactlyWhen(u: Setup, s: Server)
    ensures (forall rs :: OnlyPolls(rs) ==> ServeAll(u, s, rs).balance >= 0) <==> s.balance >= Total(Pending(s))
  {
    if s.balance >= Total(Pending(s)) {
      forall rs | OnlyPolls(rs)
        ensures ServeAll(u, s, rs).balance >= 0
      {
        PollsConserve(u, s, rs);
        OwedIsNonNegative(ServeAll(u, s, rs), ServeAll(u, s, rs).deployments.Keys);
      }
    }
    if forall rs :: OnlyPolls(rs) ==> ServeAll(u, s, rs).balance >= 0 {
      var rs := PollAll(u, s);
      PollsConserve(u, s, rs);
      assert ServeAll(u, s, rs).balance >= 0;
    }
  }

  // ---- over a whole run, from acceptance to settlement ----

  function AllDeployments(s: Server): set<string> {
    set id | id in s.operations :: s.operations[id].quote.deployment
  }

  /** What every unsettled operation is still to take, whether or not its deployment exists now. */
  ghost function Outstanding(s: Server): map<nat, int> {
    Owed(s, AllDeployments(s))
  }

  /** What the balance leaves after everything accepted has been taken. */
  ghost function Slack(s: Server): int {
    s.balance - Total(Outstanding(s))
  }

  /** What a request commits the wallet to: a charge at once, or a plan change accepted for later. */
  function Commits(u: Setup, s: Server, r: Request): int {
    match r
    case Pay(key, body, now) => s.balance - Checkout(u, s, key, body, now).0.balance
    case Accept(header, id, now) => if Takes(s, header, id, now) && u.finishes then Debit(s.quotes[id]) else 0
    case _ => 0
  }

  /** A plan change request that begins an operation. */
  predicate Takes(s: Server, header: Option<nat>, id: nat, now: int) {
    && header == Some(id) && id !in s.operations && id < |s.quotes|
    && now < s.quotes[id].expiresAt && s.quotes[id].deployment in s.deployments
    && (s.quotes[id].amount.Some? ==> s.quotes[id].amount.value <= s.balance)
  }

  function Committed(u: Setup, s: Server, rs: seq<Request>): int
    decreases |rs|
  {
    if rs == [] then 0 else Commits(u, s, rs[0]) + Committed(u, Serve(u, s, rs[0]), rs[1..])
  }

  lemma SameOperationsOwe(s: Server, t: Server)
    requires t.operations == s.operations
    ensures Outstanding(t) == Outstanding(s)
  {}

  lemma SettleKeepsSlack(s: Server, id: nat)
    requires id in s.operations && Waits(s.operations[id])
    ensures Slack(Settle(s, id)) == Slack(s)
  {
    var t := Settle(s, id);
    SettlePays(s, id, AllDeployments(s));
    assert Owed(t, AllDeployments(t)) == Owed(t, AllDeployments(s));
  }

  lemma ReadKeepsSlack(s: Server, id: nat, now: int)
    ensures Slack(ReadOperation(s, id, now)) == Slack(s)
  {
    if ReadOperation(s, id, now) != s {
      SettleKeepsSlack(s, id);
    }
  }

  lemma NewOperationOwes(s: Server, id: nat, op: Operation)
    requires id !in s.operations && !op.done
    ensures
      var t := s.(operations := s.operations[id := op]);
      Slack(t) == Slack(s) - (if op.settleAt.Some? then Debit(op.quote) else 0)
  {
    var t := s.(operations := s.operations[id := op]);
    if op.settleAt.Some? {
      assert Outstanding(t) == Outstanding(s)[id := Debit(op.quote)];
      TotalSets(Outstanding(s), id, Debit(op.quote));
    } else {
      assert Outstanding(t) == Outstanding(s);
    }
  }

  lemma AcceptCommits(u: Setup, s: Server, header: Option<nat>, id: nat, now: int)
    ensures Slack(AcceptChange(u, s, header, id, now).0) == Slack(s) - Commits(u, s, Accept(header, id, now))
  {
    if Takes(s, header, id, now) {
      NewOperationCommits(s, id, NewOperation(u, s.quotes[id], now), now);
    } else if id in s.operations {
      ReadKeepsSlack(s, id, now);
    }
  }

  lemma NewOperationCommits(s: Server, id: nat, op: Operation, now: int)
    requires id !in s.operations && !op.done
    ensures
      var t := ReadOperation(s.(operations := s.operations[id := op]), id, now);
      id in t.operations && Slack(t) == Slack(s) - (if op.settleAt.Some? then Debit(op.quote) else 0)
  {
    NewOperationOwes(s, id, op);
    ReadKeepsSlack(s.(operations := s.operations[id := op]), id, now);
  }

  lemma ServeCommits(u: Setup, s: Server, r: Request)
    ensures Slack(Serve(u, s, r)) == Slack(s) - Commits(u, s, r)
  {
    match r {
      case Pay(key, body, now) =>
        CheckoutTouchesNoQuote(u, s, key, body, now);
        SameOperationsOwe(s, Serve(u, s, r));
      case AskQuote(q, now) => SameOperationsOwe(s, Serve(u, s, r));
      case Accept(header, id, now) => AcceptCommits(u, s, header, id, now);
      case Poll(id, now) => ReadKeepsSlack(s, id, now);
      case Elsewhere(ds) => SameOperationsOwe(s, Serve(u, s, r));
    }
  }

  lemma {:induction false} RunCommits(u: Setup, s: Server, rs: seq<Request>)
    ensures Slack(ServeAll(u, s, rs)) == Slack(s) - Committed(u, s, rs)
    decreases |rs|
  {
    if rs != [] {
      ServeCommits(u, s, rs[0]);
      RunCommits(u, Serve(u, s, rs[0]), rs[1..]);
    }
  }

  /** Requests that neither charge nor accept anything. */
  ghost predicate Passive(rs: seq<Request>) {
    forall i :: 0 <= i < |rs| ==> !rs[i].Pay? && !rs[i].Accept?
  }

  lemma {:induction false} PassiveCommitsNothing(u: Setup, s: Server, rs: seq<Request>)
    requires Passive(rs)
    ensures Committed(u, s, rs) == 0
    decreases |rs|
  {
    if rs != [] {
      PassiveCommitsNothing(u, Serve(u, s, rs[0]), rs[1..]);
    }
  }

  lemma {:induction false} ServeTwice(u: Setup, s: Server, rs: seq<Request>, more: seq<Request>)
    ensures ServeAll(u, s, rs + more) == ServeAll(u, ServeAll(u, s, rs), more)
    decreases |rs|
  {
    if rs == [] {
      assert rs + more == more;
    } else {
      assert (rs + more)[0] == rs[0] && (rs + more)[1..] == rs[1..] + more;
      ServeTwice(u, Serve(u, s, rs[0]), rs[1..], more);
    }
  }

  /** Whatever else the server does, nothing outstanding need stay unsettled. */
  lemma SettleEverything(u: Setup, s: Server) returns (more: seq<Request>)
    ensures Passive(more) && Total(Outstanding(ServeAll(u, s, more))) == 0
  {
    var ds := map d | d in AllDeployments(s) :: Deployment("", false, None);
    var t := s.(deployments := ds);
    var polls := PollAll(u, t);
    more := [Elsewhere(ds)] + polls;
    assert more[1..] == polls;
    SettledByPolls(u, s, t, polls);
  }

  lemma SettledByPolls(u: Setup, s: Server, t: Server, polls: seq<Request>)
    requires t == s.(deployments := t.deployments) && t.deployments.Keys == AllDeployments(s)
    requires OnlyPolls(polls) && Pending(ServeAll(u, t, polls)) == map[]
    ensures Total(Outstanding(ServeAll(u, t, polls))) == 0
  {
    SameOperationsOwe(s, t);
    assert Pending(t) == Outstanding(t);
    PollsConserve(u, t, polls);
    RunCommits(u, t, polls);
    PassiveCommitsNothing(u, t, polls);
  }

  /** What a run from a fresh server committed is what its ledgers hold: the charges of both, what
      has settled and what is outstanding. */
  lemma CommittedIsRecorded(u: Setup, s: Server, rs: seq<Request>)
    requires Fresh(s)
    ensures
      var t := ServeAll(u, s, rs);
      Committed(u, s, rs) ==
        Total(CheckoutDebits(t)) + Total(UpgradeDebits(t)) + Total(SettledDebits(t)) + Total(Outstanding(t))
  {
    assert Outstanding(s) == map[];
    RunCommits(u, s, rs);
    BalanceIsAccountedFor(u, s, rs);
  }

  /** From a fresh server, over any run: no later settlement can overdraw the wallet, whatever the
      other handlers do, exactly when what the run charged and what it accepted for later add up
      to no more than the balance it started with. */
  lemma RunNeverOverdrawsExactlyWhen(u: Setup, s: Server, rs: seq<Request>)
    requires Fresh(s)
    ensures (forall more :: Passive(more) ==> ServeAll(u, s, rs + more).balance >= 0) <==>
      Committed(u, s, rs) <= s.balance
  {
    var t := ServeAll(u, s, rs);
    assert Outstanding(s) == map[];
    RunCommits(u, s, rs);
    if Committed(u, s, rs) <= s.balance {
      forall more | Passive(more)
        ensures ServeAll(u, s, rs + more).balance >= 0
      {
        ServeTwice(u, s, rs, more);
        RunCommits(u, t, more);
        PassiveCommitsNothing(u, t, more);
        var end := ServeAll(u, t, more);
        OwedIsNonNegative(end, AllDeployments(end));
      }
    }
    if forall more :: Passive(more) ==> ServeAll(u, s, rs + more).balance >= 0 {
      var more := SettleEverything(u, t);
      ServeTwice(u, s, rs, more);
      RunCommits(u, t, more);
      PassiveCommitsNothing(u, t, more);
      assert ServeAll(u, s, rs + more).balance >= 0;
    }
  }

  const LARGER := "compute_performance"

  function TwoPlans(): Setup {
    Setup(map[(PLAN, 1) := 300, (LARGER, 1) := 700], n => "new", true)
  }

  /** A fresh server with one subscribed agent. */
  function Subscribed(): Server {
    var agent := Deployment(PLAN, false, Some(Subscription(PLAN, 1, Wallet, 300, None)));
    Server(500, map["agent" := agent], map[], map[], map[], 0, [], map[])
  }

  function UpgradeThenPay(): seq<Request> {
    [AskQuote(QuoteRequest("agent", LARGER, 1, Wallet), 0), Accept(Some(0), 0, 0), Pay("key", NewBody(500), 0),
     Poll(0, 3_000)]
  }

  /** It does happen: a quoted and accepted upgrade, then a checkout that the balance still covers,
      then the settlement. */
  lemma SettlementMayOverdraw()
    ensures Fresh(Subscribed()) && Subscribed().balance == 500
    ensures ServeAll(TwoPlans(), Subscribed(), UpgradeThenPay()).balance == -200
  {
    var u, s, rs := TwoPlans(), Subscribed(), UpgradeThenPay();
    var quoted := Serve(u, s, rs[0]);
    var q := PlanQuote("agent", Upgrade, Some(400), Subscription(LARGER, 1, Wallet, 700, None), 900_000);
    UpgradeIsQuoted();
    var accepted := Serve(u, quoted, rs[1]);
    assert accepted == quoted.(operations := map[0 := Operation(q, Some(3_000), false, 0)]);
    var paid := Serve(u, accepted, rs[2]);
    CheckoutIsPaid(accepted);
    var settled := Serve(u, paid, rs[3]);
    assert settled.balance == -200;
    assert rs[1..][0] == rs[1] && rs[1..][1..][0] == rs[2] && rs[1..][1..][1..] == [rs[3]] && [rs[3]][1..] == [];
    assert ServeAll(u, s, rs) == ServeAll(u, quoted, rs[1..]) == ServeAll(u, accepted, rs[1..][1..])
        == ServeAll(u, paid, [rs[3]]) == ServeAll(u, settled, []);
  }

  lemma CheckoutIsPaid(s: Server)
    requires s.balance == 500 && s.checkouts == map[] && "agent" in s.deployments
    ensures
      var t := Serve(TwoPlans(), s, UpgradeThenPay()[2]);
      t.balance == 200 && t.operations == s.operations && "agent" in t.deployments
  {}

  lemma UpgradeIsQuoted()
    ensures
      Serve(TwoPlans(), Subscribed(), AskQuote(QuoteRequest("agent", LARGER, 1, Wallet), 0)) ==
        Subscribed().(quotes :=
          [PlanQuote("agent", Upgrade, Some(400), Subscription(LARGER, 1, Wallet, 700, None), 900_000)])
  {
    assert PLAN != LARGER by {
      assert |PLAN| == 13 && |LARGER| == 19;
    }
  }
}
