/** The handlers of the fixture server as methods that update its state in place
    (scripts/ui-parity/fixture-api.ts), proved against the ledger functions. */
module FixtureServer {
  import opened Common
  import opened CheckoutLedger

  class LedgerServer {
    const setup: Setup
    var balance: int
    var deployments: map<string, Deployment>
    var reusable: map<string, Subscription>
    var checkouts: map<string, NewEntry>
    var upgrades: map<string, UpgradeEntry>
    var lostResponses: nat
    var quotes: seq<PlanQuote>
    var operations: map<nat, Operation>

    constructor (setup: Setup, balance: int, deployments: map<string, Deployment>,
                 reusable: map<string, Subscription>, lostFirst: bool)
      ensures this.setup == setup && CheckoutLedger.Fresh(View())
      ensures View().balance == balance && View().deployments == deployments && View().reusable == reusable
      ensures View().lostResponses == if lostFirst then 1 else 0
    {
      this.setup, this.balance, this.deployments, this.reusable := setup, balance, deployments, reusable;
      checkouts, upgrades, quotes, operations := map[], map[], [], map[];
      lostResponses := if lostFirst then 1 else 0;
    }

    function View(): Server
      reads this
    {
      Server(balance, deployments, reusable, checkouts, upgrades, lostResponses, quotes, operations)
    }

    method ApplySubscription(id: string, sub: Subscription)
      modifies this`deployments
      ensures deployments == ApplyTo(old(deployments), id, sub)
      ensures deployments.Keys == old(deployments).Keys
      ensures id in deployments ==>
        && deployments[id].plan == sub.plan && !deployments[id].subscribable
        && deployments[id].subscription == Some(Subscription(sub.plan, sub.term, sub.funding, sub.price, None))
      ensures forall i :: i in deployments && i != id ==> deployments[i] == old(deployments)[i]
    {
      if id in deployments {
        deployments := deployments[id := Deployment(sub.plan, false, Some(sub.(pending := None)))];
      }
    }

    method PostCheckout(key: string, body: Body, now: int) returns (reply: Reply)
      modifies this
      ensures (View(), reply) == Checkout(setup, old(View()), key, body, now)
      ensures Lawful(old(View()), View())
    {
      CheckoutIsLawful(setup, View(), key, body, now);
      if key == "" {
        return Reply(400, None);
      }
      if key in checkouts {
        if checkouts[key].body == body {
          return Reply(202, Some(checkouts[key].activation));
        }
        return Reply(409, None);
      }
      if body.upgradeDeployment.Some? {
        reply := PostUpgrade(key, body, body.upgradeDeployment.value, now);
        return;
      }
      reply := PostNew(key, body, now);
    }

    method PostNew(key: string, body: Body, now: int) returns (reply: Reply)
      modifies this
      ensures (View(), reply) == NewCheckout(setup, old(View()), key, body, now)
    {
      if body.funding != Wallet || body.mode != New || body.config.None? || body.quote.None? {
        return Reply(400, None);
      }
      if body.config.value.deployRequestId != key {
        return Reply(409, None);
      }
      if (body.plan, body.term) !in setup.prices || body.config.value.plan != body.plan {
        return Reply(400, None);
      }
      var debit := setup.prices[(body.plan, body.term)];
      if Expired(body.quote.value, now) {
        return Reply(409, None);
      }
      if body.quote.value.debit != Some(debit) || body.quote.value.balanceBefore != Some(balance) {
        return Reply(409, None);
      }
      if balance < debit {
        return Reply(402, None);
      }
      var id := setup.newId(|checkouts| + 1);
      if id !in deployments {
        deployments := deployments[id := Deployment(NormalPlan(body.plan), false, None)];
      }
      balance := balance - debit;
      var activation := Activation(Some(debit), balance);
      checkouts := checkouts[key := NewEntry(body, activation, debit)];
      return Reply(202, Some(activation));
    }

    method PostUpgrade(key: string, body: Body, id: string, now: int) returns (reply: Reply)
      modifies this
      ensures (View(), reply) == UpgradeCheckout(setup, old(View()), key, body, id, now)
    {
      if id !in deployments {
        return Reply(404, None);
      }
      if body.mode == Existing {
        if body.subscription !in reusable || reusable[body.subscription].funding == NoFunding
           || body.quote.Some? || body.strayQuote {
          return Reply(409, None);
        }
        var row := reusable[body.subscription];
        reusable := reusable - {body.subscription};
        ApplySubscription(id, row);
        return Reply(202, Some(Activation(None, balance)));
      }
      if body.funding != Wallet || body.mode != New || body.quote.None? {
        return Reply(400, None);
      }
      if key in upgrades {
        var replay := upgrades[key];
        if replay.body != body {
          return Reply(409, None);
        }
        if replay.projection.Some? {
          ApplySubscription(id, replay.projection.value);
          upgrades := upgrades[key := replay.(projection := None, applied := replay.applied + 1)];
        }
        return Reply(202, Some(replay.activation));
      }
      if !deployments[id].subscribable {
        return Reply(400, None);
      }
      if Expired(body.quote.value, now) {
        return Reply(409, None);
      }
      var plan, term := NormalPlan(body.plan), NormalTerm(body.term);
      if (plan, term) !in setup.prices {
        return Reply(400, None);
      }
      var debit := setup.prices[(plan, term)];
      if body.quote.value.debit != Some(debit) {
        return Reply(409, None);
      }
      if balance < debit {
        return Reply(402, None);
      }
      reply := TakeUpgrade(key, body, id, debit, Subscription(plan, term, Wallet, debit, None));
    }

    method TakeUpgrade(key: string, body: Body, id: string, debit: nat, sub: Subscription) returns (reply: Reply)
      modifies this
      ensures (View(), reply) == DebitUpgrade(old(View()), key, body, id, debit, sub)
    {
      balance := balance - debit;
      var activation := Activation(Some(debit), balance);
      if lostResponses > 0 {
        lostResponses := lostResponses - 1;
        upgrades := upgrades[key := UpgradeEntry(body, activation, debit, Some(sub), 0)];
        return Reply(503, None);
      }
      ApplySubscription(id, sub);
      upgrades := upgrades[key := UpgradeEntry(body, activation, debit, None, 1)];
      return Reply(202, Some(activation));
    }

    method ReadPlanChange(id: nat, now: int) returns (threw: bool)
      modifies this
      ensures View() == ReadOperation(old(View()), id, now) && threw == ReadThrows(old(View()), id, now)
      ensures Lawful(old(View()), View())
    {
      ReadIsLawful(View(), id, now);
      if id !in operations || !Due(operations[id], now) {
        return false;
      }
      if operations[id].quote.deployment !in deployments {
        return true;
      }
      SettleOperation(id);
      return false;
    }

    /** The settlement of a due operation. */
    method SettleOperation(id: nat)
      requires id in operations && operations[id].quote.deployment in deployments
      modifies this
      ensures View() == Settle(old(View()), id)
    {
      var op := operations[id];
      var d := op.quote.deployment;
      if op.quote.kind == Downgrade {
        if deployments[d].subscription.Some? {
          var sub := deployments[d].subscription.value.(pending := Some(op.quote.target.plan));
          deployments := deployments[d := deployments[d].(subscription := Some(sub))];
        }
      } else {
        if op.quote.amount.Some? {
          balance := balance - op.quote.amount.value;
        }
        ApplySubscription(d, op.quote.target);
      }
      operations := operations[id := op.(done := true, settled := op.settled + 1)];
    }

    method PostPlanQuote(q: QuoteRequest, now: int) returns (reply: Reply)
      modifies this
      ensures (View(), reply) == QuoteChange(setup, old(View()), q, now)
    {
      if q.deployment !in deployments || deployments[q.deployment].subscription.None? {
        return Reply(404, None);
      }
      var sub := deployments[q.deployment].subscription.value;
      var currentPlan, currentTerm := deployments[q.deployment].plan, NormalTerm(sub.term);
      var currentFunding := if sub.funding == Wallet then Wallet else Stripe;
      var plan, term := NormalPlan(q.plan), NormalTerm(q.term);
      var funding := if q.funding == Stripe then Stripe else Wallet;
      var targetPrice := Price(setup, plan, term);
      if targetPrice.None? {
        return Reply(400, None);
      }
      var included := sub.funding == NoFunding;
      var switching := !included && funding != currentFunding;
      if switching && funding == Stripe {
        return Reply(409, None);
      }
      var paid := Paid(setup, deployments[q.deployment]);
      var kind, cents, payer := Downgrade, 0, if switching || included then funding else currentFunding;
      if switching {
        kind, plan, term := Switch, currentPlan, currentTerm;
      } else if targetPrice.value * currentTerm > paid * term || term > currentTerm {
        kind := Upgrade;
        cents := if targetPrice.value > paid then targetPrice.value - paid else 0;
      }
      var price := Price(setup, plan, term);
      var target := Subscription(NormalPlan(plan), term, payer, if price.Some? then price.value else 0, None);
      var amount := if kind == Upgrade && payer == Wallet then Some(cents) else None;
      quotes := quotes + [PlanQuote(q.deployment, kind, amount, target, now + 15 * MINUTE)];
      return Reply(200, None);
    }

    method PostPlanChange(header: Option<nat>, id: nat, now: int) returns (reply: Reply)
      modifies this
      ensures (View(), reply) == AcceptChange(setup, old(View()), header, id, now)
      ensures Lawful(old(View()), View())
    {
      AcceptIsLawful(setup, View(), header, id, now);
      if header != Some(id) {
        return Reply(400, None);
      }
      if id in operations {
        var threw := ReadPlanChange(id, now);
        return Reply(if threw then 500 else 202, None);
      }
      if id >= |quotes| {
        return Reply(404, None);
      }
      var q := quotes[id];
      if q.expiresAt <= now {
        return Reply(409, None);
      }
      if q.deployment !in deployments {
        return Reply(404, None);
      }
      if q.amount.Some? && balance < q.amount.value {
        return Reply(402, None);
      }
      operations := operations[id := NewOperation(setup, q, now)];
      var threw := ReadPlanChange(id, now);
      return Reply(202, None);
    }
  }
}
