/** What the requests of the checkout protocol bring about: which of them charge, and what a
    deployment has afterwards. */
module LedgerEffects {
  import opened Common
  import opened CheckoutLedger

  /** Deployment `id` is now `d` and no other deployment has changed. */
  ghost predicate OnlyChanges(ds: map<string, Deployment>, id: string, d: Deployment, after: map<string, Deployment>) {
    && after.Keys == ds.Keys && id in after && after[id] == d
    && forall i :: i in ds && i != id ==> after[i] == ds[i]
  }

  /** A deployment on a subscription that is paid for. */
  function On(plan: string, term: int, payer: Funding, price: nat): Deployment {
    Deployment(plan, false, Some(Subscription(plan, term, payer, price, None)))
  }

  function OfferedPlan(body: Body): string {
    if body.plan == "compute_performance" then "compute_performance" else "compute_basic"
  }

  function OfferedTerm(body: Body): int {
    if body.term == 12 then 12 else 1
  }

  /** A quote without an expiry, or with one that has come, is not current. */
  predicate IsCurrent(q: Quote, now: int) {
    q.expiresAt != NoText && (q.expiresAt.At? ==> now < q.expiresAt.time)
  }

  // ---- upgrades ----

  /** The request confirms a current quote of the offered price for a deployment that waits for a
      subscription. */
  predicate ConfirmsUpgrade(u: Setup, s: Server, key: string, body: Body, now: int) {
    && key != "" && key !in s.checkouts && key !in s.upgrades
    && body.upgradeDeployment.Some? && body.upgradeDeployment.value in s.deployments
    && s.deployments[body.upgradeDeployment.value].subscribable
    && body.mode == New && body.funding == Wallet && body.quote.Some? && IsCurrent(body.quote.value, now)
    && (OfferedPlan(body), OfferedTerm(body)) in u.prices
    && body.quote.value.debit == Some(u.prices[(OfferedPlan(body), OfferedTerm(body))])
  }

  /** An upgrade is charged exactly when it is confirmed and the balance covers it; it is refused for
      the balance exactly when only that is missing. */
  lemma UpgradeIsChargedExactlyWhen(u: Setup, s: Server, key: string, body: Body, now: int)
    requires key !in s.upgrades && body.upgradeDeployment.Some?
    ensures
      var (t, reply) := Checkout(u, s, key, body, now);
      var confirmed := ConfirmsUpgrade(u, s, key, body, now);
      && (key in t.upgrades <==> confirmed && u.prices[(OfferedPlan(body), OfferedTerm(body))] <= s.balance)
      && (reply.status == 402 <==> confirmed && u.prices[(OfferedPlan(body), OfferedTerm(body))] > s.balance)
      && (key in t.upgrades ==> reply.status == if s.lostResponses > 0 then 503 else 202)
  {}

  /** What it took is what the deployment then has; no other deployment has changed. While responses
      are lost only the money has moved. */
  lemma UpgradeGivesWhatItCharges(u: Setup, s: Server, key: string, body: Body, now: int)
    requires key !in s.upgrades && key in Checkout(u, s, key, body, now).0.upgrades
    ensures
      var (t, reply) := Checkout(u, s, key, body, now);
      && body.upgradeDeployment.Some? && s.balance >= t.balance && t.reusable == s.reusable
      && var price: nat := s.balance - t.balance;
      && u.prices[(OfferedPlan(body), OfferedTerm(body))] == price == t.upgrades[key].debit
      && t.upgrades[key].body == body && t.upgrades[key].activation == Activation(Some(price), t.balance)
      && (if reply.status == 202 then
            && reply.activation == Some(t.upgrades[key].activation)
            && OnlyChanges(s.deployments, body.upgradeDeployment.value,
                 On(OfferedPlan(body), OfferedTerm(body), Wallet, price), t.deployments)
          else t.deployments == s.deployments && t.lostResponses == s.lostResponses - 1 && reply == Reply(503, None))
  {}

  /** After a lost response, whatever happened in between, the first replay that is answered gives the
      deployment what was charged, at no further cost, and a later one changes nothing. */
  lemma LostUpgradeIsGivenByReplay(u: Setup, s: Server, key: string, body: Body, now: int, rs: seq<Request>, later: int)
    requires Orderly(s) && key !in s.upgrades && body.upgradeDeployment.Some?
    requires Checkout(u, s, key, body, now).1.status == 503
    ensures
      var charged := Checkout(u, s, key, body, now).0;
      var t := ServeAll(u, charged, rs);
      var (after, reply) := Checkout(u, t, key, body, later);
      var id := body.upgradeDeployment.value;
      && (reply.status == 202 <==> key !in t.checkouts && id in t.deployments)
      && after.balance == t.balance && key in t.upgrades && charged.balance <= s.balance
      && (reply.status == 202 && t.upgrades[key].applied == 0 ==>
            && after.upgrades[key].applied == 1
            && OnlyChanges(t.deployments, id,
                 On(OfferedPlan(body), OfferedTerm(body), Wallet, s.balance - charged.balance), after.deployments))
      && (reply.status != 202 || t.upgrades[key].applied != 0 ==> after == t)
  {
    UpgradeIsChargedExactlyWhen(u, s, key, body, now);
    var charged := Checkout(u, s, key, body, now).0;
    LostEntry(u, s, key, body, now);
    CheckoutConserves(u, s, key, body, now);
    LedgersOnlyGrow(u, charged, rs);
    WealthIsConstant(u, charged, rs);
    var t := ServeAll(u, charged, rs);
    assert SameCharge(t.upgrades[key], charged.upgrades[key]) && OrderlyUpgrade(t.upgrades[key]);
    ReplayGives(u, t, key, body, later);
  }

  lemma LostEntry(u: Setup, s: Server, key: string, body: Body, now: int)
    requires key !in s.upgrades && body.upgradeDeployment.Some? && Checkout(u, s, key, body, now).1.status == 503
    ensures
      var t := Checkout(u, s, key, body, now).0;
      && key != "" && key !in s.checkouts && Chargeable(body) && key in t.upgrades && t.balance <= s.balance
      && t.upgrades[key] == UpgradeEntry(
           body, Activation(Some(s.balance - t.balance), t.balance), s.balance - t.balance,
           Some(Subscription(OfferedPlan(body), OfferedTerm(body), Wallet, s.balance - t.balance, None)), 0)
  {}

  lemma ReplayGives(u: Setup, t: Server, key: string, body: Body, now: int)
    requires Orderly(t) && key != "" && key in t.upgrades && t.upgrades[key].body == body && Chargeable(body)
    ensures
      var (after, reply) := Checkout(u, t, key, body, now);
      var id, e := body.upgradeDeployment.value, t.upgrades[key];
      && (reply.status == 202 <==> key !in t.checkouts && id in t.deployments)
      && after.balance == t.balance
      && (reply.status == 202 && e.applied == 0 ==>
            && key in after.upgrades && after.upgrades[key].applied == 1
            && OnlyChanges(t.deployments, id,
                 Deployment(e.projection.value.plan, false, Some(e.projection.value.(pending := None))),
                 after.deployments))
      && (reply.status != 202 || e.applied != 0 ==> after == t)
  {
    assert OrderlyUpgrade(t.upgrades[key]);
  }

  /** A reusable subscription is assigned exactly when it is there, is paid by card or wallet and no
      quote comes with the request; the deployment then has it as it was, it is no longer reusable,
      and no money moves. */
  lemma ExistingIsAssignedExactlyWhen(u: Setup, s: Server, key: string, body: Body, now: int)
    requires key != "" && key !in s.checkouts && body.mode == Existing && body.upgradeDeployment.Some?
    ensures
      var (t, reply) := Checkout(u, s, key, body, now);
      var id := body.upgradeDeployment.value;
      && t.balance == s.balance && t.checkouts == s.checkouts && t.upgrades == s.upgrades
      && (reply.status == 404 <==> id !in s.deployments) && reply.status in {202, 404, 409}
      && (reply.status == 202 <==>
            && id in s.deployments && body.subscription in s.reusable && body.quote.None? && !body.strayQuote
            && s.reusable[body.subscription].funding in {Wallet, Stripe})
      && (if reply.status == 202 then
            var row := s.reusable[body.subscription];
            && OnlyChanges(s.deployments, id, On(row.plan, row.term, row.funding, row.price), t.deployments)
            && t.reusable == s.reusable - {body.subscription}
            && reply.activation == Some(Activation(None, s.balance))
          else t == s)
  {}

  // ---- new subscriptions ----

  /** A new subscription is charged exactly when a current quote of the offered price and of the
      present balance is confirmed under the request's own key and the balance covers it; its agent
      is then there, unless one of that name was. */
  lemma NewIsChargedExactlyWhen(u: Setup, s: Server, key: string, body: Body, now: int)
    requires key !in s.checkouts && body.upgradeDeployment.None?
    ensures
      var (t, reply) := Checkout(u, s, key, body, now);
      && (reply.status == 202 <==>
            && key != "" && body.funding == Wallet && body.mode == New && body.config == Some(Config(key, body.plan))
            && body.quote.Some? && IsCurrent(body.quote.value, now) && (body.plan, body.term) in u.prices
            && body.quote.value.debit == Some(u.prices[(body.plan, body.term)])
            && body.quote.value.balanceBefore == Some(s.balance) && u.prices[(body.plan, body.term)] <= s.balance)
      && (if reply.status == 202 then
            var price, id := u.prices[(body.plan, body.term)], u.newId(|s.checkouts| + 1);
            && t.balance == s.balance - price && reply.activation == Some(Activation(Some(price), t.balance))
            && t.checkouts == s.checkouts[key := NewEntry(body, Activation(Some(price), t.balance), price)]
            && t.deployments ==
                 (if id in s.deployments then s.deployments
                  else s.deployments[id := Deployment(OfferedPlan(body), false, None)])
            && t == s.(balance := t.balance, checkouts := t.checkouts, deployments := t.deployments)
          else t == s && reply.activation.None?)
  {}

  /** A body that asks for a new subscription from the wallet. */
  predicate AsksForNew(body: Body) {
    body.funding == Wallet && body.mode == New && body.config.Some? && body.quote.Some?
  }

  /** A quote that is current and names the offered price and the present balance. */
  predicate Agrees(u: Setup, s: Server, body: Body, now: int)
    requires body.quote.Some? && (body.plan, body.term) in u.prices
  {
    && IsCurrent(body.quote.value, now) && body.quote.value.debit == Some(u.prices[(body.plan, body.term)])
    && body.quote.value.balanceBefore == Some(s.balance)
  }

  /** How a new subscription is refused: 400 for a request without a key or of the wrong form, or for
      a plan that is not on offer; 409 for another request's key or a quote that no longer agrees;
      402 for the balance alone. */
  lemma NewRefusalTells(u: Setup, s: Server, key: string, body: Body, now: int)
    requires key !in s.checkouts && body.upgradeDeployment.None?
    ensures
      var status := Checkout(u, s, key, body, now).1.status;
      && (key == "" || !AsksForNew(body) ==> status == 400)
      && (key != "" && AsksForNew(body) ==>
            var config := body.config.value;
            var offered := (body.plan, body.term) in u.prices && config.plan == body.plan;
            && (status == 409 <==> config.deployRequestId != key || (offered && !Agrees(u, s, body, now)))
            && (status == 400 <==> config.deployRequestId == key && !offered)
            && (status == 402 <==>
                  && config.deployRequestId == key && offered && Agrees(u, s, body, now)
                  && s.balance < u.prices[(body.plan, body.term)])
            && status in {202, 400, 402, 409})
  {}

  /** How a first upgrade request for a deployment that is there is refused: 400 when it is not for the
      wallet or the deployment waits for no subscription, 409 for a quote that is past or of another
      price, and 400 for a plan that is not on offer. */
  lemma UpgradeRefusalTells(u: Setup, s: Server, key: string, body: Body, now: int)
    requires key != "" && key !in s.checkouts && key !in s.upgrades && body.mode != Existing
    requires body.upgradeDeployment.Some?
    ensures
      var status := Checkout(u, s, key, body, now).1.status;
      var id, offer := body.upgradeDeployment.value, (OfferedPlan(body), OfferedTerm(body));
      && (status == 404 <==> id !in s.deployments)
      && (id in s.deployments ==>
            var meant := body.funding == Wallet && body.mode == New && body.quote.Some? && s.deployments[id].subscribable;
            && (!meant ==> status == 400)
            && (meant ==>
                  && (status == 409 <==>
                        || !IsCurrent(body.quote.value, now)
                        || (offer in u.prices && body.quote.value.debit != Some(u.prices[offer])))
                  && (status == 400 <==> IsCurrent(body.quote.value, now) && offer !in u.prices)
                  && status in {202, 400, 402, 409, 503}))
  {}

  /** A key that was charged answers any other body with 409, in either ledger, and changes nothing. */
  lemma AnotherBodyIsRefused(u: Setup, s: Server, key: string, body: Body, now: int)
    requires key != ""
    ensures key in s.checkouts && s.checkouts[key].body != body ==> Checkout(u, s, key, body, now) == (s, Reply(409, None))
    ensures
      (&& key !in s.checkouts && key in s.upgrades && s.upgrades[key].body != body
       && Chargeable(body) && body.upgradeDeployment.value in s.deployments)
      ==> Checkout(u, s, key, body, now) == (s, Reply(409, None))
  {}

  // ---- plan changes ----

  /** A due change that is read takes its amount, once, and gives the deployment what was quoted: at
      once for a switch or an upgrade, as a pending plan for a downgrade. */
  lemma SettlementGivesTheQuote(u: Setup, s: Server, id: nat, now: int)
    requires id in s.operations
    ensures
      var op := s.operations[id];
      var q := op.quote;
      var t := Serve(u, s, Poll(id, now));
      if op.done || op.settleAt.None? || now < op.settleAt.value || q.deployment !in s.deployments then t == s
      else
        var d := s.deployments[q.deployment];
        && id in t.operations && t.operations == s.operations[id := t.operations[id]]
        && t.operations[id].done && t.operations[id].quote == q
        && t.checkouts == s.checkouts && t.upgrades == s.upgrades && t.reusable == s.reusable
        && (if q.kind == Downgrade then
              && t.balance == s.balance
              && OnlyChanges(s.deployments, q.deployment,
                   if d.subscription.None? then d
                   else d.(subscription := Some(d.subscription.value.(pending := Some(q.target.plan)))),
                   t.deployments)
            else
              && t.balance == s.balance - (if q.amount.Some? then q.amount.value else 0)
              && OnlyChanges(s.deployments, q.deployment,
                   On(q.target.plan, q.target.term, q.target.funding, q.target.price), t.deployments))
  {}

  /** A plan change begins exactly when its own key comes with a current quote, for a deployment that
      is there, within the balance; the other replies tell which of these is missing. */
  lemma ChangeBeginsExactlyWhen(u: Setup, s: Server, header: Option<nat>, id: nat, now: int)
    requires id !in s.operations
    ensures
      var (t, reply) := AcceptChange(u, s, header, id, now);
      && (id in t.operations <==> Takes(s, header, id, now)) && (reply.status == 202 <==> Takes(s, header, id, now))
      && (id in t.operations ==> t.operations[id].quote == s.quotes[id])
      && (id !in t.operations ==> t == s)
      && (reply.status == 400 <==> header != Some(id))
      && (header == Some(id) ==>
            && (reply.status == 409 <==> id < |s.quotes| && s.quotes[id].expiresAt <= now)
            && (reply.status == 404 <==>
                  id >= |s.quotes| || (now < s.quotes[id].expiresAt && s.quotes[id].deployment !in s.deployments))
            && reply.status in {202, 402, 404, 409})
  {}

  /** A change that was accepted before is only read: the reply is the same 202, unless it is due and
      its deployment is gone. */
  lemma RepeatedChangeIsRead(u: Setup, s: Server, id: nat, now: int)
    requires id in s.operations
    ensures
      var (t, reply) := AcceptChange(u, s, Some(id), id, now);
      var op := s.operations[id];
      && t == Serve(u, s, Poll(id, now))
      && reply == Reply(
           if !op.done && op.settleAt.Some? && op.settleAt.value <= now && op.quote.deployment !in s.deployments
           then 500 else 202, None)
  {}

  /** When an accepted change takes effect: never when changes do not finish, at once for a switch or a
      downgrade, and for an upgrade from three seconds on. */
  lemma ChangeTakesEffectExactlyWhen(u: Setup, s: Server, header: Option<nat>, id: nat, now: int, later: int)
    requires Takes(s, header, id, now) && now <= later
    ensures
      var begun := AcceptChange(u, s, header, id, now).0;
      var t := Serve(u, begun, Poll(id, later));
      && id in begun.operations && id in t.operations
      && (begun.operations[id].done <==> u.finishes && s.quotes[id].kind != Upgrade)
      && (t.operations[id].done <==> u.finishes && (s.quotes[id].kind == Upgrade ==> now + 3_000 <= later))
  {
    var begun := AcceptChange(u, s, header, id, now).0;
    assert begun == ReadOperation(s.(operations := s.operations[id := NewOperation(u, s.quotes[id], now)]), id, now);
    ReadTouchesOne(s.(operations := s.operations[id := NewOperation(u, s.quotes[id], now)]), id, now);
    ReadTouchesOne(begun, id, later);
  }

  lemma ReadTouchesOne(s: Server, id: nat, now: int)
    requires id in s.operations && s.operations[id].quote.deployment in s.deployments
    ensures
      var t := ReadOperation(s, id, now);
      && id in t.operations && t.operations[id].quote == s.operations[id].quote
      && t.operations[id].settleAt == s.operations[id].settleAt
      && (t.operations[id].done <==> s.operations[id].done || Due(s.operations[id], now))
      && s.operations[id].quote.deployment in t.deployments
  {}
}
