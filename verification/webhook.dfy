/** POST /api/orders/webhook/tron (src/app/api/orders/webhook/tron/route.js):
    the ledger watcher reports a transaction; the first open order whose
    identifiers match the payment event is settled. */
module WebhookRoute {
  import opened Base
  import opened Search
  import opened TronEvents
  import opened Store
  import opened Http
  import opened Writes
  import opened Oracles
  import opened Reconcile

  /** The `x-webhook-secret` header (`""` when absent) and the body's `txid`. */
  datatype Request = Request(secretHeader: string, txid: string)

  /** What the route knows once the ledger has been consulted. */
  datatype Payment = Payment(info: TxInfo, event: DecodedEvent)

  /** A secret is configured and the header carries it. */
  predicate Authorised(req: Request, env: Env) {
    env.config.webhookSecret != "" && req.secretHeader == env.config.webhookSecret
  }

  /** The steps before the order table is read: secret, txid, transaction,
      payment event. */
  function Prelude(req: Request, env: Env): (r: Step<Payment>)
    ensures env.config.webhookSecret == "" ==> r == Halt(Bad(500, WebhookSecretUnset))
    ensures env.config.webhookSecret != "" && req.secretHeader != env.config.webhookSecret ==>
      r == Halt(Bad(401, WebhookUnauthorized))
    ensures Authorised(req, env) && req.txid == "" ==> r == Halt(Bad(400, MissingTxid))
    ensures r.Halt? ==> r.response.Bad?
    ensures r.Go? ==> Authorised(req, env) && req.txid != "" && FetchTx(env, req.txid) == Go(r.value.info)
    ensures r.Go? ==> DecodeEvent(env.tron, r.value.info.logs, env.config.paymentEvents) == Normal(Some(r.value.event))
    ensures r.Go? ==> r.value.event.eventName == "PaymentDetected"
  {
    if env.config.webhookSecret == "" then Halt(Bad(500, WebhookSecretUnset))
    else if req.secretHeader != env.config.webhookSecret then Halt(Bad(401, WebhookUnauthorized))
    else if req.txid == "" then Halt(Bad(400, MissingTxid))
    else
      var info :- FetchTx(env, req.txid);
      var decoded :- DecodePayment(env, info);
      var ev :- RequireEvent(info, decoded);
      var named :- RequireName(ev, "PaymentDetected");
      Go(Payment(info, named))
  }

  /** The row the event selects: the first open order whose identifiers match. */
  function Candidate(env: Env, p: Payment): Order -> bool {
    OpenCandidate(env.tron, EventIds(p.event))
  }

  /** The route's decision: the update to make, or the answer to give. */
  function Decide(req: Request, env: Env, db: seq<Order>): (r: Step<Write>)
    ensures r.Go? ==> ValidWrite(db, r.value)
    ensures r.Go? ==> Prelude(req, env).Go?
    ensures r.Go? ==> r.value == Settle(r.value.index, db[r.value.index], Prelude(req, env).value.info)
    ensures r.Go? ==> db[r.value.index].txid == "" && IsOpen(db[r.value.index].status)
  {
    var p :- Prelude(req, env);
    var ids := EventIds(p.event);
    var i :- FindMatch(db, Candidate(env, p), ids);
    var _ :- CheckUnbound(db[i], req.txid);
    var _ :- Validate(env, db[i], p.event);
    SettleValid(db, i, p.info);
    Go(Settle(i, db[i], p.info))
  }

  /** The route: its response and the order table afterwards. Only an open,
      unbound order is ever written, so no bound txid moves and no SUCCESS
      order changes. */
  function Handle(req: Request, env: Env, db: seq<Order>): (r: (Response, seq<Order>))
    ensures r.0.Bad? ==> r.1 == db
    ensures AtMostOneChanged(db, r.1)
    ensures TxidsUnique(db) ==> TxidsUnique(r.1)
    ensures SuccessBound(db) ==> SuccessBound(r.1)
    ensures BoundTxidsKept(db, r.1)
    ensures NoSuccessRegression(db, r.1)
  {
    var s := Decide(req, env, db);
    CommitKeepsBoundTxids(db, s);
    CommitKeepsSuccess(db, s);
    Commit(db, s)
  }

  /** The secret checks come first: an unauthorised call gets the same answer
      whatever the ledger and the order table hold, and changes nothing. */
  lemma UnauthorisedIgnoresLedgerAndStore(req: Request, env: Env, env2: Env, db: seq<Order>, db2: seq<Order>)
    requires !Authorised(req, env)
    requires env2.config.webhookSecret == env.config.webhookSecret
    ensures Handle(req, env, db).1 == db
    ensures Handle(req, env, db).0 == Handle(req, env2, db2).0
    ensures Handle(req, env, db).0.code == (if env.config.webhookSecret == "" then 500 else 401)
  {
  }

  /** What a change to the table implies: the event passed every check and
      the first open matching order, which was unbound, took the final status
      and the ledger's txid. */
  lemma SettlementSound(req: Request, env: Env, db: seq<Order>)
    requires Handle(req, env, db).1 != db
    ensures Prelude(req, env).Go?
    ensures var p := Prelude(req, env).value;
      var i := FirstIndex(db, Candidate(env, p));
      && i.Some?
      && db[i.value].txid == ""
      && TokenAccepted(env.config.usdtAddress, GotToken(p.event))
      && AmountAccepted(env, db[i.value].amount, p.event)
      && Handle(req, env, db) == (Ok(200, Settled(FinalStatus(p.info), p.info.id)), db[i.value := SettledRow(db[i.value], p.info)])
  {
    var p := Prelude(req, env).value;
    var s := Decide(req, env, db);
    var i := FindMatch(db, Candidate(env, p), EventIds(p.event));
    assert i == Go(s.value.index);
    assert CheckUnbound(db[s.value.index], req.txid).Go?;
    assert Validate(env, db[s.value.index], p.event).Go?;
    FirstIndexIs(db, Candidate(env, p), s.value.index);
  }

  /** And conversely: when every check passes and no other row holds the
      ledger's txid, the first open matching unbound order is settled. */
  lemma SettlementComplete(req: Request, env: Env, db: seq<Order>, i: nat)
    requires Prelude(req, env).Go?
    requires var p := Prelude(req, env).value;
      && FirstIndex(db, Candidate(env, p)) == Some(i)
      && db[i].txid == ""
      && TokenAccepted(env.config.usdtAddress, GotToken(p.event))
      && AmountAccepted(env, db[i].amount, p.event)
      && !TxidTakenElsewhere(db, i, p.info.id)
    ensures var p := Prelude(req, env).value;
      Handle(req, env, db) == (Ok(200, Settled(FinalStatus(p.info), p.info.id)), db[i := SettledRow(db[i], p.info)])
  {
  }

  /** When no open order matches the event, the answer is 404 with the
      event's identifiers and nothing changes. */
  lemma NoCandidateNotFound(req: Request, env: Env, db: seq<Order>)
    requires Prelude(req, env).Go?
    requires FirstIndex(db, Candidate(env, Prelude(req, env).value)).None?
    ensures var ids := EventIds(Prelude(req, env).value.event);
      Handle(req, env, db) == (Bad(404, NoMatchingOrder(ids.merchant, ids.order, ids.invoice)), db)
  {
  }

  /** A redelivery after settlement does not reach the `updated: false`
      branch for the settled order: that order is no longer open, so when it
      was the only open order the event matched, the answer is 404. */
  lemma RedeliveryNotFound(req: Request, env: Env, db: seq<Order>)
    requires Prelude(req, env).Go?
    requires Handle(req, env, db).1 != db
    requires var p := Prelude(req, env).value;
      forall j, k :: 0 <= j < k < |db| && Candidate(env, p)(db[j]) ==> !Candidate(env, p)(db[k])
    ensures var ids := EventIds(Prelude(req, env).value.event);
      Handle(req, env, Handle(req, env, db).1) ==
        (Bad(404, NoMatchingOrder(ids.merchant, ids.order, ids.invoice)), Handle(req, env, db).1)
  {
    SettlementSound(req, env, db);
    var p := Prelude(req, env).value;
    var i := FirstIndex(db, Candidate(env, p)).value;
    OnlyHitReplaced(db, i, SettledRow(db[i], p.info), Candidate(env, p));
    NoCandidateNotFound(req, env, db[i := SettledRow(db[i], p.info)]);
  }

  /** Delivering the same notification again changes nothing: the settled
      order is no longer open, and any other match would need the txid the
      settled order now holds. */
  lemma Idempotent(req: Request, env: Env, db: seq<Order>)
    ensures var db1 := Handle(req, env, db).1;
      Handle(req, env, db1).1 == db1
  {
    var db1 := Handle(req, env, db).1;
    if db1 != db {
      var w := Decide(req, env, db).value;
      var info := Prelude(req, env).value.info;
      assert db1 == db[w.index := w.row];
      var s2 := Decide(req, env, db1);
      if s2.Go? {
        var j := s2.value.index;
        assert j != w.index;
        assert db1[w.index].txid == info.id == s2.value.row.txid;
        assert TxidTakenElsewhere(db1, j, s2.value.row.txid);
      }
    }
  }
}
