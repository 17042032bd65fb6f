/** The confirmation by order or invoice id (the POST handler in
    src/lib/amount.js): the merchant names the order and the transaction;
    the order is settled when the payment event agrees with it, and given a
    provisional status when the receipt carries no payment event. */
module ConfirmByIdsRoute {
  import opened Base
  import opened Search
  import opened TronEvents
  import opened Store
  import opened Http
  import opened Writes
  import opened Oracles
  import opened Auth
  import opened Reconcile

  /** The `authorization` header and the body's `txid`, `order_id` and
      `invoice_id` (`""` when absent). */
  datatype Request = Request(authorization: string, txid: string, orderId: string, invoiceId: string)

  /** Authentication and the body checks; yields the caller's merchant id. */
  function Prelude(req: Request, env: Env): (r: Step<string>)
    ensures Authenticate(env, req.authorization).Halt? ==> r == Authenticate(env, req.authorization).PropagateFailure()
    ensures Authenticate(env, req.authorization).Go? && req.txid == "" ==> r == Halt(Bad(400, MissingTxid))
    ensures Authenticate(env, req.authorization).Go? && req.txid != "" && req.orderId == "" && req.invoiceId == "" ==>
      r == Halt(Bad(400, MissingOrderOrInvoice))
    ensures r.Halt? ==> r.response.Bad?
    ensures r.Go? ==> Authenticate(env, req.authorization) == Go(r.value) && req.txid != ""
  {
    var sub :- Authenticate(env, req.authorization);
    if req.txid == "" then Halt(Bad(400, MissingTxid))
    else if req.orderId == "" && req.invoiceId == "" then Halt(Bad(400, MissingOrderOrInvoice))
    else Go(sub)
  }

  /** The lookup: the caller's orders, filtered by whichever of `order_id` and
      `invoice_id` were given. */
  function Lookup(sub: string, req: Request): Order -> bool {
    (o: Order) => o.merchantId == sub
      && (req.orderId == "" || o.orderId == req.orderId)
      && (req.invoiceId == "" || o.invoiceId == req.invoiceId)
  }

  /** The first row the lookup selects, or 404. */
  function FindOrder(db: seq<Order>, sub: string, req: Request): (r: Step<nat>)
    ensures r.Go? ==> FirstIndex(db, Lookup(sub, req)) == Some(r.value) && r.value < |db|
    ensures r.Halt? ==> FirstIndex(db, Lookup(sub, req)).None? && r.response == Bad(404, OrderNotFound)
  {
    match FirstIndex(db, Lookup(sub, req))
    case None => Halt(Bad(404, OrderNotFound))
    case Some(i) => Go(i)
  }

  /** Each non-empty event identifier must equal the order's; merchant, then
      order, then invoice, and the first disagreement answers 409 with the
      expected and received values. */
  function CheckIds(ev: Ids, db: Ids): (r: Step<()>)
    ensures r.Go? <==> WildcardMatch(ev, db)
    ensures !FieldMatches(ev.merchant, db.merchant) ==>
      r == Halt(Bad(409, IdMismatch(MerchantIdField, db.merchant, ev.merchant)))
    ensures FieldMatches(ev.merchant, db.merchant) && !FieldMatches(ev.order, db.order) ==>
      r == Halt(Bad(409, IdMismatch(OrderIdField, db.order, ev.order)))
    ensures FieldMatches(ev.merchant, db.merchant) && FieldMatches(ev.order, db.order) && !FieldMatches(ev.invoice, db.invoice) ==>
      r == Halt(Bad(409, IdMismatch(InvoiceIdField, db.invoice, ev.invoice)))
  {
    if ev.merchant != "" && ev.merchant != db.merchant then Halt(Bad(409, IdMismatch(MerchantIdField, db.merchant, ev.merchant)))
    else if ev.order != "" && ev.order != db.order then Halt(Bad(409, IdMismatch(OrderIdField, db.order, ev.order)))
    else if ev.invoice != "" && ev.invoice != db.invoice then Halt(Bad(409, IdMismatch(InvoiceIdField, db.invoice, ev.invoice)))
    else Go(())
  }

  /** The status given when the receipt has no payment event: IN_PROGRESS if
      the receipt succeeded, FAILED otherwise. */
  function FallbackStatus(info: TxInfo): (s: Status)
    ensures s != Success
    ensures s == InProgress <==> ReceiptOk(info)
  {
    if ReceiptOk(info) then InProgress else Failed
  }

  /** The provisional update: status only, the txid column is not named. */
  function Fallback(i: nat, o: Order, info: TxInfo): (w: Write)
    ensures w.index == i && !w.setsTxid
    ensures w.row.status == FallbackStatus(info) && w.row.txid == o.txid
    ensures w.row.(status := o.status) == o
    ensures w.response == Ok(200, Provisional(FallbackStatus(info), info.id))
    ensures w.onConflict == Bad(500, UniqueViolation)
  {
    Write(i, o.(status := FallbackStatus(info)), false,
      Ok(200, Provisional(FallbackStatus(info), info.id)), Bad(500, UniqueViolation))
  }

  /** The receipt's payment event agrees with the order: a PaymentDetected
      whose identifiers match it, with an accepted token and amount. */
  predicate PaymentAgrees(env: Env, o: Order, info: TxInfo) {
    var d := DecodeEvent(env.tron, info.logs, env.config.paymentEvents);
    && d.Normal? && d.value.Some? && d.value.value.eventName == "PaymentDetected"
    && WildcardMatch(EventIds(d.value.value), StoredIds(env.tron, o))
    && TokenAccepted(env.config.usdtAddress, GotToken(d.value.value))
    && AmountAccepted(env, o.amount, d.value.value)
  }

  /** The decision once the transaction is known: the fallback status when
      the receipt has no payment event, otherwise the settling update when
      the event agrees with the order, and an error answer when not. */
  function SettleOrFallback(env: Env, db: seq<Order>, i: nat, info: TxInfo): (r: Step<Write>)
    requires i < |db| && info.id != ""
    ensures r.Go? ==> ValidWrite(db, r.value)
    ensures DecodeEvent(env.tron, info.logs, env.config.paymentEvents) == Normal(None) ==>
      r == Go(Fallback(i, db[i], info))
    ensures DecodeEvent(env.tron, info.logs, env.config.paymentEvents) != Normal(None) ==>
      (r.Go? <==> PaymentAgrees(env, db[i], info)) && (r.Go? ==> r.value == Settle(i, db[i], info))
  {
    var decoded :- DecodePayment(env, info);
    match decoded
    case None =>
      Go(Fallback(i, db[i], info))
    case Some(ev) =>
      var named :- RequireName(ev, "PaymentDetected");
      var _ :- CheckIds(EventIds(named), StoredIds(env.tron, db[i]));
      var _ :- Validate(env, db[i], named);
      SettleValid(db, i, info);
      Go(Settle(i, db[i], info))
  }

  /** The route's decision. The idempotency rule on a bound order is applied
      before the ledger is consulted. */
  function Decide(req: Request, env: Env, db: seq<Order>): (r: Step<Write>)
    ensures r.Go? ==> ValidWrite(db, r.value)
    ensures r.Go? ==> Prelude(req, env).Go?
    ensures r.Go? ==> FindOrder(db, Prelude(req, env).value, req) == Go(r.value.index)
    ensures r.Go? ==> db[r.value.index].txid == ""
    ensures r.Go? ==> FetchTx(env, req.txid).Go?
    ensures r.Go? ==> var info := FetchTx(env, req.txid).value;
      if DecodeEvent(env.tron, info.logs, env.config.paymentEvents) == Normal(None)
      then r.value == Fallback(r.value.index, db[r.value.index], info)
      else r.value == Settle(r.value.index, db[r.value.index], info) && PaymentAgrees(env, db[r.value.index], info)
  {
    var sub :- Prelude(req, env);
    var i :- FindOrder(db, sub, req);
    var _ :- CheckUnbound(db[i], req.txid);
    var info :- FetchTx(env, req.txid);
    SettleOrFallback(env, db, i, info)
  }

  /** The route: its response and the order table afterwards. Only an
      unbound order is written, so no bound txid moves; a SUCCESS order is
      always bound, so none changes. */
  function Handle(req: Request, env: Env, db: seq<Order>): (r: (Response, seq<Order>))
    ensures r.0.Bad? ==> r.1 == db
    ensures AtMostOneChanged(db, r.1)
    ensures TxidsUnique(db) ==> TxidsUnique(r.1)
    ensures SuccessBound(db) ==> SuccessBound(r.1) && NoSuccessRegression(db, r.1)
    ensures BoundTxidsKept(db, r.1)
  {
    var s := Decide(req, env, db);
    CommitKeepsBoundTxids(db, s);
    CommitKeepsSuccess(db, s);
    Commit(db, s)
  }

  /** The idempotency rule comes before the ledger: for a bound order the
      answer is the same whatever the ledger and configuration say. */
  lemma BoundOrderIgnoresLedger(req: Request, env: Env, env2: Env, db: seq<Order>, i: nat)
    requires env2.verifyToken == env.verifyToken
    requires Prelude(req, env).Go?
    requires FirstIndex(db, Lookup(Prelude(req, env).value, req)) == Some(i)
    requires db[i].txid != ""
    ensures Handle(req, env, db) == Handle(req, env2, db)
    ensures Handle(req, env, db).1 == db
    ensures Handle(req, env, db).0 ==
      if db[i].txid == req.txid then Ok(200, AlreadyConfirmed(db[i].status, db[i].txid))
      else Bad(409, TxidConflict(db[i].txid, req.txid))
  {
  }

  /** Without a decoded event the order gets the fallback status and keeps
      its NULL txid. */
  lemma FallbackKeepsTxidNull(req: Request, env: Env, db: seq<Order>, i: nat)
    requires Prelude(req, env).Go?
    requires FirstIndex(db, Lookup(Prelude(req, env).value, req)) == Some(i)
    requires db[i].txid == ""
    requires FetchTx(env, req.txid).Go?
    requires DecodeEvent(env.tron, FetchTx(env, req.txid).value.logs, env.config.paymentEvents) == Normal(None)
    ensures var info := FetchTx(env, req.txid).value;
      Handle(req, env, db) == (Ok(200, Provisional(FallbackStatus(info), info.id)), db[i := db[i].(status := FallbackStatus(info))])
    ensures Handle(req, env, db).1[i].txid == ""
  {
  }

  /** What a settlement implies: the lookup selected an unbound order, the
      event is a PaymentDetected whose identifiers match it, token and amount
      passed, and the order took the final status and the ledger's txid. */
  lemma SettlementSound(req: Request, env: Env, db: seq<Order>)
    requires Handle(req, env, db).0.Ok? && Handle(req, env, db).0.outcome.Settled?
    ensures Prelude(req, env).Go? && FetchTx(env, req.txid).Go?
    ensures var info := FetchTx(env, req.txid).value;
      var d := DecodeEvent(env.tron, info.logs, env.config.paymentEvents);
      var i := FirstIndex(db, Lookup(Prelude(req, env).value, req));
      && i.Some?
      && db[i.value].txid == ""
      && d.Normal? && d.value.Some? && d.value.value.eventName == "PaymentDetected"
      && WildcardMatch(EventIds(d.value.value), StoredIds(env.tron, db[i.value]))
      && TokenAccepted(env.config.usdtAddress, GotToken(d.value.value))
      && AmountAccepted(env, db[i.value].amount, d.value.value)
      && Handle(req, env, db) == (Ok(200, Settled(FinalStatus(info), info.id)), db[i.value := SettledRow(db[i.value], info)])
  {
  }

  /** And conversely: when the lookup selects an unbound order, the
      transaction is found, its payment event agrees with the order and no
      other row holds the ledger's txid, that order is settled. */
  lemma SettlementComplete(req: Request, env: Env, db: seq<Order>, i: nat)
    requires Prelude(req, env).Go? && FetchTx(env, req.txid).Go?
    requires FirstIndex(db, Lookup(Prelude(req, env).value, req)) == Some(i) && db[i].txid == ""
    requires var info := FetchTx(env, req.txid).value;
      PaymentAgrees(env, db[i], info) && !TxidTakenElsewhere(db, i, info.id)
    ensures var info := FetchTx(env, req.txid).value;
      Handle(req, env, db) == (Ok(200, Settled(FinalStatus(info), info.id)), db[i := SettledRow(db[i], info)])
  {
  }

  /** Sending the same confirmation again changes nothing: the lookup picks
      the same order, which is now bound, or still unbound with the fallback
      status already written. */
  lemma Idempotent(req: Request, env: Env, db: seq<Order>)
    ensures var db1 := Handle(req, env, db).1;
      Handle(req, env, db1).1 == db1
  {
    var db1 := Handle(req, env, db).1;
    if db1 != db {
      ChangeIsDecided(req, env, db);
      RepeatAfterWrite(req, env, db, Decide(req, env, db).value);
    }
  }

  /** After the decided update is applied, the same request decides nothing new. */
  lemma RepeatAfterWrite(req: Request, env: Env, db: seq<Order>, w: Write)
    requires Decide(req, env, db) == Go(w)
    ensures var db1 := db[w.index := w.row];
      Handle(req, env, db1).1 == db1
  {
    var db1 := db[w.index := w.row];
    var sub := Prelude(req, env).value;
    var i := w.index;
    var info := FetchTx(env, req.txid).value;
    assert forall k :: 0 <= k < |db| ==> Lookup(sub, req)(db[k]) == Lookup(sub, req)(db1[k]);
    FirstIndexStable(db, db1, Lookup(sub, req));
    if DecodeEvent(env.tron, info.logs, env.config.paymentEvents) == Normal(None) {
      FallbackRepeated(req, env, db1, i, info);
    } else {
      BoundRowUnchanged(req, env, db1, i);
    }
  }

  /** A change to the table is the decided update, applied. */
  lemma ChangeIsDecided(req: Request, env: Env, db: seq<Order>)
    requires Handle(req, env, db).1 != db
    ensures Decide(req, env, db).Go?
    ensures var w := Decide(req, env, db).value;
      Handle(req, env, db).1 == db[w.index := w.row]
  {
  }

  /** When the lookup selects a bound row, the table is left as it is. */
  lemma BoundRowUnchanged(req: Request, env: Env, db: seq<Order>, i: nat)
    requires Prelude(req, env).Go? && FindOrder(db, Prelude(req, env).value, req) == Go(i)
    requires db[i].txid != ""
    ensures Handle(req, env, db).1 == db
  {
    assert Decide(req, env, db).Halt?;
  }

  /** A row already carrying the fallback status gets the same status again,
      which leaves the table as it is. */
  lemma FallbackRepeated(req: Request, env: Env, db: seq<Order>, i: nat, info: TxInfo)
    requires Prelude(req, env).Go? && FindOrder(db, Prelude(req, env).value, req) == Go(i)
    requires FetchTx(env, req.txid) == Go(info)
    requires DecodeEvent(env.tron, info.logs, env.config.paymentEvents) == Normal(None)
    requires db[i].txid == "" && db[i].status == FallbackStatus(info)
    ensures Handle(req, env, db).1 == db
  {
    var s := SettleOrFallback(env, db, i, info);
    assert s == Go(Fallback(i, db[i], info));
    assert Fallback(i, db[i], info).row == db[i];
    assert Decide(req, env, db) == s;
    CommitSameRow(db, s.value);
  }
}
