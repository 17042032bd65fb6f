/** POST /api/orders/confirm (src/app/api/orders/confirm/route.js): a
    confirmation driven by the payment detector. The order is looked up by
    the event's raw merchant and invoice ids and set to SUCCESS with the
    request's txid, overwriting any txid it held, unless it is already
    SUCCESS with that txid. */
module OrdersConfirmRoute {
  import opened Base
  import opened Search
  import opened Store
  import opened Http
  import opened Writes
  import opened Oracles

  /** The body's `txid` (`""` when absent). */
  datatype Request = Request(txid: string)

  /** The lookup: exact, unnormalised merchant and invoice ids. */
  function Lookup(merchantId: string, invoiceId: string): Order -> bool {
    (o: Order) => o.merchantId == merchantId && o.invoiceId == invoiceId
  }

  /** The confirming update; a clash on the txid reaches the generic handler. */
  function Confirm(i: nat, o: Order, txid: string): (w: Write)
    ensures w.index == i && w.setsTxid && w.row.status == Success && w.row.txid == txid
    ensures w.row.(status := o.status, txid := o.txid) == o
    ensures w.response == Ok(200, Settled(Success, txid))
    ensures w.onConflict == Bad(500, UniqueViolation)
  {
    Write(i, o.(status := Success, txid := txid), true, Ok(200, Settled(Success, txid)), Bad(500, UniqueViolation))
  }

  /** The route's decision. */
  function Decide(req: Request, env: Env, db: seq<Order>): (r: Step<Write>)
    ensures r.Go? ==> ValidWrite(db, r.value)
    ensures r.Go? ==> req.txid != "" && env.detect(req.txid).Normal? && env.detect(req.txid).value.Detected?
    ensures r.Go? ==> var d := env.detect(req.txid).value;
      && FirstIndex(db, Lookup(d.merchantId, d.invoiceId)) == Some(r.value.index)
      && db[r.value.index].orderId == d.orderId
      && !(db[r.value.index].status == Success && db[r.value.index].txid == req.txid)
      && r.value == Confirm(r.value.index, db[r.value.index], req.txid)
  {
    if req.txid == "" then Halt(Bad(400, MissingTxid))
    else
      match env.detect(req.txid)
      case Throw(m) => Halt(Bad(500, ServerError(ErrorMessage(m))))
      case Normal(DetectedFailure(reason)) => Halt(Ok(200, ChainFailure(reason, req.txid)))
      case Normal(Detected(merchantId, orderId, invoiceId)) =>
        match FirstIndex(db, Lookup(merchantId, invoiceId))
        case None => Halt(Bad(404, NoOrderForEvent(merchantId, invoiceId)))
        case Some(i) =>
          if db[i].status == Success && db[i].txid == req.txid then Halt(Ok(200, AlreadyConfirmed(Success, req.txid)))
          else if db[i].orderId != orderId then Halt(Bad(409, OrderIdMismatch(db[i].orderId, orderId)))
          else Go(Confirm(i, db[i], req.txid))
  }

  /** The route: its response and the order table afterwards. The only
      status it writes is SUCCESS, so no SUCCESS order regresses. */
  function Handle(req: Request, env: Env, db: seq<Order>): (r: (Response, seq<Order>))
    ensures r.0.Bad? ==> r.1 == db
    ensures AtMostOneChanged(db, r.1)
    ensures TxidsUnique(db) ==> TxidsUnique(r.1)
    ensures SuccessBound(db) ==> SuccessBound(r.1)
    ensures NoSuccessRegression(db, r.1)
  {
    var s := Decide(req, env, db);
    CommitKeepsSuccess(db, s);
    Commit(db, s)
  }

  /** A failed transaction is reported with its reason; nothing is written. */
  lemma DetectedFailureNoWrite(req: Request, env: Env, db: seq<Order>, reason: string)
    requires req.txid != "" && env.detect(req.txid) == Normal(DetectedFailure(reason))
    ensures Handle(req, env, db) == (Ok(200, ChainFailure(reason, req.txid)), db)
  {
  }

  /** The order's stored `order_id` must equal the event's, as raw strings. */
  lemma OrderIdMismatchNoWrite(req: Request, env: Env, db: seq<Order>, i: nat)
    requires req.txid != "" && env.detect(req.txid).Normal? && env.detect(req.txid).value.Detected?
    requires var d := env.detect(req.txid).value;
      FirstIndex(db, Lookup(d.merchantId, d.invoiceId)) == Some(i) && db[i].orderId != d.orderId
    requires !(db[i].status == Success && db[i].txid == req.txid)
    ensures Handle(req, env, db) == (Bad(409, OrderIdMismatch(db[i].orderId, env.detect(req.txid).value.orderId)), db)
  {
  }

  /** The overwrite rule: unless the order is SUCCESS with the request's txid,
      it becomes SUCCESS with that txid, replacing whatever txid and status it
      had, provided no other row holds the txid. Unlike the other payment
      routes, a bound txid can be replaced here. */
  lemma OverwritesBoundTxid(req: Request, env: Env, db: seq<Order>, i: nat)
    requires req.txid != "" && env.detect(req.txid).Normal? && env.detect(req.txid).value.Detected?
    requires var d := env.detect(req.txid).value;
      FirstIndex(db, Lookup(d.merchantId, d.invoiceId)) == Some(i) && db[i].orderId == d.orderId
    requires !(db[i].status == Success && db[i].txid == req.txid)
    requires !TxidTakenElsewhere(db, i, req.txid)
    ensures Handle(req, env, db) == (Ok(200, Settled(Success, req.txid)), db[i := db[i].(status := Success, txid := req.txid)])
  {
  }

  /** Sending the same confirmation again changes nothing: the same order is
      found, now SUCCESS with the request's txid. */
  lemma Idempotent(req: Request, env: Env, db: seq<Order>)
    ensures var db1 := Handle(req, env, db).1;
      Handle(req, env, db1).1 == db1
  {
    var db1 := Handle(req, env, db).1;
    if db1 != db {
      var w := Decide(req, env, db).value;
      var d := env.detect(req.txid).value;
      var p := Lookup(d.merchantId, d.invoiceId);
      assert db1 == db[w.index := w.row];
      assert forall k :: 0 <= k < |db| ==> p(db[k]) == p(db1[k]);
      FirstIndexStable(db, db1, p);
    }
  }
}
