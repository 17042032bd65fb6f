/** POST /api/orders/update-status (src/app/api/orders/update-status/route.js):
    a manual setter of an order's final status and txid, refusing to touch
    an order that is already SUCCESS. */
module UpdateStatusRoute {
  import opened Base
  import opened Search
  import opened Store
  import opened Http
  import opened Writes

  /** The body's `txid`, `status`, `order_id` and `invoice_id` (`""` when absent). */
  datatype Request = Request(txid: string, status: string, orderId: string, invoiceId: string)

  /** The lookup: exact `order_id` and `invoice_id`. */
  function Lookup(req: Request): Order -> bool {
    (o: Order) => o.orderId == req.orderId && o.invoiceId == req.invoiceId
  }

  /** The body checks, in order; yields the requested status. */
  function Validate(req: Request): (r: Step<Status>)
    ensures r.Go? <==> req.txid != "" && ParseFinalStatus(req.status).Some? && req.orderId != "" && req.invoiceId != ""
    ensures r.Go? ==> Some(r.value) == ParseFinalStatus(req.status)
    ensures req.txid == "" ==> r == Halt(Bad(400, MissingTxid))
    ensures req.txid != "" && ParseFinalStatus(req.status).None? ==> r == Halt(Bad(400, InvalidStatus))
    ensures r.Halt? ==> r.response.Bad? && r.response.code == 400
  {
    if req.txid == "" then Halt(Bad(400, MissingTxid))
    else
      match ParseFinalStatus(req.status)
      case None => Halt(Bad(400, InvalidStatus))
      case Some(status) =>
        if req.orderId == "" then Halt(Bad(400, MissingOrderId))
        else if req.invoiceId == "" then Halt(Bad(400, MissingInvoiceId))
        else Go(status)
  }

  /** The route's decision: a unique-constraint clash on the txid answers 409. */
  function Decide(req: Request, db: seq<Order>): (r: Step<Write>)
    ensures r.Go? ==> ValidWrite(db, r.value)
    ensures r.Go? ==> Validate(req).Go? && FirstIndex(db, Lookup(req)) == Some(r.value.index)
    ensures r.Go? ==> db[r.value.index].status != Success
    ensures r.Go? ==> r.value.setsTxid && r.value.row == db[r.value.index].(status := Validate(req).value, txid := req.txid)
    ensures r.Go? ==> r.value.onConflict == Bad(409, TxidAlreadyUsed)
  {
    var status :- Validate(req);
    match FirstIndex(db, Lookup(req))
    case None => Halt(Bad(404, OrderNotFound))
    case Some(i) =>
      if db[i].status == Success then Halt(Ok(200, SuccessKept))
      else
        Go(Write(i, db[i].(status := status, txid := req.txid), true,
          Ok(200, Settled(status, req.txid)), Bad(409, TxidAlreadyUsed)))
  }

  /** The route: its response and the order table afterwards. A SUCCESS
      order is never overwritten. */
  function Handle(req: Request, db: seq<Order>): (r: (Response, seq<Order>))
    ensures r.0.Bad? ==> r.1 == db
    ensures AtMostOneChanged(db, r.1)
    ensures TxidsUnique(db) ==> TxidsUnique(r.1)
    ensures SuccessBound(db) ==> SuccessBound(r.1)
    ensures NoSuccessRegression(db, r.1)
  {
    var s := Decide(req, db);
    CommitKeepsSuccess(db, s);
    Commit(db, s)
  }

  /** An order already SUCCESS answers `updated: false` and is left alone. */
  lemma SuccessGuard(req: Request, db: seq<Order>, i: nat)
    requires Validate(req).Go?
    requires FirstIndex(db, Lookup(req)) == Some(i) && db[i].status == Success
    ensures Handle(req, db) == (Ok(200, SuccessKept), db)
  {
  }

  /** Otherwise status and txid are both replaced by the request's, even for
      a FAILED order or one bound to another txid; if another row holds that
      txid the store refuses and the answer is 409. */
  lemma Overwrite(req: Request, db: seq<Order>, i: nat)
    requires Validate(req).Go?
    requires FirstIndex(db, Lookup(req)) == Some(i) && db[i].status != Success
    ensures var st := Validate(req).value;
      Handle(req, db) ==
        if TxidTakenElsewhere(db, i, req.txid) then (Bad(409, TxidAlreadyUsed), db)
        else (Ok(200, Settled(st, req.txid)), db[i := db[i].(status := st, txid := req.txid)])
  {
  }

  /** A bound txid is not immutable here: an order that is not SUCCESS but
      already bound to another txid is rebound to the request's, and the
      txid it held is then held by no row at all. */
  lemma RebindsBoundOrder(req: Request, db: seq<Order>, i: nat)
    requires Validate(req).Go?
    requires FirstIndex(db, Lookup(req)) == Some(i) && db[i].status != Success
    requires db[i].txid != "" && db[i].txid != req.txid
    requires TxidsUnique(db) && !TxidTakenElsewhere(db, i, req.txid)
    ensures Handle(req, db).0.Ok? && Handle(req, db).1[i].txid == req.txid
    ensures forall k :: 0 <= k < |Handle(req, db).1| ==> Handle(req, db).1[k].txid != db[i].txid
  {
    Overwrite(req, db, i);
    var db1 := Handle(req, db).1;
    forall k | 0 <= k < |db1| ensures db1[k].txid != db[i].txid {
      if k != i {
        assert db1[k] == db[k];
        if k < i {
          assert db[k].txid != db[i].txid || db[k].txid == "";
        }
      }
    }
  }

  /** Sending the same update again changes nothing. */
  lemma Idempotent(req: Request, db: seq<Order>)
    ensures var db1 := Handle(req, db).1;
      Handle(req, db1).1 == db1
  {
    var db1 := Handle(req, db).1;
    if db1 != db {
      var w := Decide(req, db).value;
      assert db1 == db[w.index := w.row];
      assert forall k :: 0 <= k < |db| ==> Lookup(req)(db[k]) == Lookup(req)(db1[k]);
      FirstIndexStable(db, db1, Lookup(req));
      assert !TxidTakenElsewhere(db1, w.index, req.txid);
    }
  }
}
