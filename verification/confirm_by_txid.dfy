/** POST /api/orders/confirm-by-txid (src/app/api/orders/confirm-by-txid/route.js):
    a merchant reports a transaction; the first of the merchant's orders,
    whatever its status, whose identifiers match the payment event is settled. */
module ConfirmByTxidRoute {
  import opened Base
  import opened Search
  import opened TronEvents
  import opened Store
  import opened Http
  import opened Writes
  import opened Oracles
  import opened Auth
  import opened Reconcile

  /** The `authorization` header (`""` when absent) and the body's `txid`. */
  datatype Request = Request(authorization: string, txid: string)

  /** The caller's merchant id and what the ledger reported. */
  datatype Payment = Payment(sub: string, info: TxInfo, event: DecodedEvent)

  /** The steps before the order table is read: authentication, txid,
      transaction, payment event, and an event that names an order or an
      invoice. */
  function Prelude(req: Request, env: Env): (r: Step<Payment>)
    ensures Authenticate(env, req.authorization).Halt? ==> r == Authenticate(env, req.authorization).PropagateFailure()
    ensures Authenticate(env, req.authorization).Go? && req.txid == "" ==> r == Halt(Bad(400, MissingTxid))
    ensures r.Halt? ==> r.response.Bad?
    ensures r.Go? ==> Authenticate(env, req.authorization) == Go(r.value.sub)
    ensures r.Go? ==> req.txid != "" && FetchTx(env, req.txid) == Go(r.value.info)
    ensures r.Go? ==> DecodeEvent(env.tron, r.value.info.logs, env.config.paymentEvents) == Normal(Some(r.value.event))
    ensures r.Go? ==> r.value.event.eventName == "PaymentDetected"
    ensures r.Go? ==> EventIds(r.value.event).order != "" || EventIds(r.value.event).invoice != ""
  {
    var sub :- Authenticate(env, req.authorization);
    if req.txid == "" then Halt(Bad(400, MissingTxid))
    else
      var info :- FetchTx(env, req.txid);
      var decoded :- DecodePayment(env, info);
      var ev :- RequireEvent(info, decoded);
      var named :- RequireName(ev, "PaymentDetected");
      var ids := EventIds(named);
      if ids.order == "" && ids.invoice == "" then Halt(Bad(409, EventMissingIds))
      else Go(Payment(sub, info, named))
  }

  /** The caller's orders whose identifiers match the event. */
  function Candidate(env: Env, p: Payment): Order -> bool {
    MerchantCandidate(env.tron, EventIds(p.event), p.sub)
  }

  /** The route's decision: the update to make, or the answer to give. */
  function Decide(req: Request, env: Env, db: seq<Order>): (r: Step<Write>)
    ensures r.Go? ==> ValidWrite(db, r.value)
    ensures r.Go? ==> Prelude(req, env).Go?
    ensures r.Go? ==> r.value == Settle(r.value.index, db[r.value.index], Prelude(req, env).value.info)
    ensures r.Go? ==> db[r.value.index].txid == ""
  {
    var p :- Prelude(req, env);
    var ids := EventIds(p.event);
    var i :- FindMatch(db, Candidate(env, p), ids);
    var _ :- CheckUnbound(db[i], req.txid);
    var _ :- Validate(env, db[i], p.event);
    SettleValid(db, i, p.info);
    Go(Settle(i, db[i], p.info))
  }

  /** The route: its response and the order table afterwards. Only an
      unbound order is written, so no bound txid moves; a SUCCESS order is
      always bound, so none changes. */
  function Handle(req: Request, env: Env, db: seq<Order>): (r: (Response, seq<Order>))
    ensures r.0.Bad? ==> r.1 == db
    ensures AtMostOneChanged(db, r.1)
    ensures TxidsUnique(db) ==> TxidsUnique(r.1)
    ensures SuccessBound(db) ==> SuccessBound(r.1) && NoSuccessRegression(db, r.1)
    ensures BoundTxidsKept(db, r.1)
  {
    var s := Decide(req, env, db);
    CommitKeepsBoundTxids(db, s);
    CommitKeepsSuccess(db, s);
    Commit(db, s)
  }

  /** What a change to the table implies: the event passed every check and
      the first matching order of the caller, which was unbound, took the
      final status and the ledger's txid. */
  lemma SettlementSound(req: Request, env: Env, db: seq<Order>)
    requires Handle(req, env, db).1 != db
    ensures Prelude(req, env).Go?
    ensures var p := Prelude(req, env).value;
      var i := FirstIndex(db, Candidate(env, p));
      && i.Some?
      && db[i.value].merchantId == p.sub
      && db[i.value].txid == ""
      && TokenAccepted(env.config.usdtAddress, GotToken(p.event))
      && AmountAccepted(env, db[i.value].amount, p.event)
      && Handle(req, env, db) == (Ok(200, Settled(FinalStatus(p.info), p.info.id)), db[i.value := SettledRow(db[i.value], p.info)])
  {
    var p := Prelude(req, env).value;
    var s := Decide(req, env, db);
    var i := FindMatch(db, Candidate(env, p), EventIds(p.event));
    assert i == Go(s.value.index);
    assert CheckUnbound(db[s.value.index], req.txid).Go?;
    assert Validate(env, db[s.value.index], p.event).Go?;
    FirstIndexIs(db, Candidate(env, p), s.value.index);
  }

  /** And conversely: when every check passes for the caller's first
      matching order, which is unbound, and no other row holds the ledger's
      txid, that order is settled. */
  lemma SettlementComplete(req: Request, env: Env, db: seq<Order>, i: nat)
    requires Prelude(req, env).Go?
    requires var p := Prelude(req, env).value;
      && FirstIndex(db, Candidate(env, p)) == Some(i)
      && db[i].txid == ""
      && TokenAccepted(env.config.usdtAddress, GotToken(p.event))
      && AmountAccepted(env, db[i].amount, p.event)
      && !TxidTakenElsewhere(db, i, p.info.id)
    ensures var p := Prelude(req, env).value;
      Handle(req, env, db) == (Ok(200, Settled(FinalStatus(p.info), p.info.id)), db[i := SettledRow(db[i], p.info)])
  {
  }

  /** A bound order answers without a write: `updated: false` for the same
      txid, 409 for another. */
  lemma BoundOrderAnswers(req: Request, env: Env, db: seq<Order>, i: nat)
    requires Prelude(req, env).Go?
    requires FirstIndex(db, Candidate(env, Prelude(req, env).value)) == Some(i)
    requires db[i].txid != ""
    ensures Handle(req, env, db).1 == db
    ensures Handle(req, env, db).0 ==
      if db[i].txid == req.txid then Ok(200, AlreadyConfirmed(db[i].status, db[i].txid))
      else Bad(409, TxidConflict(db[i].txid, req.txid))
  {
  }

  /** Settling leaves the candidates where they were: the same event picks
      the same order again. */
  lemma CandidatesStable(env: Env, p: Payment, db: seq<Order>, i: nat, row: Order)
    requires i < |db| && SameIdentity(db[i], row)
    ensures FirstIndex(db[i := row], Candidate(env, p)) == FirstIndex(db, Candidate(env, p))
  {
    var db1 := db[i := row];
    assert forall k :: 0 <= k < |db| ==> Candidate(env, p)(db[k]) == Candidate(env, p)(db1[k]);
    FirstIndexStable(db, db1, Candidate(env, p));
  }

  /** Replaying a settled confirmation whose ledger id is the txid sent
      answers `updated: false` with the order's new status. */
  lemma ReplayAlreadyConfirmed(req: Request, env: Env, db: seq<Order>)
    requires Handle(req, env, db).1 != db
    requires Prelude(req, env).value.info.id == req.txid
    ensures var info := Prelude(req, env).value.info;
      Handle(req, env, Handle(req, env, db).1) == (Ok(200, AlreadyConfirmed(FinalStatus(info), info.id)), Handle(req, env, db).1)
  {
    SettlementSound(req, env, db);
    var p := Prelude(req, env).value;
    var i := FirstIndex(db, Candidate(env, p)).value;
    CandidatesStable(env, p, db, i, SettledRow(db[i], p.info));
    BoundOrderAnswers(req, env, Handle(req, env, db).1, i);
  }

  /** Sending the same confirmation again changes nothing. */
  lemma Idempotent(req: Request, env: Env, db: seq<Order>)
    ensures var db1 := Handle(req, env, db).1;
      Handle(req, env, db1).1 == db1
  {
    var db1 := Handle(req, env, db).1;
    if db1 != db {
      SettlementSound(req, env, db);
      var p := Prelude(req, env).value;
      var i := FirstIndex(db, Candidate(env, p)).value;
      CandidatesStable(env, p, db, i, SettledRow(db[i], p.info));
      BoundOrderAnswers(req, env, db1, i);
    }
  }
}
