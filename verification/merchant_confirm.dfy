/** POST /api/merchants/confirm (src/app/api/merchants/confirm/route.js):
    the authenticated merchant reports its on-chain onboarding transaction;
    its `active` flag becomes the event's flag, and false when the receipt
    failed. */
module MerchantConfirmRoute {
  import opened Base
  import opened JsValues
  import opened Search
  import opened TronEvents
  import opened Store
  import opened Http
  import opened Oracles
  import opened Auth
  import opened Reconcile

  /** The `authorization` header and the body's `txid`. */
  datatype Request = Request(authorization: string, txid: string)

  /** The merchant row to update and the flag to store. */
  datatype ActiveWrite = ActiveWrite(index: nat, active: bool, txid: string)

  /** `findUnique({ where: { merchant_id } })` */
  function ByMerchantId(sub: string): Merchant -> bool {
    (m: Merchant) => m.merchantId == sub
  }

  /** The flag written: the event's `active`, and false on a failed receipt. */
  function NewActive(info: TxInfo, ev: DecodedEvent): (a: bool)
    ensures a ==> ReceiptOk(info)
    ensures ReceiptOk(info) ==> a == Truthy(Arg(ev, "active"))
  {
    if ReceiptOk(info) then Truthy(Arg(ev, "active")) else false
  }

  /** The route's decision. */
  function Decide(req: Request, env: Env, ms: seq<Merchant>): (r: Step<ActiveWrite>)
    ensures r.Go? ==> Authenticate(env, req.authorization).Go? && req.txid != ""
    ensures r.Go? ==> FirstIndex(ms, ByMerchantId(Authenticate(env, req.authorization).value)) == Some(r.value.index)
    ensures r.Go? ==> r.value.index < |ms| && FetchTx(env, req.txid).Go?
    ensures r.Go? ==> ms[r.value.index].merchantId == Authenticate(env, req.authorization).value
    ensures r.Go? ==> var info := FetchTx(env, req.txid).value;
      var d := DecodeEvent(env.tron, info.logs, env.config.registryEvents);
      && d.Normal? && d.value.Some?
      && d.value.value.eventName == "MerchantOnboarded"
      && FieldMatches(NormHexValue(Arg(d.value.value, "merchantId")), StoredB32(env.tron, ms[r.value.index].merchantId))
      && r.value == ActiveWrite(r.value.index, NewActive(info, d.value.value), info.id)
    ensures r.Halt? && r.response.Ok? ==> r.response.outcome.NoRegistryEvent?
  {
    var sub :- Authenticate(env, req.authorization);
    if req.txid == "" then Halt(Bad(400, MissingTxid))
    else
      match FirstIndex(ms, ByMerchantId(sub))
      case None => Halt(Bad(404, MerchantNotFound))
      case Some(i) =>
        var info :- FetchTx(env, req.txid);
        match DecodeEvent(env.tron, info.logs, env.config.registryEvents)
        case Throw(m) => Halt(Bad(500, ServerError(ErrorMessage(m))))
        case Normal(None) => Halt(Ok(200, NoRegistryEvent(ReceiptText(info), info.id)))
        case Normal(Some(ev)) =>
          if ev.eventName != "MerchantOnboarded" then Halt(Bad(409, UnexpectedEvent(ev.eventName)))
          else
            var evMerchantId := NormHexValue(Arg(ev, "merchantId"));
            var dbMerchantId := StoredB32(env.tron, ms[i].merchantId);
            if evMerchantId != "" && evMerchantId != dbMerchantId then
              Halt(Bad(409, IdMismatch(MerchantIdField, dbMerchantId, evMerchantId)))
            else Go(ActiveWrite(i, NewActive(info, ev), info.id))
  }

  /** Carry out the decision: a halted route answers without touching the
      table; otherwise only the `active` flag of the chosen row is set. */
  function Apply(ms: seq<Merchant>, step: Step<ActiveWrite>): (r: (Response, seq<Merchant>))
    requires step.Go? ==> step.value.index < |ms|
    ensures |r.1| == |ms|
    ensures step.Halt? ==> r == (step.response, ms)
    ensures step.Go? ==> r.0 == Ok(200, ActiveSet(step.value.active, step.value.txid))
    ensures forall k :: 0 <= k < |ms| ==> r.1[k] == ms[k].(active := r.1[k].active)
    ensures forall k :: 0 <= k < |ms| && r.1[k] != ms[k] ==> step.Go? && k == step.value.index && r.1[k].active == step.value.active
  {
    match step
    case Halt(response) => (response, ms)
    case Go(w) => (Ok(200, ActiveSet(w.active, w.txid)), ms[w.index := ms[w.index].(active := w.active)])
  }

  /** The route: its response and the merchant table afterwards. Only the
      `active` field of the authenticated merchant's row can change. */
  function Handle(req: Request, env: Env, ms: seq<Merchant>): (r: (Response, seq<Merchant>))
    ensures r.0.Bad? ==> r.1 == ms
    ensures r.0.Ok? && !r.0.outcome.ActiveSet? ==> r.1 == ms
    ensures AtMostOneChanged(ms, r.1)
    ensures forall k :: 0 <= k < |ms| ==> r.1[k] == ms[k].(active := r.1[k].active)
    ensures forall k :: 0 <= k < |ms| && r.1[k] != ms[k] ==>
      Authenticate(env, req.authorization).Go? && ms[k].merchantId == Authenticate(env, req.authorization).value
  {
    Apply(ms, Decide(req, env, ms))
  }

  /** And conversely: once the caller's row is found, the transaction is
      known and its MerchantOnboarded event names no other merchant, the
      flag is written and the answer reports it. */
  lemma ActivationComplete(req: Request, env: Env, ms: seq<Merchant>, sub: string, i: nat, info: TxInfo, ev: DecodedEvent)
    requires Authenticate(env, req.authorization) == Go(sub) && req.txid != ""
    requires FirstIndex(ms, ByMerchantId(sub)) == Some(i)
    requires FetchTx(env, req.txid) == Go(info)
    requires DecodeEvent(env.tron, info.logs, env.config.registryEvents) == Normal(Some(ev))
    requires ev.eventName == "MerchantOnboarded"
    requires FieldMatches(NormHexValue(Arg(ev, "merchantId")), StoredB32(env.tron, ms[i].merchantId))
    ensures Handle(req, env, ms) ==
      (Ok(200, ActiveSet(NewActive(info, ev), info.id)), ms[i := ms[i].(active := NewActive(info, ev))])
  {
  }

  /** A receipt with no registry event is reported without a write. */
  lemma NoEventReported(req: Request, env: Env, ms: seq<Merchant>, sub: string, info: TxInfo)
    requires Authenticate(env, req.authorization) == Go(sub) && req.txid != ""
    requires FirstIndex(ms, ByMerchantId(sub)).Some?
    requires FetchTx(env, req.txid) == Go(info)
    requires DecodeEvent(env.tron, info.logs, env.config.registryEvents) == Normal(None)
    ensures Handle(req, env, ms) == (Ok(200, NoRegistryEvent(ReceiptText(info), info.id)), ms)
  {
  }

  /** The refusals, in the order the route makes its checks: a missing
      token or a rejected one, then 400 for a missing txid, 404 for an
      unknown merchant or transaction, 409 for another event and 409 for
      another merchant's id. None of them writes. */
  lemma Refusals(req: Request, env: Env, ms: seq<Merchant>)
    ensures Authenticate(env, req.authorization).Halt? ==>
      Handle(req, env, ms) == (Authenticate(env, req.authorization).response, ms)
    ensures Authenticate(env, req.authorization).Go? && req.txid == "" ==>
      Handle(req, env, ms) == (Bad(400, MissingTxid), ms)
    ensures var a := Authenticate(env, req.authorization);
      (a.Go? && req.txid != "" && FirstIndex(ms, ByMerchantId(a.value)).None?) ==>
      Handle(req, env, ms) == (Bad(404, MerchantNotFound), ms)
    ensures var a := Authenticate(env, req.authorization);
      (a.Go? && req.txid != "" && FirstIndex(ms, ByMerchantId(a.value)).Some? && FetchTx(env, req.txid).Halt?) ==>
      Handle(req, env, ms) == (Bad(404, TxNotFound), ms)
  {
  }

  /** The two 409 answers once the transaction is known: an event other
      than MerchantOnboarded, and a merchant id that is present and differs
      from the row's bytes32 form. */
  lemma EventRefusals(req: Request, env: Env, ms: seq<Merchant>, sub: string, i: nat, info: TxInfo, ev: DecodedEvent)
    requires Authenticate(env, req.authorization) == Go(sub) && req.txid != ""
    requires FirstIndex(ms, ByMerchantId(sub)) == Some(i)
    requires FetchTx(env, req.txid) == Go(info)
    requires DecodeEvent(env.tron, info.logs, env.config.registryEvents) == Normal(Some(ev))
    ensures ev.eventName != "MerchantOnboarded" ==>
      Handle(req, env, ms) == (Bad(409, UnexpectedEvent(ev.eventName)), ms)
    ensures var got := NormHexValue(Arg(ev, "merchantId"));
      var expected := StoredB32(env.tron, ms[i].merchantId);
      ev.eventName == "MerchantOnboarded" && !FieldMatches(got, expected) ==>
      Handle(req, env, ms) == (Bad(409, IdMismatch(MerchantIdField, expected, got)), ms)
  {
  }

  /** A failed receipt never activates: whatever the event says, the flag
      written is false. */
  lemma FailedReceiptDeactivates(req: Request, env: Env, ms: seq<Merchant>)
    requires Handle(req, env, ms).0.Ok? && Handle(req, env, ms).0.outcome.ActiveSet?
    requires !ReceiptOk(FetchTx(env, req.txid).value)
    ensures !Handle(req, env, ms).0.outcome.active
  {
  }

  /** With a successful receipt the stored flag is the event's `active`
      argument read as a boolean. */
  lemma ActiveFollowsEvent(req: Request, env: Env, ms: seq<Merchant>)
    requires Handle(req, env, ms).0.Ok? && Handle(req, env, ms).0.outcome.ActiveSet?
    ensures FetchTx(env, req.txid).Go?
    ensures var info := FetchTx(env, req.txid).value;
      var ev := DecodeEvent(env.tron, info.logs, env.config.registryEvents).value.value;
      && (ReceiptOk(info) ==> Handle(req, env, ms).0.outcome.active == Truthy(Arg(ev, "active")))
      && ev.eventName == "MerchantOnboarded"
  {
  }

  /** Reporting the same transaction again changes nothing. */
  lemma Idempotent(req: Request, env: Env, ms: seq<Merchant>)
    ensures var ms1 := Handle(req, env, ms).1;
      Handle(req, env, ms1).1 == ms1
  {
    var ms1 := Handle(req, env, ms).1;
    if ms1 != ms {
      var w := Decide(req, env, ms).value;
      var sub := Authenticate(env, req.authorization).value;
      assert forall k :: 0 <= k < |ms| ==> ByMerchantId(sub)(ms[k]) == ByMerchantId(sub)(ms1[k]);
      FirstIndexStable(ms, ms1, ByMerchantId(sub));
      assert ms1[w.index].merchantId == ms[w.index].merchantId;
    }
  }
}
