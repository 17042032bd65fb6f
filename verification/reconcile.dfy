/** The steps the payment routes share: fetching the transaction, decoding
    its payment event, wildcard identifier matching, the idempotency rule on
    a bound txid, the token and strict amount checks, and the settling write. */
module Reconcile {
  import opened Base
  import opened JsText
  import opened JsValues
  import opened Search
  import opened TronEvents
  import opened Store
  import opened Http
  import opened Writes
  import opened Oracles

  /** Transaction info with a non-empty id, or 404 ("not found yet"). */
  function FetchTx(env: Env, txid: string): (r: Step<TxInfo>)
    ensures r.Go? <==> env.transactionInfo(txid).Some? && env.transactionInfo(txid).value.id != ""
    ensures r.Go? ==> r.value == env.transactionInfo(txid).value && r.value.id != ""
    ensures r.Halt? ==> r.response == Bad(404, TxNotFound)
  {
    match env.transactionInfo(txid)
    case None => Halt(Bad(404, TxNotFound))
    case Some(info) => if info.id == "" then Halt(Bad(404, TxNotFound)) else Go(info)
  }

  /** `decodePaymentEvent(tronWeb, txInfo)`; an exception from the ABI decoder
      reaches the route's generic handler (500). */
  function DecodePayment(env: Env, info: TxInfo): (r: Step<Option<DecodedEvent>>)
    ensures r.Halt? ==> r.response.Bad? && r.response.code == 500
    ensures r.Go? <==> DecodeEvent(env.tron, info.logs, env.config.paymentEvents).Normal?
    ensures r.Go? ==> DecodeEvent(env.tron, info.logs, env.config.paymentEvents) == Normal(r.value)
    ensures DecodeEvent(env.tron, info.logs, env.config.paymentEvents).Throw? ==>
      r == Halt(Bad(500, ServerError(ErrorMessage(DecodeEvent(env.tron, info.logs, env.config.paymentEvents).message))))
  {
    match DecodeEvent(env.tron, info.logs, env.config.paymentEvents)
    case Throw(m) => Halt(Bad(500, ServerError(ErrorMessage(m))))
    case Normal(decoded) => Go(decoded)
  }

  /** No decoded event: 409 reporting the receipt and the transaction id. */
  function RequireEvent(info: TxInfo, decoded: Option<DecodedEvent>): (r: Step<DecodedEvent>)
    ensures r.Go? <==> decoded.Some?
    ensures r.Go? ==> r.value == decoded.value
    ensures r.Halt? ==> r.response == Bad(409, NoPaymentEvent(ReceiptText(info), info.id))
  {
    match decoded
    case None => Halt(Bad(409, NoPaymentEvent(ReceiptText(info), info.id)))
    case Some(ev) => Go(ev)
  }

  /** An event of another name: 409. */
  function RequireName(ev: DecodedEvent, name: string): (r: Step<DecodedEvent>)
    ensures r.Go? <==> ev.eventName == name
    ensures r.Go? ==> r.value == ev
    ensures r.Halt? ==> r.response == Bad(409, UnexpectedEvent(ev.eventName))
  {
    if ev.eventName != name then Halt(Bad(409, UnexpectedEvent(ev.eventName))) else Go(ev)
  }

  /** The three identifiers, each normalised with `normHex`. */
  datatype Ids = Ids(merchant: string, order: string, invoice: string)

  /** The event's identifiers; a missing or falsy argument gives `""`. */
  function EventIds(ev: DecodedEvent): Ids {
    Ids(NormHexValue(Arg(ev, "merchantId")), NormHexValue(Arg(ev, "orderId")), NormHexValue(Arg(ev, "invoiceId")))
  }

  /** An order's identifiers as they appear on chain: `normHex(toBytes32(_))`. */
  function StoredIds(tron: TronWeb, o: Order): Ids {
    Ids(StoredB32(tron, o.merchantId), StoredB32(tron, o.orderId), StoredB32(tron, o.invoiceId))
  }

  /** An empty event field is a wildcard; otherwise the fields must be equal. */
  predicate FieldMatches(ev: string, db: string) {
    ev == "" || ev == db
  }

  predicate WildcardMatch(ev: Ids, db: Ids) {
    FieldMatches(ev.merchant, db.merchant) && FieldMatches(ev.order, db.order) && FieldMatches(ev.invoice, db.invoice)
  }

  /** Whether an event argument accepts a stored identifier, stated on the
      raw values: the argument is falsy, or it is the stored identifier's
      bytes32 form up to letter case and an optional `0x`. */
  predicate ArgAccepts(tron: TronWeb, arg: JsValue, stored: string) {
    !Truthy(arg) || NormHex(ToStr(arg)) == Lower(ToBytes32(tron, stored))
  }

  /** Wildcard matching in terms of the raw event arguments. */
  lemma WildcardMatchIff(tron: TronWeb, ev: DecodedEvent, o: Order)
    ensures WildcardMatch(EventIds(ev), StoredIds(tron, o)) <==>
      && ArgAccepts(tron, Arg(ev, "merchantId"), o.merchantId)
      && ArgAccepts(tron, Arg(ev, "orderId"), o.orderId)
      && ArgAccepts(tron, Arg(ev, "invoiceId"), o.invoiceId)
  {
  }

  /** An event whose three identifiers are all missing matches every order. */
  lemma AllWildcardsMatchEverything(tron: TronWeb, ev: DecodedEvent, o: Order)
    requires !Truthy(Arg(ev, "merchantId")) && !Truthy(Arg(ev, "orderId")) && !Truthy(Arg(ev, "invoiceId"))
    ensures WildcardMatch(EventIds(ev), StoredIds(tron, o))
  {
  }

  /** The webhook's candidates: open orders whose identifiers match. */
  function OpenCandidate(tron: TronWeb, ids: Ids): Order -> bool {
    (o: Order) => IsOpen(o.status) && WildcardMatch(ids, StoredIds(tron, o))
  }

  /** The merchant-scoped candidates: the caller's orders, any status. */
  function MerchantCandidate(tron: TronWeb, ids: Ids, sub: string): Order -> bool {
    (o: Order) => o.merchantId == sub && WildcardMatch(ids, StoredIds(tron, o))
  }

  /** The first row satisfying `p`, or 404 reporting the event identifiers. */
  function FindMatch(db: seq<Order>, p: Order -> bool, ids: Ids): (r: Step<nat>)
    ensures r.Go? ==> r.value < |db| && p(db[r.value])
    ensures r.Go? ==> forall j :: 0 <= j < r.value ==> !p(db[j])
    ensures r.Halt? ==> forall j :: 0 <= j < |db| ==> !p(db[j])
    ensures r.Halt? ==> r.response == Bad(404, NoMatchingOrder(ids.merchant, ids.order, ids.invoice))
  {
    match FirstIndex(db, p)
    case None => Halt(Bad(404, NoMatchingOrder(ids.merchant, ids.order, ids.invoice)))
    case Some(i) => Go(i)
  }

  /** The idempotency rule on a bound order: the same txid answers
      `updated: false`, a different one 409; an unbound order proceeds. */
  function CheckUnbound(o: Order, txid: string): (r: Step<()>)
    ensures r.Go? <==> o.txid == ""
    ensures o.txid != "" && o.txid == txid ==> r == Halt(Ok(200, AlreadyConfirmed(o.status, o.txid)))
    ensures o.txid != "" && o.txid != txid ==> r == Halt(Bad(409, TxidConflict(o.txid, txid)))
  {
    if o.txid == "" then Go(())
    else if o.txid == txid then Halt(Ok(200, AlreadyConfirmed(o.status, o.txid)))
    else Halt(Bad(409, TxidConflict(o.txid, txid)))
  }

  /** `String(decoded.args.paymentToken || "")` */
  function GotToken(ev: DecodedEvent): string {
    StrOr(Arg(ev, "paymentToken"), "")
  }

  /** The token is refused only when both addresses are known and differ. */
  predicate TokenAccepted(expected: string, got: string) {
    expected == "" || got == "" || expected == got
  }

  function CheckToken(env: Env, ev: DecodedEvent): (r: Step<()>)
    ensures r.Go? <==> TokenAccepted(env.config.usdtAddress, GotToken(ev))
    ensures r.Halt? ==> r.response == Bad(409, TokenMismatch(env.config.usdtAddress, GotToken(ev)))
  {
    var expected := env.config.usdtAddress;
    var got := GotToken(ev);
    if expected != "" && got != "" && expected != got then Halt(Bad(409, TokenMismatch(expected, got)))
    else Go(())
  }

  /** The strict amount rule, stated on the event's raw `amount` argument:
      the order amount converts to token units and the event carries exactly
      that many units (a missing amount counts as 0). */
  predicate AmountAccepted(env: Env, amount: string, ev: DecodedEvent) {
    var expected := env.config.toTokenUnits(amount, env.tokenDecimals);
    expected.Normal? && RawAmount(Arg(ev, "amount")) == Some(DigitsValue(expected.value))
  }

  /** `String(decoded.args.amount || "0")` */
  function GotRaw(ev: DecodedEvent): string {
    StrOr(Arg(ev, "amount"), "0")
  }

  /** Convert the order amount (a throwing conversion reaches the generic
      handler, 500), refuse a non-decimal event amount (409), then compare
      the two as big integers (409 when they differ). */
  function CheckAmount(env: Env, amount: string, ev: DecodedEvent): (r: Step<()>)
    ensures r.Go? <==> AmountAccepted(env, amount, ev)
    ensures r.Halt? ==> r.response.Bad?
    ensures env.config.toTokenUnits(amount, env.tokenDecimals).Normal? && !IsDigits(GotRaw(ev)) ==>
      r == Halt(Bad(409, InvalidEventAmount(GotRaw(ev))))
  {
    StrOrZeroIsRawAmount(Arg(ev, "amount"));
    match env.config.toTokenUnits(amount, env.tokenDecimals)
    case Throw(m) => Halt(Bad(500, ServerError(ErrorMessage(m))))
    case Normal(expected) =>
      var gotRaw := GotRaw(ev);
      if !IsDigits(gotRaw) then Halt(Bad(409, InvalidEventAmount(gotRaw)))
      else if DigitsValue(expected) != DigitsValue(gotRaw) then
        Halt(Bad(409, AmountMismatch(expected, gotRaw, env.tokenDecimals)))
      else Go(())
  }

  /** The comparison is exact: an event amount that is a valid number of
      units but not the expected one, even by a single unit, answers 409
      `amount mismatch` with both raw values. */
  lemma AmountStrict(env: Env, amount: string, ev: DecodedEvent)
    requires env.config.toTokenUnits(amount, env.tokenDecimals).Normal?
    requires var expected := env.config.toTokenUnits(amount, env.tokenDecimals).value;
      RawAmount(Arg(ev, "amount")).Some? && RawAmount(Arg(ev, "amount")).value != DigitsValue(expected)
    ensures CheckAmount(env, amount, ev) ==
      Halt(Bad(409, AmountMismatch(env.config.toTokenUnits(amount, env.tokenDecimals).value, GotRaw(ev), env.tokenDecimals)))
  {
    StrOrZeroIsRawAmount(Arg(ev, "amount"));
  }

  /** The token check, then the amount check. */
  function Validate(env: Env, o: Order, ev: DecodedEvent): (r: Step<()>)
    ensures r.Go? <==> TokenAccepted(env.config.usdtAddress, GotToken(ev)) && AmountAccepted(env, o.amount, ev)
    ensures r.Halt? ==> r.response.Bad?
  {
    var _ :- CheckToken(env, ev);
    CheckAmount(env, o.amount, ev)
  }

  /** SUCCESS when the receipt succeeded, FAILED otherwise. */
  function FinalStatus(info: TxInfo): (s: Status)
    ensures s == Success <==> ReceiptOk(info)
    ensures !IsOpen(s)
  {
    if ReceiptOk(info) then Success else Failed
  }

  /** The row after settling: the final status, and the ledger's txid bound. */
  function SettledRow(o: Order, info: TxInfo): Order {
    o.(status := FinalStatus(info), txid := info.id)
  }

  /** The settling update of row `i`; a clash on the txid reaches the
      generic handler (500). */
  function Settle(i: nat, o: Order, info: TxInfo): (w: Write)
    ensures w.index == i && w.setsTxid
    ensures w.row.status == FinalStatus(info) && w.row.txid == info.id
    ensures w.row.(status := o.status, txid := o.txid) == o
    ensures w.response == Ok(200, Settled(FinalStatus(info), info.id))
    ensures w.onConflict == Bad(500, UniqueViolation)
  {
    Write(i, SettledRow(o, info), true, Ok(200, Settled(FinalStatus(info), info.id)), Bad(500, UniqueViolation))
  }

  lemma SettleValid(db: seq<Order>, i: nat, info: TxInfo)
    requires i < |db| && info.id != ""
    ensures ValidWrite(db, Settle(i, db[i], info))
  {
  }
}
