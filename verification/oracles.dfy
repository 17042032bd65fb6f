/** What the routes learn from outside the process: the ledger (transaction
    info and token decimals), configuration, token verification and the
    payment detector. Each is a fixed function of its arguments. */
module Oracles {
  import opened Base
  import opened JsText
  import opened TronEvents

  /** Transaction info from `getTransactionInfo`: `id` is `""` when the object
      or its id is missing, `receiptResult` is `""` when `receipt.result` is. */
  datatype TxInfo = TxInfo(id: string, receiptResult: string, logs: seq<Log>)

  /** Deployment configuration: the USDT token address (base58), the ABI
      event lists of the payment and merchant-registry contracts, the webhook
      secret (`""` when unset) and the amount conversion `toTokenUnits`. */
  datatype Config = Config(
    usdtAddress: string,
    paymentEvents: seq<EventAbi>,
    registryEvents: seq<EventAbi>,
    webhookSecret: string,
    toTokenUnits: (string, nat) -> Completion<Digits>)

  /** The payment detector used by the order-confirmation route: either the
      transaction failed (with a reason) or it carries a PaymentDetected
      event with these raw identifiers. */
  datatype Detection =
    | DetectedFailure(reason: string)
    | Detected(merchantId: string, orderId: string, invoiceId: string)

  /** Everything outside the process a route may consult. `transactionInfo`
      answers None when the ledger returns no object; `verifyToken` yields
      the token's `sub` claim or throws. */
  datatype Env = Env(
    tron: TronWeb,
    transactionInfo: string -> Option<TxInfo>,
    tokenDecimals: nat,
    config: Config,
    verifyToken: string -> Completion<string>,
    detect: string -> Completion<Detection>)

  /** `String(txInfo?.receipt?.result || "").toUpperCase()` */
  function ReceiptText(info: TxInfo): string {
    Upper(info.receiptResult)
  }

  /** The receipt counts as successful when it reads "SUCCESS" in any case. */
  predicate ReceiptOk(info: TxInfo) {
    ReceiptText(info) == "SUCCESS"
  }

  /** `e?.message || "Server error"` */
  function ErrorMessage(m: string): (r: string)
    ensures r != ""
    ensures m != "" ==> r == m
  {
    if m == "" then "Server error" else m
  }
}
