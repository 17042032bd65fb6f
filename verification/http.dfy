/** Route responses: a status code with either the success payload (`ok`)
    or the error kind and its diagnostic details (`bad`). */
module Http {
  import opened Base
  import opened Store

  datatype IdField = MerchantIdField | OrderIdField | InvoiceIdField

  /** The error kinds the routes return, with the details they report. */
  datatype Failure =
    | WebhookSecretUnset
    | WebhookUnauthorized
    | MissingBearer
    | MissingTxid
    | MissingOrderOrInvoice
    | InvalidStatus
    | MissingOrderId
    | MissingInvoiceId
    | MissingRegistrationFields
    | PasswordTooShort
    | TxNotFound
    | OrderNotFound
    | NoOrderForEvent(merchantId: string, invoiceId: string)
    | MerchantNotFound
    | NoMatchingOrder(merchantId: string, orderId: string, invoiceId: string)
    | NoPaymentEvent(receipt: string, txid: string)
    | UnexpectedEvent(name: string)
    | EventMissingIds
    | TxidConflict(existing: string, requested: string)
    | IdMismatch(field: IdField, expected: string, got: string)
    | TokenMismatch(expected: string, got: string)
    | InvalidEventAmount(gotRaw: string)
    | AmountMismatch(expectedRaw: string, gotRaw: string, decimals: nat)
    | OrderIdMismatch(stored: string, chain: string)
    | TxidAlreadyUsed
    | MerchantExists
    | UniqueViolation
    | ServerError(message: string)

  /** The success payloads. */
  datatype Outcome =
      /** `updated: false`: the order is already bound to the requested txid. */
    | AlreadyConfirmed(status: Status, txid: string)
      /** `updated: true`: status and txid written. */
    | Settled(status: Status, txid: string)
      /** `updated: true`: status written without binding a txid. */
    | Provisional(status: Status, txid: string)
      /** The payment oracle reported a failed transaction; nothing written. */
    | ChainFailure(reason: string, txid: string)
      /** `updated: false`: a SUCCESS order is not overwritten. */
    | SuccessKept
      /** `updated: false`: no merchant-registry event in the receipt. */
    | NoRegistryEvent(receipt: string, txid: string)
      /** `updated: true`: the merchant's active flag written. */
    | ActiveSet(active: bool, txid: string)
      /** 201: the created merchant as echoed back (no password hash), and the
          on-chain registration's txid or its error message. */
    | MerchantCreated(merchantId: string, address: string, name: string, email: string,
                      active: bool, registration: Completion<string>)

  datatype Response = Ok(code: int, outcome: Outcome) | Bad(code: int, failure: Failure)

  /** One stage of a route: carry on with a value, or answer now. */
  datatype Step<+T> = Go(value: T) | Halt(response: Response) {
    predicate IsFailure() {
      Halt?
    }

    function PropagateFailure<U>(): Step<U>
      requires Halt?
    {
      Halt(response)
    }

    function Extract(): T
      requires Go?
    {
      value
    }
  }
}
