# Payment reconciliation of a TRON merchant dashboard, in Dafny

This project models the payment-reconciliation core of a merchant payment
dashboard whose orders are settled by USDT transfers on the TRON ledger,
and proves properties of the model. The model has four parts.

- **Identifier canonicalisation.**
  - `normHex`, which lower-cases a value and gives it exactly one `0x`.
  - `toBytes32`, which builds `0x` and 64 hex characters from a stored
    identifier.
  - `toBytes32FromString`, the hashed `merchant_id` derivation. Values
    already in bytes32 form pass through it unhashed.
- **The event-log decoder.** It follows the "Events" section of the
  Solidity Contract ABI Specification:
  - topic 0 is the hash of `Name(type1,...,typeN)`;
  - indexed parameters come from the later topics;
  - the other parameters come from the ABI-encoded data payload.

  `decodePaymentEvent` and `decodeMerchantRegistryEvent` return the first
  decodable pair, searching logs first and then ABI entries.
- **The order and merchant routes.** Each route is a function from a request,
  the outside world (`Oracles.Env`) and the table (`seq<Order>` or
  `seq<Merchant>`) to a response and the table afterwards. There are six:
  - the ledger webhook;
  - confirm-by-txid;
  - confirm by order or invoice id (the handler in `src/lib/amount.js`);
  - orders/confirm, which is driven by the payment detector;
  - the manual update-status;
  - merchants/confirm.

  Every route ends in at most one update, and `Writes.Commit` applies that
  update under the store's unique constraint on `txid`.
- **Input validation.**
  - `getBearerToken`. It is a stricter, case-sensitive form of the
    `Authorization: Bearer` syntax of section 2.1 of RFC 6750.
  - The registration route's checks, its normalisation and its choice of
    response.

Modules, from the leaves up:

- `Base`, `JsText` and `JsValues`: the JavaScript string and value
  operations the code relies on (`trim`, `split(" ")`, `toLowerCase`,
  `String(v || d)`, `/^\d+$/`, `BigInt`).
- `Search`: the first match of a list.
- `TronEvents`, `Bytes32` and `Store`.
- `Http`: response kinds with their diagnostic details.
- `Writes`, `Oracles`, `Auth` and `Reconcile`: the steps the payment routes
  share.
- One module per route.

Foreign computations are function-valued fields (of `Oracles.Env`,
`TronEvents.TronWeb` and the registration route's environment) or
parameters (the hash given to `Bytes32.ToBytes32FromString`). The model
never interprets them, and "## Left out" lists them. A property that
depends on such a computation carries it as a hypothesis, for example
`Bytes32.HashIsCanonical`.

## Behaviour worth noting

The route code behaves as follows, and the model does the same:

- Only the order-or-invoice-id route consults the order table before the
  ledger. The webhook and confirm-by-txid decode the event first.
- Only that route turns "no payment event" into IN_PROGRESS or FAILED. The
  webhook and confirm-by-txid answer 409 and write nothing.
- A unique-constraint violation on `txid` answers 409 only in update-status.
  The webhook, confirm-by-txid, order-or-invoice-id and orders/confirm routes
  answer 500 with the store's message (`Http.UniqueViolation`).
- A bound `txid` is not immutable everywhere. orders/confirm and update-status
  overwrite it (`OrdersConfirmRoute.OverwritesBoundTxid`,
  `UpdateStatusRoute.RebindsBoundOrder`).
- A token the verifier rejects answers 500, from the generic handler, and
  not 401.

## Model

| member | source | states |
|---|---|---|
| JsText.Trim | src/app/api/merchants/register/route.js:20-22 | `trim()`: the result is a contiguous slice of the input with only white space cut off on either side; it neither starts nor ends with white space, and it is empty exactly when the input is all white space |
| JsText.TrimLower | src/app/api/merchants/register/route.js:21 | trimming and lower-casing commute, so the stored email is the lower-cased, trimmed input in either order |
| JsText.TrimIdempotent | src/app/api/merchants/register/route.js:20-22 | trimming a trimmed string changes nothing |
| JsText.TrimKeepsNoUpper | src/app/api/merchants/register/route.js:21 | trimming a lower-cased email keeps it free of upper-case letters |
| JsText.SplitJoin | src/lib/auth.js:20 | `split(" ")` loses nothing: joining the segments with the separator gives the header back |
| JsText.SplitHead | src/lib/auth.js:20 | the first segment is `p` exactly when `p` has no separator and the string is `p`, or starts with `p` followed by the separator |
| JsText.Utf16Length | src/app/api/merchants/register/route.js:16 | `String(password).length` counts UTF-16 units, between one and two per code point |
| JsText.IntToDecimalDigits | src/app/api/orders/webhook/tron/route.js:135-139 | `String` of an integer passes `/^\d+$/` exactly when the integer is non-negative, and `BigInt` reads the integer back |
| JsValues.StrOr | src/app/api/orders/webhook/tron/route.js:122 | `String(v \|\| d)` is the fallback for a falsy value; a non-empty string comes back as itself, a non-zero integer as its decimal text and `true` as "true" |
| JsValues.StrOrZeroIsRawAmount | src/app/api/orders/webhook/tron/route.js:135-139 | the event amount string passes the digit test exactly when the argument stands for a non-negative integer (falsy counts as 0), and `BigInt` of it is that integer |
| Search.FirstIndex | src/app/api/orders/webhook/tron/route.js:79-94 | the loop-with-`break` search: the result satisfies the predicate and nothing before it does; no result means no element does |
| Search.FirstIndexIs | src/app/api/orders/webhook/tron/route.js:79-94 | an index that satisfies the predicate with no earlier one satisfying it is the result |
| Search.OnlyHitReplaced | src/app/api/orders/webhook/tron/route.js:79-94 | when at most one element matches and it is replaced by a non-matching one, the search finds nothing |
| Search.FirstIndexStable | src/app/api/orders/webhook/tron/route.js:79-94 | two tables on which the predicate agrees row by row have the same first match |
| Store.ParseFinalStatus | src/app/api/orders/update-status/route.js:16-18 | a status is accepted exactly when it is "SUCCESS" or "FAILED", and it is read as a final status |
| TronEvents.NormHex | src/lib/tronEvents.js:11-15 | the empty input, and only it, gives `""`; any other result starts with `0x`, has no upper-case letter and is the lower-cased input with or without an added `0x` |
| TronEvents.NormHexValue | src/lib/tronEvents.js:12 | an argument normalises to `""` exactly when it is falsy |
| TronEvents.NormHexKeepsPrefix | src/lib/tronEvents.js:13-14 | an input starting with `0x` or `0X` is only lower-cased, so the prefix is never doubled |
| TronEvents.NormHexAddsPrefix | src/lib/tronEvents.js:13-14 | any other non-empty input gets `0x` in front of its lower-case form |
| TronEvents.NormHexIdempotent | src/lib/tronEvents.js:11-15 | normalising twice is normalising once |
| TronEvents.NormHexCaseInsensitive | src/lib/tronEvents.js:13 | inputs that differ only in letter case normalise alike |
| TronEvents.NormHexPrefixOptional | src/lib/tronEvents.js:13-14 | writing the `0x` prefix or leaving it off gives the same normal form |
| TronEvents.ToBytes32 | src/lib/tronEvents.js:17-20 | the result is `0x` and exactly 64 characters: the hex of the input without its `0x`, right-padded with `0` when shorter than 64 and cut to its first 64 otherwise |
| TronEvents.StoredB32 | src/app/api/orders/webhook/tron/route.js:82-84 | a stored identifier's comparison form is `toBytes32` lower-cased: 66 characters, `0x`-prefixed, without upper case |
| TronEvents.Select | src/lib/tronEvents.js:27-28 | the filter keeps exactly the inputs with the requested `indexed` flag |
| TronEvents.SelectIsOrderedFilter | src/lib/tronEvents.js:27-28 | the filter is the inputs at the flagged positions, listed in increasing order: every flagged input once, in declaration order, and nothing else |
| TronEvents.SelectSplitsInputs | src/lib/tronEvents.js:27-28 | the indexed and the non-indexed inputs together are as many as all inputs |
| TronEvents.LastChars | src/lib/tronEvents.js:39 | `slice(-40)` is the last 40 characters, or the whole string when it is shorter |
| TronEvents.DataHex | src/lib/tronEvents.js:51 | the data passed to the ABI decoder is `log.data` itself when it already starts with `0x`, and `0x` followed by it otherwise, so the prefix is never doubled |
| TronEvents.TryDecodeLog | src/lib/tronEvents.js:22-62 | null exactly when the log's normalised topic 0 is absent or differs from the normalised hash of the event's signature text; a decoded event carries the ABI entry's name; only an event with non-indexed inputs can throw |
| TronEvents.IndexedArgAt | src/lib/tronEvents.js:33-44 | after the indexed loop, the k-th indexed input is present exactly when topic k+1 is non-empty, with the value read from that topic |
| TronEvents.IndexedArgsAbsent | src/lib/tronEvents.js:33-44 | the indexed loop assigns no name that none of its inputs carries |
| TronEvents.DataArgAt | src/lib/tronEvents.js:54-58 | after the data loop, the k-th non-indexed input holds the k-th decoded value, converted when it is an address |
| TronEvents.DataArgsKeep | src/lib/tronEvents.js:54-58 | the data loop leaves every name it does not assign as the indexed loop left it |
| TronEvents.DistinctParts | src/lib/tronEvents.js:27-28 | distinct names over all inputs give distinct names within, and between, the indexed and non-indexed groups |
| TronEvents.DecodedIndexedArgs | src/lib/tronEvents.js:33-44 | in a decoded event, the k-th indexed input is present exactly when topic k+1 is non-empty; an address takes the topic's last 40 hex characters, and any other type takes the topic normalised |
| TronEvents.DecodedDataArgs | src/lib/tronEvents.js:46-59 | in a decoded event with non-indexed inputs, the data decoder did not throw and the k-th such input holds the k-th decoded value |
| TronEvents.DecodeEventFirstMatch | src/lib/tronEvents.js:64-84 | null exactly when no (log, ABI entry) pair decodes, which includes an empty log list; otherwise the decode of the first such pair in log-major order |
| Bytes32.ToBytes32FromString | src/lib/bytes32.js:7-16 | throws exactly on the empty input; otherwise returns either the lower-cased input, when that input is `0x` and 64 hex digits, or the hash of the input |
| Bytes32.PassThroughNotHashed | src/lib/bytes32.js:11-13 | `0x` plus 64 hex digits comes back lower-cased and unhashed |
| Bytes32.OthersHashed | src/lib/bytes32.js:15 | every other non-empty input is hashed, including `0x` strings of other lengths |
| Bytes32.CaseInsensitiveOnBytes32 | src/lib/bytes32.js:11-13 | two bytes32 inputs differing only in letter case give the same value |
| Bytes32.LowerKeepsBytes32 | src/lib/bytes32.js:11-13 | lower-casing keeps a bytes32 value in bytes32 form |
| Bytes32.Idempotent | src/lib/bytes32.js:7-16 | with a hash that outputs lower-case bytes32, every result is lower-case bytes32 and feeding it back returns it unchanged |
| Auth.BearerSplit | src/lib/auth.js:20-21 | the first segment is "Bearer" and a second segment exists exactly when the header starts with "Bearer " |
| Auth.GetBearerToken | src/lib/auth.js:18-23 | a token is returned only from a header starting with "Bearer ", and it is non-empty and contains no space; a missing header gives none |
| Auth.BearerTokenIff | src/lib/auth.js:18-23 | the token is `t` exactly when the header is "Bearer " and `t`, where `t` is non-empty and space-free, followed by the end or a space |
| Auth.LowerCaseSchemeRejected | src/lib/auth.js:21 | a header that begins with "Bearer " in any other letter case, such as "bearer abc", gives no token: the scheme is case-sensitive |
| Auth.EmptySecondSegmentRejected | src/lib/auth.js:20-22 | "Bearer" alone, and "Bearer" followed by two spaces and anything, give no token |
| Auth.ExtraSegmentsIgnored | src/lib/auth.js:20-22 | "Bearer ", a non-empty space-free `t`, a space and anything give `t`: later segments are ignored |
| Auth.Authenticate | src/app/api/orders/confirm-by-txid/route.js:12-14 | no bearer token answers 401; the route proceeds exactly when the verifier accepts the token, and with its `sub` |
| Oracles.ErrorMessage | src/app/api/orders/webhook/tron/route.js:177 | a 500 always carries a non-empty message, which is the error's own message when it has one |
| Writes.Commit | src/app/api/orders/update-status/route.js:50-71 | a halted route changes nothing; otherwise exactly the chosen row is replaced unless another row holds the written txid, in which case nothing changes; at most one row changes; txid uniqueness and "every SUCCESS order is bound" are preserved |
| Writes.CommitSameRow | src/app/api/orders/update-status/route.js:50-56 | writing a row's current contents back changes nothing |
| Writes.BoundTxidBlocksOthers | src/app/api/orders/update-status/route.js:66-70 | once a txid is bound to one row, no update can bind it to another |
| Writes.CommitKeepsBoundTxids | src/app/api/orders/webhook/tron/route.js:150-155 | an update that binds a txid only to an unbound row moves no bound txid |
| Writes.CommitKeepsSuccess | src/app/api/orders/update-status/route.js:50-56 | an update that never turns a SUCCESS row into another status leaves every SUCCESS order SUCCESS |
| Reconcile.FetchTx | src/app/api/orders/webhook/tron/route.js:37-41 | the route proceeds exactly when the ledger returns an object with a non-empty id; otherwise it answers 404 |
| Reconcile.DecodePayment | src/app/api/orders/webhook/tron/route.js:46 | the route proceeds exactly when the decoder returns normally, with its result; a decoder exception answers 500 with the exception's message |
| Reconcile.RequireEvent | src/app/api/orders/webhook/tron/route.js:47-52 | no decoded event answers 409 with the upper-cased receipt and the transaction id |
| Reconcile.RequireName | src/app/api/orders/webhook/tron/route.js:54-56 | the route proceeds exactly when the event is the expected one; otherwise it answers 409 naming the event |
| Reconcile.WildcardMatchIff | src/app/api/orders/webhook/tron/route.js:86-90 | an order matches exactly when each of the event's three identifier arguments is falsy or equals the order's bytes32 form, up to case and an optional `0x` |
| Reconcile.AllWildcardsMatchEverything | src/app/api/orders/webhook/tron/route.js:86-90 | an event with no identifiers matches every order |
| Reconcile.FindMatch | src/app/api/orders/webhook/tron/route.js:79-102 | the first matching row, or 404 with the event identifiers when no row matches |
| Reconcile.CheckUnbound | src/app/api/orders/webhook/tron/route.js:105-118 | an unbound order proceeds; the same txid answers `updated: false` with the stored status; another txid answers 409 with both txids |
| Reconcile.CheckToken | src/app/api/orders/webhook/tron/route.js:121-128 | the token is refused, with 409 and both addresses, exactly when both addresses are non-empty and differ |
| Reconcile.CheckAmount | src/app/api/orders/webhook/tron/route.js:131-146 | the amount passes exactly when the conversion succeeds and the event carries exactly that many units; a non-decimal event amount answers 409 |
| Reconcile.AmountStrict | src/app/api/orders/webhook/tron/route.js:139-146 | an event amount off by any number of units, even one, answers 409 `amount mismatch` with both raw values |
| Reconcile.Validate | src/app/api/orders/webhook/tron/route.js:120-146 | the event passes exactly when both the token rule and the strict amount rule hold |
| Reconcile.FinalStatus | src/app/api/orders/webhook/tron/route.js:43-44 | SUCCESS exactly when the upper-cased receipt result is "SUCCESS", else FAILED; never an open status |
| Reconcile.Settle | src/app/api/orders/webhook/tron/route.js:150-155 | the settling update targets the matched row, writes the final status and the ledger's txid and leaves every other column as it was; it answers 200 with both, and a txid clash answers 500 |
| Reconcile.SettleValid | src/app/api/orders/webhook/tron/route.js:150-155 | the settling update keeps the row's identity and binds a non-empty txid, so a SUCCESS row is never left unbound |
| WebhookRoute.Prelude | src/app/api/orders/webhook/tron/route.js:28-56 | an unset secret answers 500 and a wrong header 401, then a missing txid 400; the route proceeds only with an authorised call, a transaction with an id and a decoded PaymentDetected event |
| WebhookRoute.Decide | src/app/api/orders/webhook/tron/route.js:58-155 | any update settles an open, unbound order |
| WebhookRoute.Handle | src/app/api/orders/webhook/tron/route.js:26-179 | an error changes nothing; at most one order changes; txid uniqueness and bound txids are kept; no SUCCESS order leaves SUCCESS |
| WebhookRoute.UnauthorisedIgnoresLedgerAndStore | src/app/api/orders/webhook/tron/route.js:28-30 | an unauthorised call answers 500 or 401, the same whatever the ledger and the table hold, and changes nothing |
| WebhookRoute.SettlementSound | src/app/api/orders/webhook/tron/route.js:64-155 | a change means the first open matching order was unbound and passed the token and amount rules, and it took the final status and the ledger's txid |
| WebhookRoute.SettlementComplete | src/app/api/orders/webhook/tron/route.js:64-155 | conversely, when those conditions hold and no other row has the txid, that order is settled |
| WebhookRoute.NoCandidateNotFound | src/app/api/orders/webhook/tron/route.js:79-102 | when no open order matches the event, the answer is 404 with the event identifiers and nothing changes |
| WebhookRoute.RedeliveryNotFound | src/app/api/orders/webhook/tron/route.js:64-118 | a redelivery after settlement answers 404 rather than `updated: false` when the settled order was the event's only open match |
| WebhookRoute.Idempotent | src/app/api/orders/webhook/tron/route.js:104-118 | delivering the same notification twice changes the table at most once |
| ConfirmByTxidRoute.Prelude | src/app/api/orders/confirm-by-txid/route.js:11-51 | authentication comes first, then a missing txid answers 400; the route proceeds only with a transaction, a PaymentDetected event and an event that names an order or an invoice |
| ConfirmByTxidRoute.Decide | src/app/api/orders/confirm-by-txid/route.js:53-144 | any update settles an unbound order |
| ConfirmByTxidRoute.Handle | src/app/api/orders/confirm-by-txid/route.js:9-162 | an error changes nothing; at most one order changes; txid uniqueness and bound txids are kept |
| ConfirmByTxidRoute.SettlementSound | src/app/api/orders/confirm-by-txid/route.js:55-144 | a change means the caller's first matching order was unbound and passed token and amount, and it took the final status and the ledger's txid |
| ConfirmByTxidRoute.SettlementComplete | src/app/api/orders/confirm-by-txid/route.js:55-144 | conversely, when the caller's first matching order is unbound, token and amount pass and no other row has the txid, that order is settled with the final status and the ledger's txid |
| ConfirmByTxidRoute.BoundOrderAnswers | src/app/api/orders/confirm-by-txid/route.js:93-107 | a bound match answers `updated: false` for the same txid and 409 for another, without a write |
| ConfirmByTxidRoute.CandidatesStable | src/app/api/orders/confirm-by-txid/route.js:68-83 | changing status and txid moves no order in or out of the candidates |
| ConfirmByTxidRoute.ReplayAlreadyConfirmed | src/app/api/orders/confirm-by-txid/route.js:93-101 | replaying a settlement whose ledger id is the txid sent answers `updated: false` with the new status |
| ConfirmByTxidRoute.Idempotent | src/app/api/orders/confirm-by-txid/route.js:93-107 | the same confirmation sent twice changes the table at most once |
| ConfirmByIdsRoute.Prelude | src/lib/amount.js:11-18 | authentication, then 400 for a missing txid, then 400 when neither `order_id` nor `invoice_id` is given |
| ConfirmByIdsRoute.FindOrder | src/lib/amount.js:20-28 | the caller's first order matching the given ids, or 404 |
| ConfirmByIdsRoute.CheckIds | src/lib/amount.js:80-96 | proceeds exactly on a wildcard match; otherwise 409 for the first mismatching field in the order merchant, order, invoice, with the expected and received values |
| ConfirmByIdsRoute.FallbackStatus | src/lib/amount.js:60 | IN_PROGRESS exactly when the receipt succeeded, FAILED otherwise; never SUCCESS |
| ConfirmByIdsRoute.Fallback | src/lib/amount.js:59-64 | the fallback update targets the looked-up row, writes only the status (IN_PROGRESS or FAILED from the receipt) and not the txid column, and answers 200 with that status and the transaction id |
| ConfirmByIdsRoute.SettleOrFallback | src/lib/amount.js:57-140 | with no decoded event the answer is the fallback update; otherwise the route proceeds exactly when the event is a PaymentDetected matching the order's ids with accepted token and amount, and then settles the order |
| ConfirmByIdsRoute.Decide | src/lib/amount.js:20-140 | any update targets the looked-up unbound order after a found transaction: the fallback exactly when no event decodes, otherwise the settlement of an agreeing event |
| ConfirmByIdsRoute.Handle | src/lib/amount.js:9-160 | an error changes nothing; at most one order changes; txid uniqueness and bound txids are kept |
| ConfirmByIdsRoute.BoundOrderIgnoresLedger | src/lib/amount.js:31-44 | for a bound order the answer depends on neither the ledger nor the configuration: `updated: false` for the same txid, 409 otherwise, with no write |
| ConfirmByIdsRoute.FallbackKeepsTxidNull | src/lib/amount.js:57-73 | with no decoded event the order takes IN_PROGRESS or FAILED and its txid stays NULL |
| ConfirmByIdsRoute.SettlementSound | src/lib/amount.js:75-140 | a settlement means an unbound order, a PaymentDetected event matching its ids, passing token and amount, and the final status with the ledger's txid written |
| ConfirmByIdsRoute.SettlementComplete | src/lib/amount.js:75-140 | conversely, when the looked-up order is unbound, the transaction is found, its PaymentDetected event matches the order with accepted token and amount, and no other row has the txid, that order is settled |
| ConfirmByIdsRoute.BoundRowUnchanged | src/lib/amount.js:31-44 | when the lookup selects a bound order, the table is left as it is |
| ConfirmByIdsRoute.Idempotent | src/lib/amount.js:31-73 | the same confirmation sent twice changes the table at most once |
| OrdersConfirmRoute.Confirm | src/app/api/orders/confirm/route.js:79-85 | the update writes SUCCESS and the request's txid to the found row and keeps its other columns; it answers 200 with both, and a txid clash answers 500 |
| OrdersConfirmRoute.Decide | src/app/api/orders/confirm/route.js:13-96 | any update follows a detected payment, targets the first order with the raw merchant and invoice ids whose `order_id` equals the event's, and that order is not already SUCCESS with this txid |
| OrdersConfirmRoute.Handle | src/app/api/orders/confirm/route.js:11-110 | an error changes nothing; at most one order changes; txid uniqueness is kept; no SUCCESS order leaves SUCCESS |
| OrdersConfirmRoute.DetectedFailureNoWrite | src/app/api/orders/confirm/route.js:19-25 | a failed transaction is reported with its reason and nothing is written |
| OrdersConfirmRoute.OrderIdMismatchNoWrite | src/app/api/orders/confirm/route.js:67-76 | a raw `order_id` mismatch answers 409 with both values and nothing is written |
| OrdersConfirmRoute.OverwritesBoundTxid | src/app/api/orders/confirm/route.js:79-85 | otherwise the order becomes SUCCESS with the request's txid, replacing any txid it had |
| OrdersConfirmRoute.Idempotent | src/app/api/orders/confirm/route.js:59-64 | the same confirmation sent twice changes the table at most once |
| UpdateStatusRoute.Validate | src/app/api/orders/update-status/route.js:15-20 | proceeds exactly when all four fields are present and the status is SUCCESS or FAILED; the first failing check answers 400 |
| UpdateStatusRoute.Decide | src/app/api/orders/update-status/route.js:23-63 | any update targets the first order with that `order_id` and `invoice_id`, which is not SUCCESS, and writes the requested status and txid |
| UpdateStatusRoute.Handle | src/app/api/orders/update-status/route.js:10-73 | an error changes nothing; at most one order changes; txid uniqueness is kept; no SUCCESS order leaves SUCCESS |
| UpdateStatusRoute.SuccessGuard | src/app/api/orders/update-status/route.js:40-48 | a SUCCESS order answers `updated: false` and is left alone |
| UpdateStatusRoute.Overwrite | src/app/api/orders/update-status/route.js:50-70 | otherwise status and txid are replaced, or the answer is 409 when another row holds the txid |
| UpdateStatusRoute.RebindsBoundOrder | src/app/api/orders/update-status/route.js:50-56 | an order that is not SUCCESS but bound to another txid is rebound to the request's, and in a table with unique txids the old txid is then held by no row |
| UpdateStatusRoute.Idempotent | src/app/api/orders/update-status/route.js:40-63 | the same update sent twice changes the table at most once |
| MerchantConfirmRoute.NewActive | src/app/api/merchants/confirm/route.js:84-85 | the flag is true only when the receipt succeeded, and then it is the event's `active` read as a boolean |
| MerchantConfirmRoute.Decide | src/app/api/merchants/confirm/route.js:25-85 | any update follows authentication, a txid, the caller's merchant row, a transaction and a MerchantOnboarded event whose merchant id is absent or equal to the row's bytes32 form |
| MerchantConfirmRoute.Apply | src/app/api/merchants/confirm/route.js:87-89 | only the `active` flag of the chosen row is set; a halted decision changes nothing |
| MerchantConfirmRoute.Handle | src/app/api/merchants/confirm/route.js:87-89 | an error, or an answer without an update, changes nothing; only the `active` field of the authenticated merchant's row can change |
| MerchantConfirmRoute.FailedReceiptDeactivates | src/app/api/merchants/confirm/route.js:83-85 | a failed receipt never activates |
| MerchantConfirmRoute.ActiveFollowsEvent | src/app/api/merchants/confirm/route.js:66-85 | with a successful receipt the stored flag is the MerchantOnboarded event's `active` |
| MerchantConfirmRoute.ActivationComplete | src/app/api/merchants/confirm/route.js:82-106 | conversely, once the caller's row and the transaction are found and a MerchantOnboarded event names no other merchant, the flag is written to that row and the answer reports it |
| MerchantConfirmRoute.NoEventReported | src/app/api/merchants/confirm/route.js:56-64 | a receipt with no registry event answers `updated: false` with the receipt and the transaction id, and writes nothing |
| MerchantConfirmRoute.Refusals | src/app/api/merchants/confirm/route.js:24-48 | a missing or rejected token, then 400 for a missing txid, then 404 for an unknown merchant and 404 for an unknown transaction, each without a write |
| MerchantConfirmRoute.EventRefusals | src/app/api/merchants/confirm/route.js:66-80 | another event answers 409 naming it, and a present merchant id that differs from the row's bytes32 form answers 409 with both, without a write |
| MerchantConfirmRoute.Idempotent | src/app/api/merchants/confirm/route.js:87-89 | reporting the same transaction twice changes the table at most once |
| RegisterRoute.Normalise | src/app/api/merchants/register/route.js:20-22 | the stored name and address are trimmed, and the stored email is the trimmed, lower-cased input, so it has no upper-case letter |
| RegisterRoute.NormaliseIdempotent | src/app/api/merchants/register/route.js:20-22 | normalising stored values again leaves them as they are |
| RegisterRoute.NewMerchant | src/app/api/merchants/register/route.js:12-36 | a missing field answers 400; a row is produced exactly when every field is given, the password has at least six UTF-16 units and the name is not blank, and it has the normalised fields, the derived id of its name and `active = true` |
| RegisterRoute.Handle | src/app/api/merchants/register/route.js:29-68 | an error adds nothing; a success is 201 and appends exactly the new merchant, which is active and has a lower-case email |
| RegisterRoute.ShortPasswordRefused | src/app/api/merchants/register/route.js:16-18 | a password shorter than six UTF-16 units answers 400 |
| RegisterRoute.BlankNameFails | src/app/api/merchants/register/route.js:20-25 | a name of white space only passes the presence check, but the identifier derivation refuses it: 500 "input required" |
| RegisterRoute.ChainFailureStillCreated | src/app/api/merchants/register/route.js:48-64 | an on-chain registration failure still answers 201 with the error, and the merchant stays added |
| RegisterRoute.Registers | src/app/api/merchants/register/route.js:12-55 | a request with every field, a password of six UTF-16 units or more and a non-blank name yields the normalised row with the derived id and `active = true`; once the store accepts it the answer is 201 with the on-chain outcome and the table gains exactly that row |
| RegisterRoute.CreateFailureAnswers500 | src/app/api/merchants/register/route.js:65-68 | a store failure other than the unique constraint answers 500 with its message and adds nothing |
| RegisterRoute.UniqueConflictAnswers409 | src/app/api/merchants/register/route.js:67 | the store's unique constraint answers 409 and adds nothing |
| RegisterRoute.MerchantIdCanonical | src/app/api/merchants/register/route.js:20-25 | with keccak256's output form, the id is lower-case bytes32, and names equal after trimming get the same id |

## Left out

- The `OPTIONS`/CORS handlers and the JSON envelopes of the responses are
  left out. Echoed payloads, such as the updated row, the decoded event and
  `strictCheck`, are reduced to the outcome kind and its key values.
- Malformed JSON bodies, non-string body values and network failures are left
  out: request fields are strings, and `""` stands for absent, null or empty.
- Concurrency is left out. Two requests racing to bind one txid are ruled out
  by the store's unique constraint, which the model applies sequentially in
  `Writes.Commit`.
- The store's row order for `findMany` and `findFirst` is taken to be the
  table's sequence order. The code does not fix an order.
- `address.fromHex` is taken to be total. A throw from it in the indexed
  loop is not modelled, which is why only an event with non-indexed inputs
  can make the decoder throw; the library returns a non-hex input unchanged.
- JavaScript strings holding a lone surrogate, which a JSON body can carry,
  are outside the model: a Dafny `char` is a Unicode scalar value, so such a
  string has no counterpart in `string`.
- `toLowerCase` and `toUpperCase` are modelled on ASCII letters only. The
  values they are applied to are hex strings, receipt codes and emails.
- `decimals()` is a natural number. `Number()` of an odd reply, such as NaN,
  is left out.
- `toTokenUnits` is left uninterpreted. The code imports it from
  `src/lib/amount.js`, which does not define it, so its rounding policy is
  not part of this model.
- `decodePaymentDetectedFromTx` is left uninterpreted. It is not defined in
  the event-decoding module.
- These foreign computations are left uninterpreted: the keccak hash
  (`tronWeb.sha3`, `keccak256`), `tronWeb.toHex`, `address.fromHex`,
  `utils.abi.decodeParams`, JWT verification, bcrypt, the ledger's
  `getTransactionInfo`, the token's `decimals()`, the store's insert of a
  merchant and the on-chain merchant registration. `src/lib/tron.js` and
  `src/lib/db.js` are not part of this model.
- The order table's `id`, `created_at` and `updated_at` columns are not
  modelled. "Changes nothing" in the `Idempotent` lemmas is therefore up to
  the timestamp that a repeated update may refresh.
- A JWT whose payload has no `sub` is left out. The token verifier returns
  the `sub` claim.
- In orders/confirm, an event without `merchantId` or `invoiceId` makes the
  store drop that filter. The model compares the raw strings instead.
- TronEvents.DecodedIndexedArgs: assumes the event's inputs have distinct
  names. With a repeated name the later assignment wins, and that is not
  stated.
- TronEvents.DecodedDataArgs: assumes distinct input names, for the same
  reason.
- ConfirmByTxidRoute.Handle: "no SUCCESS order leaves SUCCESS" is proved only
  for tables where every SUCCESS order is bound. An unbound SUCCESS row of
  the caller could be overwritten.
- ConfirmByIdsRoute.Handle: "no SUCCESS order leaves SUCCESS" holds under the
  same hypothesis. The fallback could turn an unbound SUCCESS row into
  IN_PROGRESS or FAILED.
- The UI pages, dashboard summary, order creation, login, `me`, order
  listing, payment links and id generation are left out. They are outside
  the reconciliation core.
