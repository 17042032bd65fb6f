/** The rows the reconciliation routes read and write: orders and merchants,
    with the store-level facts the routes are judged against. The order table
    is a sequence in the store's row order; a row is identified by its position. */
module Store {
  import opened Base

  datatype Status = Pending | InProgress | Success | Failed

  /** The status names a request may carry: "SUCCESS" and "FAILED" only. */
  function ParseFinalStatus(s: string): (r: Option<Status>)
    ensures r.Some? <==> s == "SUCCESS" || s == "FAILED"
    ensures r.Some? ==> r.value == Success || r.value == Failed
  {
    if s == "SUCCESS" then Some(Success)
    else if s == "FAILED" then Some(Failed)
    else None
  }

  /** An order row; `txid == ""` stands for a NULL txid (no transaction bound). */
  datatype Order = Order(
    merchantId: string,
    orderId: string,
    invoiceId: string,
    amount: string,
    token: string,
    status: Status,
    txid: string)

  /** A merchant row. */
  datatype Merchant = Merchant(
    merchantId: string,
    address: string,
    name: string,
    email: string,
    passwordHash: string,
    active: bool)

  /** Statuses the webhook still considers: PENDING and IN_PROGRESS. */
  predicate IsOpen(s: Status) {
    s == Pending || s == InProgress
  }

  /** The unique constraint on `txid`: no two rows share a non-NULL txid. */
  ghost predicate TxidsUnique(db: seq<Order>) {
    forall i, j :: 0 <= i < j < |db| && db[i].txid != "" ==> db[i].txid != db[j].txid
  }

  /** Some row other than `i` already holds txid `t`. */
  predicate TxidTakenElsewhere(db: seq<Order>, i: nat, t: string) {
    exists j :: 0 <= j < |db| && j != i && db[j].txid == t
  }

  /** Every SUCCESS order is bound to a transaction. */
  ghost predicate SuccessBound(db: seq<Order>) {
    forall i :: 0 <= i < |db| && db[i].status == Success ==> db[i].txid != ""
  }

  /** `b` is `a` with at most one row replaced. */
  ghost predicate AtMostOneChanged<T>(a: seq<T>, b: seq<T>) {
    |a| == |b| && forall i, j :: 0 <= i < j < |a| && a[i] != b[i] ==> a[j] == b[j]
  }

  /** `o2` differs from `o` at most in status and txid. */
  predicate SameIdentity(o: Order, o2: Order) {
    o2.(status := o.status, txid := o.txid) == o
  }

  /** No SUCCESS order has left SUCCESS. */
  ghost predicate NoSuccessRegression(db: seq<Order>, db2: seq<Order>) {
    |db2| == |db| && forall i :: 0 <= i < |db| && db[i].status == Success ==> db2[i].status == Success
  }

  /** Every txid that was bound is still bound to the same row. */
  ghost predicate BoundTxidsKept(db: seq<Order>, db2: seq<Order>) {
    |db2| == |db| && forall i :: 0 <= i < |db| && db[i].txid != "" ==> db2[i].txid == db[i].txid
  }
}
