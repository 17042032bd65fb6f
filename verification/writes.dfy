/** The single order update a route may end in, and its application to the
    order table under the unique constraint on `txid`. */
module Writes {
  import opened Store
  import opened Http

  /** Replace row `index` by `row`. `setsTxid` says whether the update names
      the `txid` column; `response` is answered when the update goes through
      and `onConflict` when the unique constraint on `txid` rejects it. */
  datatype Write = Write(index: nat, row: Order, setsTxid: bool, response: Response, onConflict: Response)

  /** The shape every route's update has: it targets an existing row, keeps
      the row's identity columns, writes a non-NULL txid when it names that
      column and leaves it alone otherwise, never makes an unbound SUCCESS
      row, and answers success when it goes through and an error when not. */
  ghost predicate ValidWrite(db: seq<Order>, w: Write) {
    && w.index < |db|
    && SameIdentity(db[w.index], w.row)
    && (w.setsTxid ==> w.row.txid != "")
    && (!w.setsTxid ==> w.row.txid == db[w.index].txid)
    && (w.row.status == Success ==> w.row.txid != "")
    && w.response.Ok?
    && w.onConflict.Bad?
  }

  /** Carry out a route's decision: a halted route answers without touching
      the table; an update that would give a second row the same txid is
      rejected by the store (Prisma error P2002) and changes nothing. */
  function Commit(db: seq<Order>, step: Step<Write>): (r: (Response, seq<Order>))
    requires step.Go? ==> ValidWrite(db, step.value)
    ensures r.0.Bad? ==> r.1 == db
    ensures AtMostOneChanged(db, r.1)
    ensures TxidsUnique(db) ==> TxidsUnique(r.1)
    ensures SuccessBound(db) ==> SuccessBound(r.1)
    ensures step.Halt? ==> r == (step.response, db)
    ensures step.Go? ==>
      if step.value.setsTxid && TxidTakenElsewhere(db, step.value.index, step.value.row.txid)
      then r == (step.value.onConflict, db)
      else r == (step.value.response, db[step.value.index := step.value.row])
  {
    match step
    case Halt(response) => (response, db)
    case Go(w) =>
      if w.setsTxid && TxidTakenElsewhere(db, w.index, w.row.txid) then (w.onConflict, db)
      else (w.response, db[w.index := w.row])
  }

  /** An update to a row already holding the txid it writes is a no-op. */
  lemma CommitSameRow(db: seq<Order>, w: Write)
    requires ValidWrite(db, w)
    requires w.row == db[w.index]
    ensures Commit(db, Go(w)).1 == db
  {
  }

  /** Once a txid is bound to row `i`, no update can bind it to another row. */
  lemma BoundTxidBlocksOthers(db: seq<Order>, w: Write, i: nat)
    requires ValidWrite(db, w)
    requires i < |db| && i != w.index && w.setsTxid && db[i].txid == w.row.txid
    ensures Commit(db, Go(w)) == (w.onConflict, db)
  {
  }

  /** An update that binds a txid only to an unbound row leaves every bound
      txid where it was. */
  lemma CommitKeepsBoundTxids(db: seq<Order>, step: Step<Write>)
    requires step.Go? ==> ValidWrite(db, step.value)
    requires step.Go? && step.value.setsTxid ==> db[step.value.index].txid == ""
    ensures BoundTxidsKept(db, Commit(db, step).1)
  {
  }

  /** An update that never turns a SUCCESS row into another status leaves
      every SUCCESS order SUCCESS. */
  lemma CommitKeepsSuccess(db: seq<Order>, step: Step<Write>)
    requires step.Go? ==> ValidWrite(db, step.value)
    ensures (step.Go? && db[step.value.index].status == Success ==> step.value.row.status == Success) ==>
      NoSuccessRegression(db, Commit(db, step).1)
  {
  }
}
