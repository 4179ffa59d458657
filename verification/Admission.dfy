/** Which transactions the mempool admits, said without its checks. */
module Admission {
  import opened Bytes
  import opened Records
  import opened Chain
  import opened Validation
  import opened Mempool
  import opened DeclaredRules

  lemma {:induction false} NoneNamed(outs: seq<Output>)
    requires forall j :: 0 <= j < |outs| ==> outs[j].op.NoOp?
    ensures NameOutputs(outs) == []
  {
    if outs != [] {
      NoneNamed(outs[..|outs| - 1]);
    }
  }

  lemma {:induction false} OneNamed(outs: seq<Output>, j: nat)
    requires j < |outs| && forall k :: 0 <= k < |outs| ==> (outs[k].op.NoOp? <==> k != j)
    ensures NameOutputs(outs) == [outs[j]]
  {
    var n := |outs| - 1;
    if j < n {
      OneNamed(outs[..n], j);
    } else {
      NoneNamed(outs[..n]);
    }
  }

  /** A transaction without name outputs needs an output, and an input that is not that of a coinbase. */
  lemma PaymentsAdmitted(p: Params, db: Db, tx: Tx, height: Height)
    requires forall j :: 0 <= j < |tx.outs| ==> tx.outs[j].op.NoOp?
    ensures MempoolOk(p, db, tx, height) <==> |tx.outs| >= 1 && |tx.ins| >= 1 && exists k :: 0 <= k < 32 && tx.ins[0].tx[k] != 0
  {
    NoneNamed(tx.outs);
  }

  /**
   A transaction whose output j alone is a name operation needs that output to stand at the
   tip's height, and has to leave 1,000 for a NAME_NEW and 1,000,000 for the other two.
   */
  lemma NameOperationsAdmitted(p: Params, db: Db, tx: Tx, j: nat, height: Height)
    requires j < |tx.outs| && forall k :: 0 <= k < |tx.outs| ==> (tx.outs[k].op.NoOp? <==> k != j)
    requires p.trackFrom <= height && forall o :: o in db.u.utxo ==> db.u.utxo[o].value <= MAX_INT64
    requires forall k :: 0 <= k < |tx.outs| ==> 0 <= tx.outs[k].value <= MAX_INT64
    ensures MempoolOk(p, db, tx, height) <==>
            && MayStand(db.n.live, tx, tx.outs[j], height)
            && Leaves(db.u, tx, if tx.outs[j].op.NewOp? then 1000 else 1000000)
  {
    hide OutputOk, MayStand, TransactionFeeOk, Leaves;
    OneNamed(tx.outs, j);
    OutputExactly(db.n.live, tx, tx.outs[j], height);
    FeeExactly(p, db.u, tx, tx.outs[j].op, height);
  }

  /** Two name operations in one transaction are never admitted. */
  lemma SeveralRefused(p: Params, db: Db, tx: Tx, i: nat, j: nat, height: Height)
    requires i < j < |tx.outs| && !tx.outs[i].op.NoOp? && !tx.outs[j].op.NoOp?
    ensures !MempoolOk(p, db, tx, height)
  {
    OneNameOutput(tx.outs, i, j);
  }
}
