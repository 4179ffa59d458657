/**
 The mempool's checks of a single transaction, written apart from the block checks, and how
 the two agree.
 */
module Mempool {
  import opened Bytes
  import opened Records
  import opened Chain
  import opened Validation
  import opened BlockRules
  import opened NameDatabaseStore
  import BucketSteps
  import Coherence
  import Lru
  import N = NameStore

  /** The null hash, which a coinbase input refers to. */
  predicate IsZero(h: Hash) {
    forall i :: 0 <= i < |h| ==> h[i] == 0
  }

  /** The outputs that carry a name operation. */
  function NameOutputs(outs: seq<Output>): (r: seq<Output>)
    ensures forall i :: 0 <= i < |r| ==> !r[i].op.NoOp?
  {
    if outs == [] then []
    else
      var r := NameOutputs(outs[..|outs| - 1]);
      if outs[|outs| - 1].op.NoOp? then r else r + [outs[|outs| - 1]]
  }

  predicate RegularOk(tx: Tx) {
    tx.outs != [] && tx.ins != [] && !IsZero(tx.ins[0].tx)
  }

  /** At most one name operation, which passes at the current height and pays its fee. */
  predicate MempoolOk(p: Params, db: Db, tx: Tx, height: Height) {
    var named := NameOutputs(tx.outs);
    if named == [] then RegularOk(tx)
    else
      && |named| == 1
      && OutputOk(db.n.live, tx, named[0], height)
      && TransactionFeeOk(p, db.u, tx, TypeOf(named[0].op), height)
  }

  // ----- the checks -----

  method ValidateNameNew(nameDB: NameDatabase, commit: Bytes) returns (ok: bool)
    ensures ok <==> commit !in nameDB.nameNew
  {
    var stored := nameDB.GetNameNew(commit);
    ok := stored.None?;
  }

  method ValidateNameFirstUpdate(nameDB: NameDatabase, name: Name, value: Bytes, commit: Bytes, height: Height) returns (ok: bool)
    requires nameDB.Valid()
    modifies nameDB.cache.Repr
    ensures nameDB.Valid() && fresh(nameDB.cache.Repr - old(nameDB.cache.Repr))
    ensures ok <==> AvailableAt(nameDB.Live(), name, height) && WindowOk(nameDB.Live(), commit, height) && FormatOk(name, value)
  {
    hide BucketSteps.NoEmptyLists, Coherence.Coherent, Lru.LruCache.Valid;
    var existing := nameDB.GetName(name);
    if existing.Some? && existing.value.expiresAt >= height {
      return false;
    }
    var stored := nameDB.GetNameNew(commit);
    if stored.None? || height < stored.value {
      return false;
    }
    var blocksSinceNew := height - stored.value;
    if blocksSinceNew < MIN_BLOCKS_BEFORE_FIRST_UPDATE || blocksSinceNew > MAX_BLOCKS_BEFORE_FIRST_UPDATE {
      return false;
    }
    ok := FormatOk(name, value);
  }

  method ValidateNameUpdate(nameDB: NameDatabase, tx: Tx, name: Name, value: Bytes, height: Height) returns (ok: bool)
    requires nameDB.Valid()
    modifies nameDB.cache.Repr
    ensures nameDB.Valid() && fresh(nameDB.cache.Repr - old(nameDB.cache.Repr))
    ensures ok <==> OwnedBy(nameDB.Live(), name, tx.ins, height) && FormatOk(name, value)
  {
    hide BucketSteps.NoEmptyLists, Coherence.Coherent, Lru.LruCache.Valid;
    var record := nameDB.GetName(name);
    if record.None? || record.value.expiresAt < height {
      return false;
    }
    var found := SpendsOutPoint(tx, OutPoint(record.value.txHash, record.value.outIndex));
    ok := found && FormatOk(name, value);
  }

  method ValidateNameOperation(nameDB: NameDatabase, tx: Tx, o: Output, height: Height) returns (ok: bool)
    requires nameDB.Valid() && o.value >= DUST_LIMIT
    modifies nameDB.cache.Repr
    ensures nameDB.Valid() && fresh(nameDB.cache.Repr - old(nameDB.cache.Repr))
    ensures ok <==> OutputOk(nameDB.Live(), tx, o, height)
  {
    match o.op {
      case NoOp => ok := true;
      case NewOp(commit) => ok := ValidateNameNew(nameDB, commit);
      case FirstUpdateOp(name, value, commit) => ok := ValidateNameFirstUpdate(nameDB, name, value, commit, height);
      case UpdateOp(name, value) => ok := ValidateNameUpdate(nameDB, tx, name, value, height);
    }
  }

  method ValidateRegularTransaction(tx: Tx) returns (ok: bool)
    ensures ok <==> RegularOk(tx)
  {
    if |tx.outs| == 0 || |tx.ins| == 0 {
      return false;
    }
    ok := !IsZero(tx.ins[0].tx);
  }

  lemma {:induction false} MoreNameOutputs(outs: seq<Output>, i: nat)
    requires i <= |outs|
    ensures |NameOutputs(outs[..i])| <= |NameOutputs(outs)|
    ensures NameOutputs(outs[..i]) <= NameOutputs(outs)
    decreases |outs|
  {
    if i == |outs| {
      assert outs[..i] == outs;
    } else {
      assert outs[..|outs| - 1][..i] == outs[..i];
      MoreNameOutputs(outs[..|outs| - 1], i);
    }
  }

  /** The first name operation is checked; a second one is refused. */
  method ValidateMempoolTransaction(nameDB: NameDatabase, p: Params, tx: Tx, height: Height) returns (ok: bool)
    requires nameDB.Valid()
    modifies nameDB.cache.Repr
    ensures nameDB.Valid() && fresh(nameDB.cache.Repr - old(nameDB.cache.Repr))
    ensures ok <==> MempoolOk(p, Db(nameDB.Names(), nameDB.Utxos()), tx, height)
  {
    hide OutputOk, TransactionFeeOk, BucketSteps.NoEmptyLists, Coherence.Coherent, Lru.LruCache.Valid;
    var hasNameOp := false;
    ghost var db := Db(nameDB.Names(), nameDB.Utxos());
    for i := 0 to |tx.outs|
      invariant nameDB.Valid() && fresh(nameDB.cache.Repr - old(nameDB.cache.Repr))
      invariant |NameOutputs(tx.outs[..i])| == if hasNameOp then 1 else 0
      invariant hasNameOp ==> OutputOk(db.n.live, tx, NameOutputs(tx.outs[..i])[0], height)
                              && TransactionFeeOk(p, db.u, tx, TypeOf(NameOutputs(tx.outs[..i])[0].op), height)
    {
      assert tx.outs[..i + 1][..i] == tx.outs[..i];
      MoreNameOutputs(tx.outs, i + 1);
      var o := tx.outs[i];
      if !o.op.NoOp? {
        if hasNameOp || o.value < DUST_LIMIT {
          if !hasNameOp { DustRefused(db.n.live, tx, o, height); }
          return false;
        }
        hasNameOp := true;
        var valid := ValidateNameOperation(nameDB, tx, o, height);
        if !valid {
          return false;
        }
        var paid := ValidateTransactionFee(nameDB, p, tx, TypeOf(o.op), height);
        if !paid {
          return false;
        }
      }
    }
    assert tx.outs[..|tx.outs|] == tx.outs;
    if hasNameOp {
      return true;
    }
    ok := ValidateRegularTransaction(tx);
  }

  lemma DustRefused(l: N.Live, tx: Tx, o: Output, height: Height)
    requires !o.op.NoOp? && o.value < DUST_LIMIT
    ensures !OutputOk(l, tx, o, height)
  {
  }

  // ----- agreement -----

  lemma {:induction false} NameOutputsFrom(outs: seq<Output>)
    ensures forall o :: o in NameOutputs(outs) <==> o in outs && !o.op.NoOp?
  {
    if outs != [] {
      var n := |outs| - 1;
      NameOutputsFrom(outs[..n]);
      assert outs == outs[..n] + [outs[n]];
    }
  }

  lemma {:induction false} OneNameOutput(outs: seq<Output>, i: nat, j: nat)
    requires i < j < |outs| && !outs[i].op.NoOp? && !outs[j].op.NoOp?
    ensures |NameOutputs(outs)| >= 2
  {
    MoreNameOutputs(outs, i + 1);
    MoreNameOutputs(outs, j);
    MoreNameOutputs(outs, j + 1);
    MoreNameOutputs(outs[..j], i + 1);
    assert outs[..j][..i + 1] == outs[..i + 1];
    assert outs[..j + 1][..j] == outs[..j];
    assert outs[..i + 1][..i] == outs[..i];
  }

  /**
   The two validators agree: a transaction with one name output that is not a coinbase passes
   the mempool at a height exactly when the block check, starting afresh, passes it there.
   */
  lemma MempoolAgrees(p: Params, db: Db, tx: Tx, idx: nat, height: Height)
    requires idx > 0 && |NameOutputs(tx.outs)| == 1
    ensures MempoolOk(p, db, tx, height) <==> TxOk(p, db, tx, idx, height) && NoClashes(TxEntries(tx))
  {
    hide OutputOk, TransactionFeeOk;
    var o := NameOutputs(tx.outs)[0];
    NameOutputsFrom(tx.outs);
    assert o in NameOutputs(tx.outs);
    var k :| 0 <= k < |tx.outs| && tx.outs[k] == o;
    forall j | 0 <= j < |tx.outs| && !tx.outs[j].op.NoOp? ensures j == k {
      if j < k { OneNameOutput(tx.outs, j, k); }
      if k < j { OneNameOutput(tx.outs, k, j); }
    }
    forall j | 0 <= j < |tx.outs| && j != k ensures OutputOk(db.n.live, tx, tx.outs[j], height) {
      NoOpPasses(db.n.live, tx, tx.outs[j], height);
    }
    assert NoClashes(TxEntries(tx));
  }

  lemma NoOpPasses(l: N.Live, tx: Tx, o: Output, height: Height)
    requires o.op.NoOp?
    ensures OutputOk(l, tx, o, height)
  {
  }

  /** A block may hold a transaction with several name outputs; the mempool never accepts one. */
  lemma MempoolRefusesSeveral(p: Params, db: Db, tx: Tx, height: Height)
    requires |NameOutputs(tx.outs)| > 1
    ensures !MempoolOk(p, db, tx, height)
  {
  }

  /** The last height at which an output passes: its window, or the name it updates, ends there. */
  predicate EndsAt(l: N.Live, o: Output, height: Height) {
    match o.op
    case FirstUpdateOp(_, _, c) => c in l.nameNew && height - l.nameNew[c] == MAX_BLOCKS_BEFORE_FIRST_UPDATE
    case UpdateOp(name, _) => name in l.names && l.names[name].expiresAt == height
    case _ => false
  }

  /** The first height at which an output passes: its window starts, or the old registration has ended. */
  predicate StartsAfter(l: N.Live, o: Output, height: Height) {
    match o.op
    case FirstUpdateOp(name, _, c) =>
      || (c in l.nameNew && height - l.nameNew[c] == MIN_BLOCKS_BEFORE_FIRST_UPDATE - 1)
      || (name in l.names && l.names[name].expiresAt == height)
    case _ => false
  }

  /**
   The mempool judges at the height of the tip, the block that includes the transaction is one
   higher.  This is exactly where the two answers come apart.
   */
  lemma NextBlockDiffers(l: N.Live, tx: Tx, o: Output, height: Height)
    requires height < MAX_INT32
    ensures OutputOk(l, tx, o, height) && !OutputOk(l, tx, o, height + 1) <==> OutputOk(l, tx, o, height) && EndsAt(l, o, height)
    ensures !OutputOk(l, tx, o, height) && OutputOk(l, tx, o, height + 1) <==> OutputOk(l, tx, o, height + 1) && StartsAfter(l, o, height)
  {
  }
}
