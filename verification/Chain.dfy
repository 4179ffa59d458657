/**
 Blocks as the name database sees them, and what connecting and disconnecting one does to
 the buckets.
 */
module Chain {
  import opened Bytes
  import opened Records
  import Cursor
  import N = NameStore
  import U = UtxoSet

  /**
   A transaction output.  address is the first address btcd extracts from the whole script,
   op is what the script parses to, and owner is the address of the script behind the name
   prefix.
   */
  datatype Output = Output(value: int, script: Bytes, address: Bytes, op: N.NameOp, owner: Bytes)

  datatype Tx = Tx(id: Hash, ins: seq<OutPoint>, outs: seq<Output>)

  datatype Block = Block(txs: seq<Tx>, time: int)

  datatype Db = Db(n: N.NameDb, u: U.UtxoDb)

  const EMPTY := Db(
    N.NameDb(N.Live(map[], {}, map[], map[], map[]), N.Backups(map[], {}, map[], map[])),
    U.UtxoDb(map[], {}, map[], {}))

  // ----- the order in which a block touches the buckets -----

  function EntryOf(tx: Tx, i: nat): N.Entry
    requires i < |tx.outs|
  {
    N.Entry(tx.id, i % TWO_32, tx.outs[i].op, tx.outs[i].owner)
  }

  function TxEntries(tx: Tx): (es: seq<N.Entry>)
    ensures |es| == |tx.outs|
  {
    seq(|tx.outs|, i requires 0 <= i < |tx.outs| => EntryOf(tx, i))
  }

  /** Every output of the block, in block order, as a name operation. */
  function BlockEntries(txs: seq<Tx>): seq<N.Entry> {
    if txs == [] then [] else BlockEntries(txs[..|txs| - 1]) + TxEntries(txs[|txs| - 1])
  }

  function SpendSteps(tx: Tx): (steps: seq<U.UStep>)
    ensures |steps| == |tx.ins|
  {
    seq(|tx.ins|, i requires 0 <= i < |tx.ins| => U.Spend(tx.ins[i]))
  }

  function CreateStep(tx: Tx, i: nat, h: Height): U.UStep
    requires i < |tx.outs|
  {
    var o := tx.outs[i];
    U.Create(OutPoint(tx.id, i % TWO_32), Utxo(o.value, o.address, o.script, h))
  }

  function CreateSteps(tx: Tx, h: Height): (steps: seq<U.UStep>)
    ensures |steps| == |tx.outs|
  {
    seq(|tx.outs|, i requires 0 <= i < |tx.outs| => CreateStep(tx, i, h))
  }

  /** The inputs of a transaction, unless it is the coinbase, and then its outputs. */
  function TxSteps(tx: Tx, idx: nat, h: Height): seq<U.UStep> {
    (if idx > 0 then SpendSteps(tx) else []) + CreateSteps(tx, h)
  }

  function BlockSteps(txs: seq<Tx>, h: Height): seq<U.UStep> {
    if txs == [] then [] else BlockSteps(txs[..|txs| - 1], h) + TxSteps(txs[|txs| - 1], |txs| - 1, h)
  }

  function TxOutPoints(tx: Tx): (ops: seq<OutPoint>)
    ensures |ops| == |tx.outs|
  {
    seq(|tx.outs|, i requires 0 <= i < |tx.outs| => OutPoint(tx.id, i % TWO_32))
  }

  /** The outputs a rollback removes, in its order: transactions last first. */
  function RemovalOrder(txs: seq<Tx>): seq<OutPoint> {
    if txs == [] then [] else TxOutPoints(txs[|txs| - 1]) + RemovalOrder(txs[..|txs| - 1])
  }

  // ----- connect -----

  function ExpireNames(d: N.NameDb, h: Height): N.NameDb {
    N.ExpireAll(d, Cursor.GetExpiredNames(d.live.expiration, h), h)
  }

  /** Old backups are dropped every 100 blocks. */
  predicate PrunesAt(h: Height) {
    h > RETENTION_DEPTH && h % 100 == 0
  }

  function Prune(db: Db, floor: int): Db {
    Db(N.NameDb(db.n.live, N.PruneExpired(db.n.back, floor)), U.PruneSpent(db.u, floor))
  }

  function Cleanup(db: Db, h: Height): Db {
    if PrunesAt(h) then Prune(db, h - RETENTION_DEPTH) else db
  }

  /** The buckets after the block's transactions, before old backups are dropped. */
  function Process(db: Db, b: Block, h: Height): Db {
    var expired := ExpireNames(db.n, h);
    Db(
      N.NameDb(N.ApplyEntries(expired.live, BlockEntries(b.txs), h, b.time), expired.back),
      U.ApplySteps(db.u, BlockSteps(b.txs, h), h))
  }

  function Connect(db: Db, b: Block, h: Height): Db {
    Cleanup(Process(db, b, h), h)
  }

  /** Connecting succeeds when the buckets can hold every output and commitment, and no commitment is registered twice. */
  predicate ConnectOk(db: Db, b: Block, h: Height) {
    && N.EntriesOk(ExpireNames(db.n, h).live, BlockEntries(b.txs), h, b.time)
    && U.StepsOk(db.u, BlockSteps(b.txs, h), h)
  }

  // ----- disconnect -----

  function DisconnectNames(d: N.NameDb, b: Block, h: Height): N.NameDb {
    var restored := N.RestoreExpired(d, h);
    N.NameDb(N.UndoEntries(N.Undoing(restored.live, {}), BlockEntries(b.txs), h).live, restored.back)
  }

  function DisconnectUtxos(u: U.UtxoDb, b: Block, h: Height): U.UtxoDb {
    U.RestoreSpent(U.RemoveAll(u, RemovalOrder(b.txs)), h)
  }

  function Disconnect(db: Db, b: Block, h: Height): Db {
    Db(DisconnectNames(db.n, b, h), DisconnectUtxos(db.u, b, h))
  }
}
