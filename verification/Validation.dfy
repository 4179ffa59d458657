/** The block rules: subsidy and fees, and name operations. */
module Validation {
  import opened Bytes
  import opened Records
  import opened Chain
  import N = NameStore
  import U = UtxoSet

  /** interval is the subsidy halving interval; trackFrom is UTXOTrackingStartHeight. */
  datatype Params = Params(interval: int, trackFrom: int)
  {
    predicate Valid() { interval > 0 }
  }

  const COIN: int := 100000000
  const INITIAL_SUBSIDY: int := 50 * COIN
  const MAX_HALVINGS: int := 64

  /** x >> n for a non-negative x. */
  function ShiftRight(x: nat, n: nat): nat {
    if n == 0 then x else ShiftRight(x, n - 1) / 2
  }

  function CalcBlockSubsidy(height: Height, interval: int): nat
    requires interval > 0
  {
    if height < 0 then 0
    else
      var halvings := height / interval;
      if halvings >= MAX_HALVINGS then 0 else ShiftRight(INITIAL_SUBSIDY, halvings)
  }

  // ----- sums of values -----

  /** A 64-bit running sum: its value, or skipped for want of old data, or refused. */
  datatype Sum = Total(value: int) | Skip | Refused

  predicate Overflows(total: int, value: int) {
    total > 0 && value > 0 && total > MAX_INT64 - value
  }

  function SumInputs(u: U.UtxoDb, ins: seq<OutPoint>, h: Height, trackFrom: int): Sum {
    if ins == [] then Total(0)
    else
      match SumInputs(u, ins[..|ins| - 1], h, trackFrom)
      case Skip => Skip
      case Refused => Refused
      case Total(t) =>
        var op := ins[|ins| - 1];
        if op !in u.utxo then (if h < trackFrom then Skip else Refused)
        else if u.utxo[op].value < 0 then Refused
        else if Overflows(t, u.utxo[op].value) then Refused
        else Total(t + u.utxo[op].value)
  }

  function SumOutputs(outs: seq<Output>): Sum {
    if outs == [] then Total(0)
    else
      match SumOutputs(outs[..|outs| - 1])
      case Skip => Skip
      case Refused => Refused
      case Total(t) =>
        var v := outs[|outs| - 1].value;
        if Overflows(t, v) then Refused else Total(t + v)
  }

  /** The fees of the given non-coinbase transactions; a negative fee counts as none. */
  function BlockFees(u: U.UtxoDb, txs: seq<Tx>, h: Height, trackFrom: int): Sum {
    if txs == [] then Total(0)
    else
      match BlockFees(u, txs[..|txs| - 1], h, trackFrom)
      case Skip => Skip
      case Refused => Refused
      case Total(fees) =>
        var tx := txs[|txs| - 1];
        match SumInputs(u, tx.ins, h, trackFrom)
        case Skip => Skip
        case Refused => Refused
        case Total(spent) =>
          match SumOutputs(tx.outs)
          case Skip => Refused
          case Refused => Refused
          case Total(paid) => Total(if spent - paid > 0 then fees + (spent - paid) else fees)
  }

  // ----- the subsidy rule -----

  predicate SubsidyOk(p: Params, u: U.UtxoDb, b: Block, h: Height)
    requires p.Valid()
  {
    && b.txs != []
    && var paid := SumOutputs(b.txs[0].outs);
       && paid.Total?
       && (h < 0 ||
           match BlockFees(u, b.txs[1..], h, p.trackFrom)
           case Skip => true
           case Refused => false
           case Total(fees) => paid.value <= CalcBlockSubsidy(h, p.interval) + fees)
  }

  // ----- the name rules -----

  function TypeOf(op: N.NameOp): OpType
    requires !op.NoOp?
  {
    match op
    case NewOp(_) => NameNew
    case FirstUpdateOp(_, _, _) => NameFirstUpdate
    case UpdateOp(_, _) => NameUpdate
  }

  function MinFee(t: OpType): int {
    match t
    case NameNew => MIN_RELAY_TX_FEE
    case NameFirstUpdate => MIN_NAME_OPERATION_FEE
    case NameUpdate => MIN_NAME_OPERATION_FEE
  }

  predicate TransactionFeeOk(p: Params, u: U.UtxoDb, tx: Tx, t: OpType, h: Height) {
    && tx.ins != []
    && match SumInputs(u, tx.ins, h, p.trackFrom)
       case Refused => false
       case Skip => true
       case Total(spent) =>
         match SumOutputs(tx.outs)
         case Total(paid) => spent - paid >= 0 && spent - paid >= MinFee(t)
         case _ => false
  }

  predicate FeesOk(p: Params, u: U.UtxoDb, tx: Tx, idx: nat, h: Height) {
    idx == 0 || forall j :: 0 <= j < |tx.outs| && !tx.outs[j].op.NoOp? ==> TransactionFeeOk(p, u, tx, TypeOf(tx.outs[j].op), h)
  }

  predicate FormatOk(name: Name, value: Bytes) {
    0 < |name| <= MAX_NAME_LENGTH && |value| <= MAX_VALUE_LENGTH
  }

  /** The commitment is stored and its age at height h is within the reveal window. */
  predicate WindowOk(l: N.Live, commit: Bytes, h: Height) {
    commit in l.nameNew && MIN_BLOCKS_BEFORE_FIRST_UPDATE <= h - l.nameNew[commit] <= MAX_BLOCKS_BEFORE_FIRST_UPDATE
  }

  predicate AvailableAt(l: N.Live, name: Name, h: Height) {
    name in l.names ==> l.names[name].expiresAt < h
  }

  predicate OwnedBy(l: N.Live, name: Name, ins: seq<OutPoint>, h: Height) {
    name in l.names && l.names[name].expiresAt >= h && OutPoint(l.names[name].txHash, l.names[name].outIndex) in ins
  }

  /** The rules for one name output that do not depend on the rest of the block. */
  predicate OutputOk(l: N.Live, tx: Tx, o: Output, h: Height) {
    match o.op
    case NoOp => true
    case NewOp(c) => o.value >= DUST_LIMIT && c !in l.nameNew
    case FirstUpdateOp(name, value, c) =>
      o.value >= DUST_LIMIT && AvailableAt(l, name, h) && WindowOk(l, c, h) && FormatOk(name, value)
    case UpdateOp(name, value) =>
      o.value >= DUST_LIMIT && OwnedBy(l, name, tx.ins, h) && FormatOk(name, value)
  }

  predicate TxOk(p: Params, db: Db, tx: Tx, idx: nat, h: Height) {
    && FeesOk(p, db.u, tx, idx, h)
    && forall j :: 0 <= j < |tx.outs| ==> OutputOk(db.n.live, tx, tx.outs[j], h)
  }

  /** Two operations that a block may not both contain: one commitment, or one name, twice. */
  predicate Clash(a: N.NameOp, b: N.NameOp) {
    || (a.NewOp? && b.NewOp? && a.commit == b.commit)
    || (a.Names() && b.Names() && a.name == b.name)
  }

  predicate NoClashes(es: seq<N.Entry>) {
    forall i, j :: 0 <= i < j < |es| ==> !Clash(es[i].op, es[j].op)
  }

  predicate NamesOk(p: Params, db: Db, b: Block, h: Height) {
    && (forall i :: 0 <= i < |b.txs| ==> TxOk(p, db, b.txs[i], i, h))
    && NoClashes(BlockEntries(b.txs))
  }

  /** What block processing checks before it touches the buckets. */
  predicate BlockOk(p: Params, db: Db, b: Block, h: Height)
    requires p.Valid()
  {
    SubsidyOk(p, db.u, b, h) && NamesOk(p, db, b, h)
  }
}
