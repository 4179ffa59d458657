/**
 The block rules said without the validator: sums over all inputs and outputs, the amounts, ages
 and lengths as numbers, and clashes between any two places of the block.
 */
module DeclaredRules {
  import opened Bytes
  import opened Records
  import opened Chain
  import opened Validation
  import opened Outcome
  import N = NameStore
  import U = UtxoSet

  // ----- sums -----

  /** Every input is an unspent output. */
  ghost predicate AllLive(u: U.UtxoDb, ins: seq<OutPoint>) {
    forall i :: 0 <= i < |ins| ==> ins[i] in u.utxo
  }

  function Spent(u: U.UtxoDb, ins: seq<OutPoint>): int
    requires AllLive(u, ins)
  {
    if ins == [] then 0 else u.utxo[ins[0]].value + Spent(u, ins[1..])
  }

  function Paid(outs: seq<Output>): int {
    if outs == [] then 0 else outs[0].value + Paid(outs[1..])
  }

  ghost predicate NonNegative(u: U.UtxoDb, ins: seq<OutPoint>)
    requires AllLive(u, ins)
  {
    forall i :: 0 <= i < |ins| ==> u.utxo[ins[i]].value >= 0
  }

  /** The values are 64-bit integers, and no output is negative. */
  ghost predicate Amounts(u: U.UtxoDb, txs: seq<Tx>) {
    && (forall op :: op in u.utxo ==> u.utxo[op].value <= 0x7fff_ffff_ffff_ffff)
    && (forall i, j :: Place(txs, i, j) ==> 0 <= txs[i].outs[j].value <= 0x7fff_ffff_ffff_ffff)
  }

  lemma {:induction false} SpentSnoc(u: U.UtxoDb, ins: seq<OutPoint>)
    requires AllLive(u, ins) && ins != []
    ensures AllLive(u, ins[..|ins| - 1])
    ensures Spent(u, ins) == Spent(u, ins[..|ins| - 1]) + u.utxo[ins[|ins| - 1]].value
  {
    var n := |ins| - 1;
    if n == 0 {
      assert ins[1..] == [] && ins[..0] == [];
    } else {
      SpentSnoc(u, ins[1..]);
      assert ins[1..][..n - 1] == ins[..n][1..];
    }
  }

  lemma {:induction false} PaidSnoc(outs: seq<Output>)
    requires outs != []
    ensures Paid(outs) == Paid(outs[..|outs| - 1]) + outs[|outs| - 1].value
  {
    var n := |outs| - 1;
    if n == 0 {
      assert outs[1..] == [] && outs[..0] == [];
    } else {
      PaidSnoc(outs[1..]);
      assert outs[1..][..n - 1] == outs[..n][1..];
    }
  }

  lemma {:induction false} SpentGrows(u: U.UtxoDb, ins: seq<OutPoint>)
    requires AllLive(u, ins) && NonNegative(u, ins)
    ensures Spent(u, ins) >= 0
  {
    if ins != [] {
      SpentGrows(u, ins[1..]);
    }
  }

  lemma {:induction false} PaidGrows(outs: seq<Output>)
    requires forall j :: 0 <= j < |outs| ==> outs[j].value >= 0
    ensures Paid(outs) >= 0
  {
    if outs != [] {
      PaidGrows(outs[1..]);
    }
  }

  /** The inputs are unspent, not negative, and their sum fits 64 bits. */
  ghost predicate InputsFit(u: U.UtxoDb, ins: seq<OutPoint>) {
    AllLive(u, ins) && NonNegative(u, ins) && Spent(u, ins) <= 0x7fff_ffff_ffff_ffff
  }

  /** The running sum of the inputs is their sum, when they fit, and refused when they do not. */
  lemma {:induction false} InputsSum(u: U.UtxoDb, ins: seq<OutPoint>, h: Height, trackFrom: int)
    requires trackFrom <= h && forall op :: op in u.utxo ==> u.utxo[op].value <= MAX_INT64
    ensures SumInputs(u, ins, h, trackFrom) == if InputsFit(u, ins) then Sum.Total(Spent(u, ins)) else Refused
  {
    if ins != [] {
      var n := |ins| - 1;
      InputsSum(u, ins[..n], h, trackFrom);
      assert forall i :: 0 <= i < n ==> ins[..n][i] == ins[i];
      if AllLive(u, ins) {
        SpentSnoc(u, ins);
        if NonNegative(u, ins[..n]) {
          SpentGrows(u, ins[..n]);
        }
      }
    }
  }

  lemma {:induction false} OutputsSum(outs: seq<Output>)
    requires forall j :: 0 <= j < |outs| ==> 0 <= outs[j].value <= MAX_INT64
    ensures SumOutputs(outs) == if Paid(outs) <= MAX_INT64 then Sum.Total(Paid(outs)) else Refused
  {
    if outs != [] {
      var n := |outs| - 1;
      OutputsSum(outs[..n]);
      PaidSnoc(outs);
      PaidGrows(outs[..n]);
    }
  }

  // ----- the fee rules -----

  /** A registration or an update leaves at least 1,000,000, a NAME_NEW at least 1,000. */
  function LeastFee(op: N.NameOp): int
    requires !op.NoOp?
  {
    if op.NewOp? then 1000 else 1000000
  }

  /** The transaction spends something, its sums fit, and it leaves at least the fee. */
  ghost predicate Leaves(u: U.UtxoDb, tx: Tx, fee: int) {
    && tx.ins != [] && InputsFit(u, tx.ins) && Paid(tx.outs) <= 0x7fff_ffff_ffff_ffff
    && Spent(u, tx.ins) - Paid(tx.outs) >= fee
  }

  lemma FeeExactly(p: Params, u: U.UtxoDb, tx: Tx, op: N.NameOp, h: Height)
    requires p.trackFrom <= h && !op.NoOp?
    requires forall o :: o in u.utxo ==> u.utxo[o].value <= MAX_INT64
    requires forall j :: 0 <= j < |tx.outs| ==> 0 <= tx.outs[j].value <= MAX_INT64
    ensures TransactionFeeOk(p, u, tx, TypeOf(op), h) <==> Leaves(u, tx, LeastFee(op))
  {
    InputsSum(u, tx.ins, h, p.trackFrom);
    OutputsSum(tx.outs);
    hide SumInputs, SumOutputs, Spent, Paid, InputsFit;
  }

  // ----- the subsidy rule -----

  /** Inputs and outputs of every transaction after the first add up. */
  ghost predicate SumsFit(u: U.UtxoDb, txs: seq<Tx>) {
    forall i :: 1 <= i < |txs| ==> InputsFit(u, txs[i].ins) && Paid(txs[i].outs) <= 0x7fff_ffff_ffff_ffff
  }

  /** What the transactions before n, but the first, leave over; one that pays out more than it spends counts as nothing. */
  ghost function Fees(u: U.UtxoDb, txs: seq<Tx>, n: nat): int
    requires n <= |txs| && SumsFit(u, txs)
  {
    if n <= 1 then 0
    else
      var left := Spent(u, txs[n - 1].ins) - Paid(txs[n - 1].outs);
      Fees(u, txs, n - 1) + if left > 0 then left else 0
  }

  lemma {:induction false} FeesPart(u: U.UtxoDb, txs: seq<Tx>, m: nat, n: nat)
    requires n <= m <= |txs| && SumsFit(u, txs)
    ensures SumsFit(u, txs[..m]) && Fees(u, txs[..m], n) == Fees(u, txs, n)
  {
    assert forall i :: 0 <= i < m ==> txs[..m][i] == txs[i];
    if n > 1 {
      FeesPart(u, txs, m, n - 1);
    }
  }

  lemma {:induction false} FeesSum(u: U.UtxoDb, txs: seq<Tx>, h: Height, trackFrom: int)
    requires trackFrom <= h && txs != [] && Amounts(u, txs)
    ensures BlockFees(u, txs[1..], h, trackFrom) == if SumsFit(u, txs) then Sum.Total(Fees(u, txs, |txs|)) else Refused
  {
    var n := |txs| - 1;
    if n == 0 {
      assert txs[1..] == [];
    } else {
      hide SumInputs, SumOutputs, BlockFees, SumsFit, Spent, Paid, InputsFit, Amounts;
      AmountsPart(u, txs, n);
      FeesSum(u, txs[..n], h, trackFrom);
      InputsSum(u, txs[n].ins, h, trackFrom);
      OutputsSum(txs[n].outs);
      FeesSnoc(u, txs, h, trackFrom);
      SumsSnoc(u, txs);
    }
  }

  lemma AmountsPart(u: U.UtxoDb, txs: seq<Tx>, n: nat)
    requires Amounts(u, txs) && n < |txs|
    ensures Amounts(u, txs[..n]) && forall j :: 0 <= j < |txs[n].outs| ==> 0 <= txs[n].outs[j].value <= MAX_INT64
  {
    assert forall j :: 0 <= j < |txs[n].outs| ==> Place(txs, n, j);
    forall i, j | Place(txs[..n], i, j) ensures 0 <= txs[..n][i].outs[j].value <= MAX_INT64 {
      assert Place(txs, i, j);
    }
  }

  lemma FeesSnoc(u: U.UtxoDb, txs: seq<Tx>, h: Height, trackFrom: int)
    requires |txs| >= 2
    ensures var n := |txs| - 1;
            BlockFees(u, txs[1..], h, trackFrom) ==
            match BlockFees(u, txs[..n][1..], h, trackFrom)
            case Skip => Skip
            case Refused => Refused
            case Total(fees) =>
              match SumInputs(u, txs[n].ins, h, trackFrom)
              case Skip => Skip
              case Refused => Refused
              case Total(spent) =>
                match SumOutputs(txs[n].outs)
                case Skip => Refused
                case Refused => Refused
                case Total(paid) => Sum.Total(if spent - paid > 0 then fees + (spent - paid) else fees)
  {
    var n := |txs| - 1;
    assert txs[1..][..n - 1] == txs[..n][1..] && txs[1..][n - 1] == txs[n];
    hide SumInputs, SumOutputs;
  }

  lemma SumsSnoc(u: U.UtxoDb, txs: seq<Tx>)
    requires |txs| >= 2
    ensures var n := |txs| - 1;
            && (SumsFit(u, txs) <==> SumsFit(u, txs[..n]) && InputsFit(u, txs[n].ins) && Paid(txs[n].outs) <= MAX_INT64)
            && (SumsFit(u, txs) ==> Fees(u, txs[..n], n) == Fees(u, txs, n))
  {
    hide InputsFit, Paid;
    var n := |txs| - 1;
    assert forall i :: 0 <= i < n ==> txs[..n][i] == txs[i];
    if SumsFit(u, txs) {
      FeesPart(u, txs, n, n);
    }
  }

  /** The first transaction pays out no more than the subsidy and what the others leave. */
  ghost predicate FirstPays(p: Params, u: U.UtxoDb, txs: seq<Tx>, h: Height)
    requires p.Valid()
  {
    && txs != [] && SumsFit(u, txs)
    && Paid(txs[0].outs) <= 0x7fff_ffff_ffff_ffff
    && Paid(txs[0].outs) <= CalcBlockSubsidy(h, p.interval) + Fees(u, txs, |txs|)
  }

  lemma SubsidyExactly(p: Params, u: U.UtxoDb, b: Block, h: Height)
    requires p.Valid() && p.trackFrom <= h && 0 <= h && Amounts(u, b.txs)
    ensures SubsidyOk(p, u, b, h) <==> FirstPays(p, u, b.txs, h)
  {
    if b.txs != [] {
      FeesSum(u, b.txs, h, p.trackFrom);
      assert forall j :: 0 <= j < |b.txs[0].outs| ==> Place(b.txs, 0, j);
      OutputsSum(b.txs[0].outs);
    }
    hide SumOutputs, BlockFees, SumsFit, Fees, Paid, CalcBlockSubsidy;
  }

  // ----- the name rules -----

  /** What an output may do, on its own. */
  predicate MayStand(l: N.Live, tx: Tx, o: Output, h: Height) {
    && (!o.op.NoOp? ==> o.value >= 546)
    && (o.op.NewOp? ==> o.op.commit !in l.nameNew)
    && (o.op.FirstUpdateOp? ==>
          && o.op.commit in l.nameNew && 12 <= h - l.nameNew[o.op.commit] <= 36000
          && (o.op.name in l.names ==> l.names[o.op.name].expiresAt < h))
    && (o.op.UpdateOp? ==>
          && o.op.name in l.names && h <= l.names[o.op.name].expiresAt
          && exists k :: 0 <= k < |tx.ins| && tx.ins[k].tx == l.names[o.op.name].txHash && tx.ins[k].index == l.names[o.op.name].outIndex)
    && (o.op.Names() ==> 1 <= |o.op.name| <= 255 && |o.op.value| <= 520)
  }

  lemma OutputExactly(l: N.Live, tx: Tx, o: Output, h: Height)
    ensures OutputOk(l, tx, o, h) <==> MayStand(l, tx, o, h)
  {
    if o.op.UpdateOp? && o.op.name in l.names {
      var r := l.names[o.op.name];
      if k :| 0 <= k < |tx.ins| && tx.ins[k].tx == r.txHash && tx.ins[k].index == r.outIndex {
        assert tx.ins[k] == OutPoint(r.txHash, r.outIndex);
      }
      if OutPoint(r.txHash, r.outIndex) in tx.ins {
        var k :| 0 <= k < |tx.ins| && tx.ins[k] == OutPoint(r.txHash, r.outIndex);
      }
    }
  }

  /** Two operations cannot be in one block: the same commitment made twice, or the same name written twice. */
  predicate Conflict(a: N.NameOp, b: N.NameOp) {
    || (a.NewOp? && b.NewOp? && a.commit == b.commit)
    || (!a.NoOp? && !b.NoOp? && !a.NewOp? && !b.NewOp? && a.name == b.name)
  }

  ghost predicate NoConflicts(txs: seq<Tx>) {
    forall i, j, i', j' :: Place(txs, i, j) && Place(txs, i', j') && (i, j) != (i', j') ==> !Conflict(txs[i].outs[j].op, txs[i'].outs[j'].op)
  }

  lemma ConflictsExactly(txs: seq<Tx>)
    ensures NoClashes(BlockEntries(txs)) <==> NoConflicts(txs)
  {
    var es := BlockEntries(txs);
    hide BlockEntries, Offset;
    if NoClashes(es) {
      forall i: nat, j: nat, i': nat, j': nat | Place(txs, i, j) && Place(txs, i', j') && (i, j) != (i', j')
        ensures !Conflict(txs[i].outs[j].op, txs[i'].outs[j'].op)
      {
        EntryAt(txs, i, j);
        EntryAt(txs, i', j');
        OrderOfPlaces(txs, i, j, i', j');
        OrderOfPlaces(txs, i', j', i, j);
      }
    }
    if NoConflicts(txs) {
      forall k, m | 0 <= k < m < |es| ensures !Clash(es[k].op, es[m].op) {
        var i, j := PlaceOf(txs, k);
        var i', j' := PlaceOf(txs, m);
        EntryAt(txs, i, j);
        EntryAt(txs, i', j');
      }
    }
  }

  /** Every output may stand where it is, and every transaction after the first leaves the fee of each of its operations. */
  ghost predicate PlacesOk(u: U.UtxoDb, l: N.Live, txs: seq<Tx>, h: Height) {
    forall i, j :: Place(txs, i, j) ==>
      && MayStand(l, txs[i], txs[i].outs[j], h)
      && (i > 0 && !txs[i].outs[j].op.NoOp? ==> Leaves(u, txs[i], LeastFee(txs[i].outs[j].op)))
  }

  lemma PlacesExactly(p: Params, db: Db, b: Block, h: Height)
    requires p.trackFrom <= h && Amounts(db.u, b.txs)
    ensures (forall i :: 0 <= i < |b.txs| ==> TxOk(p, db, b.txs[i], i, h)) <==> PlacesOk(db.u, db.n.live, b.txs, h)
  {
    hide TransactionFeeOk, Leaves, OutputOk, MayStand;
    forall i, j | Place(b.txs, i, j)
      ensures OutputOk(db.n.live, b.txs[i], b.txs[i].outs[j], h) <==> MayStand(db.n.live, b.txs[i], b.txs[i].outs[j], h)
      ensures var op := b.txs[i].outs[j].op;
              !op.NoOp? ==> (TransactionFeeOk(p, db.u, b.txs[i], TypeOf(op), h) <==> Leaves(db.u, b.txs[i], LeastFee(op)))
    {
      OutputExactly(db.n.live, b.txs[i], b.txs[i].outs[j], h);
      assert forall k :: 0 <= k < |b.txs[i].outs| ==> Place(b.txs, i, k);
      if !b.txs[i].outs[j].op.NoOp? {
        FeeExactly(p, db.u, b.txs[i], b.txs[i].outs[j].op, h);
      }
    }
    hide Amounts;
    TxsByPlaces(p, db, b.txs, h);
  }

  lemma TxsByPlaces(p: Params, db: Db, txs: seq<Tx>, h: Height)
    ensures (forall i :: 0 <= i < |txs| ==> TxOk(p, db, txs[i], i, h)) <==>
            forall i, j :: Place(txs, i, j) ==>
              && OutputOk(db.n.live, txs[i], txs[i].outs[j], h)
              && (i > 0 && !txs[i].outs[j].op.NoOp? ==> TransactionFeeOk(p, db.u, txs[i], TypeOf(txs[i].outs[j].op), h))
  {
    hide TransactionFeeOk, OutputOk;
    if forall i, j :: Place(txs, i, j) ==>
         && OutputOk(db.n.live, txs[i], txs[i].outs[j], h)
         && (i > 0 && !txs[i].outs[j].op.NoOp? ==> TransactionFeeOk(p, db.u, txs[i], TypeOf(txs[i].outs[j].op), h)) {
      forall i | 0 <= i < |txs| ensures TxOk(p, db, txs[i], i, h) {
        assert forall j :: 0 <= j < |txs[i].outs| ==> Place(txs, i, j);
      }
    }
  }

  /**
   Exactly these blocks pass validation: the first transaction stays within subsidy and fees, each
   output may stand on its own, name transactions leave their fees, and no two outputs conflict.
   */
  lemma BlockExactly(p: Params, db: Db, b: Block, h: Height)
    requires p.Valid() && p.trackFrom <= h && 0 <= h && Amounts(db.u, b.txs)
    ensures BlockOk(p, db, b, h) <==> FirstPays(p, db.u, b.txs, h) && PlacesOk(db.u, db.n.live, b.txs, h) && NoConflicts(b.txs)
  {
    hide SubsidyOk, FirstPays, PlacesOk, NoConflicts, NoClashes, TxOk, Amounts, BlockEntries;
    SubsidyExactly(p, db.u, b, h);
    PlacesExactly(p, db, b, h);
    ConflictsExactly(b.txs);
  }

  // ----- below the height from which outputs are tracked -----

  /** An input is unknown, and the ones before it fit. */
  ghost predicate Untracked(u: U.UtxoDb, ins: seq<OutPoint>) {
    exists k :: 0 <= k < |ins| && InputsFit(u, ins[..k]) && ins[k] !in u.utxo
  }

  lemma {:induction false} UntrackedSum(u: U.UtxoDb, ins: seq<OutPoint>, h: Height, trackFrom: int)
    requires h < trackFrom && forall op :: op in u.utxo ==> u.utxo[op].value <= MAX_INT64
    ensures SumInputs(u, ins, h, trackFrom) ==
            if InputsFit(u, ins) then Sum.Total(Spent(u, ins)) else if Untracked(u, ins) then Skip else Refused
  {
    if ins != [] {
      var n := |ins| - 1;
      UntrackedSum(u, ins[..n], h, trackFrom);
      if AllLive(u, ins) {
        SpentSnoc(u, ins);
        if NonNegative(u, ins[..n]) {
          SpentGrows(u, ins[..n]);
        }
      }
      FitsSnoc(u, ins);
      UntrackedSnoc(u, ins);
      hide InputsFit, Untracked;
    }
  }

  lemma FitsSnoc(u: U.UtxoDb, ins: seq<OutPoint>)
    requires ins != []
    ensures InputsFit(u, ins) ==> InputsFit(u, ins[..|ins| - 1]) && ins[|ins| - 1] in u.utxo && u.utxo[ins[|ins| - 1]].value >= 0
    ensures InputsFit(u, ins[..|ins| - 1]) && ins[|ins| - 1] in u.utxo && u.utxo[ins[|ins| - 1]].value >= 0 ==>
              AllLive(u, ins) && NonNegative(u, ins)
  {
    var n := |ins| - 1;
    assert forall i :: 0 <= i < n ==> ins[..n][i] == ins[i];
    if InputsFit(u, ins) {
      SpentSnoc(u, ins);
    }
  }

  lemma UntrackedSnoc(u: U.UtxoDb, ins: seq<OutPoint>)
    requires ins != []
    ensures Untracked(u, ins) <==> Untracked(u, ins[..|ins| - 1]) || (InputsFit(u, ins[..|ins| - 1]) && ins[|ins| - 1] !in u.utxo)
    ensures Untracked(u, ins[..|ins| - 1]) ==> !InputsFit(u, ins[..|ins| - 1])
  {
    hide InputsFit;
    var n := |ins| - 1;
    assert forall k :: 0 <= k < n ==> ins[..n][..k] == ins[..k] && ins[..n][k] == ins[k];
    if Untracked(u, ins[..n]) {
      var k :| 0 <= k < n && InputsFit(u, ins[..n][..k]) && ins[..n][k] !in u.utxo;
      assert InputsFit(u, ins[..k]);
      NotFit(u, ins[..n], k);
    }
  }

  lemma NotFit(u: U.UtxoDb, ins: seq<OutPoint>, k: nat)
    requires k < |ins| && ins[k] !in u.utxo
    ensures !InputsFit(u, ins)
  {
  }

  /** There a transaction with an unknown input passes the fee check, whatever it pays. */
  lemma UntrackedFee(p: Params, u: U.UtxoDb, tx: Tx, op: N.NameOp, h: Height)
    requires h < p.trackFrom && !op.NoOp?
    requires forall o :: o in u.utxo ==> u.utxo[o].value <= MAX_INT64
    requires forall j :: 0 <= j < |tx.outs| ==> 0 <= tx.outs[j].value <= MAX_INT64
    ensures TransactionFeeOk(p, u, tx, TypeOf(op), h) <==> Leaves(u, tx, LeastFee(op)) || Untracked(u, tx.ins)
  {
    UntrackedSum(u, tx.ins, h, p.trackFrom);
    OutputsSum(tx.outs);
    if k :| 0 <= k < |tx.ins| && InputsFit(u, tx.ins[..k]) && tx.ins[k] !in u.utxo {
      NotFit(u, tx.ins, k);
    }
    hide SumInputs, SumOutputs, Spent, Paid, InputsFit;
  }

  /** Transaction i has an unknown input, and the ones before it add up. */
  ghost predicate UntrackedAt(u: U.UtxoDb, txs: seq<Tx>, i: int) {
    1 <= i < |txs| && SumsFit(u, txs[..i]) && Untracked(u, txs[i].ins)
  }

  lemma {:induction false} UntrackedFees(u: U.UtxoDb, txs: seq<Tx>, h: Height, trackFrom: int)
    requires h < trackFrom && txs != [] && Amounts(u, txs)
    ensures BlockFees(u, txs[1..], h, trackFrom) ==
            if SumsFit(u, txs) then Sum.Total(Fees(u, txs, |txs|))
            else if exists i :: UntrackedAt(u, txs, i) then Skip
            else Refused
  {
    var n := |txs| - 1;
    if n == 0 {
      assert txs[1..] == [];
    } else {
      hide SumInputs, SumOutputs, BlockFees, SumsFit, Spent, Paid, InputsFit, Amounts, Untracked, UntrackedAt;
      AmountsPart(u, txs, n);
      UntrackedFees(u, txs[..n], h, trackFrom);
      UntrackedSum(u, txs[n].ins, h, trackFrom);
      OutputsSum(txs[n].outs);
      FeesSnoc(u, txs, h, trackFrom);
      SumsSnoc(u, txs);
      UntrackedAtSnoc(u, txs);
    }
  }

  lemma UntrackedAtSnoc(u: U.UtxoDb, txs: seq<Tx>)
    requires |txs| >= 2
    ensures var n := |txs| - 1;
            && ((exists i :: UntrackedAt(u, txs, i)) <==>
                (exists i :: UntrackedAt(u, txs[..n], i)) || (SumsFit(u, txs[..n]) && Untracked(u, txs[n].ins)))
            && ((exists i :: UntrackedAt(u, txs[..n], i)) ==> !SumsFit(u, txs[..n]))
            && (Untracked(u, txs[n].ins) ==> !InputsFit(u, txs[n].ins))
  {
    var n := |txs| - 1;
    if k :| 0 <= k < |txs[n].ins| && InputsFit(u, txs[n].ins[..k]) && txs[n].ins[k] !in u.utxo {
      NotFit(u, txs[n].ins, k);
    }
    hide Untracked, InputsFit, Paid;
    forall i | 1 <= i < n ensures UntrackedAt(u, txs, i) <==> UntrackedAt(u, txs[..n], i) {
      assert txs[..n][..i] == txs[..i];
    }
    if i :| UntrackedAt(u, txs[..n], i) {
      assert UntrackedAt(u, txs, i);
      UntrackedDoNotFit(u, txs[..n], i);
    }
    if SumsFit(u, txs[..n]) && Untracked(u, txs[n].ins) {
      assert UntrackedAt(u, txs, n);
    }
    if i :| UntrackedAt(u, txs, i) {
      assert i < n ==> UntrackedAt(u, txs[..n], i);
    }
  }

  lemma UntrackedDoNotFit(u: U.UtxoDb, txs: seq<Tx>, i: int)
    requires UntrackedAt(u, txs, i)
    ensures !SumsFit(u, txs)
  {
    hide InputsFit, Paid;
    var k :| 0 <= k < |txs[i].ins| && InputsFit(u, txs[i].ins[..k]) && txs[i].ins[k] !in u.utxo;
    NotFit(u, txs[i].ins, k);
  }

  /** And a block with one is not held to subsidy and fees. */
  lemma UntrackedSubsidy(p: Params, u: U.UtxoDb, b: Block, h: Height)
    requires p.Valid() && 0 <= h < p.trackFrom && Amounts(u, b.txs)
    ensures SubsidyOk(p, u, b, h) <==>
            || FirstPays(p, u, b.txs, h)
            || (b.txs != [] && Paid(b.txs[0].outs) <= 0x7fff_ffff_ffff_ffff && exists i :: UntrackedAt(u, b.txs, i))
  {
    if b.txs != [] {
      UntrackedFees(u, b.txs, h, p.trackFrom);
      assert forall j :: 0 <= j < |b.txs[0].outs| ==> Place(b.txs, 0, j);
      OutputsSum(b.txs[0].outs);
      if i :| UntrackedAt(u, b.txs, i) {
        UntrackedDoNotFit(u, b.txs, i);
      }
    }
    hide SumOutputs, BlockFees, SumsFit, Fees, Paid, CalcBlockSubsidy, UntrackedAt;
  }
}
