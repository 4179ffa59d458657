/**
 What a valid block guarantees about the steps it is made of.  Validation alone is not
 enough: the facts below come from btcd's own block checks.
 */
module BlockFacts {
  import opened Bytes
  import opened Records
  import opened Chain
  import opened Validation
  import N = NameStore
  import NU = NameUndo
  import NH = NameHistory
  import NE = NameExpiry
  import NI = NameInvariant
  import U = UtxoSet
  import Maps

  function TxIds(txs: seq<Tx>): set<Hash> {
    set i | 0 <= i < |txs| :: txs[i].id
  }

  /** The transactions the name histories refer to. */
  function HistoryTxs(d: N.NameDb): set<Hash> {
    d.live.history.Keys + d.back.hist.Keys + Maps.Elements(d.live.histIdx) + Maps.Elements(d.back.histIdx)
  }

  /** The transactions the buckets refer to. */
  function KnownTxs(db: Db): set<Hash> {
    (set op | op in db.u.utxo :: op.tx) + (set op | op in db.u.spent :: op.tx) + HistoryTxs(db.n)
  }

  ghost predicate DistinctIds(txs: seq<Tx>) {
    forall i, j :: 0 <= i < j < |txs| ==> txs[i].id != txs[j].id
  }

  /** No transaction writes two names. */
  ghost predicate OneNamePerTx(txs: seq<Tx>) {
    forall i, j, k :: 0 <= i < |txs| && 0 <= j < k < |txs[i].outs| ==> !(txs[i].outs[j].op.Names() && txs[i].outs[k].op.Names())
  }

  /** Output indexes fit 32 bits. */
  predicate IndexesFit(txs: seq<Tx>) {
    forall i :: 0 <= i < |txs| ==> |txs[i].outs| <= TWO_32
  }

  ghost predicate Facts(p: Params, db: Db, b: Block, h: Height) {
    && p.Valid() && p.trackFrom <= h && 1 <= h
    && DistinctIds(b.txs) && TxIds(b.txs) !! KnownTxs(db)
    && IndexesFit(b.txs)
  }

  /** A block the chain connects: it passes validation, and btcd's facts hold. */
  ghost predicate ValidBlock(p: Params, db: Db, b: Block, h: Height) {
    Facts(p, db, b, h) && BlockOk(p, db, b, h)
  }

  // ----- the UTXO steps -----

  lemma {:induction false} StepsFrom(txs: seq<Tx>, h: Height)
    ensures forall s :: s in BlockSteps(txs, h) ==>
                          if s.Spend? then exists i :: 1 <= i < |txs| && s.op in txs[i].ins
                          else s.op.tx in TxIds(txs) && s.op in RemovalOrder(txs)
    ensures forall op :: op in RemovalOrder(txs) ==> exists x :: U.Create(op, x) in BlockSteps(txs, h)
  {
    if txs != [] {
      var n := |txs| - 1;
      StepsFrom(txs[..n], h);
      StepsOfTx(txs[n], n, h);
      forall s | s in BlockSteps(txs, h)
        ensures if s.Spend? then exists i :: 1 <= i < |txs| && s.op in txs[i].ins
                else s.op.tx in TxIds(txs) && s.op in RemovalOrder(txs)
      {
        if s in BlockSteps(txs[..n], h) {
          if s.Spend? {
            var i :| 1 <= i < n && s.op in txs[..n][i].ins;
            assert s.op in txs[i].ins;
          } else {
            var i :| 0 <= i < n && txs[..n][i].id == s.op.tx;
            assert txs[i].id in TxIds(txs);
          }
        } else {
          assert s in TxSteps(txs[n], n, h);
        }
      }
      forall op | op in RemovalOrder(txs) ensures exists x :: U.Create(op, x) in BlockSteps(txs, h) {
        if op in TxOutPoints(txs[n]) {
          var x :| U.Create(op, x) in TxSteps(txs[n], n, h);
          assert U.Create(op, x) in BlockSteps(txs, h);
        } else {
          var x :| U.Create(op, x) in BlockSteps(txs[..n], h);
          assert U.Create(op, x) in BlockSteps(txs, h);
        }
      }
    }
  }

  lemma StepsOfTx(tx: Tx, idx: nat, h: Height)
    ensures forall s :: s in TxSteps(tx, idx, h) ==>
                          if s.Spend? then idx >= 1 && s.op in tx.ins else s.op.tx == tx.id && s.op in TxOutPoints(tx)
    ensures forall op :: op in TxOutPoints(tx) ==> exists x :: U.Create(op, x) in TxSteps(tx, idx, h)
  {
    var steps := TxSteps(tx, idx, h);
    forall s | s in steps
      ensures if s.Spend? then idx >= 1 && s.op in tx.ins else s.op.tx == tx.id && s.op in TxOutPoints(tx)
    {
      if s in CreateSteps(tx, h) {
        var i :| 0 <= i < |tx.outs| && CreateSteps(tx, h)[i] == s;
        assert TxOutPoints(tx)[i] == s.op;
      } else {
        var i :| 0 <= i < |tx.ins| && SpendSteps(tx)[i] == s;
        assert tx.ins[i] == s.op;
      }
    }
    forall op | op in TxOutPoints(tx) ensures exists x :: U.Create(op, x) in steps {
      var i :| 0 <= i < |tx.outs| && TxOutPoints(tx)[i] == op;
      assert CreateSteps(tx, h)[i] in CreateSteps(tx, h);
      assert U.Create(op, CreateSteps(tx, h)[i].out) in steps;
    }
  }

  lemma TxStepsDistinct(tx: Tx, idx: nat, h: Height)
    requires |tx.outs| <= TWO_32
    ensures U.DistinctCreates(TxSteps(tx, idx, h))
  {
    var steps := TxSteps(tx, idx, h);
    var k := if idx > 0 then |tx.ins| else 0;
    assert forall i :: 0 <= i < k ==> steps[i].Spend?;
    assert forall i :: k <= i < |steps| ==> steps[i] == CreateStep(tx, i - k, h) && steps[i].op.index == i - k;
  }

  lemma {:induction false} StepsDistinct(txs: seq<Tx>, h: Height)
    requires DistinctIds(txs) && IndexesFit(txs)
    ensures U.DistinctCreates(BlockSteps(txs, h))
  {
    if txs != [] {
      var n := |txs| - 1;
      StepsDistinct(txs[..n], h);
      StepsFrom(txs[..n], h);
      StepsOfTx(txs[n], n, h);
      TxStepsDistinct(txs[n], n, h);
      assert txs[n].id !in TxIds(txs[..n]);
      hide TxSteps, TxIds, TxOutPoints;
      DistinctConcat(BlockSteps(txs[..n], h), TxSteps(txs[n], n, h), txs[n].id);
    }
  }

  lemma DistinctConcat(a: seq<U.UStep>, c: seq<U.UStep>, id: Hash)
    requires U.DistinctCreates(a) && U.DistinctCreates(c)
    requires forall s :: s in a && s.Create? ==> s.op.tx != id
    requires forall s :: s in c && s.Create? ==> s.op.tx == id
    ensures U.DistinctCreates(a + c)
  {
    var all := a + c;
    forall i, j | 0 <= i < j < |all| && all[i].Create? && all[j].Create? ensures all[i].op != all[j].op {
      assert i < |a| ==> all[i] in a;
      assert j >= |a| ==> all[j] in c;
      assert i >= |a| ==> all[i] == c[i - |a|] && all[j] == c[j - |a|];
    }
  }

  // ----- every input is live -----

  lemma {:induction false} TotalInputsLive(u: U.UtxoDb, ins: seq<OutPoint>, h: Height, trackFrom: int)
    requires SumInputs(u, ins, h, trackFrom).Total?
    ensures forall i :: 0 <= i < |ins| ==> ins[i] in u.utxo
  {
    if ins != [] {
      var n := |ins| - 1;
      TotalInputsLive(u, ins[..n], h, trackFrom);
      assert forall i :: 0 <= i < n ==> ins[i] == ins[..n][i];
    }
  }

  lemma {:induction false} NeverSkips(u: U.UtxoDb, ins: seq<OutPoint>, h: Height, trackFrom: int)
    requires trackFrom <= h
    ensures !SumInputs(u, ins, h, trackFrom).Skip?
  {
    if ins != [] {
      NeverSkips(u, ins[..|ins| - 1], h, trackFrom);
    }
  }

  lemma {:induction false} FeesLive(u: U.UtxoDb, txs: seq<Tx>, h: Height, trackFrom: int)
    requires trackFrom <= h && !BlockFees(u, txs, h, trackFrom).Refused?
    ensures BlockFees(u, txs, h, trackFrom).Total?
    ensures forall i, k :: 0 <= i < |txs| && 0 <= k < |txs[i].ins| ==> txs[i].ins[k] in u.utxo
  {
    if txs != [] {
      var n := |txs| - 1;
      NeverSkips(u, txs[n].ins, h, trackFrom);
      FeesLive(u, txs[..n], h, trackFrom);
      TotalInputsLive(u, txs[n].ins, h, trackFrom);
      assert forall i :: 0 <= i < n ==> txs[i] == txs[..n][i];
    }
  }

  /**
   A validated block spends only outputs that were live before it, and with fresh ids it
   creates only outputs the database has never seen.
   */
  lemma BlockIsClean(p: Params, db: Db, b: Block, h: Height)
    requires ValidBlock(p, db, b, h)
    ensures U.Clean(db.u, BlockSteps(b.txs, h))
  {
    hide ValidBlock, TxIds, BlockSteps, KnownTxs;
    var steps := BlockSteps(b.txs, h);
    InputsLive(p, db, b, h);
    OutputsNew(p, db, b, h);
    StepsFrom(b.txs, h);
    StepsDistinct(b.txs, h);
    SpendsFrom(steps);
    U.CreatesFrom(steps);
    hide U.Spends, U.Creates;
    forall op | op in U.Spends(steps) ensures op in db.u.utxo {
      assert U.Spend(op) in steps;
    }
    forall op | op in U.Creates(steps) ensures op !in db.u.utxo && op !in db.u.spent {
      var i :| 0 <= i < |steps| && steps[i].Create? && steps[i].op == op;
      assert steps[i] in steps;
    }
  }

  lemma InputsLive(p: Params, db: Db, b: Block, h: Height)
    requires ValidBlock(p, db, b, h)
    ensures forall i, op :: 1 <= i < |b.txs| && op in b.txs[i].ins ==> op in db.u.utxo
  {
    FeesLive(db.u, b.txs[1..], h, p.trackFrom);
    assert forall i :: 1 <= i < |b.txs| ==> b.txs[i] == b.txs[1..][i - 1];
  }

  lemma OutputsNew(p: Params, db: Db, b: Block, h: Height)
    requires ValidBlock(p, db, b, h)
    ensures DistinctIds(b.txs) && IndexesFit(b.txs)
    ensures forall op: OutPoint :: op.tx in TxIds(b.txs) ==> op !in db.u.utxo && op !in db.u.spent
  {
    hide BlockOk, HistoryTxs, TxIds;
    assert forall op :: op in db.u.utxo || op in db.u.spent ==> op.tx in KnownTxs(db);
  }

  lemma {:induction false} SpendsFrom(steps: seq<U.UStep>)
    ensures forall op :: op in U.Spends(steps) <==> U.Spend(op) in steps
  {
    if steps != [] {
      var n := |steps| - 1;
      SpendsFrom(steps[..n]);
      assert steps == steps[..n] + [steps[n]];
    }
  }

  lemma {:induction false} CreatedAll(steps: seq<U.UStep>)
    ensures forall i :: 0 <= i < |steps| && steps[i].Create? ==> steps[i].op in U.Creates(steps)
  {
    if steps != [] {
      var n := |steps| - 1;
      CreatedAll(steps[..n]);
      assert forall i :: 0 <= i < n ==> steps[i] == steps[..n][i];
    }
  }

  /** A rollback removes exactly what the block created. */
  lemma RemovesWhatWasCreated(txs: seq<Tx>, h: Height)
    ensures Maps.Members(RemovalOrder(txs)) == U.Creates(BlockSteps(txs, h)).Keys
  {
    var steps := BlockSteps(txs, h);
    StepsFrom(txs, h);
    U.CreatesFrom(steps);
    CreatedAll(steps);
    hide BlockSteps, RemovalOrder, U.Creates, TxIds;
    forall op | op in RemovalOrder(txs) ensures op in U.Creates(steps) {
      var x :| U.Create(op, x) in steps;
      var i :| 0 <= i < |steps| && steps[i] == U.Create(op, x);
    }
    forall op | op in U.Creates(steps) ensures op in RemovalOrder(txs) {
      var i :| 0 <= i < |steps| && steps[i].Create? && steps[i].op == op;
      assert steps[i] in steps;
    }
  }

  // ----- the name operations -----

  lemma {:induction false} EntriesFrom(txs: seq<Tx>)
    ensures forall e :: e in BlockEntries(txs) ==>
                          exists i, j :: 0 <= i < |txs| && 0 <= j < |txs[i].outs| && e == EntryOf(txs[i], j)
  {
    if txs != [] {
      var n := |txs| - 1;
      EntriesFrom(txs[..n]);
      forall e | e in BlockEntries(txs)
        ensures exists i, j :: 0 <= i < |txs| && 0 <= j < |txs[i].outs| && e == EntryOf(txs[i], j)
      {
        if e in BlockEntries(txs[..n]) {
          var i, j :| 0 <= i < n && 0 <= j < |txs[..n][i].outs| && e == EntryOf(txs[..n][i], j);
          assert e == EntryOf(txs[i], j);
        } else {
          var j :| 0 <= j < |txs[n].outs| && TxEntries(txs[n])[j] == e;
          assert e == EntryOf(txs[n], j);
        }
      }
    }
  }

  lemma {:induction false} EntriesApart(txs: seq<Tx>)
    requires DistinctIds(txs) && IndexesFit(txs)
    ensures NH.NamedApart(BlockEntries(txs)) <==> OneNamePerTx(txs)
    ensures NH.IndexesApart(BlockEntries(txs))
  {
    if txs != [] {
      var n := |txs| - 1;
      var a, c := BlockEntries(txs[..n]), TxEntries(txs[n]);
      EntriesApart(txs[..n]);
      EntriesFrom(txs[..n]);
      forall e | e in a ensures e.tx != txs[n].id {
        var k, m :| 0 <= k < n && 0 <= m < |txs[..n][k].outs| && e == EntryOf(txs[..n][k], m);
        assert e.tx == txs[k].id;
      }
      hide DistinctIds, IndexesFit, BlockEntries;
      assert OneNamePerTx(txs) <==> OneNamePerTx(txs[..n]) && OneNamePerTx([txs[n]]) by {
        assert forall i :: 0 <= i < n ==> txs[..n][i] == txs[i];
        assert [txs[n]][0] == txs[n];
      }
      assert |txs[n].outs| <= TWO_32 by { assert IndexesFit(txs); }
      TxEntriesApart(txs[n]);
      hide OneNamePerTx;
      ApartConcat(a, c, txs[n].id);
      assert BlockEntries(txs) == a + c;
    }
  }

  lemma TxEntriesApart(tx: Tx)
    requires |tx.outs| <= TWO_32
    ensures NH.NamedApart(TxEntries(tx)) <==> OneNamePerTx([tx])
    ensures NH.IndexesApart(TxEntries(tx))
    ensures forall e :: e in TxEntries(tx) ==> e.tx == tx.id
  {
    var es := TxEntries(tx);
    assert forall i :: 0 <= i < |es| ==> es[i] == EntryOf(tx, i) && es[i].index == i;
    if !OneNamePerTx([tx]) {
      var i, j, k :| 0 <= i < |[tx]| && 0 <= j < k < |[tx][i].outs| && [tx][i].outs[j].op.Names() && [tx][i].outs[k].op.Names();
      assert es[j].op.Names() && es[k].op.Names() && es[j].tx == es[k].tx;
    } else {
      assert forall j, k :: 0 <= j < k < |es| ==> !([tx][0].outs[j].op.Names() && [tx][0].outs[k].op.Names());
    }
  }

  lemma ApartConcat(a: seq<N.Entry>, c: seq<N.Entry>, id: Hash)
    requires forall e :: e in a ==> e.tx != id
    requires forall e :: e in c ==> e.tx == id
    requires NH.IndexesApart(a) && NH.IndexesApart(c)
    ensures NH.NamedApart(a + c) <==> NH.NamedApart(a) && NH.NamedApart(c)
    ensures NH.IndexesApart(a + c)
  {
    var es := a + c;
    assert forall i :: 0 <= i < |a| ==> es[i] == a[i] && a[i] in a;
    assert forall i :: 0 <= i < |c| ==> es[|a| + i] == c[i] && c[i] in c;
    assert forall i :: |a| <= i < |es| ==> es[i] == c[i - |a|];
  }

  /** What an entry needs of the live buckets, apart from the other entries. */
  predicate FitsAlone(l: N.Live, e: N.Entry) {
    && (e.op.NewOp? ==> e.op.commit !in l.nameNew)
    && (e.op.FirstUpdateOp? ==> e.op.name !in l.names && e.op.commit in l.nameNew)
    && (e.op.UpdateOp? ==> e.op.name in l.names)
    && (e.op.Names() ==> NU.Unheard(l, e.tx) && e.op.name != [])
  }

  lemma {:induction false} FitsFrom(l: N.Live, es: seq<N.Entry>)
    requires forall i :: 0 <= i < |es| ==> FitsAlone(l, es[i])
    requires NoClashes(es)
    ensures NU.Fits(l, es)
  {
    if es != [] {
      var n := |es| - 1;
      assert forall i :: 0 <= i < n ==> es[i] == es[..n][i];
      FitsFrom(l, es[..n]);
      NU.EarlierFrom(es[..n]);
      assert FitsAlone(l, es[n]);
      assert forall i :: 0 <= i < n ==> !Clash(es[i].op, es[n].op);
    }
  }

  /** No operation registers a name that is still stored. */
  predicate NoReRegistration(l: N.Live, es: seq<N.Entry>) {
    forall i :: 0 <= i < |es| && es[i].op.FirstUpdateOp? ==> es[i].op.name !in l.names
  }

  lemma EntryRules(p: Params, db: Db, b: Block, h: Height, i: nat) returns (tx: Tx, o: Output)
    requires ValidBlock(p, db, b, h) && i < |BlockEntries(b.txs)|
    ensures var e := BlockEntries(b.txs)[i];
            e.op == o.op && OutputOk(db.n.live, tx, o, h) && e.tx in TxIds(b.txs) && tx in b.txs && e.tx == tx.id
  {
    EntriesFrom(b.txs);
    var e := BlockEntries(b.txs)[i];
    assert e in BlockEntries(b.txs);
    var k, j :| 0 <= k < |b.txs| && 0 <= j < |b.txs[k].outs| && e == EntryOf(b.txs[k], j);
    tx, o := b.txs[k], b.txs[k].outs[j];
    assert TxOk(p, db, b.txs[k], k, h);
  }

  lemma ClashFree(p: Params, db: Db, b: Block, h: Height)
    requires ValidBlock(p, db, b, h)
    ensures NoClashes(BlockEntries(b.txs))
  {
  }

  lemma EntryFitsAlone(p: Params, db: Db, b: Block, h: Height, i: nat)
    requires ValidBlock(p, db, b, h) && i < |BlockEntries(b.txs)|
    ensures var e, w := BlockEntries(b.txs)[i], NE.Without(db.n.live, NI.Expired(db.n.live, h));
            && FitsAlone(w, e) && NI.Timely(w, e, h)
            && (NoReRegistration(db.n.live, BlockEntries(b.txs)) ==> FitsAlone(db.n.live, e))
  {
    var l, e := db.n.live, BlockEntries(b.txs)[i];
    var tx, o := EntryRules(p, db, b, h, i);
    NE.WithoutHears(l, NI.Expired(l, h));
    assert NU.Unheard(l, e.tx);
    hide ValidBlock, BlockEntries, NU.Unheard, NE.HistoryTxs;
  }

  lemma EntriesFit(p: Params, db: Db, b: Block, h: Height)
    requires ValidBlock(p, db, b, h)
    ensures NU.Fits(NE.Without(db.n.live, NI.Expired(db.n.live, h)), BlockEntries(b.txs))
    ensures NI.AllTimely(NE.Without(db.n.live, NI.Expired(db.n.live, h)), BlockEntries(b.txs), h)
    ensures NoReRegistration(db.n.live, BlockEntries(b.txs)) ==> NU.Fits(db.n.live, BlockEntries(b.txs))
  {
    var l, es := db.n.live, BlockEntries(b.txs);
    var w := NE.Without(l, NI.Expired(l, h));
    hide NE.Without, ValidBlock, FitsAlone, NI.Timely, BlockEntries;
    forall i | 0 <= i < |es|
      ensures FitsAlone(w, es[i]) && NI.Timely(w, es[i], h)
      ensures NoReRegistration(l, es) ==> FitsAlone(l, es[i])
    {
      EntryFitsAlone(p, db, b, h, i);
    }
    assert NoClashes(es) by { ClashFree(p, db, b, h); }
    FitsFrom(w, es);
    if NoReRegistration(l, es) {
      FitsFrom(l, es);
    }
  }

  /** Live names a block works on are not the ones that expire with it. */
  lemma TouchedNotExpired(p: Params, db: Db, b: Block, h: Height)
    requires ValidBlock(p, db, b, h) && NoReRegistration(db.n.live, BlockEntries(b.txs))
    ensures NU.TouchedNames(BlockEntries(b.txs)) !! NI.Expired(db.n.live, h)
  {
    var es := BlockEntries(b.txs);
    NU.EarlierFrom(es);
    forall n | n in NU.TouchedNames(es) ensures n !in NI.Expired(db.n.live, h) {
      var i :| 0 <= i < |es| && es[i].op.Names() && es[i].op.name == n;
      var tx, o := EntryRules(p, db, b, h, i);
    }
  }

  lemma NamedTxsFresh(p: Params, db: Db, b: Block, h: Height)
    requires ValidBlock(p, db, b, h)
    ensures NU.NamedTxs(BlockEntries(b.txs)) <= TxIds(b.txs)
    ensures NU.NamedTxs(BlockEntries(b.txs)) !! HistoryTxs(db.n)
  {
    var es := BlockEntries(b.txs);
    NU.EarlierFrom(es);
    forall t | t in NU.NamedTxs(es) ensures t in TxIds(b.txs) {
      var i :| 0 <= i < |es| && es[i].op.Names() && es[i].tx == t;
      var tx, o := EntryRules(p, db, b, h, i);
    }
  }
}
