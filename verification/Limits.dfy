/** How far the guarantees reach: deep reorganisations, stored records, 64-bit sums. */
module Limits {
  import opened Bytes
  import opened Records
  import opened Chain
  import opened Validation
  import opened BlockFacts
  import opened Reorg
  import opened Runs
  import opened Money
  import Codec
  import N = NameStore
  import NU = NameUndo
  import NE = NameExpiry
  import NI = NameInvariant
  import NH = NameHistory
  import U = UtxoSet
  import Maps

  // ----- connecting and undoing up to 1001 blocks -----

  function Connects(blocks: seq<Block>): (r: seq<Event>)
    ensures |r| == |blocks|
  {
    seq(|blocks|, i requires 0 <= i < |blocks| => ConnectBlock(blocks[i]))
  }

  function Undos(k: nat): seq<Event> {
    if k == 0 then [] else [DisconnectTip] + Undos(k - 1)
  }

  ghost predicate AllUndoable(stack: seq<Link>) {
    forall i :: 0 <= i < |stack| ==> stack[i].undoable
  }

  lemma {:induction false} ConnectsPeak(p: Params, base: Db, node: Node, events: seq<Event>)
    requires AllowedRun(p, base, node, events) && node.peak == node.tip
    requires forall i :: 0 <= i < |events| ==> events[i].ConnectBlock?
    ensures var last := Run(node, events); last.peak == last.tip && |last.stack| == |node.stack| + |events|
    decreases |events|
  {
    hide ValidBlock, ConnectOk, Connect, Undoable, KnownTxs;
    if events != [] {
      ConnectsPeak(p, base, Step(node, events[0]), events[1..]);
    }
  }

  /** A tip that was never more than 1000 blocks above the lowest block undone can be undone block by block. */
  lemma {:induction false} UndoRun(p: Params, base: Db, t0: Height, node: Node)
    requires Good(p, base, t0, node) && AllUndoable(node.stack)
    requires t0 >= 0 && node.peak <= t0 + 1 + RETENTION_DEPTH
    ensures AllowedRun(p, base, node, Undos(|node.stack|))
    ensures var last := Run(node, Undos(|node.stack|)); Good(p, base, t0, last) && last.stack == []
    decreases |node.stack|
  {
    hide Sound, Prune, Replay, Disconnect;
    if node.stack != [] {
      var k := |node.stack|;
      var events := Undos(k);
      assert events[0] == DisconnectTip && events[1..] == Undos(k - 1);
      StepDisconnect(p, base, t0, node);
      var next := AfterDisconnect(node);
      assert forall i :: 0 <= i < |next.stack| ==> next.stack[i] == node.stack[i];
      UndoRun(p, base, t0, next);
    }
  }

  /** Connecting at most 1001 blocks and disconnecting them all gives back every live bucket. */
  lemma ConnectThenUndo(p: Params, base: Db, t0: Height, blocks: seq<Block>)
    requires Inv(base, t0) && |blocks| <= RETENTION_DEPTH + 1
    requires AllowedRun(p, base, Start(base, t0), Connects(blocks))
    requires AllUndoable(Run(Start(base, t0), Connects(blocks)).stack)
    ensures var top := Run(Start(base, t0), Connects(blocks));
            && |top.stack| == |blocks|
            && AllowedRun(p, base, top, Undos(|blocks|))
            && var last := Run(top, Undos(|blocks|));
               last.tip == t0 && last.db.n.live == base.n.live && last.db.u.utxo == base.u.utxo && last.db.u.addr == base.u.addr
  {
    hide Good, Inv, AllowedRun, Run;
    HeightOfInv(base, t0);
    StartGood(p, base, t0);
    RunGood(p, base, t0, Start(base, t0), Connects(blocks));
    ConnectsPeak(p, base, Start(base, t0), Connects(blocks));
    var top := Run(Start(base, t0), Connects(blocks));
    TipOf(p, base, t0, top);
    UndoRun(p, base, t0, top);
    var last := Run(top, Undos(|blocks|));
    TipOf(p, base, t0, last);
    GoodState(p, base, t0, last);
  }

  lemma TipOf(p: Params, base: Db, t0: Height, node: Node)
    requires Good(p, base, t0, node)
    ensures node.tip == t0 + |node.stack|
  {
  }

  /**
   Beyond that the backups are gone.  Once the backups below floor have been dropped, undoing a
   block at height h gives back the live buckets exactly when the block is undoable, and the floor
   is not above h or there was nothing to back up: the block spent no output and no name expired
   with it.  The floor is 1000 below the last multiple of 100 the tip has reached.
   */
  lemma UndoNeedsBackups(p: Params, db: Db, b: Block, h: Height, floor: int)
    requires Inv(db, h - 1) && ValidBlock(p, db, b, h)
    ensures var after := Disconnect(Prune(Process(db, b, h), floor), b, h);
            after.n.live == db.n.live && after.u.utxo == db.u.utxo && after.u.addr == db.u.addr
            <==> && Undoable(Prune(db, floor), b, h)
                 && (floor <= h || (U.Spends(BlockSteps(b.txs, h)) == {} && NI.Expired(db.n.live, h) == {}))
  {
    hide Inv, ValidBlock, Process, Prune, Disconnect, Undoable, NI.Expired, U.Spends, BlockSteps;
    PruneKeepsLive(db, floor);
    if floor <= h {
      PrunedStillValid(p, db, b, h, floor);
      ProcessOnPruned(p, db, b, h, floor);
      DisconnectUndoesProcess(p, Prune(db, floor), b, h);
    } else {
      PrunedNames(p, db, b, h, floor);
      PrunedOutputs(p, db, b, h, floor);
      ByHalves(db, b, h, floor);
    }
  }

  lemma ByHalves(db: Db, b: Block, h: Height, floor: int)
    ensures var x := Process(db, b, h);
            Disconnect(Prune(x, floor), b, h)
            == Db(DisconnectNames(N.NameDb(x.n.live, N.PruneExpired(x.n.back, floor)), b, h), DisconnectUtxos(U.PruneSpent(x.u, floor), b, h))
  {
  }

  lemma PrunedOutputs(p: Params, db: Db, b: Block, h: Height, floor: int)
    requires Inv(db, h - 1) && ValidBlock(p, db, b, h) && floor > h
    ensures var after := DisconnectUtxos(U.PruneSpent(Process(db, b, h).u, floor), b, h);
            after.utxo == db.u.utxo && after.addr == db.u.addr <==> U.Spends(BlockSteps(b.txs, h)) == {}
  {
    var steps, ops := BlockSteps(b.txs, h), RemovalOrder(b.txs);
    var spends, creates := U.Spends(steps), U.Creates(steps);
    ProcessShape(p, db, b, h);
    RemovesWhatWasCreated(b.txs, h);
    assert U.Inv(db.u, h - 1);
    hide Process, ValidBlock, Inv, U.Creates, U.Spends;
    PrunedUndo(db.u, spends, creates, h, ops, floor);
  }

  lemma PrunedUndo(u: U.UtxoDb, spends: set<OutPoint>, creates: map<OutPoint, Utxo>, h: Height, ops: seq<OutPoint>, floor: int)
    requires U.Inv(u, h - 1) && spends <= u.utxo.Keys && floor > h
    requires creates.Keys !! u.utxo.Keys && creates.Keys !! u.spent.Keys && Maps.Members(ops) == creates.Keys
    ensures var after := U.RestoreSpent(U.RemoveAll(U.PruneSpent(U.Effect(u, spends, creates, h), floor), ops), h);
            after.utxo == u.utxo && after.addr == u.addr <==> spends == {}
  {
    var e := U.Effect(u, spends, creates, h);
    U.RemoveAllPrune(e, ops, floor);
    var r := U.RemoveAll(e, ops);
    U.RemoveAllEffect(e, ops);
    Maps.DropAdded(u.utxo, spends, creates);
    assert r.utxo == u.utxo - spends;
    NothingToRestore(r, h, floor);
    if spends != {} {
      var op :| op in spends;
      assert op in u.utxo && op !in u.utxo - spends;
    } else {
      assert u.utxo - {} == u.utxo;
    }
  }

  lemma NothingToRestore(r: U.UtxoDb, h: Height, floor: int)
    requires floor > h
    ensures U.RestoreSpent(U.PruneSpent(r, floor), h).utxo == r.utxo && U.RestoreSpent(U.PruneSpent(r, floor), h).addr == r.addr
  {
    var none: map<OutPoint, Utxo> := map[];
    assert U.SpentAt(U.PruneSpent(r, floor), h) == {};
    Maps.RestrictNone(U.PruneSpent(r, floor).spent);
    Maps.RestrictNone(r.utxo);
    assert U.AddressMirror(none) == {};
    assert r.addr + {} == r.addr;
  }

  lemma PrunedNames(p: Params, db: Db, b: Block, h: Height, floor: int)
    requires Inv(db, h - 1) && ValidBlock(p, db, b, h) && floor > h
    ensures var x := Process(db, b, h).n;
            DisconnectNames(N.NameDb(x.live, N.PruneExpired(x.back, floor)), b, h).live == db.n.live
            <==> Undoable(Prune(db, floor), b, h) && NI.Expired(db.n.live, h) == {}
  {
    hide ValidBlock, Inv, Process, N.PruneExpired, N.RestoreExpired;
    var x, s := Process(db, b, h).n, NI.Expired(db.n.live, h);
    NothingToMoveBack(x.live, x.back, h, floor);
    if s == {} {
      NoneExpired(p, db, b, h);
      UndoableWithout(p, db, b, h, floor);
    } else {
      var n :| n in s;
      ExpiredStaysGone(p, db, b, h, n);
    }
  }

  lemma NothingToMoveBack(l: N.Live, b: N.Backups, h: Height, floor: int)
    requires floor > h
    ensures N.RestoreExpired(N.NameDb(l, N.PruneExpired(b, floor)), h).live == l
  {
    var p := N.PruneExpired(b, floor);
    assert N.ExpiredAt(p, h) == {};
    var records, lists := N.Slice(p.expired, h, {}), N.Slice(p.histIdx, h, {});
    assert records == map[] && lists == map[];
    assert N.ExpirationMirror(records) == {} && Maps.Elements(lists) == {};
    hide N.PruneExpired, N.ExpiredAt, N.Slice, N.ExpirationMirror, Maps.Elements;
    Maps.RestrictNone(p.hist);
    Maps.RestrictNone(l.history);
    Maps.RestrictNone(l.names);
    Maps.RestrictNone(l.histIdx);
    assert l.expiration + {} == l.expiration;
  }

  /** With no name expiring, undoing the operations of the block needs no backup. */
  lemma NoneExpired(p: Params, db: Db, b: Block, h: Height)
    requires Inv(db, h - 1) && ValidBlock(p, db, b, h) && NI.Expired(db.n.live, h) == {}
    ensures N.UndoEntries(N.Undoing(Process(db, b, h).n.live, {}), BlockEntries(b.txs), h).live == db.n.live
            <==> NU.UpdatesRecorded(db.n.live, BlockEntries(b.txs))
  {
    ProcessShape(p, db, b, h);
    EntriesFit(p, db, b, h);
    NothingWithout(db.n.live);
    assert N.LiveInv(db.n.live, h - 1);
    hide Process, ValidBlock, Inv, NI.Expired, NE.Without, N.ApplyEntries, N.UndoEntries, NU.Fits, N.LiveInv, BlockEntries;
    UndoneExactly(db.n.live, BlockEntries(b.txs), h, b.time);
  }

  lemma NothingWithout(l: N.Live)
    ensures NE.Without(l, {}) == l
  {
    NE.ExpireNone(N.NameDb(l, N.Backups(map[], {}, map[], map[])), 0);
  }

  lemma AvailableIsFree(l: N.Live, n: Name, h: Height)
    requires AvailableAt(l, n, h) && NI.Expired(l, h) == {}
    ensures n !in l.names
  {
    assert n in l.names <==> n in NI.Expired(l, h);
  }

  lemma UndoableWithout(p: Params, db: Db, b: Block, h: Height, floor: int)
    requires ValidBlock(p, db, b, h) && NI.Expired(db.n.live, h) == {}
    ensures Undoable(Prune(db, floor), b, h) <==> NU.UpdatesRecorded(db.n.live, BlockEntries(b.txs))
  {
    var l, es := db.n.live, BlockEntries(b.txs);
    forall i | 0 <= i < |es| && es[i].op.FirstUpdateOp? ensures es[i].op.name !in l.names {
      var tx, o := EntryRules(p, db, b, h, i);
      AvailableIsFree(l, es[i].op.name, h);
    }
    assert NE.HistoryTxs(l, {}) == {};
    hide NU.UpdatesRecorded, N.PruneExpired;
  }

  /** Without its backup, an expired name does not come back. */
  lemma ExpiredStaysGone(p: Params, db: Db, b: Block, h: Height, n: Name)
    requires Inv(db, h - 1) && ValidBlock(p, db, b, h) && n in NI.Expired(db.n.live, h)
    ensures n !in N.UndoEntries(N.Undoing(Process(db, b, h).n.live, {}), BlockEntries(b.txs), h).live.names
    ensures n in db.n.live.names
  {
    var es, w := BlockEntries(b.txs), NE.Without(db.n.live, NI.Expired(db.n.live, h));
    ProcessShape(p, db, b, h);
    EntriesFit(p, db, b, h);
    NU.EarlierFrom(es);
    ClashFree(p, db, b, h);
    var s := N.Undoing(Process(db, b, h).n.live, {});
    if n in NU.TouchedNames(es) {
      var i :| 0 <= i < |es| && es[i].op.Names() && es[i].op.name == n;
      var tx, o := EntryRules(p, db, b, h, i);
      hide Process, ValidBlock, Inv, NE.Without, NoClashes, N.UndoEntries;
      UnregisteredStaysGone(s, es, h, i);
    } else {
      NI.ExpireSetInv(db.n, h);
      IndexedOf(NE.ExpireSet(db.n, NI.Expired(db.n.live, h), h), h);
      assert n !in w.names;
      hide Process, ValidBlock, Inv, N.Indexed, NU.Fits, NU.CommitsFrame, N.ApplyEntries, NE.WithBackups, NE.Only;
      NU.ApplyEntriesShape(w, es, h, b.time);
      NH.UndoKeeps(s, es, h, n);
    }
  }

  // ----- stored records can be read back -----

  /** What a valid block writes about a name, the record decoder accepts. */
  lemma BlockRecordsAreStorable(p: Params, db: Db, b: Block, h: Height, i: nat, l: N.Live)
    requires ValidBlock(p, db, b, h) && i < |BlockEntries(b.txs)| && BlockEntries(b.txs)[i].op.Names()
    requires Codec.IsInt64(b.time) && |BlockEntries(b.txs)[i].owner| <= Codec.MAX_STRING
    ensures var r := N.WrittenRecord(l, BlockEntries(b.txs)[i], h, b.time); Codec.DecodeRecord(Codec.EncodeRecord(r)) == Some(r)
  {
    var tx, o := EntryRules(p, db, b, h, i);
    hide BlockEntries, ValidBlock, Codec.EncodeRecord, Codec.DecodeRecord;
    Codec.RecordRoundTrip(N.WrittenRecord(l, BlockEntries(b.txs)[i], h, b.time));
  }

  // ----- 64-bit sums -----

  ghost predicate NonNegative(m: map<OutPoint, Utxo>) {
    forall op :: op in m ==> m[op].value >= 0
  }

  lemma {:induction false} SupplyNonNegative(m: map<OutPoint, Utxo>)
    requires NonNegative(m)
    ensures Supply(m) >= 0
    decreases |m|
  {
    if m != map[] {
      var op :| op in m;
      SupplyDrop(m, op);
      Shrinks(m, op);
      SupplyNonNegative(m - {op});
    }
  }

  /** The coinbase without its outputs, and the rest of the block. */
  function WithoutReward(txs: seq<Tx>): (r: seq<Tx>)
    requires txs != []
    ensures |r| == |txs| && r[1..] == txs[1..]
  {
    [txs[0].(outs := [])] + txs[1..]
  }

  lemma {:induction false} RewardFirst(txs: seq<Tx>, h: Height)
    requires txs != []
    ensures BlockSteps(txs, h) == CreateSteps(txs[0], h) + BlockSteps(WithoutReward(txs), h)
    decreases |txs|
  {
    hide CreateSteps, TxSteps, WithoutReward;
    var n := |txs| - 1;
    var w := WithoutReward(txs);
    if n == 0 {
      OnlyReward(txs, h);
    } else {
      RewardFirst(txs[..n], h);
      ShorterBlock(txs);
      Maps.Regroup(CreateSteps(txs[0], h), BlockSteps(w[..n], h), TxSteps(txs[n], n, h));
    }
  }

  lemma ShorterBlock(txs: seq<Tx>)
    requires |txs| > 1
    ensures var n, w := |txs| - 1, WithoutReward(txs); w[..n] == WithoutReward(txs[..n]) && w[n] == txs[n] && txs[..n][0] == txs[0]
  {
    var n := |txs| - 1;
    assert txs[1..][..n - 1] == txs[..n][1..];
  }

  lemma OnlyReward(txs: seq<Tx>, h: Height)
    requires |txs| == 1
    ensures BlockSteps(txs, h) == CreateSteps(txs[0], h) + BlockSteps(WithoutReward(txs), h)
  {
    hide CreateSteps, SpendSteps;
    var w := WithoutReward(txs);
    NoOutputs(txs[0], h);
    assert txs[..0] == [] && w[..0] == [];
    assert BlockSteps(txs[..0], h) == [] && BlockSteps(w[..0], h) == [];
    assert TxSteps(txs[0], 0, h) == [] + CreateSteps(txs[0], h);
    assert TxSteps(w[0], 0, h) == [] + CreateSteps(w[0], h);
  }

  lemma NoOutputs(tx: Tx, h: Height)
    ensures CreateSteps(tx.(outs := []), h) == []
  {
  }

  lemma {:induction false} CleanSuffix(u: U.UtxoDb, a: seq<U.UStep>, c: seq<U.UStep>)
    requires U.Clean(u, a + c) && DistinctSpends(a + c)
    ensures U.Clean(u, c) && DistinctSpends(c)
  {
    var all := a + c;
    assert forall i :: 0 <= i < |c| ==> all[|a| + i] == c[i];
    SpendsFrom(all);
    SpendsFrom(c);
    CreatedAll(all);
    U.CreatesFrom(c);
    hide U.Spends, U.Creates;
    forall op | op in U.Spends(c) ensures op in u.utxo {
      assert U.Spend(op) in c;
      var i :| 0 <= i < |c| && c[i] == U.Spend(op);
      assert all[|a| + i] in all;
    }
    forall op | op in U.Creates(c) ensures op in U.Creates(all) {
      var i :| 0 <= i < |c| && c[i].Create? && c[i].op == op;
      assert all[|a| + i] == c[i];
    }
    assert U.DistinctCreates(c);
  }

  /** Fees come out of the supply, and outputs never turn negative. */
  lemma FeesFitInSupply(p: Params, db: Db, b: Block, h: Height)
    requires Inv(db, h - 1) && ValidBlock(p, db, b, h) && MoneyFacts(p, db, b, h) && NonNegative(db.u.utxo)
    ensures var fees := BlockFees(db.u, b.txs[1..], h, p.trackFrom);
            fees.Total? && fees.value <= Supply(db.u.utxo)
    ensures NonNegative(Connect(db, b, h).u.utxo)
  {
    var steps := BlockSteps(b.txs, h);
    var w := WithoutReward(b.txs);
    var rest := BlockSteps(w, h);
    BlockIsClean(p, db, b, h);
    FeesLive(db.u, b.txs[1..], h, p.trackFrom);
    assert db.u.addr == U.AddressMirror(db.u.utxo);
    CreatedValues(b.txs, h);
    RewardFirst(b.txs, h);
    assert SumOutputs(w[0].outs) == Total(0);
    SameInputs(db.u, b.txs, w, h, p.trackFrom);
    DeltaBlock(db.u, w, h, p.trackFrom);
    hide Inv, ValidBlock, Supply, SumInputs, SumOutputs, BlockFees, Delta, BlockSteps,
      U.AddressMirror, CreateSteps, PaysFromInputs, DistinctSpends, U.Clean;
    CleanSuffix(db.u, CreateSteps(b.txs[0], h), rest);
    SupplyAfterSteps(db.u, rest, h);
    StepsNonNegative(db.u, CreateSteps(b.txs[0], h) + rest, h);
    SuffixValues(CreateSteps(b.txs[0], h), rest);
    StepsNonNegative(db.u, rest, h);
    SupplyNonNegative(U.ApplySteps(db.u, rest, h).utxo);
    ConnectUtxo(db, b, h);
  }

  lemma ConnectUtxo(db: Db, b: Block, h: Height)
    ensures Connect(db, b, h).u.utxo == U.ApplySteps(db.u, BlockSteps(b.txs, h), h).utxo
  {
  }

  ghost predicate CreatesNonNegative(steps: seq<U.UStep>) {
    forall i :: 0 <= i < |steps| && steps[i].Create? ==> steps[i].out.value >= 0
  }

  lemma SuffixValues(a: seq<U.UStep>, c: seq<U.UStep>)
    requires CreatesNonNegative(a + c)
    ensures CreatesNonNegative(c)
  {
    assert forall i :: 0 <= i < |c| ==> (a + c)[|a| + i] == c[i];
  }

  lemma SameInputs(u: U.UtxoDb, txs: seq<Tx>, w: seq<Tx>, h: Height, trackFrom: int)
    requires |w| == |txs| > 0 && w[1..] == txs[1..] && PaysFromInputs(u, txs, h, trackFrom)
    ensures PaysFromInputs(u, w, h, trackFrom)
  {
    forall i | 1 <= i < |w| ensures w[i] == txs[i] {
      assert w[1..][i - 1] == txs[1..][i - 1];
    }
    hide SumInputs, SumOutputs;
  }

  lemma {:induction false} CreatedValues(txs: seq<Tx>, h: Height)
    requires forall i, j :: 0 <= i < |txs| && 0 <= j < |txs[i].outs| ==> txs[i].outs[j].value >= 0
    ensures CreatesNonNegative(BlockSteps(txs, h))
  {
    if txs != [] {
      var n := |txs| - 1;
      assert forall i :: 0 <= i < n ==> txs[..n][i] == txs[i];
      CreatedValues(txs[..n], h);
      var a, c := BlockSteps(txs[..n], h), TxSteps(txs[n], n, h);
      TxValues(txs[n], n, h);
      hide BlockSteps, TxSteps;
      JoinedValues(a, c);
      LastTx(txs, h);
    }
  }

  lemma JoinedValues(a: seq<U.UStep>, c: seq<U.UStep>)
    requires CreatesNonNegative(a) && CreatesNonNegative(c)
    ensures CreatesNonNegative(a + c)
  {
    assert forall i :: |a| <= i < |a + c| ==> (a + c)[i] == c[i - |a|];
  }

  lemma LastTx(txs: seq<Tx>, h: Height)
    requires txs != []
    ensures BlockSteps(txs, h) == BlockSteps(txs[..|txs| - 1], h) + TxSteps(txs[|txs| - 1], |txs| - 1, h)
  {
  }

  lemma TxValues(tx: Tx, idx: nat, h: Height)
    requires forall j :: 0 <= j < |tx.outs| ==> tx.outs[j].value >= 0
    ensures CreatesNonNegative(TxSteps(tx, idx, h))
  {
    var steps := TxSteps(tx, idx, h);
    var k := if idx > 0 then |tx.ins| else 0;
    assert forall i :: 0 <= i < k ==> steps[i].Spend?;
    assert forall i :: k <= i < |steps| ==> steps[i] == CreateStep(tx, i - k, h);
  }

  lemma {:induction false} StepsNonNegative(u: U.UtxoDb, steps: seq<U.UStep>, h: Height)
    requires NonNegative(u.utxo) && CreatesNonNegative(steps)
    ensures NonNegative(U.ApplySteps(u, steps, h).utxo)
  {
    if steps != [] {
      assert forall i :: 0 <= i < |steps| - 1 ==> steps[..|steps| - 1][i] == steps[i];
      StepsNonNegative(u, steps[..|steps| - 1], h);
    }
  }

  /** After each surviving block no output is negative. */
  ghost predicate NeverNegative(base: Db, t0: Height, stack: seq<Link>)
    requires t0 + |stack| <= MAX_INT32
  {
    NonNegative(Replay(base, t0, stack).u.utxo) && (stack == [] || NeverNegative(base, t0, stack[..|stack| - 1]))
  }

  /** The invariant of a run in which every block meets the money rules and no output is negative at the start. */
  ghost predicate GoodNonNegative(p: Params, base: Db, t0: Height, node: Node) {
    p.Valid() && Good(p, base, t0, node) && NeverNegative(base, t0, node.stack)
  }

  lemma {:induction false} RunNeverNegative(p: Params, base: Db, t0: Height, node: Node, events: seq<Event>)
    requires GoodNonNegative(p, base, t0, node) && AllowedRun(p, base, node, events) && MoneyRun(p, node, events)
    ensures GoodNonNegative(p, base, t0, Run(node, events))
    decreases |events|
  {
    hide GoodNonNegative, Good, Allowed, AfterConnect, AfterDisconnect, MoneyFacts;
    if events != [] {
      AllowedEnabled(p, base, node, events[0]);
      OneNeverNegative(p, base, t0, node, events[0]);
      RunNeverNegative(p, base, t0, Step(node, events[0]), events[1..]);
    }
  }

  lemma OneNeverNegative(p: Params, base: Db, t0: Height, node: Node, e: Event)
    requires GoodNonNegative(p, base, t0, node) && Allowed(p, base, node, e) && Enabled(node, e)
    requires e.ConnectBlock? && node.tip < MAX_INT32 ==> MoneyFacts(p, node.db, e.block, node.tip + 1)
    ensures GoodNonNegative(p, base, t0, Step(node, e))
  {
    hide Good, Allowed, NeverNegative, MoneyFacts, AfterConnect;
    match e {
      case ConnectBlock(b) =>
        StepConnect(p, base, t0, node, b);
        StepNeverNegative(p, base, t0, node, b);
      case DisconnectTip =>
        StepDisconnect(p, base, t0, node);
        BelowNeverNegative(p, base, t0, node);
    }
  }

  lemma BelowNeverNegative(p: Params, base: Db, t0: Height, node: Node)
    requires GoodNonNegative(p, base, t0, node) && node.stack != [] && node.tip > 0
    ensures t0 + |node.stack| - 1 <= MAX_INT32 && NeverNegative(base, t0, AfterDisconnect(node).stack)
  {
    hide Connect, Disconnect, NonNegative, Sound, Reversible, Prune;
  }

  lemma StepNeverNegative(p: Params, base: Db, t0: Height, node: Node, b: Block)
    requires p.Valid() && Good(p, base, t0, node) && NeverNegative(base, t0, node.stack)
    requires Allowed(p, base, node, ConnectBlock(b)) && MoneyFacts(p, node.db, b, node.tip + 1)
    ensures NeverNegative(base, t0, AfterConnect(node, b, node.tip + 1).stack)
  {
    hide Inv, Connect, Prune, ValidBlock, ConnectOk, Undoable, KnownTxs, MoneyFacts, EncodableOutputs, NonNegative, Supply, BlockFees;
    hide Sound, Reversible, Replay, TxIds, StackIds, PrunesAt, NeverNegative;
    var h, r := node.tip + 1, Replay(base, t0, node.stack);
    SoundReplay(p, base, t0, node.stack);
    ConnectReplayed(p, r, b, h, node.floor);
    MoneyFactsOnPruned(p, r, b, h, node.floor);
    LastNonNegative(base, t0, node.stack);
    FeesFitInSupply(p, r, b, h);
    OneMoreNonNegative(base, t0, node.stack, Link(b, Undoable(node.db, b, h)));
  }

  lemma LastNonNegative(base: Db, t0: Height, stack: seq<Link>)
    requires t0 + |stack| <= MAX_INT32 && NeverNegative(base, t0, stack)
    ensures NonNegative(Replay(base, t0, stack).u.utxo)
  {
  }

  lemma OneMoreNonNegative(base: Db, t0: Height, stack: seq<Link>, top: Link)
    requires t0 + |stack| < MAX_INT32 && NeverNegative(base, t0, stack)
    requires NonNegative(Connect(Replay(base, t0, stack), top.block, t0 + |stack| + 1).u.utxo)
    ensures NeverNegative(base, t0, stack + [top])
  {
    hide Connect, NonNegative;
    assert (stack + [top])[..|stack|] == stack;
  }

  /**
   On the main network no 64-bit sum of the subsidy check overflows: whatever the run so far,
   the fees of the next block and its subsidy together stay far below the limit.
   */
  lemma SumsFit(p: Params, events: seq<Event>, node: Node, b: Block, h: Height)
    requires p.interval == 210000 && AllowedRun(p, EMPTY, Start(EMPTY, 0), events) && MoneyRun(p, Start(EMPTY, 0), events)
    requires node == Run(Start(EMPTY, 0), events) && h == node.tip + 1
    requires Allowed(p, EMPTY, node, ConnectBlock(b)) && MoneyFacts(p, node.db, b, h)
    ensures var fees := BlockFees(node.db.u, b.txs[1..], h, p.trackFrom);
            fees.Total? && fees.value + CalcBlockSubsidy(h, p.interval) < 22000000 * COIN < MAX_INT64
  {
    hide Good, AllowedRun, MoneyRun, Run, Supply, EMPTY, BlockFees, CalcBlockSubsidy, Inv, MoneyFacts, NonNegative, Allowed, ValidBlock;
    RunIsNonNegative(p, events);
    SupplyIsBounded(p, events);
    AllowedIsValid(p, EMPTY, node, b);
    FeesFitInSupply(p, node.db, b, h);
    SubsidyAtMost(h, p.interval);
  }

  lemma RunIsNonNegative(p: Params, events: seq<Event>)
    requires p.Valid() && AllowedRun(p, EMPTY, Start(EMPTY, 0), events) && MoneyRun(p, Start(EMPTY, 0), events)
    ensures var node := Run(Start(EMPTY, 0), events); NonNegative(node.db.u.utxo) && Inv(node.db, node.tip)
  {
    hide Good, AllowedRun, MoneyRun, Run, EMPTY, Inv, NonNegative, NeverNegative;
    EmptyInv();
    StartGood(p, EMPTY, 0);
    StartNeverNegative();
    RunNeverNegative(p, EMPTY, 0, Start(EMPTY, 0), events);
    NodeNonNegative(p, EMPTY, 0, Run(Start(EMPTY, 0), events));
  }

  lemma AllowedIsValid(p: Params, base: Db, node: Node, b: Block)
    requires Allowed(p, base, node, ConnectBlock(b))
    ensures node.tip < MAX_INT32 && ValidBlock(p, node.db, b, node.tip + 1) && b.txs != []
  {
  }

  lemma StartNeverNegative()
    ensures NeverNegative(EMPTY, 0, Start(EMPTY, 0).stack)
  {
  }

  lemma NodeNonNegative(p: Params, base: Db, t0: Height, node: Node)
    requires Good(p, base, t0, node) && NeverNegative(base, t0, node.stack)
    ensures NonNegative(node.db.u.utxo) && Inv(node.db, node.tip)
  {
    hide Good, Inv, Replay, NonNegative;
    GoodState(p, base, t0, node);
  }

  lemma {:induction false} ShiftAtMost(x: nat, n: nat)
    ensures ShiftRight(x, n) <= x
  {
    if n > 0 { ShiftAtMost(x, n - 1); }
  }

  lemma SubsidyAtMost(h: Height, interval: int)
    requires interval > 0
    ensures CalcBlockSubsidy(h, interval) <= INITIAL_SUBSIDY
  {
    if h >= 0 && h / interval < MAX_HALVINGS {
      ShiftAtMost(INITIAL_SUBSIDY, h / interval);
    }
  }
}
