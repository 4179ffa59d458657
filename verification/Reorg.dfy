/** Connecting keeps the state invariant, and disconnecting undoes it, over whole runs. */
module Reorg {
  import opened Records
  import opened Chain
  import opened Validation
  import opened BlockFacts
  import Cursor
  import N = NameStore
  import NU = NameUndo
  import NE = NameExpiry
  import NI = NameInvariant
  import NH = NameHistory
  import U = UtxoSet
  import Maps

  /** The state invariant with the chain tip at the given height. */
  ghost predicate Inv(db: Db, tip: int) {
    0 <= tip && N.Inv(db.n, tip) && U.Inv(db.u, tip)
  }

  predicate TxEncodable(tx: Tx) {
    forall j :: 0 <= j < |tx.outs| ==> |tx.outs[j].address| <= 255 && |tx.outs[j].script| <= 65535
  }

  /** Every output of the block fits the UTXO encoding. */
  predicate EncodableOutputs(txs: seq<Tx>) {
    forall i :: 0 <= i < |txs| ==> TxEncodable(txs[i])
  }

  // ----- one block, in closed form -----

  lemma ExpireIsSet(d: N.NameDb, h: Height)
    requires N.Inv(d, h - 1) && h >= 1
    ensures ExpireNames(d, h) == NE.ExpireSet(d, NI.Expired(d.live, h), h)
  {
    ExpiredNamesFound(d.live, h);
    var names := Cursor.GetExpiredNames(d.live.expiration, h);
    forall n | n in names ensures n in d.live.names {
      assert n in Maps.Members(names);
    }
    hide N.ExpirationMirror, Cursor.GetExpiredNames, N.ExpireAll, NE.ExpireSet, Maps.Elements;
    NE.ExpireAllIsExpireSet(d, names, h);
  }

  lemma ExpiredNamesFound(l: N.Live, h: Height)
    requires N.LiveInv(l, h - 1) && h >= 1
    ensures var names := Cursor.GetExpiredNames(l.expiration, h);
            && Maps.Members(names) == NI.Expired(l, h)
            && (forall i, j :: 0 <= i < j < |names| ==> names[i] != names[j])
  {
    hide Cursor.GetExpiredNames, N.ExpirationMirror;
    Cursor.ExpiredScanComplete(l.expiration, h);
    var found := set k | k in l.expiration && k.height < h :: k.name;
    forall n | n in NI.Expired(l, h) ensures n in found {
      assert HeightName(l.names[n].expiresAt, n) in l.expiration;
    }
  }

  /** A valid block's effect: expire, then apply to the names that stay. */
  lemma ProcessShape(p: Params, db: Db, b: Block, h: Height)
    requires Inv(db, h - 1) && ValidBlock(p, db, b, h)
    ensures var l := db.n.live;
            var s := NI.Expired(l, h);
            var steps := BlockSteps(b.txs, h);
            && Process(db, b, h).n == N.NameDb(N.ApplyEntries(NE.Without(l, s), BlockEntries(b.txs), h, b.time),
                                               NE.WithBackups(db.n.back, NE.Only(l, s), h))
            && Process(db, b, h).u == U.Effect(db.u, U.Spends(steps), U.Creates(steps), h)
            && U.Spends(steps) <= db.u.utxo.Keys
            && U.Creates(steps).Keys !! db.u.utxo.Keys && U.Creates(steps).Keys !! db.u.spent.Keys
  {
    ExpireIsSet(db.n, h);
    BlockIsClean(p, db, b, h);
    U.ApplyStepsIsEffect(db.u, BlockSteps(b.txs, h), h);
    hide ExpireNames, NE.Without, NE.WithBackups, U.Effect, N.ApplyEntries, U.ApplySteps;
  }

  // ----- the invariant -----

  lemma {:induction false} StepsEncodable(txs: seq<Tx>, h: Height)
    ensures EncodableOutputs(txs) <==> U.CreatesEncodable(BlockSteps(txs, h))
  {
    if txs != [] {
      var n := |txs| - 1;
      StepsEncodable(txs[..n], h);
      TxStepsEncodable(txs[n], n, h);
      var a, c := BlockSteps(txs[..n], h), TxSteps(txs[n], n, h);
      hide TxEncodable;
      assert EncodableOutputs(txs) <==> EncodableOutputs(txs[..n]) && TxEncodable(txs[n]) by {
        assert forall i :: 0 <= i < n ==> txs[i] == txs[..n][i];
      }
      CreatesEncodableConcat(a, c);
      hide EncodableOutputs, U.CreatesEncodable, TxSteps;
    }
  }

  lemma CreatesEncodableConcat(a: seq<U.UStep>, c: seq<U.UStep>)
    ensures U.CreatesEncodable(a + c) <==> U.CreatesEncodable(a) && U.CreatesEncodable(c)
  {
    assert forall i :: 0 <= i < |a| ==> (a + c)[i] == a[i];
    assert forall i :: 0 <= i < |c| ==> (a + c)[|a| + i] == c[i];
  }

  lemma TxStepsEncodable(tx: Tx, idx: nat, h: Height)
    ensures TxEncodable(tx) <==> U.CreatesEncodable(TxSteps(tx, idx, h))
  {
    var steps := TxSteps(tx, idx, h);
    var k := if idx > 0 then |tx.ins| else 0;
    assert forall i :: 0 <= i < k ==> steps[i].Spend?;
    assert forall i :: k <= i < |steps| ==> steps[i] == CreateStep(tx, i - k, h);
    forall j | 0 <= j < |tx.outs| && U.CreatesEncodable(steps)
      ensures |tx.outs[j].address| <= 255 && |tx.outs[j].script| <= 65535
    {
      assert steps[k + j] == CreateStep(tx, j, h) && Encodable(steps[k + j].out);
    }
  }

  lemma ProcessNamesInv(p: Params, db: Db, b: Block, h: Height)
    requires Inv(db, h - 1) && ValidBlock(p, db, b, h)
    ensures N.Inv(Process(db, b, h).n, h)
  {
    ProcessShape(p, db, b, h);
    EntriesFit(p, db, b, h);
    NI.ExpireSetInv(db.n, h);
    NamedTxsNotBackedUp(p, db, b, h);
    hide Process, NI.Expired, NE.Without, NE.Only, NE.WithBackups, N.Inv, BlockOk;
    AppliedInv(NE.ExpireSet(db.n, NI.Expired(db.n.live, h), h), BlockEntries(b.txs), h, b.time);
  }

  lemma IndexedOf(d: N.NameDb, tip: int)
    requires N.Inv(d, tip)
    ensures N.Indexed(d.live)
  {
  }

  lemma AppliedInv(d: N.NameDb, es: seq<N.Entry>, h: Height, time: int)
    requires N.Inv(d, h) && h >= 1
    requires NU.Fits(d.live, es) && NI.AllTimely(d.live, es, h)
    requires NU.NamedTxs(es) !! d.back.hist.Keys && NU.NamedTxs(es) !! Maps.Elements(d.back.histIdx)
    ensures N.Inv(N.NameDb(N.ApplyEntries(d.live, es, h, time), d.back), h)
  {
    IndexedOf(d, h);
    hide N.LiveInv, N.BackInv, N.Separate, Maps.Elements;
    NI.ApplyEntriesLiveInv(d.live, es, h, time);
    NI.ApplyEntriesSeparate(d.live, d.back, es, h, time);
  }

  lemma ProcessUtxoInv(p: Params, db: Db, b: Block, h: Height)
    requires Inv(db, h - 1) && ValidBlock(p, db, b, h) && EncodableOutputs(b.txs)
    ensures U.Inv(Process(db, b, h).u, h)
  {
    ProcessShape(p, db, b, h);
    var steps := BlockSteps(b.txs, h);
    StepsEncodable(b.txs, h);
    U.CreatesFrom(steps);
    assert U.Inv(db.u, h - 1);
    hide Process, Inv, ValidBlock, U.Effect, U.Inv;
    U.EffectInv(db.u, U.Spends(steps), U.Creates(steps), h);
  }

  lemma NamedTxsNotBackedUp(p: Params, db: Db, b: Block, h: Height)
    requires ValidBlock(p, db, b, h)
    ensures var w := NE.WithBackups(db.n.back, NE.Only(db.n.live, NI.Expired(db.n.live, h)), h);
            NU.NamedTxs(BlockEntries(b.txs)) !! w.hist.Keys && NU.NamedTxs(BlockEntries(b.txs)) !! Maps.Elements(w.histIdx)
  {
    NamedTxsFresh(p, db, b, h);
    var s := NI.Expired(db.n.live, h);
    NI.ListedWith(db.n.back, NE.Only(db.n.live, s), h);
    NE.FewerListed(db.n.live, s);
    hide ValidBlock, NE.HistoryTxs, NE.MarksOf, NE.AtKeys, Maps.Elements, NI.Expired;
  }

  lemma PruneInv(db: Db, tip: int, floor: int)
    requires Inv(db, tip)
    ensures Inv(Prune(db, floor), tip)
  {
    NI.PruneInv(db.n, tip, floor);
    U.PruneSpentInv(db.u, tip, floor);
    hide N.Inv, U.Inv;
  }

  lemma ProcessInv(p: Params, db: Db, b: Block, h: Height)
    requires Inv(db, h - 1) && ValidBlock(p, db, b, h) && EncodableOutputs(b.txs)
    ensures Inv(Process(db, b, h), h)
  {
    hide ValidBlock, Process, N.Inv, U.Inv, EncodableOutputs;
    ProcessNamesInv(p, db, b, h);
    ProcessUtxoInv(p, db, b, h);
  }

  /** Connecting a valid block keeps the state invariant. */
  lemma ConnectInv(p: Params, db: Db, b: Block, h: Height)
    requires Inv(db, h - 1) && ValidBlock(p, db, b, h) && EncodableOutputs(b.txs)
    ensures Inv(Connect(db, b, h), h)
  {
    hide ValidBlock, Process, Inv, EncodableOutputs, Prune;
    ProcessInv(p, db, b, h);
    PruneInv(Process(db, b, h), h, h - RETENTION_DEPTH);
  }

  // ----- complete histories -----

  lemma PruneComplete(db: Db, floor: int)
    requires N.Complete(db.n)
    ensures N.Complete(Prune(db, floor).n)
  {
    NI.PruneComplete(db.n.back, floor);
    hide N.BackupsComplete, N.HistoryMatchesNames;
  }

  /**
   Complete histories stay complete exactly when no transaction of the block writes two names:
   history is keyed by the transaction, so the second record takes the place of the first.
   */
  lemma ProcessComplete(p: Params, db: Db, b: Block, h: Height)
    requires Inv(db, h - 1) && ValidBlock(p, db, b, h) && N.Complete(db.n)
    ensures N.Complete(Process(db, b, h).n) <==> OneNamePerTx(b.txs)
    ensures N.HistoryMatchesNames(Process(db, b, h).n.live) <==> OneNamePerTx(b.txs)
  {
    hide Process, ValidBlock, OneNamePerTx, N.Inv, N.Complete, N.HistoryMatchesNames, N.BackupsComplete;
    hide U.Inv, NE.Without, NE.Only, NE.WithBackups, NH.NamedApart, NH.IndexesApart, NI.Expired, U.Effect, U.Spends, U.Creates;
    var d := NE.ExpireSet(db.n, NI.Expired(db.n.live, h), h);
    ProcessShape(p, db, b, h);
    EntriesFit(p, db, b, h);
    BlockApart(p, db, b, h);
    StoredNames(db.n.live, h);
    NI.ExpireSetComplete(db.n, NI.Expired(db.n.live, h), h - 1, h);
    NI.ExpireSetInv(db.n, h);
    AppliedComplete(d, BlockEntries(b.txs), h, b.time);
  }

  lemma BlockApart(p: Params, db: Db, b: Block, h: Height)
    requires ValidBlock(p, db, b, h)
    ensures NH.NamedApart(BlockEntries(b.txs)) <==> OneNamePerTx(b.txs)
    ensures NH.IndexesApart(BlockEntries(b.txs)) && 1 <= h
  {
    EntriesApart(b.txs);
  }

  lemma StoredNames(l: N.Live, h: Height)
    ensures NI.Expired(l, h) <= l.names.Keys
  {
  }

  lemma AppliedComplete(d: N.NameDb, es: seq<N.Entry>, h: Height, time: int)
    requires N.Inv(d, h) && N.Complete(d) && NU.Fits(d.live, es) && NH.IndexesApart(es)
    ensures N.Complete(N.NameDb(N.ApplyEntries(d.live, es, h, time), d.back)) <==> NH.NamedApart(es)
    ensures N.HistoryMatchesNames(N.ApplyEntries(d.live, es, h, time)) <==> NH.NamedApart(es)
  {
    IndexedOf(d, h);
    hide N.Inv, N.HistoryMatchesNames, N.BackupsComplete, N.Indexed, NH.NamedApart, NH.IndexesApart;
    NH.CompleteExactly(d.live, es, h, time);
  }

  /** The same with the cleanup at the end of the block. */
  lemma ConnectComplete(p: Params, db: Db, b: Block, h: Height)
    requires Inv(db, h - 1) && ValidBlock(p, db, b, h) && N.Complete(db.n)
    ensures N.Complete(Connect(db, b, h).n) <==> OneNamePerTx(b.txs)
    ensures N.HistoryMatchesNames(Connect(db, b, h).n.live) <==> OneNamePerTx(b.txs)
  {
    hide Process, ValidBlock, Inv, OneNamePerTx, N.Complete, N.HistoryMatchesNames, Prune;
    ProcessComplete(p, db, b, h);
    var x := Process(db, b, h);
    PruneHistories(x, h - RETENTION_DEPTH);
    if N.Complete(x.n) {
      PruneComplete(x, h - RETENTION_DEPTH);
    }
  }

  lemma PruneHistories(db: Db, floor: int)
    ensures Prune(db, floor).n.live == db.n.live
    ensures N.Complete(Prune(db, floor).n) ==> N.HistoryMatchesNames(db.n.live)
  {
  }

  // ----- no valid block fails half-way -----

  /** Every registered commitment can be a key of its bucket. */
  predicate CommitmentsLegal(es: seq<N.Entry>) {
    forall i :: 0 <= i < |es| && es[i].op.NewOp? ==> N.LegalKey(es[i].op.commit)
  }

  lemma {:induction false} EntriesFailOnIllegalKey(x: N.Live, es: seq<N.Entry>, h: Height, time: int)
    requires N.Indexed(x) && NU.Fits(x, es)
    ensures N.EntriesOk(x, es, h, time) <==> CommitmentsLegal(es)
  {
    hide N.Indexed, Maps.Elements;
    if es != [] {
      var n := |es| - 1;
      EntriesFailOnIllegalKey(x, es[..n], h, time);
      NU.ApplyEntriesShape(x, es[..n], h, time);
      NU.FitsSeparates(x, es[..n]);
      assert CommitmentsLegal(es) <==> CommitmentsLegal(es[..n]) && (es[n].op.NewOp? ==> N.LegalKey(es[n].op.commit)) by {
        assert forall i :: 0 <= i < n ==> es[i] == es[..n][i];
      }
    }
  }

  lemma {:induction false} StepsFailOnOversize(u: U.UtxoDb, steps: seq<U.UStep>, h: Height)
    requires u.addr == U.AddressMirror(u.utxo) && U.Clean(u, steps)
    requires forall op :: op in u.utxo ==> Encodable(u.utxo[op])
    ensures U.StepsOk(u, steps, h) <==> U.CreatesEncodable(steps)
  {
    hide U.AddressMirror, U.Clean, Encodable, U.CreatesEncodable, U.StepOk, U.ApplySteps;
    if steps == [] {
      assert U.CreatesEncodable(steps) by { NothingCreated(steps); }
    } else {
      var n := |steps| - 1;
      U.CleanPrefix(u, steps);
      StepsFailOnOversize(u, steps[..n], h);
      LastStepFails(u, steps, h);
      LastCreateEncodable(steps);
    }
  }

  lemma NothingCreated(steps: seq<U.UStep>)
    requires steps == []
    ensures U.CreatesEncodable(steps)
  {
  }

  lemma LastCreateEncodable(steps: seq<U.UStep>)
    requires steps != []
    ensures var s := steps[|steps| - 1];
            U.CreatesEncodable(steps) <==> U.CreatesEncodable(steps[..|steps| - 1]) && (s.Create? ==> Encodable(s.out))
  {
    assert forall i :: 0 <= i < |steps| - 1 ==> steps[i] == steps[..|steps| - 1][i];
  }

  /** A spent output is one from before the block, and those fit; so only a created output can fail. */
  lemma LastStepFails(u: U.UtxoDb, steps: seq<U.UStep>, h: Height)
    requires steps != [] && u.addr == U.AddressMirror(u.utxo) && U.Clean(u, steps)
    requires forall op :: op in u.utxo ==> Encodable(u.utxo[op])
    ensures var s := steps[|steps| - 1];
            U.StepOk(U.ApplySteps(u, steps[..|steps| - 1], h), s) <==> (s.Create? ==> Encodable(s.out))
  {
    U.CleanPrefix(u, steps);
    U.ApplyStepsIsEffect(u, steps[..|steps| - 1], h);
    hide U.AddressMirror, U.Clean, Encodable, U.ApplySteps, U.Spends, U.Creates;
  }

  /** What the buckets can hold: no oversized output, and no commitment that is empty or longer than a key. */
  predicate Storable(b: Block) {
    EncodableOutputs(b.txs) && CommitmentsLegal(BlockEntries(b.txs))
  }

  /** Updating the buckets for a valid block fails exactly when it contains what they cannot hold. */
  lemma ConnectFailsOnUnstorable(p: Params, db: Db, b: Block, h: Height)
    requires Inv(db, h - 1) && ValidBlock(p, db, b, h)
    ensures ConnectOk(db, b, h) <==> Storable(b)
  {
    ConnectNamesOk(p, db, b, h);
    BlockIsClean(p, db, b, h);
    assert U.Inv(db.u, h - 1);
    hide ValidBlock, Inv, N.EntriesOk, U.StepsOk, EncodableOutputs, U.Clean, ExpireNames, CommitmentsLegal;
    StepsFailOnOversize(db.u, BlockSteps(b.txs, h), h);
    StepsEncodable(b.txs, h);
  }

  lemma ConnectNamesOk(p: Params, db: Db, b: Block, h: Height)
    requires Inv(db, h - 1) && ValidBlock(p, db, b, h)
    ensures N.EntriesOk(ExpireNames(db.n, h).live, BlockEntries(b.txs), h, b.time) <==> CommitmentsLegal(BlockEntries(b.txs))
  {
    assert N.Inv(db.n, h - 1) && h >= 1;
    EntriesFit(p, db, b, h);
    hide ValidBlock, Inv, NE.Without, N.Inv;
    ExpireIsSet(db.n, h);
    NI.ExpireSetInv(db.n, h);
    assert N.LiveInv(NE.Without(db.n.live, NI.Expired(db.n.live, h)), h) by {
      assert N.Inv(NE.ExpireSet(db.n, NI.Expired(db.n.live, h), h), h);
    }
    EntriesFailOnIllegalKey(NE.Without(db.n.live, NI.Expired(db.n.live, h)), BlockEntries(b.txs), h, b.time);
  }

  // ----- disconnecting undoes connecting -----

  /**
   What a rollback needs: the block registers no name that is stored before it, not even one that
   expires with it; the history of every name it updates ends in the live record; and no name
   that expires with it lists a history record that has been backed up before.
   */
  predicate Undoable(db: Db, b: Block, h: Height) {
    var l, es := db.n.live, BlockEntries(b.txs);
    && NoReRegistration(l, es)
    && NU.UpdatesRecorded(l, es)
    && NE.HistoryTxs(l, NI.Expired(l, h)) !! db.n.back.hist.Keys
  }

  /** With complete histories only the first condition is left. */
  lemma UndoableWhenComplete(p: Params, db: Db, b: Block, h: Height)
    requires Inv(db, h - 1) && ValidBlock(p, db, b, h) && N.Complete(db.n)
    ensures Undoable(db, b, h) <==> NoReRegistration(db.n.live, BlockEntries(b.txs))
  {
    var l, es, s := db.n.live, BlockEntries(b.txs), NI.Expired(db.n.live, h);
    forall i | 0 <= i < |es| && es[i].op.UpdateOp? ensures N.EndsLive(l, es[i].op.name) {
      var tx, o := EntryRules(p, db, b, h, i);
      assert N.HistoryOk(l, es[i].op.name);
    }
    forall tx | tx in NE.HistoryTxs(l, s) ensures tx !in db.n.back.hist {
      NI.ListedOnRecord(l, s, tx);
    }
  }

  /** The name half of a disconnect. */
  lemma UndoNames(p: Params, db: Db, b: Block, h: Height)
    requires Inv(db, h - 1) && ValidBlock(p, db, b, h)
    ensures Undoable(db, b, h) ==> DisconnectNames(Process(db, b, h).n, b, h) == db.n
    ensures !Undoable(db, b, h) ==> DisconnectNames(Process(db, b, h).n, b, h).live != db.n.live
  {
    var l, es, s := db.n.live, BlockEntries(b.txs), NI.Expired(db.n.live, h);
    assert N.Inv(db.n, h - 1);
    if NoReRegistration(l, es) {
      ProcessShape(p, db, b, h);
      EntriesFit(p, db, b, h);
      TouchedNotExpired(p, db, b, h);
      NamedTxsFresh(p, db, b, h);
      hide Process, ValidBlock, Inv, NoReRegistration, BlockEntries, NE.HistoryTxs, NI.Expired, N.Inv, NU.UpdatesRecorded;
      UndoNamesOf(db.n, es, s, h, b.time);
    } else {
      var i :| 0 <= i < |es| && es[i].op.FirstUpdateOp? && es[i].op.name in l.names;
      assert NoClashes(es);
      hide Process, Inv, N.RestoreExpired;
      var restored := N.RestoreExpired(Process(db, b, h).n, h);
      UnregisteredStaysGone(N.Undoing(restored.live, {}), es, h, i);
    }
  }

  lemma UndoNamesOf(d: N.NameDb, es: seq<N.Entry>, s: set<Name>, h: Height, time: int)
    requires N.Inv(d, h - 1) && NU.Fits(d.live, es) && s <= d.live.names.Keys
    requires NU.TouchedNames(es) !! s && NU.NamedTxs(es) !! HistoryTxs(d)
    ensures var after := N.NameDb(N.ApplyEntries(NE.Without(d.live, s), es, h, time), NE.WithBackups(d.back, NE.Only(d.live, s), h));
            var r := N.RestoreExpired(after, h);
            var u := N.UndoEntries(N.Undoing(r.live, {}), es, h).live;
            if NU.UpdatesRecorded(d.live, es) && NE.HistoryTxs(d.live, s) !! d.back.hist.Keys then r.back == d.back && u == d.live
            else u != d.live
  {
    var txs := NE.HistoryTxs(d.live, s);
    RestoredIsApplied(d, es, s, h, time);
    assert N.LiveInv(d.live, h - 1) && N.Separate(d.live, d.back);
    hide N.Inv, N.LiveInv, N.Separate, N.RestoreExpired, NE.Without, NE.WithBackups, NE.Only, HistoryTxs, NE.HistoryTxs;
    hide NU.UpdatesRecorded, N.ApplyEntries, N.UndoEntries, NU.Fits;
    if txs !! d.back.hist.Keys {
      Maps.NothingTaken(d.back.hist, txs);
      Maps.RestrictNone(d.live.history);
      UndoneExactly(d.live, es, h, time);
    } else {
      UndoneWithMore(d, es, txs, h, time);
    }
  }

  /** History records brought back from other backups stay. */
  lemma UndoneWithMore(d: N.NameDb, es: seq<N.Entry>, txs: set<Hash>, h: Height, time: int)
    requires N.LiveInv(d.live, h - 1) && N.Separate(d.live, d.back) && NU.Fits(d.live, es)
    requires NU.NamedTxs(es) !! HistoryTxs(d) && !(txs !! d.back.hist.Keys)
    ensures var x := d.live.(history := d.live.history + Maps.Restrict(d.back.hist, txs));
            N.UndoEntries(N.Undoing(N.ApplyEntries(x, es, h, time), {}), es, h).live != d.live
  {
    var more := Maps.Restrict(d.back.hist, txs);
    var x := d.live.(history := d.live.history + more);
    var tx :| tx in txs && tx in d.back.hist;
    assert tx in x.history && tx !in d.live.history;
    assert N.Indexed(x);
    assert NU.NamedTxs(es) !! more.Keys;
    hide N.LiveInv, N.Separate, HistoryTxs, N.Indexed, Maps.Restrict, NU.Fits, N.ApplyEntries;
    StillFits(d.live, more, es);
    UndoneHistory(x, es, h, time);
  }

  /** Fresh transactions stay fresh when more history is on record that is not theirs. */
  lemma {:induction false} StillFits(l: N.Live, more: map<Hash, Record>, es: seq<N.Entry>)
    requires NU.Fits(l, es) && NU.NamedTxs(es) !! more.Keys
    ensures NU.Fits(l.(history := l.history + more), es)
  {
    hide Maps.Elements;
    if es != [] {
      StillFits(l, more, es[..|es| - 1]);
    }
  }

  lemma UndoneHistory(x: N.Live, es: seq<N.Entry>, h: Height, time: int)
    requires N.Indexed(x) && NU.Fits(x, es)
    ensures N.UndoEntries(N.Undoing(N.ApplyEntries(x, es, h, time), {}), es, h).live.history == x.history
  {
    var applied := N.ApplyEntries(x, es, h, time);
    NU.ApplyEntriesShape(x, es, h, time);
    assert NU.AgreeOutside(applied.history, applied.history, NU.NamedTxs(es));
    hide N.Indexed, NU.Fits, NU.CommitsFrame, N.ApplyEntries;
    NH.UndoEntriesFinds(x, es, N.Undoing(applied, {}), h, time, 0);
  }

  /** Undoing entries on what they make of x gives back x exactly when all updated histories ended in the live record. */
  lemma UndoneExactly(x: N.Live, es: seq<N.Entry>, h: Height, time: int)
    requires N.LiveInv(x, h - 1) && NU.Fits(x, es)
    ensures N.UndoEntries(N.Undoing(N.ApplyEntries(x, es, h, time), {}), es, h).live == x <==> NU.UpdatesRecorded(x, es)
  {
    var applied := N.ApplyEntries(x, es, h, time);
    if NU.UpdatesRecorded(x, es) {
      assert NU.AgreeOutside(applied.nameNew, applied.nameNew, NU.Consumed(es));
      assert NU.AgreeOutside(applied.history, applied.history, NU.NamedTxs(es));
      hide N.Indexed, NU.Fits, N.ApplyEntries, N.RecordInv, NU.UpdatesRecorded;
      NU.UndoEntriesInverts(x, es, N.Undoing(applied, {}), h, time);
    } else {
      var i :| 0 <= i < |es| && es[i].op.UpdateOp? && !N.EndsLive(x, es[i].op.name);
      UpdateNotUndone(x, es, h, time, i);
    }
  }

  /** An updated name whose history does not end in its live record does not get that record back. */
  lemma UpdateNotUndone(x: N.Live, es: seq<N.Entry>, h: Height, time: int, i: nat)
    requires N.LiveInv(x, h - 1) && NU.Fits(x, es) && i < |es| && es[i].op.UpdateOp? && !N.EndsLive(x, es[i].op.name)
    ensures var n, l := es[i].op.name, N.UndoEntries(N.Undoing(N.ApplyEntries(x, es, h, time), {}), es, h).live;
            n in l.names && n in x.names && l.names[n] != x.names[n]
  {
    var applied, n := N.ApplyEntries(x, es, h, time), es[i].op.name;
    NU.ApplyEntriesShape(x, es, h, time);
    NU.EarlierFrom(es);
    assert NU.AgreeOutside(applied.history, applied.history, NU.NamedTxs(es));
    UpdatedIsStored(x, es, i);
    assert N.RecordInv(x.names[n], h - 1) && applied.names[n].height == h;
    assert n in x.histIdx && N.HistoryOf(x, n) != [];
    assert NH.FoundRecord(x, n, applied.names[n]) != x.names[n];
    hide N.Indexed, NU.Fits, NU.CommitsFrame, N.ApplyEntries, N.EndsLive, NH.FoundRecord;
    NH.UndoEntriesFinds(x, es, N.Undoing(applied, {}), h, time, i);
  }

  lemma {:induction false} UpdatedIsStored(x: N.Live, es: seq<N.Entry>, i: nat)
    requires NU.Fits(x, es) && i < |es| && es[i].op.UpdateOp?
    ensures es[i].op.name in x.names
  {
    if i < |es| - 1 {
      UpdatedIsStored(x, es[..|es| - 1], i);
    }
  }

  /**
   With the expired names back, the buckets are as if the block had been applied without expiring,
   and with the records that restored histories share with older backups.
   */
  lemma RestoredIsApplied(d: N.NameDb, es: seq<N.Entry>, s: set<Name>, h: Height, time: int)
    requires N.Inv(d, h - 1) && s <= d.live.names.Keys
    requires NU.TouchedNames(es) !! s && NU.NamedTxs(es) !! HistoryTxs(d)
    ensures var after := N.NameDb(N.ApplyEntries(NE.Without(d.live, s), es, h, time), NE.WithBackups(d.back, NE.Only(d.live, s), h));
            var txs := NE.HistoryTxs(d.live, s);
            N.RestoreExpired(after, h)
            == N.NameDb(N.ApplyEntries(d.live.(history := d.live.history + Maps.Restrict(d.back.hist, txs)), es, h, time),
                        d.back.(hist := d.back.hist - txs))
  {
    var l, x := d.live, NE.Only(d.live, s);
    var more := Maps.Restrict(d.back.hist, NE.HistoryTxs(l, s));
    NE.OnlyIsWhole(l, s);
    NI.BackedUpApart(d, s);
    NE.OverlayWithout(l, s, more);
    OnlyKeys(l, s, more);
    hide N.Indexed, NE.Without, NE.Overlay, NE.WithBackups, N.RestoreExpired, N.ApplyEntries, N.BackInv, N.Separate, Maps.Elements;
    assert NU.NamedTxs(es) !! NE.OnlyWith(l, s, more).history.Keys;
    NE.ApplyEntriesOverlay(NE.Without(l, s), NE.OnlyWith(l, s, more), es, h, time);
    NE.RestoreBackedUp(N.ApplyEntries(NE.Without(l, s), es, h, time), d.back, x, h);
  }

  lemma OnlyKeys(l: N.Live, s: set<Name>, more: map<Hash, Record>)
    requires N.Indexed(l) && s <= l.names.Keys
    ensures var x := NE.OnlyWith(l, s, more);
            && x.names.Keys == s && x.histIdx.Keys == s
            && x.history.Keys <= l.history.Keys + more.Keys
            && forall k :: k in x.expiration ==> k.name in s
  {
    hide N.ExpirationMirror, NE.HistoryTxs, Maps.Restrict, Maps.Elements;
  }

  lemma UndoUtxos(p: Params, db: Db, b: Block, h: Height)
    requires Inv(db, h - 1) && ValidBlock(p, db, b, h)
    ensures DisconnectUtxos(Process(db, b, h).u, b, h) == db.u
  {
    ProcessShape(p, db, b, h);
    var steps := BlockSteps(b.txs, h);
    RemovesWhatWasCreated(b.txs, h);
    assert U.Inv(db.u, h - 1);
    hide Process, ValidBlock, Inv, U.Effect, U.RestoreSpent, U.RemoveAll, U.Inv;
    U.UndoEffect(db.u, U.Spends(steps), U.Creates(steps), h, RemovalOrder(b.txs));
  }

  /** A name the rollback un-registers is gone: nothing undone later brings it back. */
  lemma {:induction false} UnregisteredStaysGone(s: N.Undoing, es: seq<N.Entry>, h: Height, i: nat)
    requires NoClashes(es) && i < |es| && es[i].op.FirstUpdateOp?
    ensures es[i].op.name !in N.UndoEntries(s, es, h).live.names
    decreases |es|
  {
    var k := |es| - 1;
    var s' := N.UndoEntry(s, es[k], h);
    if i == k {
      assert forall j :: 0 <= j < k ==> es[..k][j] == es[j] && !Clash(es[j].op, es[k].op);
      AbsentStaysAbsent(s', es[..k], h, es[i].op.name);
    } else {
      assert es[..k][i] == es[i];
      UnregisteredStaysGone(s', es[..k], h, i);
    }
  }

  lemma {:induction false} AbsentStaysAbsent(s: N.Undoing, es: seq<N.Entry>, h: Height, name: Name)
    requires name !in s.live.names
    requires forall j :: 0 <= j < |es| && es[j].op.Names() ==> es[j].op.name != name
    ensures name !in N.UndoEntries(s, es, h).live.names
    decreases |es|
  {
    if es != [] {
      var k := |es| - 1;
      assert es[k].op.Names() ==> es[k].op.name != name;
      AbsentStaysAbsent(N.UndoEntry(s, es[k], h), es[..k], h, name);
    }
  }

  /**
   Disconnecting a valid block right after connecting it gives back every bucket, live or backup,
   exactly when the block is undoable.  Otherwise the live buckets differ: expired names are
   restored before the block's operations are undone, so the undo of a first update that took
   over an expiring name deletes the restored record; and an updated name gets the record that
   its last history entry holds now.
   */
  lemma DisconnectUndoesProcess(p: Params, db: Db, b: Block, h: Height)
    requires Inv(db, h - 1) && ValidBlock(p, db, b, h)
    ensures Disconnect(Process(db, b, h), b, h) == db <==> Undoable(db, b, h)
    ensures Disconnect(Process(db, b, h), b, h).n.live == db.n.live <==> Undoable(db, b, h)
  {
    hide ValidBlock, Inv, Process, Undoable, DisconnectNames, DisconnectUtxos;
    UndoNames(p, db, b, h);
    UndoUtxos(p, db, b, h);
  }

  // ----- old backups do not matter -----

  lemma PruneTwice(db: Db, f: int, g: int)
    requires U.UniqueBackups(db.u.spentIdx)
    ensures Prune(Prune(db, f), g) == Prune(db, if f < g then g else f)
  {
    NI.PruneExpiredTwice(db.n.back, f, g);
    U.PruneSpentTwice(db.u, f, g);
    hide N.PruneExpired, U.PruneSpent;
  }

  /** A block that is valid on a state is valid on the state without its old backups, and the other way round. */
  lemma ValidOnPruned(p: Params, db: Db, b: Block, h: Height, floor: int)
    requires p.Valid() && TxIds(b.txs) !! KnownTxs(db)
    ensures ValidBlock(p, Prune(db, floor), b, h) <==> ValidBlock(p, db, b, h)
  {
    KnownOnPruned(db, floor);
    BlockOkOnPruned(p, db, b, h, floor);
    hide KnownTxs, Prune, BlockOk;
  }

  lemma KnownOnPruned(db: Db, floor: int)
    ensures KnownTxs(Prune(db, floor)) <= KnownTxs(db)
  {
  }

  /** The rules read the live buckets only. */
  lemma BlockOkOnPruned(p: Params, db: Db, b: Block, h: Height, floor: int)
    requires p.Valid()
    ensures BlockOk(p, Prune(db, floor), b, h) == BlockOk(p, db, b, h)
  {
    var u' := Prune(db, floor).u;
    if b.txs != [] {
      BlockFeesSame(db.u, u', b.txs[1..], h, p.trackFrom);
    }
    forall i | 0 <= i < |b.txs| ensures TxOk(p, Prune(db, floor), b.txs[i], i, h) == TxOk(p, db, b.txs[i], i, h) {
      SumInputsSame(db.u, u', b.txs[i].ins, h, p.trackFrom);
    }
    hide TxOk, BlockFees, Prune, NoClashes;
    assert (forall i :: 0 <= i < |b.txs| ==> TxOk(p, Prune(db, floor), b.txs[i], i, h))
      == (forall i :: 0 <= i < |b.txs| ==> TxOk(p, db, b.txs[i], i, h));
  }

  lemma {:induction false} SumInputsSame(u: U.UtxoDb, u': U.UtxoDb, ins: seq<OutPoint>, h: Height, trackFrom: int)
    requires u.utxo == u'.utxo
    ensures SumInputs(u, ins, h, trackFrom) == SumInputs(u', ins, h, trackFrom)
  {
    if ins != [] {
      SumInputsSame(u, u', ins[..|ins| - 1], h, trackFrom);
    }
  }

  lemma {:induction false} BlockFeesSame(u: U.UtxoDb, u': U.UtxoDb, txs: seq<Tx>, h: Height, trackFrom: int)
    requires u.utxo == u'.utxo
    ensures BlockFees(u, txs, h, trackFrom) == BlockFees(u', txs, h, trackFrom)
  {
    if txs != [] {
      BlockFeesSame(u, u', txs[..|txs| - 1], h, trackFrom);
      SumInputsSame(u, u', txs[|txs| - 1].ins, h, trackFrom);
    }
  }

  /** Backups below a floor at or below the block's height play no part in connecting it. */
  lemma ConnectOnPruned(p: Params, db: Db, b: Block, h: Height, floor: int)
    requires Inv(db, h - 1) && ValidBlock(p, db, b, h) && floor <= h
    ensures Connect(Prune(db, floor), b, h) == Prune(Connect(db, b, h), floor)
  {
    hide ValidBlock, Inv, Process, Prune, U.UniqueBackups;
    ProcessOnPruned(p, db, b, h, floor);
    UniqueAfterProcess(p, db, b, h);
    var x := Process(db, b, h);
    PruneTwice(x, floor, h - RETENTION_DEPTH);
    PruneTwice(x, h - RETENTION_DEPTH, floor);
  }

  lemma UniqueAfterProcess(p: Params, db: Db, b: Block, h: Height)
    requires Inv(db, h - 1) && ValidBlock(p, db, b, h)
    ensures U.UniqueBackups(Process(db, b, h).u.spentIdx)
  {
    ProcessShape(p, db, b, h);
    assert U.UniqueBackups(db.u.spentIdx) && U.Inv(db.u, h - 1);
    hide Process, ValidBlock, Inv, U.AddressMirror;
  }

  lemma ProcessOnPruned(p: Params, db: Db, b: Block, h: Height, floor: int)
    requires Inv(db, h - 1) && ValidBlock(p, db, b, h) && floor <= h
    ensures Process(Prune(db, floor), b, h) == Prune(Process(db, b, h), floor)
  {
    PrunedStillValid(p, db, b, h, floor);
    hide ValidBlock;
    ProcessShape(p, db, b, h);
    ProcessShape(p, Prune(db, floor), b, h);
    assert N.Inv(db.n, h - 1) && U.Inv(db.u, h - 1);
    hide Process, Inv, U.Effect, NE.Without, NE.Only, NE.WithBackups, N.PruneExpired, U.PruneSpent;
    NI.BackedUpApart(db.n, NI.Expired(db.n.live, h));
    NE.PruneBackedUp(db.n.back, NE.Only(db.n.live, NI.Expired(db.n.live, h)), h, floor);
    U.EffectPrune(db.u, U.Spends(BlockSteps(b.txs, h)), U.Creates(BlockSteps(b.txs, h)), h, floor);
  }

  lemma PrunedStillValid(p: Params, db: Db, b: Block, h: Height, floor: int)
    requires Inv(db, h - 1) && ValidBlock(p, db, b, h)
    ensures Inv(Prune(db, floor), h - 1) && ValidBlock(p, Prune(db, floor), b, h)
  {
    hide Inv, BlockOk, Prune, KnownTxs;
    PruneInv(db, h - 1, floor);
    ValidOnPruned(p, db, b, h, floor);
  }

  /** Backups below a floor at or below the block's height play no part in disconnecting it. */
  lemma DisconnectOnPruned(db: Db, b: Block, tip: int, h: Height, floor: int)
    requires Inv(db, tip) && N.BackupsComplete(db.n.back) && floor <= h
    ensures Disconnect(Prune(db, floor), b, h) == Prune(Disconnect(db, b, h), floor)
  {
    NI.RestorePrune(db.n.live, db.n.back, tip, h, floor);
    var u := db.u;
    U.RemoveAllPrune(u, RemovalOrder(b.txs), floor);
    U.RestoreSpentPrune(U.RemoveAll(u, RemovalOrder(b.txs)), h, floor);
    hide Inv, N.BackupsComplete, N.PruneExpired, U.PruneSpent, N.RestoreExpired, U.RestoreSpent, U.RemoveAll, N.UndoEntries;
  }
}
