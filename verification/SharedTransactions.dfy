/**
 Two names written by one transaction.  The name rules allow it, but a history record is keyed
 by the transaction alone, so the two share the record of the second.  Here is what that costs
 one block later.
 */
module SharedTransactions {
  import opened Bytes
  import opened Records
  import opened Chain
  import opened Validation
  import opened BlockFacts
  import opened Reorg
  import Maps
  import N = NameStore
  import NU = NameUndo
  import NE = NameExpiry
  import NI = NameInvariant
  import NH = NameHistory
  import U = UtxoSet

  /** The block updates no name that the block before it has written and then overwritten the record of. */
  ghost predicate SparesOverwritten(before: Block, b: Block) {
    var es := BlockEntries(b.txs);
    forall i :: 0 <= i < |es| && es[i].op.UpdateOp? ==> !NH.Overwritten(BlockEntries(before.txs), es[i].op.name)
  }

  /** Which histories end in their live record after a block: all but the overwritten ones. */
  lemma HistoriesAfter(p: Params, db: Db, b: Block, h: Height, n: Name)
    requires Inv(db, h - 1) && N.Complete(db.n) && ValidBlock(p, db, b, h) && n in Process(db, b, h).n.live.names
    ensures N.EndsLive(Process(db, b, h).n.live, n) <==> !NH.Overwritten(BlockEntries(b.txs), n)
  {
    var w, es := NE.Without(db.n.live, NI.Expired(db.n.live, h)), BlockEntries(b.txs);
    CompleteWithout(p, db, b, h);
    assert n in NU.TouchedNames(es) || N.EndsLive(w, n) by {
      NU.ApplyEntriesShape(w, es, h, b.time);
      assert n !in NU.TouchedNames(es) ==> n in w.names;
      assert n in w.names ==> N.HistoryOk(w, n);
    }
    hide Process, ValidBlock, Inv, NE.Without, N.Indexed, N.EndsLive, NU.Fits, NH.Overwritten, N.HistoryMatchesNames;
    NH.EndsLiveAfter(w, es, h, b.time, n);
  }

  /** The live buckets of a complete database, without the names that expire, and what the block makes of them. */
  lemma CompleteWithout(p: Params, db: Db, b: Block, h: Height)
    requires Inv(db, h - 1) && N.Complete(db.n) && ValidBlock(p, db, b, h)
    ensures var w := NE.Without(db.n.live, NI.Expired(db.n.live, h));
            && N.Indexed(w) && N.HistoryMatchesNames(w) && NU.Fits(w, BlockEntries(b.txs)) && NH.IndexesApart(BlockEntries(b.txs))
            && Process(db, b, h).n.live == N.ApplyEntries(w, BlockEntries(b.txs), h, b.time)
  {
    var s := NI.Expired(db.n.live, h);
    hide Process, ValidBlock, Inv, N.Inv, N.Indexed, N.HistoryMatchesNames, N.BackupsComplete, NE.Without, NE.ExpireSet, NE.WithBackups, NE.Only;
    hide BlockEntries, NI.Expired, U.Effect, NU.Fits, NH.IndexesApart, NH.NamedApart, OneNamePerTx, N.ApplyEntries;
    ProcessShape(p, db, b, h);
    EntriesFit(p, db, b, h);
    BlockApart(p, db, b, h);
    NamesInv(db, h - 1);
    NI.ExpireSetInv(db.n, h);
    NI.WithoutHistory(db.n.live, s);
    IndexedOf(NE.ExpireSet(db.n, s, h), h);
    NE.ExpireSetLive(db.n, s, h);
  }

  lemma NamesInv(db: Db, tip: int)
    requires Inv(db, tip)
    ensures N.Inv(db.n, tip)
  {
  }

  /** A name that expires with the next block was not written by this one, and its history is on record. */
  lemma NextExpired(p: Params, db: Db, b: Block, h: Height, tx: Hash)
    requires Inv(db, h - 1) && N.Complete(db.n) && ValidBlock(p, db, b, h) && h < MAX_INT32
    requires N.Inv(Process(db, b, h).n, h)
    requires var l := Process(db, b, h).n.live; tx in NE.HistoryTxs(l, NI.Expired(l, h + 1))
    ensures tx in Process(db, b, h).n.live.history
  {
    hide Process, ValidBlock, Inv, N.Complete, N.Indexed, NU.Fits, NE.Without, N.ApplyEntries, NE.HistoryTxs, N.Inv, NI.Expired;
    hide NH.IndexesApart, N.HistoryMatchesNames;
    var w, es, l := NE.Without(db.n.live, NI.Expired(db.n.live, h)), BlockEntries(b.txs), Process(db, b, h).n.live;
    CompleteWithout(p, db, b, h);
    var n := Lists(l, NI.Expired(l, h + 1), tx);
    StampedLater(Process(db, b, h).n, h, n);
    KeptOnRecord(w, es, h, b.time, n, tx);
  }

  /** A record that expires at h was not written at h. */
  lemma StampedLater(d: N.NameDb, h: Height, n: Name)
    requires N.Inv(d, h) && h < MAX_INT32 && n in NI.Expired(d.live, h + 1)
    ensures n in d.live.names && d.live.names[n].height != h
  {
    assert N.RecordInv(d.live.names[n], h);
  }

  lemma KeptOnRecord(w: N.Live, es: seq<N.Entry>, h: Height, time: int, n: Name, tx: Hash)
    requires N.Indexed(w) && N.HistoryMatchesNames(w) && NU.Fits(w, es)
    requires var l := N.ApplyEntries(w, es, h, time);
             n in l.names && l.names[n].height != h && n in l.histIdx && tx in l.histIdx[n]
    ensures tx in N.ApplyEntries(w, es, h, time).history
  {
    hide N.Indexed, NU.Fits, NU.CommitsFrame, N.ApplyEntries, Maps.Elements, N.HistoryMatchesNames;
    NU.ApplyEntriesShape(w, es, h, time);
    NU.FitsSeparates(w, es);
    ListedAndRecorded(w, n, tx);
  }

  lemma ListedAndRecorded(l: N.Live, n: Name, tx: Hash)
    requires N.HistoryMatchesNames(l)
    ensures n in l.histIdx && tx in l.histIdx[n] ==> tx in Maps.Elements(l.histIdx) && tx in l.history
  {
    hide Maps.Disjoint, N.EndsLive;
    assert n in l.histIdx ==> N.HistoryOk(l, n);
  }

  lemma Lists(l: N.Live, s: set<Name>, tx: Hash) returns (n: Name)
    requires tx in NE.HistoryTxs(l, s)
    ensures n in s && n in l.histIdx && tx in l.histIdx[n]
  {
    var m := Maps.Restrict(l.histIdx, s);
    var k, i :| k in m && 0 <= i < |m[k]| && m[k][i] == tx;
    n := k;
  }

  /**
   When the block after a block with shared transactions can be undone: exactly when it registers
   no stored name, and updates no name whose history record was overwritten.
   */
  lemma NextBlockUndone(p: Params, db: Db, b: Block, h: Height, next: Block)
    requires Inv(db, h - 1) && N.Complete(db.n) && ValidBlock(p, db, b, h) && EncodableOutputs(b.txs) && h < MAX_INT32
    requires ValidBlock(p, Process(db, b, h), next, h + 1)
    ensures var x := Process(db, b, h);
            Disconnect(Process(x, next, h + 1), next, h + 1) == x
            <==> NoReRegistration(x.n.live, BlockEntries(next.txs)) && SparesOverwritten(b, next)
  {
    hide ValidBlock, Inv, Process, Disconnect, N.Complete, NoReRegistration, NH.Overwritten, BlockEntries;
    var x, es := Process(db, b, h), BlockEntries(next.txs);
    ProcessInv(p, db, b, h);
    DisconnectUndoesProcess(p, x, next, h + 1);
    NextExpiryKept(p, db, b, h);
    forall i | 0 <= i < |es| && es[i].op.UpdateOp?
      ensures N.EndsLive(x.n.live, es[i].op.name) <==> !NH.Overwritten(BlockEntries(b.txs), es[i].op.name)
    {
      UpdatesStored(p, x, next, h + 1, i);
      HistoriesAfter(p, db, b, h, es[i].op.name);
    }
  }

  lemma NextExpiryKept(p: Params, db: Db, b: Block, h: Height)
    requires Inv(db, h - 1) && N.Complete(db.n) && ValidBlock(p, db, b, h) && h < MAX_INT32
    requires Inv(Process(db, b, h), h)
    ensures var x := Process(db, b, h).n; NE.HistoryTxs(x.live, NI.Expired(x.live, h + 1)) !! x.back.hist.Keys
  {
    var x := Process(db, b, h).n;
    assert N.Inv(x, h);
    hide Process, ValidBlock, NE.HistoryTxs, NI.Expired, N.Complete, N.LiveInv, N.BackInv;
    forall tx | tx in NE.HistoryTxs(x.live, NI.Expired(x.live, h + 1)) ensures tx !in x.back.hist {
      NextExpired(p, db, b, h, tx);
    }
  }

  lemma UpdatesStored(p: Params, db: Db, b: Block, h: Height, i: nat)
    requires ValidBlock(p, db, b, h) && i < |BlockEntries(b.txs)| && BlockEntries(b.txs)[i].op.UpdateOp?
    ensures BlockEntries(b.txs)[i].op.name in db.n.live.names
  {
    var tx, o := EntryRules(p, db, b, h, i);
  }

  /**
   Otherwise the rollback gives the updated name the record of another name: the last one written
   by the shared transaction, with its value, its owner and its output.
   */
  lemma RolledBackToAnotherRecord(p: Params, db: Db, b: Block, h: Height, next: Block, i: nat, j: nat, k: nat) returns (m: nat)
    requires Inv(db, h - 1) && N.Complete(db.n) && ValidBlock(p, db, b, h) && EncodableOutputs(b.txs) && h < MAX_INT32
    requires ValidBlock(p, Process(db, b, h), next, h + 1)
    requires NoReRegistration(Process(db, b, h).n.live, BlockEntries(next.txs))
    requires var es := BlockEntries(b.txs); i < j < |es| && es[i].op.Names() && es[j].op.Names() && es[j].tx == es[i].tx
    requires var es := BlockEntries(next.txs); k < |es| && es[k].op.UpdateOp? && es[k].op.name == BlockEntries(b.txs)[i].op.name
    ensures var es, x := BlockEntries(b.txs), Process(db, b, h);
            var names := Disconnect(Process(x, next, h + 1), next, h + 1).n.live.names;
            && NH.LastWriter(es, i, m) && m > i && es[m].op.name != es[i].op.name
            && es[i].op.name in names && es[m].op.name in x.n.live.names
            && names[es[i].op.name] == x.n.live.names[es[m].op.name]
            && names[es[i].op.name].txHash == es[i].tx && names[es[i].op.name].outIndex == es[m].index != es[i].index
  {
    hide ValidBlock, Inv, Process, N.Complete, NoReRegistration, N.Indexed, NU.Fits, N.HistoryMatchesNames, BlockEntries, NE.Without;
    hide NI.Expired, NE.HistoryTxs, Disconnect, N.ApplyEntries;
    var w, es, x := NE.Without(db.n.live, NI.Expired(db.n.live, h)), BlockEntries(b.txs), Process(db, b, h);
    CompleteWithout(p, db, b, h);
    ProcessInv(p, db, b, h);
    NextExpiryKept(p, db, b, h);
    NH.OneEntryEach(w, es, i);
    m := NH.RecordOfLastWriter(w, es, h, b.time, i);
    UpdateFound(p, x, next, h + 1, k);
    assert NH.WrittenBy(w, x.n.live, es[i]) && NH.WrittenBy(w, x.n.live, es[m]);
  }

  /** After a rollback that restores exactly what expired, an updated name has the record its last history entry holds. */
  lemma UpdateFound(p: Params, db: Db, b: Block, h: Height, k: nat)
    requires Inv(db, h - 1) && ValidBlock(p, db, b, h) && NoReRegistration(db.n.live, BlockEntries(b.txs))
    requires NE.HistoryTxs(db.n.live, NI.Expired(db.n.live, h)) !! db.n.back.hist.Keys
    requires k < |BlockEntries(b.txs)| && BlockEntries(b.txs)[k].op.UpdateOp?
    ensures var n, l, names := BlockEntries(b.txs)[k].op.name, db.n.live, Disconnect(Process(db, b, h), b, h).n.live.names;
            var list := N.HistoryOf(l, n);
            list != [] && list[|list| - 1] in l.history ==> n in names && names[n] == l.history[list[|list| - 1]]
  {
    hide Process, ValidBlock, Inv, NoReRegistration, BlockEntries, NE.HistoryTxs, NI.Expired, N.Inv, N.Indexed, NU.Fits, HistoryTxs;
    hide NE.Without, NE.WithBackups, NE.Only, N.RestoreExpired, N.ApplyEntries, N.UndoEntries, DisconnectUtxos, U.Effect;
    var d, es, s := db.n, BlockEntries(b.txs), NI.Expired(db.n.live, h);
    ProcessShape(p, db, b, h);
    EntriesFit(p, db, b, h);
    TouchedNotExpired(p, db, b, h);
    NamedTxsFresh(p, db, b, h);
    NamesInv(db, h - 1);
    IndexedOf(d, h - 1);
    StoredNames(d.live, h);
    RestoredIsApplied(d, es, s, h, b.time);
    Maps.NothingTaken(d.back.hist, NE.HistoryTxs(d.live, s));
    Maps.RestrictNone(d.live.history);
    FoundOnApplied(d.live, es, h, b.time, k);
  }

  lemma FoundOnApplied(x: N.Live, es: seq<N.Entry>, h: Height, time: int, k: nat)
    requires N.Indexed(x) && NU.Fits(x, es) && k < |es| && es[k].op.UpdateOp?
    ensures var n, l := es[k].op.name, N.UndoEntries(N.Undoing(N.ApplyEntries(x, es, h, time), {}), es, h).live;
            var list := N.HistoryOf(x, n);
            list != [] && list[|list| - 1] in x.history ==> n in l.names && l.names[n] == x.history[list[|list| - 1]]
  {
    var applied := N.ApplyEntries(x, es, h, time);
    NU.ApplyEntriesShape(x, es, h, time);
    assert NU.AgreeOutside(applied.history, applied.history, NU.NamedTxs(es));
    hide N.Indexed, NU.Fits, NU.CommitsFrame, N.ApplyEntries;
    NH.UndoEntriesFinds(x, es, N.Undoing(applied, {}), h, time, k);
  }
}
