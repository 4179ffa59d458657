/** Who can change a name: only a transaction that spends the output holding it. */
module Ownership {
  import opened Records
  import opened Chain
  import opened Validation
  import opened BlockFacts
  import opened Reorg
  import opened Runs
  import N = NameStore
  import NU = NameUndo
  import NE = NameExpiry
  import NI = NameInvariant

  /** Some transaction of the block spends the output. */
  predicate Spent(b: Block, op: OutPoint) {
    exists i :: 0 <= i < |b.txs| && op in b.txs[i].ins
  }

  /**
   Connecting a valid block keeps the record of every unexpired name, unless a transaction of
   the block spends the output that owns the name.
   */
  lemma ConnectNeedsOwner(p: Params, db: Db, b: Block, h: Height, name: Name)
    requires Inv(db, h - 1) && ValidBlock(p, db, b, h)
    requires name in db.n.live.names && db.n.live.names[name].expiresAt >= h
    requires var names := Connect(db, b, h).n.live.names; name !in names || names[name] != db.n.live.names[name]
    ensures Spent(b, OutPoint(db.n.live.names[name].txHash, db.n.live.names[name].outIndex))
  {
    hide Inv, ValidBlock, Connect, BlockEntries;
    var l, es := db.n.live, BlockEntries(b.txs);
    TouchedIfChanged(p, db, b, h, name);
    NU.EarlierFrom(es);
    var i :| 0 <= i < |es| && es[i].op.Names() && es[i].op.name == name;
    var tx, o := EntryRules(p, db, b, h, i);
    var k :| 0 <= k < |b.txs| && b.txs[k] == tx;
    assert OwnedBy(l, name, tx.ins, h);
  }

  lemma TouchedIfChanged(p: Params, db: Db, b: Block, h: Height, name: Name)
    requires Inv(db, h - 1) && ValidBlock(p, db, b, h)
    requires name in db.n.live.names && db.n.live.names[name].expiresAt >= h
    requires var names := Connect(db, b, h).n.live.names; name !in names || names[name] != db.n.live.names[name]
    ensures name in NU.TouchedNames(BlockEntries(b.txs))
  {
    var w := NE.Without(db.n.live, NI.Expired(db.n.live, h));
    ProcessShape(p, db, b, h);
    EntriesFit(p, db, b, h);
    NI.ExpireSetInv(db.n, h);
    hide Process, Inv, ValidBlock, N.Indexed, NE.WithBackups, N.BackInv, N.Separate, N.PruneExpired;
    NU.ApplyEntriesShape(w, BlockEntries(b.txs), h, b.time);
    assert name in w.names && w.names[name] == db.n.live.names[name];
  }

  /** A first update in a valid block never names a record that has not expired. */
  lemma FirstUpdateTakesNoLiveName(p: Params, db: Db, b: Block, h: Height, i: nat)
    requires ValidBlock(p, db, b, h)
    requires i < |BlockEntries(b.txs)| && BlockEntries(b.txs)[i].op.FirstUpdateOp?
    ensures var name := BlockEntries(b.txs)[i].op.name;
            name in db.n.live.names ==> db.n.live.names[name].expiresAt < h
  {
    var tx, o := EntryRules(p, db, b, h, i);
  }

  /** The conditions every live name meets at the tip. */
  predicate Registered(r: Record, tip: int) {
    && r.height <= tip <= r.expiresAt
    && r.nameNewHeight + MIN_BLOCKS_BEFORE_FIRST_UPDATE <= r.height
  }

  /**
   Ownership over all runs: after any allowed run every live name was registered at least 12
   blocks after its commitment and has not expired, and the next block changes it only by
   spending its output.
   */
  lemma OwnershipInRuns(p: Params, base: Db, t0: Height, events: seq<Event>, b: Block, name: Name)
    requires Inv(base, t0) && AllowedRun(p, base, Start(base, t0), events)
    requires var node := Run(Start(base, t0), events);
             name in node.db.n.live.names && Enabled(node, ConnectBlock(b)) && ValidBlock(p, node.db, b, node.tip + 1)
    ensures var node := Run(Start(base, t0), events);
            var r, after := node.db.n.live.names[name], Connect(node.db, b, node.tip + 1).n.live.names;
            && Registered(r, node.tip)
            && (r.expiresAt >= node.tip + 1 && (name !in after || after[name] != r) ==> Spent(b, OutPoint(r.txHash, r.outIndex)))
  {
    hide AllowedRun, Run, ValidBlock, Connect, Spent;
    RunIsReplay(p, base, t0, events);
    var node := Run(Start(base, t0), events);
    var h, r := node.tip + 1, node.db.n.live.names[name];
    RecordOfInv(node.db, node.tip, name);
    hide Inv;
    var after := Connect(node.db, b, h).n.live.names;
    if r.expiresAt >= h && (name !in after || after[name] != r) {
      ConnectNeedsOwner(p, node.db, b, h, name);
    }
  }

  lemma RecordOfInv(db: Db, tip: int, name: Name)
    requires Inv(db, tip) && name in db.n.live.names
    ensures Registered(db.n.live.names[name], tip)
  {
    hide N.Indexed, N.BackInv, N.Separate;
  }
}
