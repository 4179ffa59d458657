/** How long backups are kept: no backup is more than 1100 blocks below the tip. */
module Retention {
  import opened Bytes
  import opened Records
  import opened Chain
  import opened BlockFacts
  import opened Validation
  import opened Reorg
  import opened Runs
  import N = NameStore
  import NE = NameExpiry
  import NI = NameInvariant
  import U = UtxoSet

  /** Every backup of a name or of an output has at least the given height. */
  ghost predicate BackupsFrom(db: Db, low: int) {
    && (forall k :: k in db.n.back.idx ==> k.height >= low)
    && (forall k :: k in db.u.spentIdx ==> k.height >= low)
  }

  /** Nothing is left below the floor of a cleanup. */
  lemma PrunedFrom(db: Db, floor: int)
    ensures BackupsFrom(Prune(db, floor), floor)
    ensures forall low :: BackupsFrom(db, low) ==> BackupsFrom(Prune(db, floor), low)
  {
  }

  /** A block adds backups of its own height only. */
  lemma ConnectFrom(p: Params, db: Db, b: Block, h: Height, low: int)
    requires Inv(db, h - 1) && ValidBlock(p, db, b, h) && BackupsFrom(db, low) && low <= h
    ensures BackupsFrom(Connect(db, b, h), low)
  {
    hide Inv, ValidBlock, Prune, NE.Without, N.ApplyEntries, U.Spends, U.Creates, BlockSteps, BlockEntries, NI.Expired, U.AddressMirror;
    ProcessShape(p, db, b, h);
    ProcessedFrom(db, Process(db, b, h), NE.Only(db.n.live, NI.Expired(db.n.live, h)), U.Spends(BlockSteps(b.txs, h)), h, low);
    hide Process, BackupsFrom, NE.Only, NE.WithBackups, U.Effect;
    PrunedFrom(Process(db, b, h), h - 1000);
  }

  lemma ProcessedFrom(db: Db, after: Db, x: N.Live, spends: set<OutPoint>, h: Height, low: int)
    requires BackupsFrom(db, low) && low <= h
    requires after.n.back == NE.WithBackups(db.n.back, x, h) && after.u.spentIdx == db.u.spentIdx + U.IndexAt(h, spends)
    ensures BackupsFrom(after, low)
  {
    hide NE.AtKeys;
  }

  lemma {:induction false} ReplayFrom(p: Params, base: Db, t0: Height, stack: seq<Link>, low: int)
    requires t0 + |stack| <= MAX_INT32 && Sound(p, base, t0, stack) && BackupsFrom(base, low) && low <= t0 + 1
    ensures BackupsFrom(Replay(base, t0, stack), low)
  {
    hide Inv, ValidBlock, EncodableOutputs, Connect, BackupsFrom, KnownTxs;
    if stack != [] {
      var rest := stack[..|stack| - 1];
      SoundReplay(p, base, t0, rest);
      ReplayFrom(p, base, t0, rest, low);
      ConnectFrom(p, Replay(base, t0, rest), stack[|stack| - 1].block, t0 + |stack|, low);
    }
  }

  /** The last multiple of 100 at or below the tip has dropped everything more than 1000 below it. */
  lemma LastCleanup(p: Params, base: Db, t0: Height, node: Node)
    requires Good(p, base, t0, node) && node.tip >= t0 + 100 && node.tip >= 1100
    ensures node.floor > node.tip - 1100
  {
    hide Sound, Replay, Prune, Reversible;
    var i := node.tip - node.tip % 100;
    assert i % 100 == 0 && i > 1000;
    assert PrunesAt(i);
  }

  /**
   After any allowed run that has reached 100 blocks above its start, and height 1100, there are
   no backups more than 1100 blocks below the tip, of names or of outputs.
   */
  lemma BackupsAreDropped(p: Params, base: Db, t0: Height, events: seq<Event>)
    requires Inv(base, t0) && AllowedRun(p, base, Start(base, t0), events)
    requires var tip := Run(Start(base, t0), events).tip; tip >= t0 + 100 && tip >= 1100
    ensures var node := Run(Start(base, t0), events); BackupsFrom(node.db, node.tip - 1100)
  {
    hide *;
    var node := Run(Start(base, t0), events);
    StartGood(p, base, t0);
    RunGood(p, base, t0, Start(base, t0), events);
    GoodState(p, base, t0, node);
    LastCleanup(p, base, t0, node);
    PrunedFrom(Replay(base, t0, node.stack), node.floor);
    LowerBound(node.db, node.floor, node.tip - 1100);
  }

  lemma LowerBound(db: Db, low: int, low': int)
    requires BackupsFrom(db, low) && low' <= low
    ensures BackupsFrom(db, low')
  {
  }

  lemma NothingBackedUp(low: int)
    ensures BackupsFrom(EMPTY, low) && Inv(EMPTY, 0)
  {
  }

  /** From the empty database the bound holds at every tip. */
  lemma BackupsAreRecent(p: Params, events: seq<Event>)
    requires AllowedRun(p, EMPTY, Start(EMPTY, 0), events)
    ensures var node := Run(Start(EMPTY, 0), events); BackupsFrom(node.db, Max(1, node.tip - 1100))
  {
    NothingBackedUp(1);
    hide Good, Inv, AllowedRun, Run, EMPTY, Sound, Replay, Prune, BackupsFrom, Max;
    var node := Run(Start(EMPTY, 0), events);
    StartGood(p, EMPTY, 0);
    RunGood(p, EMPTY, 0, Start(EMPTY, 0), events);
    GoodState(p, EMPTY, 0, node);
    GoodIsSound(p, EMPTY, 0, node);
    ReplayFrom(p, EMPTY, 0, node.stack, 1);
    PrunedFrom(Replay(EMPTY, 0, node.stack), node.floor);
    if node.tip >= 1100 {
      BackupsAreDropped(p, EMPTY, 0, events);
    }
    LargerBound(node.db, node.tip);
  }

  lemma LargerBound(db: Db, tip: int)
    requires BackupsFrom(db, 1) && (tip >= 1100 ==> BackupsFrom(db, tip - 1100))
    ensures BackupsFrom(db, Max(1, tip - 1100))
  {
  }
}
