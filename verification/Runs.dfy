/**
 Reorganisations: after any run of connects and disconnects, the database is the one that
 connecting only the surviving blocks would have built, up to old backups.
 */
module Runs {
  import opened Bytes
  import opened Records
  import opened Chain
  import opened Validation
  import opened BlockFacts
  import opened Reorg
  import N = NameStore
  import NU = NameUndo
  import NE = NameExpiry
  import NI = NameInvariant
  import U = UtxoSet
  import Maps

  /** A connected block, and whether it was undoable when it was connected. */
  datatype Link = Link(block: Block, undoable: bool)

  /**
   The database with the blocks connected on top of the base: stack holds the surviving
   ones, floor is the height below which backups have been dropped, and peak is the highest
   tip so far.
   */
  datatype Node = Node(db: Db, tip: Height, stack: seq<Link>, floor: int, peak: int)

  datatype Event = ConnectBlock(block: Block) | DisconnectTip

  predicate Enabled(node: Node, e: Event) {
    if e.ConnectBlock? then node.tip < MAX_INT32 else node.stack != [] && node.tip > 0
  }

  function Step(node: Node, e: Event): Node {
    if !Enabled(node, e) then node
    else
      match e
      case ConnectBlock(b) => AfterConnect(node, b, node.tip + 1)
      case DisconnectTip => AfterDisconnect(node)
  }

  function AfterConnect(node: Node, b: Block, h: Height): Node {
    Node(Connect(node.db, b, h), h, node.stack + [Link(b, Undoable(node.db, b, h))],
         if PrunesAt(h) then Max(node.floor, h - RETENTION_DEPTH) else node.floor, Max(node.peak, h))
  }

  function AfterDisconnect(node: Node): Node
    requires node.stack != [] && node.tip > 0
  {
    var k := |node.stack| - 1;
    Node(Disconnect(node.db, node.stack[k].block, node.tip), node.tip - 1, node.stack[..k], node.floor, node.peak)
  }

  function StackIds(stack: seq<Link>): set<Hash> {
    if stack == [] then {} else StackIds(stack[..|stack| - 1]) + TxIds(stack[|stack| - 1].block.txs)
  }

  /**
   A connected block is valid, its update succeeded, and no transaction id occurs twice on
   the chain.  A disconnected block was undoable when it was connected, and no backup of its
   height has been dropped since.
   */
  ghost predicate Allowed(p: Params, base: Db, node: Node, e: Event) {
    Enabled(node, e) &&
    match e
    case ConnectBlock(b) =>
      && ValidBlock(p, node.db, b, node.tip + 1) && ConnectOk(node.db, b, node.tip + 1)
      && TxIds(b.txs) !! KnownTxs(base) + StackIds(node.stack)
    case DisconnectTip =>
      && node.stack[|node.stack| - 1].undoable
      && node.floor <= node.tip
  }

  function Start(base: Db, tip: Height): Node {
    Node(base, tip, [], -TWO_31, tip)
  }

  function Run(node: Node, events: seq<Event>): Node
    decreases |events|
  {
    if events == [] then node else Run(Step(node, events[0]), events[1..])
  }

  ghost predicate AllowedRun(p: Params, base: Db, node: Node, events: seq<Event>)
    decreases |events|
  {
    events == [] || (Allowed(p, base, node, events[0]) && AllowedRun(p, base, Step(node, events[0]), events[1..]))
  }

  /** Connecting the surviving blocks alone. */
  function Replay(base: Db, t0: Height, stack: seq<Link>): Db
    requires t0 + |stack| <= MAX_INT32
  {
    if stack == [] then base
    else Connect(Replay(base, t0, stack[..|stack| - 1]), stack[|stack| - 1].block, t0 + |stack|)
  }

  // ----- the replay is a chain of valid connects -----

  ghost predicate Sound(p: Params, base: Db, t0: Height, stack: seq<Link>)
    requires t0 + |stack| <= MAX_INT32
  {
    if stack == [] then Inv(base, t0)
    else
      var before := Replay(base, t0, stack[..|stack| - 1]);
      var top := stack[|stack| - 1];
      && Sound(p, base, t0, stack[..|stack| - 1])
      && ValidBlock(p, before, top.block, t0 + |stack|)
      && EncodableOutputs(top.block.txs)
  }

  /** The blocks that were undoable when they were connected are so without the backups below floor. */
  ghost predicate Reversible(base: Db, t0: Height, stack: seq<Link>, floor: int)
    requires t0 + |stack| <= MAX_INT32
  {
    stack == [] ||
    var before, top := Replay(base, t0, stack[..|stack| - 1]), stack[|stack| - 1];
    && Reversible(base, t0, stack[..|stack| - 1], floor)
    && (top.undoable ==> Undoable(Prune(before, floor), top.block, t0 + |stack|))
  }

  lemma {:induction false} SoundReplay(p: Params, base: Db, t0: Height, stack: seq<Link>)
    requires t0 + |stack| <= MAX_INT32 && Sound(p, base, t0, stack)
    ensures Inv(Replay(base, t0, stack), t0 + |stack|)
    ensures KnownTxs(Replay(base, t0, stack)) <= KnownTxs(base) + StackIds(stack)
  {
    hide Inv, ValidBlock, EncodableOutputs, Connect, KnownTxs;
    if stack != [] {
      var rest, top := stack[..|stack| - 1], stack[|stack| - 1];
      SoundReplay(p, base, t0, rest);
      ConnectInv(p, Replay(base, t0, rest), top.block, t0 + |stack|);
      KnownAfterConnect(p, Replay(base, t0, rest), top.block, t0 + |stack|);
    }
  }

  lemma KnownAfterConnect(p: Params, db: Db, b: Block, h: Height)
    requires Inv(db, h - 1) && ValidBlock(p, db, b, h)
    ensures KnownTxs(Connect(db, b, h)) <= KnownTxs(db) + TxIds(b.txs)
  {
    hide Process, Inv, ValidBlock, KnownTxs, Prune;
    KnownAfterProcess(p, db, b, h);
    KnownOnPruned(Process(db, b, h), h - RETENTION_DEPTH);
  }

  lemma KnownAfterProcess(p: Params, db: Db, b: Block, h: Height)
    requires Inv(db, h - 1) && ValidBlock(p, db, b, h)
    ensures KnownTxs(Process(db, b, h)) <= KnownTxs(db) + TxIds(b.txs)
  {
    hide Process, Inv, ValidBlock, HistoryTxs, U.Effect, NE.WithBackups, NE.Without, NE.Only, N.ApplyEntries, U.Spends, U.Creates;
    hide BlockSteps, BlockEntries, TxIds, NI.Expired;
    ProcessShape(p, db, b, h);
    HistoryAfterProcess(p, db, b, h);
    CreatedTxs(b.txs, h);
    KnownUtxos(db.u, U.Spends(BlockSteps(b.txs, h)), U.Creates(BlockSteps(b.txs, h)), h);
  }

  lemma HistoryAfterProcess(p: Params, db: Db, b: Block, h: Height)
    requires Inv(db, h - 1) && ValidBlock(p, db, b, h)
    ensures HistoryTxs(Process(db, b, h).n) <= HistoryTxs(db.n) + TxIds(b.txs)
  {
    ProcessShape(p, db, b, h);
    EntriesFit(p, db, b, h);
    NamedTxsFresh(p, db, b, h);
    NI.ExpireSetInv(db.n, h);
    hide Process, ValidBlock, HistoryTxs, NE.ExpireSet, NI.Expired, N.ApplyEntries, U.Inv, BlockEntries, NU.Fits;
    var d := NE.ExpireSet(db.n, NI.Expired(db.n.live, h), h);
    ExpiredHistory(db.n, NI.Expired(db.n.live, h), h);
    assert d.live == NE.Without(db.n.live, NI.Expired(db.n.live, h)) by { NE.ExpireSetLive(db.n, NI.Expired(db.n.live, h), h); }
    IndexedOf(d, h);
    hide N.Inv, N.Indexed, NE.Without;
    AppliedHistory(d, BlockEntries(b.txs), h, b.time);
  }

  lemma ExpiredHistory(d: N.NameDb, s: set<Name>, h: Height)
    ensures HistoryTxs(NE.ExpireSet(d, s, h)) <= HistoryTxs(d)
  {
    NE.FewerListed(d.live, s);
    NI.ListedWith(d.back, NE.Only(d.live, s), h);
    hide NE.HistoryTxs, NE.MarksOf, NE.AtKeys, Maps.Elements;
  }

  lemma AppliedHistory(d: N.NameDb, es: seq<N.Entry>, h: Height, time: int)
    requires N.Indexed(d.live) && NU.Fits(d.live, es)
    ensures HistoryTxs(N.NameDb(N.ApplyEntries(d.live, es, h, time), d.back)) <= HistoryTxs(d) + NU.NamedTxs(es)
  {
    NU.ApplyEntriesShape(d.live, es, h, time);
    AppliedLists(d.live, es, h, time);
    hide N.Indexed, NU.Fits, NU.CommitsFrame, N.ApplyEntries, Maps.Elements;
  }

  lemma {:induction false} AppliedLists(l: N.Live, es: seq<N.Entry>, h: Height, time: int)
    ensures Maps.Elements(N.ApplyEntries(l, es, h, time).histIdx) <= Maps.Elements(l.histIdx) + NU.NamedTxs(es)
  {
    if es != [] {
      var n := |es| - 1;
      AppliedLists(l, es[..n], h, time);
      var l', e := N.ApplyEntries(l, es[..n], h, time), es[n];
      if e.op.Names() {
        Maps.ElementsAppend(l'.histIdx, e.op.name, N.HistoryOf(l', e.op.name), e.tx);
      }
      hide Maps.Elements, N.WrittenRecord;
    }
  }

  lemma KnownUtxos(u: U.UtxoDb, spends: set<OutPoint>, creates: map<OutPoint, Utxo>, h: Height)
    ensures var e := U.Effect(u, spends, creates, h);
            && (forall op :: op in e.utxo ==> op in u.utxo || op in creates)
            && (forall op :: op in e.spent ==> op in u.spent || op in u.utxo)
  {
    hide U.AddressMirror;
  }

  lemma CreatedTxs(txs: seq<Tx>, h: Height)
    ensures forall op :: op in U.Creates(BlockSteps(txs, h)) ==> op.tx in TxIds(txs)
  {
    var steps := BlockSteps(txs, h);
    StepsFrom(txs, h);
    U.CreatesFrom(steps);
    forall op | op in U.Creates(steps) ensures op.tx in TxIds(txs) {
      var i :| 0 <= i < |steps| && steps[i].Create? && steps[i].op == op;
      assert steps[i] in steps;
    }
  }

  // ----- the invariant of a run -----

  ghost predicate Good(p: Params, base: Db, t0: Height, node: Node) {
    && node.tip == t0 + |node.stack|
    && Sound(p, base, t0, node.stack)
    && node.db == Prune(Replay(base, t0, node.stack), node.floor)
    && node.floor <= node.tip + 1
    && node.floor <= Max(-TWO_31, node.peak - RETENTION_DEPTH)
    && node.tip <= node.peak
    && (forall i :: t0 < i <= node.tip && PrunesAt(i) ==> i - RETENTION_DEPTH <= node.floor)
    && Reversible(base, t0, node.stack, node.floor)
  }

  lemma PruneNothing(db: Db)
    ensures Prune(db, -TWO_31) == db
  {
    assert N.KeysBefore(db.n.back, -TWO_31) == {};
    assert U.SpentBefore(db.u, -TWO_31) == {};
    assert (set k | k in db.u.spentIdx && k.height >= -TWO_31) == db.u.spentIdx;
    Maps.RestrictNone(db.n.back.histIdx);
    Maps.RestrictNone(db.n.back.expired);
    Maps.RestrictNone(db.n.back.hist);
    Maps.RestrictNone(db.u.spent);
    hide N.KeysBefore, U.SpentBefore, Maps.Restrict;
    var none: map<HeightName, seq<Hash>> := map[];
    assert Maps.Elements(none) == {};
    assert db.n.back.idx - {} == db.n.back.idx;
  }

  lemma StepConnect(p: Params, base: Db, t0: Height, node: Node, b: Block)
    requires Good(p, base, t0, node) && Allowed(p, base, node, ConnectBlock(b))
    ensures Good(p, base, t0, AfterConnect(node, b, node.tip + 1))
  {
    hide Inv, ValidBlock, ConnectOk, Connect, KnownTxs, Undoable, Prune, EncodableOutputs;
    hide Sound, Reversible, Replay, TxIds, StackIds, PrunesAt;
    var h, r := node.tip + 1, Replay(base, t0, node.stack);
    SoundReplay(p, base, t0, node.stack);
    ConnectReplayed(p, r, b, h, node.floor);
    var next := AfterConnect(node, b, h);
    OneMoreSound(p, base, t0, node.stack, next.stack[|node.stack|]);
    StaysReversible(base, t0, node.stack, node.floor, next.floor);
    StaysUndoable(r, b, h, node.floor, next.floor);
    OneMoreReversible(base, t0, node.stack, next.stack[|node.stack|], next.floor);
    CleanedUp(t0, node, b, h);
  }

  lemma OneMoreSound(p: Params, base: Db, t0: Height, stack: seq<Link>, top: Link)
    requires t0 + |stack| < MAX_INT32 && Sound(p, base, t0, stack)
    requires ValidBlock(p, Replay(base, t0, stack), top.block, t0 + |stack| + 1) && EncodableOutputs(top.block.txs)
    ensures Sound(p, base, t0, stack + [top])
    ensures Replay(base, t0, stack + [top]) == Connect(Replay(base, t0, stack), top.block, t0 + |stack| + 1)
  {
    hide Inv, ValidBlock, Connect, EncodableOutputs;
    assert (stack + [top])[..|stack|] == stack;
  }

  lemma OneMoreReversible(base: Db, t0: Height, stack: seq<Link>, top: Link, floor: int)
    requires t0 + |stack| < MAX_INT32 && Reversible(base, t0, stack, floor)
    requires top.undoable ==> Undoable(Prune(Replay(base, t0, stack), floor), top.block, t0 + |stack| + 1)
    ensures Reversible(base, t0, stack + [top], floor)
  {
    hide Connect, Undoable, Prune;
    assert (stack + [top])[..|stack|] == stack;
  }

  /** The floor is that of the last cleanup. */
  lemma CleanedUp(t0: Height, node: Node, b: Block, h: Height)
    requires h == node.tip + 1
    requires forall i :: t0 < i <= node.tip && PrunesAt(i) ==> i - RETENTION_DEPTH <= node.floor
    ensures forall i :: t0 < i <= h && PrunesAt(i) ==> i - RETENTION_DEPTH <= AfterConnect(node, b, h).floor
  {
    hide Connect, Undoable, PrunesAt;
  }

  lemma {:induction false} StaysReversible(base: Db, t0: Height, stack: seq<Link>, floor: int, floor': int)
    requires t0 + |stack| <= MAX_INT32 && floor <= floor' && Reversible(base, t0, stack, floor)
    ensures Reversible(base, t0, stack, floor')
  {
    hide Connect, Undoable, Prune;
    if stack != [] {
      var k := |stack| - 1;
      StaysReversible(base, t0, stack[..k], floor, floor');
      StaysUndoable(Replay(base, t0, stack[..k]), stack[k].block, t0 + |stack|, floor, floor');
    }
  }

  /** Dropping more backups does not make a block harder to undo. */
  lemma StaysUndoable(db: Db, b: Block, h: Height, floor: int, floor': int)
    requires floor <= floor'
    ensures Undoable(Prune(db, floor), b, h) ==> Undoable(Prune(db, floor'), b, h)
  {
    NI.PruneExpiredTwice(db.n.back, floor, floor');
    hide NoReRegistration, NU.UpdatesRecorded, NE.HistoryTxs, BlockEntries, NI.Expired;
    assert Prune(db, floor').n.back.hist.Keys <= Prune(db, floor).n.back.hist.Keys;
  }

  lemma ConnectReplayed(p: Params, r: Db, b: Block, h: Height, floor: int)
    requires Inv(r, h - 1) && floor <= h
    requires TxIds(b.txs) !! KnownTxs(r)
    requires ValidBlock(p, Prune(r, floor), b, h) && ConnectOk(Prune(r, floor), b, h)
    ensures ValidBlock(p, r, b, h) && EncodableOutputs(b.txs)
    ensures Connect(Prune(r, floor), b, h)
         == Prune(Connect(r, b, h), if PrunesAt(h) then Max(floor, h - RETENTION_DEPTH) else floor)
  {
    hide Inv, ValidBlock, ConnectOk, Connect, KnownTxs, Prune, EncodableOutputs;
    ValidFromPruned(p, r, b, h, floor);
    ConnectFailsOnUnstorable(p, Prune(r, floor), b, h);
    ConnectFloor(p, r, b, h, floor);
  }

  lemma ValidFromPruned(p: Params, db: Db, b: Block, h: Height, floor: int)
    requires Inv(db, h - 1) && TxIds(b.txs) !! KnownTxs(db)
    requires ValidBlock(p, Prune(db, floor), b, h)
    ensures ValidBlock(p, db, b, h) && Inv(Prune(db, floor), h - 1)
  {
    hide Inv, BlockOk, Prune, KnownTxs;
    PruneInv(db, h - 1, floor);
    ValidOnPruned(p, db, b, h, floor);
  }

  /** Connecting on a state without the backups below floor, with the floor the block leaves. */
  lemma ConnectFloor(p: Params, db: Db, b: Block, h: Height, floor: int)
    requires Inv(db, h - 1) && ValidBlock(p, db, b, h) && floor <= h
    ensures Connect(Prune(db, floor), b, h)
         == Prune(Connect(db, b, h), if PrunesAt(h) then Max(floor, h - RETENTION_DEPTH) else floor)
  {
    ConnectOnPruned(p, db, b, h, floor);
    UniqueAfterProcess(p, db, b, h);
    var x := Process(db, b, h);
    hide Inv, ValidBlock, Prune, U.UniqueBackups, Process;
    PruneTwice(x, h - RETENTION_DEPTH, floor);
    PruneTwice(x, h - RETENTION_DEPTH, Max(floor, h - RETENTION_DEPTH));
  }

  lemma StepDisconnect(p: Params, base: Db, t0: Height, node: Node)
    requires Good(p, base, t0, node) && Allowed(p, base, node, DisconnectTip)
    ensures Good(p, base, t0, AfterDisconnect(node))
  {
    hide Inv, ValidBlock, Connect, Disconnect, KnownTxs, Undoable, Prune, EncodableOutputs;
    var k := |node.stack| - 1;
    SoundReplay(p, base, t0, node.stack[..k]);
    DisconnectFloor(p, Replay(base, t0, node.stack[..k]), node.stack[k].block, node.tip, node.floor);
  }

  /** Undoing a block on a state without the backups below floor loses no other backup. */
  lemma DisconnectFloor(p: Params, db: Db, b: Block, h: Height, floor: int)
    requires Inv(db, h - 1) && ValidBlock(p, db, b, h) && floor <= h
    requires Undoable(Prune(db, floor), b, h)
    requires PrunesAt(h) ==> h - RETENTION_DEPTH <= floor
    ensures Disconnect(Prune(Connect(db, b, h), floor), b, h) == Prune(db, floor)
  {
    hide Inv, ValidBlock, Undoable, Prune, Process, Disconnect, U.UniqueBackups;
    PrunedStillValid(p, db, b, h, floor);
    DisconnectUndoesProcess(p, Prune(db, floor), b, h);
    ProcessOnPruned(p, db, b, h, floor);
    if PrunesAt(h) {
      UniqueAfterProcess(p, db, b, h);
      PruneTwice(Process(db, b, h), h - RETENTION_DEPTH, floor);
    }
  }

  // ----- whole runs -----

  lemma {:induction false} RunGood(p: Params, base: Db, t0: Height, node: Node, events: seq<Event>)
    requires Good(p, base, t0, node) && AllowedRun(p, base, node, events)
    ensures Good(p, base, t0, Run(node, events))
    decreases |events|
  {
    hide Good, Allowed, AfterConnect, AfterDisconnect;
    if events != [] {
      assert Enabled(node, events[0]) by { AllowedEnabled(p, base, node, events[0]); }
      match events[0] {
        case ConnectBlock(b) => StepConnect(p, base, t0, node, b);
        case DisconnectTip => StepDisconnect(p, base, t0, node);
      }
      RunGood(p, base, t0, Step(node, events[0]), events[1..]);
    }
  }

  lemma AllowedEnabled(p: Params, base: Db, node: Node, e: Event)
    requires Allowed(p, base, node, e)
    ensures Enabled(node, e)
  {
  }

  lemma StartGood(p: Params, base: Db, t0: Height)
    requires Inv(base, t0)
    ensures Good(p, base, t0, Start(base, t0))
  {
    PruneNothing(base);
    hide Inv, Prune;
  }

  /**
   Path independence.  Start from any state that satisfies the invariant and make any allowed
   run of connects and disconnects: every bucket, live or backup, is the one that connecting
   only the surviving blocks builds, except for backups below the pruning floor.  In
   particular the live buckets are equal, and the state invariant holds.
   */
  lemma RunIsReplay(p: Params, base: Db, t0: Height, events: seq<Event>)
    requires Inv(base, t0) && AllowedRun(p, base, Start(base, t0), events)
    ensures var node := Run(Start(base, t0), events);
            && node.tip == t0 + |node.stack|
            && node.db == Prune(Replay(base, t0, node.stack), node.floor)
            && node.db.n.live == Replay(base, t0, node.stack).n.live
            && node.db.u.utxo == Replay(base, t0, node.stack).u.utxo
            && node.db.u.addr == Replay(base, t0, node.stack).u.addr
            && Inv(node.db, node.tip)
  {
    hide Good, Inv, AllowedRun, Run, Replay, Start;
    StartGood(p, base, t0);
    RunGood(p, base, t0, Start(base, t0), events);
    GoodState(p, base, t0, Run(Start(base, t0), events));
  }

  lemma GoodState(p: Params, base: Db, t0: Height, node: Node)
    requires Good(p, base, t0, node)
    ensures node.tip == t0 + |node.stack|
    ensures node.db == Prune(Replay(base, t0, node.stack), node.floor)
    ensures node.db.n.live == Replay(base, t0, node.stack).n.live
    ensures node.db.u.utxo == Replay(base, t0, node.stack).u.utxo && node.db.u.addr == Replay(base, t0, node.stack).u.addr
    ensures Inv(node.db, node.tip)
  {
    hide Inv, Prune, Sound, Replay;
    SoundReplay(p, base, t0, node.stack);
    PruneInv(Replay(base, t0, node.stack), node.tip, node.floor);
    PruneKeepsLive(Replay(base, t0, node.stack), node.floor);
  }

  /**
   If no surviving block writes two names in one transaction, every history is complete, and a
   block is undoable as soon as it registers no stored name (see UndoableWhenComplete).
   */
  lemma RunKeepsHistories(p: Params, base: Db, t0: Height, events: seq<Event>)
    requires Inv(base, t0) && N.Complete(base.n) && AllowedRun(p, base, Start(base, t0), events)
    requires var stack := Run(Start(base, t0), events).stack; forall i :: 0 <= i < |stack| ==> OneNamePerTx(stack[i].block.txs)
    ensures N.Complete(Run(Start(base, t0), events).db.n)
  {
    hide Good, Inv, AllowedRun, Run, Replay, Start, N.Complete, Prune, OneNamePerTx;
    StartGood(p, base, t0);
    RunGood(p, base, t0, Start(base, t0), events);
    var node := Run(Start(base, t0), events);
    GoodState(p, base, t0, node);
    GoodIsSound(p, base, t0, node);
    ReplayComplete(p, base, t0, node.stack);
    PruneComplete(Replay(base, t0, node.stack), node.floor);
  }

  lemma GoodIsSound(p: Params, base: Db, t0: Height, node: Node)
    requires Good(p, base, t0, node)
    ensures t0 + |node.stack| <= MAX_INT32 && Sound(p, base, t0, node.stack)
  {
  }

  lemma {:induction false} ReplayComplete(p: Params, base: Db, t0: Height, stack: seq<Link>)
    requires t0 + |stack| <= MAX_INT32 && Sound(p, base, t0, stack) && N.Complete(base.n)
    requires forall i :: 0 <= i < |stack| ==> OneNamePerTx(stack[i].block.txs)
    ensures N.Complete(Replay(base, t0, stack).n)
  {
    hide Inv, ValidBlock, EncodableOutputs, Connect, N.Complete, OneNamePerTx, KnownTxs;
    if stack != [] {
      var rest, top := stack[..|stack| - 1], stack[|stack| - 1];
      assert forall i :: 0 <= i < |rest| ==> rest[i] == stack[i];
      ReplayComplete(p, base, t0, rest);
      SoundReplay(p, base, t0, rest);
      ConnectComplete(p, Replay(base, t0, rest), top.block, t0 + |stack|);
    }
  }

  /** A tip that was never more than 1000 above the block to disconnect has lost no backup of it. */
  lemma RecentBlocksKept(p: Params, base: Db, t0: Height, node: Node)
    requires Good(p, base, t0, node) && Inv(base, t0) && node.peak <= node.tip + RETENTION_DEPTH
    ensures node.floor <= node.tip
  {
  }

  lemma PruneKeepsLive(db: Db, floor: int)
    ensures Prune(db, floor).n.live == db.n.live
    ensures Prune(db, floor).u.utxo == db.u.utxo && Prune(db, floor).u.addr == db.u.addr
  {
  }
}
