/**
 The hypotheses of the theorems about blocks and runs can be met, and the failures they describe
 do occur: a first block that connects and disconnects, blocks that cannot be stored, and a
 block that cannot be undone.
 */
module Witness {
  import opened Bytes
  import opened Records
  import opened Chain
  import opened Validation
  import opened BlockFacts
  import opened Reorg
  import opened Runs
  import opened Money
  import opened ReRegistration
  import Maps
  import N = NameStore
  import NU = NameUndo
  import NE = NameExpiry
  import NI = NameInvariant
  import U = UtxoSet

  // ----- a block with nothing but a coinbase of one output -----

  function OneOutput(id: Hash, o: Output, time: int): Block {
    Block([Tx(id, [], [o])], time)
  }

  lemma OneOutputShape(id: Hash, o: Output, time: int, h: Height)
    ensures var txs := OneOutput(id, o, time).txs;
            && BlockEntries(txs) == [N.Entry(id, 0, o.op, o.owner)]
            && BlockSteps(txs, h) == [U.Create(OutPoint(id, 0), Utxo(o.value, o.address, o.script, h))]
  {
    var txs := OneOutput(id, o, time).txs;
    assert txs[..0] == [] && txs[0].outs == [o];
    assert BlockEntries(txs[..0]) == [] && BlockSteps(txs[..0], h) == [];
    assert TxEntries(txs[0]) == [N.Entry(id, 0, o.op, o.owner)];
    assert CreateSteps(txs[0], h) == [U.Create(OutPoint(id, 0), Utxo(o.value, o.address, o.script, h))];
    assert TxSteps(txs[0], 0, h) == [] + CreateSteps(txs[0], h);
  }

  lemma OneOutputSubsidy(p: Params, u: U.UtxoDb, id: Hash, o: Output, time: int, h: Height)
    requires 0 <= h < p.interval && o.value <= INITIAL_SUBSIDY
    ensures SubsidyOk(p, u, OneOutput(id, o, time), h)
  {
    var b := OneOutput(id, o, time);
    assert b.txs[0].outs[..0] == [] && b.txs[1..] == [];
    assert SumOutputs(b.txs[0].outs) == Total(o.value);
    assert h / p.interval == 0 && ShiftRight(INITIAL_SUBSIDY, 0) == INITIAL_SUBSIDY;
  }

  /** Such a block is valid in the first subsidy era when its output passes the name rules. */
  lemma OneOutputIsValid(p: Params, db: Db, id: Hash, o: Output, time: int, h: Height)
    requires 1 <= h < p.interval && p.trackFrom <= h && o.value <= INITIAL_SUBSIDY
    requires OutputOk(db.n.live, Tx(id, [], [o]), o, h) && id !in KnownTxs(db)
    ensures ValidBlock(p, db, OneOutput(id, o, time), h)
  {
    var b := OneOutput(id, o, time);
    OneOutputShape(id, o, time, h);
    OneOutputSubsidy(p, db.u, id, o, time, h);
    hide SubsidyOk, BlockSteps, BlockEntries, KnownTxs, OutputOk;
    assert TxOk(p, db, b.txs[0], 0, h);
    assert NoClashes(BlockEntries(b.txs));
    assert TxIds(b.txs) == {id};
  }

  // ----- the first block -----

  /** The output of a first block: a payment within the subsidy, or a NAME_NEW above the dust limit. */
  predicate Plain(p: Params, o: Output) {
    && p.interval > 1 && p.trackFrom <= 1
    && DUST_LIMIT <= o.value <= INITIAL_SUBSIDY
    && (o.op.NoOp? || o.op.NewOp?)
  }

  /** The buckets can hold the output and its commitment. */
  predicate Holdable(o: Output) {
    |o.address| <= 255 && |o.script| <= 65535 && (o.op.NewOp? ==> N.LegalKey(o.op.commit))
  }

  /** The first block is valid on the empty database; connecting it succeeds exactly when the buckets can hold its output. */
  lemma FirstBlockIsValid(p: Params, id: Hash, o: Output, time: int)
    requires Plain(p, o)
    ensures ValidBlock(p, EMPTY, OneOutput(id, o, time), 1)
    ensures ConnectOk(EMPTY, OneOutput(id, o, time), 1) <==> Holdable(o)
  {
    var b := OneOutput(id, o, time);
    assert KnownTxs(EMPTY) == {};
    OneOutputIsValid(p, EMPTY, id, o, time, 1);
    EmptyInv();
    hide ValidBlock, ConnectOk, Inv, Storable, Holdable;
    ConnectFailsOnUnstorable(p, EMPTY, b, 1);
    HoldableIsStorable(id, o, time);
  }

  lemma HoldableIsStorable(id: Hash, o: Output, time: int)
    ensures Storable(OneOutput(id, o, time)) <==> Holdable(o)
    ensures EncodableOutputs(OneOutput(id, o, time).txs) <==> |o.address| <= 255 && |o.script| <= 65535
  {
    var b := OneOutput(id, o, time);
    OneOutputShape(id, o, time, 1);
    hide BlockSteps, BlockEntries;
    assert b.txs[0].outs[0] == o && BlockEntries(b.txs)[0].op == o.op;
    assert TxEncodable(b.txs[0]) <==> |o.address| <= 255 && |o.script| <= 65535;
    hide TxEncodable;
    assert EncodableOutputs(b.txs) <==> TxEncodable(b.txs[0]);
  }

  /** Valid blocks whose update fails: an oversized script, and a NAME_NEW that pushes nothing. */
  lemma ValidButUnstorable(p: Params, id: Hash, time: int)
    requires p.interval > 1 && p.trackFrom <= 1
    ensures var oversized := Output(DUST_LIMIT, seq(65536, _ => 0 as byte), [], N.NoOp, []);
            var b := OneOutput(id, oversized, time);
            ValidBlock(p, EMPTY, b, 1) && !ConnectOk(EMPTY, b, 1)
    ensures var nothing := Output(DUST_LIMIT, [], [], N.NewOp([]), []);
            var b := OneOutput(id, nothing, time);
            ValidBlock(p, EMPTY, b, 1) && !ConnectOk(EMPTY, b, 1) && EncodableOutputs(b.txs)
  {
    var oversized := Output(DUST_LIMIT, seq(65536, _ => 0 as byte), [], N.NoOp, []);
    var nothing := Output(DUST_LIMIT, [], [], N.NewOp([]), []);
    hide ValidBlock, ConnectOk, EncodableOutputs;
    FirstBlockIsValid(p, id, oversized, time);
    FirstBlockIsValid(p, id, nothing, time);
    HoldableIsStorable(id, nothing, time);
  }

  lemma FirstBlockFacts(p: Params, id: Hash, o: Output, time: int)
    requires Plain(p, o)
    ensures var b := OneOutput(id, o, time);
            && MoneyFacts(p, EMPTY, b, 1) && Undoable(EMPTY, b, 1)
            && TxIds(b.txs) !! KnownTxs(EMPTY) + StackIds([])
  {
    OneOutputShape(id, o, time, 1);
    hide BlockEntries, BlockSteps;
    assert KnownTxs(EMPTY) + StackIds([]) == {};
    assert EMPTY.n.back.hist.Keys == {};
  }

  /** Connecting it and disconnecting it again is an allowed run, and meets btcd's money rules. */
  lemma FirstRunIsAllowed(p: Params, id: Hash, o: Output, time: int)
    requires Plain(p, o) && Holdable(o)
    ensures var events, start := [ConnectBlock(OneOutput(id, o, time)), DisconnectTip], Start(EMPTY, 0);
            AllowedRun(p, EMPTY, start, events) && MoneyRun(p, start, events)
  {
    FirstBlockIsValid(p, id, o, time);
    FirstBlockFacts(p, id, o, time);
    ConnectAndBack(p, EMPTY, OneOutput(id, o, time));
  }

  lemma ConnectAndBack(p: Params, base: Db, b: Block)
    requires ValidBlock(p, base, b, 1) && ConnectOk(base, b, 1) && MoneyFacts(p, base, b, 1) && Undoable(base, b, 1)
    requires TxIds(b.txs) !! KnownTxs(base) + StackIds([])
    ensures AllowedRun(p, base, Start(base, 0), [ConnectBlock(b), DisconnectTip])
    ensures MoneyRun(p, Start(base, 0), [ConnectBlock(b), DisconnectTip])
  {
    hide ValidBlock, ConnectOk, MoneyFacts, Undoable, KnownTxs, TxIds, StackIds, Connect, Disconnect;
    var start, events := Start(base, 0), [ConnectBlock(b), DisconnectTip];
    assert events[1..] == [DisconnectTip] && [DisconnectTip][1..] == [];
    var next := Step(start, events[0]);
    assert next == AfterConnect(start, b, 1) && next.stack == [Link(b, true)];
    assert Allowed(p, base, next, DisconnectTip);
    var last := Step(next, DisconnectTip);
    assert AllowedRun(p, base, last, []) && MoneyRun(p, last, []);
    assert AllowedRun(p, base, next, [DisconnectTip]) && MoneyRun(p, next, [DisconnectTip]);
  }

  // ----- a block that cannot be undone -----

  /** One name at its last valid height, 36013, and a commitment for the same name. */
  function LastDay(name: Name, t: Hash, c: Bytes): Db {
    var r := Record([], t, 0, 13, 36013, [], 0, 1);
    Db(N.NameDb(
         N.Live(map[name := r], {HeightName(36013, name)}, map[t := r], map[name := [t]], map[c := 36000]),
         N.Backups(map[], {}, map[], map[])),
       U.UtxoDb(map[], {}, map[], {}))
  }

  lemma OneList<K(!new)>(k: K, t: Hash)
    ensures Maps.Elements(map[k := [t]]) == {t} && Maps.Disjoint(map[k := [t]])
  {
    var m := map[k := [t]];
    assert m[k][0] in Maps.Elements(m);
  }

  lemma NoLists<K(!new)>()
    ensures var none: map<K, seq<Hash>> := map[]; Maps.Elements(none) == {} && Maps.Disjoint(none)
  {
  }

  lemma LastDayInv(name: Name, t: Hash, c: Bytes)
    requires name != []
    ensures Inv(LastDay(name, t, c), 36013) && N.Complete(LastDay(name, t, c).n)
    ensures KnownTxs(LastDay(name, t, c)) == {t}
  {
    OneList(name, t);
    NoLists<HeightName>();
    hide Maps.Elements, Maps.Disjoint;
    LastDayNames(name, t, c);
    hide N.LiveInv, N.HistoryMatchesNames;
    assert U.Inv(LastDay(name, t, c).u, 36013);
  }

  lemma LastDayNames(name: Name, t: Hash, c: Bytes)
    requires name != [] && Maps.Disjoint(map[name := [t]])
    ensures N.LiveInv(LastDay(name, t, c).n.live, 36013) && N.HistoryMatchesNames(LastDay(name, t, c).n.live)
  {
    hide Maps.Disjoint;
  }

  lemma LastDayRules(name: Name, t: Hash, c: Bytes, id: Hash, time: int)
    requires 0 < |name| <= MAX_NAME_LENGTH
    ensures var db, o := LastDay(name, t, c), Output(DUST_LIMIT, [], [], N.FirstUpdateOp(name, [], c), []);
            OutputOk(db.n.live, Tx(id, [], [o]), o, 36014) && !Undoable(db, OneOutput(id, o, time), 36014)
  {
    var db, o := LastDay(name, t, c), Output(DUST_LIMIT, [], [], N.FirstUpdateOp(name, [], c), []);
    OneOutputShape(id, o, time, 36014);
    hide BlockEntries, NU.UpdatesRecorded;
    assert BlockEntries(OneOutput(id, o, time).txs)[0].op.name in db.n.live.names;
  }

  /** The next block may register the name anew, and then cannot be undone: the old record is lost. */
  lemma ValidButNotUndoable(p: Params, name: Name, t: Hash, c: Bytes, id: Hash, time: int)
    requires p.interval > 36014 && p.trackFrom <= 36014 && 0 < |name| <= MAX_NAME_LENGTH && id != t
    ensures var db, b := LastDay(name, t, c), OneOutput(id, Output(DUST_LIMIT, [], [], N.FirstUpdateOp(name, [], c), []), time);
            && Inv(db, 36013) && N.Complete(db.n)
            && ValidBlock(p, db, b, 36014) && ConnectOk(db, b, 36014)
            && !Undoable(db, b, 36014) && Disconnect(Process(db, b, 36014), b, 36014).n.live != db.n.live
  {
    hide Inv, KnownTxs, Undoable, Process, Disconnect, ConnectOk, Storable, LastDay, N.Complete, ValidBlock;
    var db, o := LastDay(name, t, c), Output(DUST_LIMIT, [], [], N.FirstUpdateOp(name, [], c), []);
    var b := OneOutput(id, o, time);
    LastDayInv(name, t, c);
    LastDayRules(name, t, c, id, time);
    OneOutputIsValid(p, db, id, o, time, 36014);
    HoldableIsStorable(id, o, time);
    ConnectFailsOnUnstorable(p, db, b, 36014);
    DisconnectUndoesProcess(p, db, b, 36014);
  }

  /** What the rollback leaves behind: no name, but its new mark, which expires it at 72015 whoever owns it then. */
  lemma RollbackLosesInvariant(p: Params, name: Name, t: Hash, c: Bytes, id: Hash, time: int)
    requires p.interval > 36014 && p.trackFrom <= 36014 && 0 < |name| <= MAX_NAME_LENGTH && id != t
    ensures var db, b := LastDay(name, t, c), OneOutput(id, Output(DUST_LIMIT, [], [], N.FirstUpdateOp(name, [], c), []), time);
            var l := Disconnect(Process(db, b, 36014), b, 36014).n.live;
            HeightName(72014, name) in l.expiration && name !in l.names && !N.Indexed(l)
  {
    hide Inv, Process, Disconnect, ConnectOk, Undoable, N.Complete, ValidBlock, N.Indexed;
    var o := Output(DUST_LIMIT, [], [], N.FirstUpdateOp(name, [], c), []);
    var b := OneOutput(id, o, time);
    ValidButNotUndoable(p, name, t, c, id, time);
    OneOutputShape(id, o, time, 36014);
    hide BlockEntries, BlockSteps;
    MarkLeftBehind(p, LastDay(name, t, c), b, 36014, 0);
  }

  // ----- a name that shares a history record with a backup -----

  /**
   Transaction t wrote the names a and b at height 20, and u updated b at 21.  At 36021 name a has
   expired, and the backup of its history has taken the record of t.  Name b expires next.
   */
  function SharedBackup(a: Name, b: Name, t: Hash, u: Hash): Db {
    var key, ra, rb := HeightName(36021, a), Record([], t, 0, 20, 36020, [], 0, 1), Record([], t, 1, 20, 36020, [], 0, 1);
    var r := Record([], u, 0, 21, 36021, [], 0, 1);
    Db(N.NameDb(
         N.Live(map[b := r], {HeightName(36021, b)}, map[u := r], map[b := [t, u]], map[]),
         N.Backups(map[key := ra], {key}, map[t := rb], map[key := [t]])),
       U.UtxoDb(map[], {}, map[], {}))
  }

  lemma SharedBackupInv(a: Name, b: Name, t: Hash, u: Hash)
    requires a != [] && b != [] && t != u
    ensures Inv(SharedBackup(a, b, t, u), 36021) && N.HistoryOf(SharedBackup(a, b, t, u).n.live, b) == [t, u]
  {
    var db := SharedBackup(a, b, t, u);
    OneList(HeightName(36021, a), t);
    hide Maps.Elements, Maps.Disjoint;
    assert N.LiveInv(db.n.live, 36021);
    hide N.LiveInv;
    assert N.BackInv(db.n.back, 36021) && N.Separate(db.n.live, db.n.back);
    assert U.Inv(db.u, 36021);
  }

  lemma SharedBackupKnown(a: Name, b: Name, t: Hash, u: Hash)
    ensures KnownTxs(SharedBackup(a, b, t, u)) <= {t, u}
  {
    var db := SharedBackup(a, b, t, u);
    OneList(HeightName(36021, a), t);
    var m := db.n.live.histIdx;
    assert Maps.Elements(m) <= {t, u} by {
      forall tx | tx in Maps.Elements(m) ensures tx in {t, u} {
        var n, i :| n in m && 0 <= i < |m[n]| && m[n][i] == tx;
        assert m[n] == [t, u];
      }
    }
    hide Maps.Elements;
  }

  /** The expiring name lists the backed-up transaction. */
  lemma SharedBackupShares(a: Name, b: Name, t: Hash, u: Hash)
    ensures var d := SharedBackup(a, b, t, u).n;
            t in NE.HistoryTxs(d.live, NI.Expired(d.live, 36022)) && t in d.back.hist
  {
    var l := SharedBackup(a, b, t, u).n.live;
    var m := Maps.Restrict(l.histIdx, NI.Expired(l, 36022));
    assert b in m && m[b][0] == t;
  }

  /**
   The next block need not touch a name to be impossible to undo: the rollback restores b with both
   of its history records, but that of t belongs to the backup of a.
   */
  lemma ValidButSharesBackup(p: Params, a: Name, b: Name, t: Hash, u: Hash, id: Hash, time: int)
    requires p.interval > 36022 && p.trackFrom <= 36022 && a != [] && b != [] && t != u && id != t && id != u
    ensures var db, blk := SharedBackup(a, b, t, u), OneOutput(id, Output(DUST_LIMIT, [], [], N.NoOp, []), time);
            && Inv(db, 36021) && ValidBlock(p, db, blk, 36022) && ConnectOk(db, blk, 36022)
            && NoReRegistration(db.n.live, BlockEntries(blk.txs)) && NU.UpdatesRecorded(db.n.live, BlockEntries(blk.txs))
            && !Undoable(db, blk, 36022) && Disconnect(Process(db, blk, 36022), blk, 36022).n.live != db.n.live
  {
    hide Inv, KnownTxs, Process, Disconnect, ConnectOk, ValidBlock, SharedBackup, NE.HistoryTxs, NI.Expired, Storable;
    var db, o := SharedBackup(a, b, t, u), Output(DUST_LIMIT, [], [], N.NoOp, []);
    var blk := OneOutput(id, o, time);
    SharedBackupInv(a, b, t, u);
    SharedBackupKnown(a, b, t, u);
    SharedBackupShares(a, b, t, u);
    OneOutputIsValid(p, db, id, o, time, 36022);
    OneOutputShape(id, o, time, 36022);
    hide BlockEntries, BlockSteps;
    HoldableIsStorable(id, o, time);
    ConnectFailsOnUnstorable(p, db, blk, 36022);
    DisconnectUndoesProcess(p, db, blk, 36022);
  }
}
