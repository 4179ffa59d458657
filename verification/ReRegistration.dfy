/**
 Undoing a block that registers a stored name anew.  The expired name is restored first, so undoing
 the first update deletes the restored record and its mark in the expiration index.  What stays is
 the mark of the record the block wrote, and a mark expires its name whatever the record says.
 */
module ReRegistration {
  import opened Bytes
  import opened Records
  import opened Chain
  import opened Validation
  import opened BlockFacts
  import opened Reorg
  import Cursor
  import Maps
  import N = NameStore
  import NU = NameUndo
  import NE = NameExpiry
  import NI = NameInvariant
  import U = UtxoSet

  // ----- the mark that stays -----

  /** The mark is there, and it is not the one of the name's record. */
  predicate StrayMark(l: N.Live, k: HeightName) {
    k in l.expiration && (k.name in l.names ==> l.names[k.name].expiresAt != k.height)
  }

  lemma RemoveKeepsMarks(l: N.Live, name: Name)
    ensures N.RemoveLastHistory(l, name).names == l.names && N.RemoveLastHistory(l, name).expiration == l.expiration
  {
  }

  lemma StrayMarkStays(s: N.Undoing, e: N.Entry, h: Height, k: HeightName)
    requires StrayMark(s.live, k) && (e.op.UpdateOp? ==> e.op.name != k.name)
    ensures StrayMark(N.UndoEntry(s, e, h).live, k)
  {
    if e.op.Names() {
      RemoveKeepsMarks(s.live, e.op.name);
    }
    hide N.RemoveLastHistory, N.PreviousRecord, N.RollbackHeight;
  }

  /** Undoing a block that updates another name keeps a stray mark. */
  lemma {:induction false} StrayMarkStaysThrough(s: N.Undoing, es: seq<N.Entry>, h: Height, k: HeightName)
    requires StrayMark(s.live, k)
    requires forall j :: 0 <= j < |es| && es[j].op.UpdateOp? ==> es[j].op.name != k.name
    ensures StrayMark(N.UndoEntries(s, es, h).live, k)
    decreases |es|
  {
    hide StrayMark, N.UndoEntry;
    if es != [] {
      StrayMarkStays(s, es[|es| - 1], h, k);
      StrayMarkStaysThrough(N.UndoEntry(s, es[|es| - 1], h), es[..|es| - 1], h, k);
    }
  }

  /** The mark that entry i of the block leaves in the expiration index. */
  function NewMark(es: seq<N.Entry>, i: nat, h: Height): HeightName
    requires i < |es| && es[i].op.Names()
  {
    HeightName(SafeCalcExpiresAt(h), es[i].op.name)
  }

  lemma NewMarkWritten(p: Params, db: Db, b: Block, h: Height, i: nat)
    requires Inv(db, h - 1) && ValidBlock(p, db, b, h) && i < |BlockEntries(b.txs)| && BlockEntries(b.txs)[i].op.Names()
    ensures NewMark(BlockEntries(b.txs), i, h) in Process(db, b, h).n.live.expiration
  {
    hide Process, ValidBlock, Inv, NE.Without, NI.Expired, NU.Fits, N.Indexed, BlockEntries, N.ApplyEntries, NewMark;
    hide N.LiveInv, N.BackInv, N.Separate;
    ProcessNamesInv(p, db, b, h);
    AppliedTo(p, db, b, h);
    WrittenMark(NE.Without(db.n.live, NI.Expired(db.n.live, h)), BlockEntries(b.txs), h, b.time, i);
  }

  lemma WrittenMark(w: N.Live, es: seq<N.Entry>, h: Height, time: int, i: nat)
    requires N.Indexed(w) && NU.Fits(w, es) && N.LiveInv(N.ApplyEntries(w, es, h, time), h)
    requires i < |es| && es[i].op.Names()
    ensures NewMark(es, i, h) in N.ApplyEntries(w, es, h, time).expiration
  {
    NU.EarlierFrom(es);
    NU.ApplyEntriesShape(w, es, h, time);
    hide NU.Fits, N.ApplyEntries, NU.CommitsFrame, NU.AgreeOutside;
    var l := N.ApplyEntries(w, es, h, time);
    assert es[i].op.name in l.names && N.RecordInv(l.names[es[i].op.name], h);
  }

  lemma AppliedTo(p: Params, db: Db, b: Block, h: Height)
    requires Inv(db, h - 1) && ValidBlock(p, db, b, h)
    ensures var w := NE.Without(db.n.live, NI.Expired(db.n.live, h));
            && N.Indexed(w) && NU.Fits(w, BlockEntries(b.txs))
            && Process(db, b, h).n.live == N.ApplyEntries(w, BlockEntries(b.txs), h, b.time)
  {
    hide Process, ValidBlock, N.Inv, N.Indexed, NE.Without, NE.ExpireSet, NE.WithBackups, NE.Only, BlockEntries, NI.Expired, NU.Fits, N.ApplyEntries;
    ProcessShape(p, db, b, h);
    EntriesFit(p, db, b, h);
    NI.ExpireSetInv(db.n, h);
    IndexedOf(NE.ExpireSet(db.n, NI.Expired(db.n.live, h), h), h);
    NE.ExpireSetLive(db.n, NI.Expired(db.n.live, h), h);
  }

  /** Restoring brings the old record of an expired name back over the one the block wrote. */
  lemma OldRecordBack(p: Params, db: Db, b: Block, h: Height, n: Name)
    requires Inv(db, h - 1) && ValidBlock(p, db, b, h) && n in NI.Expired(db.n.live, h)
    ensures var l := N.RestoreExpired(Process(db, b, h).n, h).live;
            n in l.names && l.names[n] == db.n.live.names[n]
  {
    ProcessShape(p, db, b, h);
    assert n != [] by { assert N.LiveInv(db.n.live, h - 1); }
    hide Inv, ValidBlock, Process, N.ApplyEntries, NE.MarksOf, NE.HistoryTxs, BlockEntries, Maps.Elements;
    var x, s := Process(db, b, h).n, NI.Expired(db.n.live, h);
    assert HeightName(h, n) in x.back.expired && x.back.expired[HeightName(h, n)] == db.n.live.names[n];
    assert HeightName(h, n) in x.back.idx;
    hide NE.WithBackups, NE.Only;
    RestoredName(x, h, n);
  }

  lemma RestoredName(d: N.NameDb, h: Height, n: Name)
    requires n != [] && HeightName(h, n) in d.back.idx && HeightName(h, n) in d.back.expired
    ensures var l := N.RestoreExpired(d, h).live; n in l.names && l.names[n] == d.back.expired[HeightName(h, n)]
  {
    hide N.Slice, N.AtHeight, N.ExpirationMirror, Maps.Elements, Maps.Restrict;
    assert n in N.ExpiredAt(d.back, h);
    hide N.ExpiredAt;
  }

  lemma RestoreKeepsMarks(d: N.NameDb, h: Height)
    ensures d.live.expiration <= N.RestoreExpired(d, h).live.expiration
  {
  }

  /**
   After the undo of a first update of a stored name, the name is gone, the mark of the undone
   registration is still there, and so the expiration index no longer mirrors the names.
   */
  lemma MarkLeftBehind(p: Params, db: Db, b: Block, h: Height, i: nat)
    requires Inv(db, h - 1) && ValidBlock(p, db, b, h)
    requires i < |BlockEntries(b.txs)| && BlockEntries(b.txs)[i].op.FirstUpdateOp? && BlockEntries(b.txs)[i].op.name in db.n.live.names
    ensures var es, l := BlockEntries(b.txs), Disconnect(Process(db, b, h), b, h).n.live;
            NewMark(es, i, h) in l.expiration && es[i].op.name !in l.names && !N.Indexed(l)
  {
    hide Process, ValidBlock, Inv, N.RestoreExpired, BlockEntries, NoClashes, N.UndoEntries, DisconnectUtxos, NewMark;
    var es, restored := BlockEntries(b.txs), N.RestoreExpired(Process(db, b, h).n, h);
    RestoredStray(p, db, b, h, i);
    OneOperation(p, db, b, h, i);
    ClashFree(p, db, b, h);
    NameOfMark(es, i, h);
    StrayMarkStaysThrough(N.Undoing(restored.live, {}), es, h, NewMark(es, i, h));
    UnregisteredStaysGone(N.Undoing(restored.live, {}), es, h, i);
    NotMirrored(N.UndoEntries(N.Undoing(restored.live, {}), es, h).live, NewMark(es, i, h));
  }

  lemma NameOfMark(es: seq<N.Entry>, i: nat, h: Height)
    requires i < |es| && es[i].op.Names()
    ensures NewMark(es, i, h).name == es[i].op.name
  {
  }

  lemma NotMirrored(l: N.Live, k: HeightName)
    requires k in l.expiration && k.name !in l.names
    ensures !N.Indexed(l)
  {
  }

  /** Once the expired names are back, the new mark is not the one of the name's record. */
  lemma RestoredStray(p: Params, db: Db, b: Block, h: Height, i: nat)
    requires Inv(db, h - 1) && ValidBlock(p, db, b, h)
    requires i < |BlockEntries(b.txs)| && BlockEntries(b.txs)[i].op.FirstUpdateOp? && BlockEntries(b.txs)[i].op.name in db.n.live.names
    ensures StrayMark(N.RestoreExpired(Process(db, b, h).n, h).live, NewMark(BlockEntries(b.txs), i, h))
  {
    var n := BlockEntries(b.txs)[i].op.name;
    NewMarkWritten(p, db, b, h, i);
    RestoreKeepsMarks(Process(db, b, h).n, h);
    var tx, o := EntryRules(p, db, b, h, i);
    assert n in NI.Expired(db.n.live, h);
    hide Process, ValidBlock, Inv, N.RestoreExpired, BlockEntries;
    OldRecordBack(p, db, b, h, n);
  }

  lemma OneOperation(p: Params, db: Db, b: Block, h: Height, i: nat)
    requires ValidBlock(p, db, b, h)
    requires i < |BlockEntries(b.txs)| && BlockEntries(b.txs)[i].op.FirstUpdateOp?
    ensures var es := BlockEntries(b.txs); forall j :: 0 <= j < |es| && es[j].op.UpdateOp? ==> es[j].op.name != es[i].op.name
  {
    ClashFree(p, db, b, h);
    hide ValidBlock, BlockEntries;
    var es := BlockEntries(b.txs);
    forall j | 0 <= j < |es| && es[j].op.UpdateOp? ensures es[j].op.name != es[i].op.name {
      assert !Clash(es[if i < j then i else j].op, es[if i < j then j else i].op);
    }
  }

  /** With complete histories, disconnecting a block keeps the state invariant exactly when the block registers no stored name. */
  lemma DisconnectKeepsInv(p: Params, db: Db, b: Block, h: Height)
    requires Inv(db, h - 1) && N.Complete(db.n) && ValidBlock(p, db, b, h)
    ensures Inv(Disconnect(Process(db, b, h), b, h), h - 1) <==> NoReRegistration(db.n.live, BlockEntries(b.txs))
  {
    var es := BlockEntries(b.txs);
    if NoReRegistration(db.n.live, es) {
      hide Inv, ValidBlock, Process, Disconnect, Undoable, N.Complete, NoReRegistration;
      UndoableWhenComplete(p, db, b, h);
      DisconnectUndoesProcess(p, db, b, h);
    } else {
      var i :| 0 <= i < |es| && es[i].op.FirstUpdateOp? && es[i].op.name in db.n.live.names;
      hide Process, ValidBlock, Disconnect, BlockEntries, N.Complete, N.Indexed, N.BackInv, N.Separate, U.Inv;
      MarkLeftBehind(p, db, b, h, i);
    }
  }

  // ----- what the mark does later -----

  /** A mark below the height of a block expires its name with that block, even when the record is still valid. */
  lemma MarkExpiresName(d: N.NameDb, k: HeightName, h: Height)
    requires k in d.live.expiration && k.height < h && forall m :: m in d.live.expiration ==> 0 <= m.height
    ensures k.name !in ExpireNames(d, h).live.names
  {
    hide Cursor.GetExpiredNames;
    Cursor.ExpiredScanComplete(d.live.expiration, h);
    var names := Cursor.GetExpiredNames(d.live.expiration, h);
    assert k.name in Maps.Members(names);
    ListedIsExpired(d, names, h, k.name);
  }

  lemma {:induction false} ListedIsExpired(d: N.NameDb, names: seq<Name>, h: Height, n: Name)
    requires n in names || n !in d.live.names
    ensures n !in N.ExpireAll(d, names, h).live.names
  {
    hide N.StoreExpired, N.DeleteHistory;
    if names != [] {
      var m := |names| - 1;
      if n in names[..m] || n !in d.live.names {
        ListedIsExpired(d, names[..m], h, n);
      }
      DeletesOnly(N.ExpireAll(d, names[..m], h), names[m], h);
    }
  }

  lemma DeletesOnly(d: N.NameDb, name: Name, h: Height)
    ensures N.ExpireOne(d, name, h).live.names == d.live.names - {name}
  {
    hide N.StoreExpired;
  }
}
