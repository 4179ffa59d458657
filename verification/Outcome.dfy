/**
 What a valid block leaves in the buckets, place by place: the record of every name an output
 writes, the names that stay, the commitments, and the outputs that can be spent.
 */
module Outcome {
  import opened Bytes
  import opened Records
  import opened Chain
  import opened Validation
  import opened BlockFacts
  import opened Reorg
  import N = NameStore
  import NU = NameUndo
  import NH = NameHistory
  import NE = NameExpiry
  import NI = NameInvariant
  import U = UtxoSet
  import Maps

  // ----- places in a block -----

  /** Output j of transaction i exists. */
  predicate Place(txs: seq<Tx>, i: int, j: int) {
    0 <= i < |txs| && 0 <= j < |txs[i].outs|
  }

  /** Where the entries of transaction i start. */
  function Offset(txs: seq<Tx>, i: nat): nat
    requires i <= |txs|
  {
    |BlockEntries(txs[..i])|
  }

  lemma {:induction false} EntryAt(txs: seq<Tx>, i: nat, j: nat)
    requires Place(txs, i, j)
    ensures Offset(txs, i) + |txs[i].outs| <= |BlockEntries(txs)|
    ensures BlockEntries(txs)[Offset(txs, i) + j] == EntryOf(txs[i], j)
  {
    var n := |txs| - 1;
    if i < n {
      EntryAt(txs[..n], i, j);
      assert txs[..n][..i] == txs[..i];
    }
  }

  lemma {:induction false} PlaceOf(txs: seq<Tx>, k: nat) returns (i: nat, j: nat)
    requires k < |BlockEntries(txs)|
    ensures Place(txs, i, j) && k == Offset(txs, i) + j
  {
    var n := |txs| - 1;
    if k < |BlockEntries(txs[..n])| {
      i, j := PlaceOf(txs[..n], k);
      assert txs[..n][..i] == txs[..i];
    } else {
      i, j := n, k - |BlockEntries(txs[..n])|;
    }
  }

  lemma {:induction false} OffsetGrows(txs: seq<Tx>, i: nat, i': nat)
    requires i < i' <= |txs|
    ensures Offset(txs, i) + |txs[i].outs| <= Offset(txs, i')
  {
    assert txs[..i'][..i' - 1] == txs[..i' - 1];
    if i < i' - 1 {
      OffsetGrows(txs, i, i' - 1);
    }
  }

  /** Place (i, j) comes before place (i', j'). */
  predicate Before(i: nat, j: nat, i': nat, j': nat) {
    i < i' || (i == i' && j < j')
  }

  lemma OrderOfPlaces(txs: seq<Tx>, i: nat, j: nat, i': nat, j': nat)
    requires Place(txs, i, j) && Place(txs, i', j')
    ensures Before(i, j, i', j') <==> Offset(txs, i) + j < Offset(txs, i') + j'
  {
    if i < i' { OffsetGrows(txs, i, i'); }
    if i' < i { OffsetGrows(txs, i', i); }
  }

  // ----- the record of a written name -----

  /** Expiration is 36000 blocks on, but at most the largest height. */
  function ExpiresAt(h: Height): int {
    if h + 36000 <= 2147483647 then h + 36000 else 2147483647
  }

  /** The record written by output j of transaction i at height h. */
  predicate RecordIs(r: Record, id: Hash, j: int, value: Bytes, owner: Bytes, h: Height, time: int) {
    && r.value == value && r.address == owner
    && r.txHash == id && r.outIndex == j
    && r.height == h && r.expiresAt == ExpiresAt(h) && r.updatedAt == time
  }

  /** An earlier entry has used up the commitment. */
  ghost predicate UsedUp(es: seq<N.Entry>, c: Bytes) {
    exists k :: 0 <= k < |es| && es[k].op.FirstUpdateOp? && es[k].op.commit == c
  }

  lemma {:induction false} ConsumedFrom(es: seq<N.Entry>, c: Bytes)
    ensures c in NU.Consumed(es) <==> UsedUp(es, c)
  {
    if es != [] {
      var n := |es| - 1;
      ConsumedFrom(es[..n], c);
      assert forall k :: 0 <= k < n ==> es[k] == es[..n][k];
    }
  }

  /** The height of the commitment that the record of entry i goes back to. */
  ghost function CommitHeight(x: N.Live, es: seq<N.Entry>, i: nat, h: Height): int
    requires i < |es| && es[i].op.Names()
    requires es[i].op.UpdateOp? ==> es[i].op.name in x.names
    requires es[i].op.FirstUpdateOp? ==> es[i].op.commit in x.nameNew
  {
    if es[i].op.UpdateOp? then x.names[es[i].op.name].nameNewHeight
    else if UsedUp(es[..i], es[i].op.commit) then (if h < 12 then 0 else h - 12)
    else x.nameNew[es[i].op.commit]
  }

  lemma {:induction false} FitsAt(x: N.Live, es: seq<N.Entry>, i: nat)
    requires NU.Fits(x, es) && i < |es|
    ensures NU.EntryFits(x, es[..i], es[i]) && NU.Fits(x, es[..i])
  {
    var n := |es| - 1;
    if i < n {
      FitsAt(x, es[..n], i);
      assert es[..n][..i] == es[..i];
    }
  }

  lemma {:induction false} EntryWritten(x: N.Live, es: seq<N.Entry>, h: Height, time: int, i: nat)
    requires N.Indexed(x) && NU.Fits(x, es) && i < |es| && es[i].op.Names()
    ensures es[i].op.UpdateOp? ==> es[i].op.name in x.names
    ensures es[i].op.FirstUpdateOp? ==> es[i].op.commit in x.nameNew
    ensures var l := N.ApplyEntries(x, es, h, time);
            && es[i].op.name in l.names
            && RecordIs(l.names[es[i].op.name], es[i].tx, es[i].index, es[i].op.value, es[i].owner, h, time)
            && l.names[es[i].op.name].nameNewHeight == CommitHeight(x, es, i, h)
            && N.HistoryOf(l, es[i].op.name) == N.HistoryOf(x, es[i].op.name) + [es[i].tx]
    decreases |es|
  {
    hide RecordIs, N.Indexed, NU.EntryFits, N.ApplyEntry;
    var n := |es| - 1;
    FitsAt(x, es, i);
    FitsNames(x, es[..i], es[i]);
    var l := N.ApplyEntries(x, es[..n], h, time);
    if i == n {
      LastWritten(x, es, h, time);
    } else {
      assert es[..n][i] == es[i] && es[..n][..i] == es[..i];
      EntryWritten(x, es[..n], h, time, i);
      NH.OneEntryEach(x, es, i);
      OtherKept(l, es[n], es[i].op.name, h, time);
    }
  }

  lemma FitsNames(x: N.Live, earlier: seq<N.Entry>, e: N.Entry)
    requires NU.EntryFits(x, earlier, e)
    ensures e.op.UpdateOp? ==> e.op.name in x.names
    ensures e.op.FirstUpdateOp? ==> e.op.commit in x.nameNew
  {
  }

  lemma OtherKept(l: N.Live, e: N.Entry, name: Name, h: Height, time: int)
    requires e.op.Names() ==> e.op.name != name
    ensures var l' := N.ApplyEntry(l, e, h, time);
            && (name in l.names ==> name in l'.names && l'.names[name] == l.names[name])
            && N.HistoryOf(l', name) == N.HistoryOf(l, name)
  {
    hide N.WrittenRecord;
  }

  lemma LastWritten(x: N.Live, es: seq<N.Entry>, h: Height, time: int)
    requires N.Indexed(x) && NU.Fits(x, es) && es != [] && es[|es| - 1].op.Names()
    requires es[|es| - 1].op.UpdateOp? ==> es[|es| - 1].op.name in x.names
    requires es[|es| - 1].op.FirstUpdateOp? ==> es[|es| - 1].op.commit in x.nameNew
    ensures var n := |es| - 1;
            var e, l := es[n], N.ApplyEntries(x, es, h, time);
            && e.op.name in l.names
            && RecordIs(l.names[e.op.name], e.tx, e.index, e.op.value, e.owner, h, time)
            && l.names[e.op.name].nameNewHeight == CommitHeight(x, es, n, h)
            && N.HistoryOf(l, e.op.name) == N.HistoryOf(x, e.op.name) + [e.tx]
  {
    hide N.Indexed;
    var n := |es| - 1;
    var e, l := es[n], N.ApplyEntries(x, es[..n], h, time);
    NU.ApplyEntriesShape(x, es[..n], h, time);
    NU.FitsSeparates(x, es[..n]);
    if e.op.FirstUpdateOp? {
      ConsumedFrom(es[..n], e.op.commit);
    }
    hide NU.Fits, Maps.Elements, NU.Consumed, NU.Registered, NU.TouchedNames, UsedUp;
    StepWritten(x, l, es, n, h, time);
  }

  lemma StepWritten(x: N.Live, l: N.Live, es: seq<N.Entry>, n: nat, h: Height, time: int)
    requires n < |es| && es[n].op.Names()
    requires es[n].op.UpdateOp? ==> es[n].op.name in x.names && es[n].op.name in l.names && l.names[es[n].op.name] == x.names[es[n].op.name]
    requires es[n].op.FirstUpdateOp? ==>
               var c := es[n].op.commit;
               && c in x.nameNew && (c in l.nameNew <==> !UsedUp(es[..n], c))
               && (c in l.nameNew ==> l.nameNew[c] == x.nameNew[c])
    requires N.HistoryOf(l, es[n].op.name) == N.HistoryOf(x, es[n].op.name)
    ensures var e, l' := es[n], N.ApplyEntry(l, es[n], h, time);
            && e.op.name in l'.names
            && RecordIs(l'.names[e.op.name], e.tx, e.index, e.op.value, e.owner, h, time)
            && l'.names[e.op.name].nameNewHeight == CommitHeight(x, es, n, h)
            && N.HistoryOf(l', e.op.name) == N.HistoryOf(x, e.op.name) + [e.tx]
  {
    hide UsedUp;
  }

  // ----- the names after a block -----

  /** The entries of a valid block work on the names that have not expired. */
  lemma NamesAfter(p: Params, db: Db, b: Block, h: Height) returns (w: N.Live)
    requires Inv(db, h - 1) && ValidBlock(p, db, b, h)
    ensures Connect(db, b, h).n.live == N.ApplyEntries(w, BlockEntries(b.txs), h, b.time)
    ensures N.Indexed(w) && NU.Fits(w, BlockEntries(b.txs))
    ensures forall n :: n in w.names <==> n in db.n.live.names && db.n.live.names[n].expiresAt >= h
    ensures forall n :: n in w.names ==> w.names[n] == db.n.live.names[n] && N.HistoryOf(w, n) == N.HistoryOf(db.n.live, n)
    ensures w.nameNew == db.n.live.nameNew
  {
    w := NE.Without(db.n.live, NI.Expired(db.n.live, h));
    StillThere(db.n.live, h);
    WorksOn(p, db, b, h);
    EntriesFit(p, db, b, h);
    hide *;
  }

  lemma WorksOn(p: Params, db: Db, b: Block, h: Height)
    requires Inv(db, h - 1) && ValidBlock(p, db, b, h)
    ensures var w := NE.Without(db.n.live, NI.Expired(db.n.live, h));
            Connect(db, b, h).n.live == N.ApplyEntries(w, BlockEntries(b.txs), h, b.time) && N.Indexed(w)
  {
    hide Process, ValidBlock, NE.Without, N.BackInv, N.Separate, N.ApplyEntries, BlockEntries, NI.Expired, N.ExpirationMirror, N.PruneExpired;
    ProcessShape(p, db, b, h);
    NI.ExpireSetInv(db.n, h);
    PrunedLive(Process(db, b, h), h);
    hide U.Effect, U.Spends, U.Creates, BlockSteps, NE.WithBackups, N.Indexed, NE.Only, Cleanup;
  }

  lemma StillThere(l: N.Live, h: Height)
    ensures var w := NE.Without(l, NI.Expired(l, h));
            && w.nameNew == l.nameNew
            && (forall n :: n in w.names <==> n in l.names && l.names[n].expiresAt >= h)
            && (forall n :: n in w.names ==> w.names[n] == l.names[n] && N.HistoryOf(w, n) == N.HistoryOf(l, n))
  {
    hide NE.HistoryTxs, NE.MarksOf;
  }

  lemma PrunedLive(db: Db, h: Height)
    ensures Cleanup(db, h).n.live == db.n.live && Cleanup(db, h).u.utxo == db.u.utxo
  {
  }

  /** A NAME_FIRSTUPDATE at an earlier place uses the commitment. */
  ghost predicate UsedBefore(txs: seq<Tx>, i: nat, j: nat, c: Bytes) {
    exists i', j' :: Place(txs, i', j') && Before(i', j', i, j) && txs[i'].outs[j'].op.FirstUpdateOp? && txs[i'].outs[j'].op.commit == c
  }

  lemma UsedUpAt(txs: seq<Tx>, i: nat, j: nat, c: Bytes)
    requires Place(txs, i, j)
    ensures Offset(txs, i) + j < |BlockEntries(txs)|
    ensures UsedUp(BlockEntries(txs)[..Offset(txs, i) + j], c) <==> UsedBefore(txs, i, j, c)
  {
    EntryAt(txs, i, j);
    var es, k := BlockEntries(txs), Offset(txs, i) + j;
    hide Offset, BlockEntries;
    if UsedUp(es[..k], c) {
      var m :| 0 <= m < k && es[..k][m].op.FirstUpdateOp? && es[..k][m].op.commit == c;
      UserBefore(txs, i, j, c, m);
    }
    if UsedBefore(txs, i, j, c) {
      var i': nat, j': nat :| Place(txs, i', j') && Before(i', j', i, j) && txs[i'].outs[j'].op.FirstUpdateOp? && txs[i'].outs[j'].op.commit == c;
      var m := UserEntry(txs, i, j, i', j');
      assert es[..k][m] == es[m];
    }
  }

  lemma UserBefore(txs: seq<Tx>, i: nat, j: nat, c: Bytes, m: nat)
    requires Place(txs, i, j) && m < Offset(txs, i) + j && m < |BlockEntries(txs)|
    requires BlockEntries(txs)[m].op.FirstUpdateOp? && BlockEntries(txs)[m].op.commit == c
    ensures UsedBefore(txs, i, j, c)
  {
    hide Offset, BlockEntries;
    var i', j' := PlaceOf(txs, m);
    EntryAt(txs, i', j');
    OrderOfPlaces(txs, i', j', i, j);
  }

  lemma UserEntry(txs: seq<Tx>, i: nat, j: nat, i': nat, j': nat) returns (m: nat)
    requires Place(txs, i, j) && Place(txs, i', j') && Before(i', j', i, j)
    ensures m < Offset(txs, i) + j && m < |BlockEntries(txs)| && BlockEntries(txs)[m].op == txs[i'].outs[j'].op
  {
    hide Offset, BlockEntries;
    m := Offset(txs, i') + j';
    EntryAt(txs, i', j');
    OrderOfPlaces(txs, i', j', i, j);
  }

  /**
   The record of a name that output j of transaction i writes, a valid block being connected at
   height h: value, owner, place, heights and time are those of the output and the block.  An
   update keeps the commitment height of the record before; a registration has the height its
   commitment was stored with, or 12 below h when an output before it has used the commitment.
   */
  lemma NameWritten(p: Params, db: Db, b: Block, h: Height, i: nat, j: nat)
    requires Inv(db, h - 1) && ValidBlock(p, db, b, h)
    requires Place(b.txs, i, j) && b.txs[i].outs[j].op.Names()
    ensures var l, l', o := db.n.live, Connect(db, b, h).n.live, b.txs[i].outs[j];
            && o.op.name in l'.names
            && RecordIs(l'.names[o.op.name], b.txs[i].id, j, o.op.value, o.owner, h, b.time)
            && (o.op.UpdateOp? ==> o.op.name in l.names && l'.names[o.op.name].nameNewHeight == l.names[o.op.name].nameNewHeight)
            && (o.op.FirstUpdateOp? ==>
                  && o.op.commit in l.nameNew
                  && l'.names[o.op.name].nameNewHeight == if UsedBefore(b.txs, i, j, o.op.commit) then h - 12 else l.nameNew[o.op.commit])
    ensures var l, l', o := db.n.live, Connect(db, b, h).n.live, b.txs[i].outs[j];
            N.HistoryOf(l', o.op.name) == (if o.op.UpdateOp? then N.HistoryOf(l, o.op.name) else []) + [b.txs[i].id]
  {
    hide RecordIs, UsedBefore, UsedUp, Inv, ValidBlock, Connect, NU.Fits, NU.EntryFits, N.Indexed, Offset, BlockEntries, N.ApplyEntries, N.HistoryOf;
    var w := NamesAfter(p, db, b, h);
    var es, k := BlockEntries(b.txs), Offset(b.txs, i) + j;
    EntryAt(b.txs, i, j);
    IndexFits(p, db, b, h, i, j);
    EntryWritten(w, es, h, b.time, k);
    if es[k].op.FirstUpdateOp? {
      FitsAt(w, es, k);
      WindowHeight(p, db, b, h, i, j);
      UsedUpAt(b.txs, i, j, es[k].op.commit);
      NoHistoryYet(w, es[k].op.name, es[..k], es[k]);
    }
  }

  lemma NoHistoryYet(w: N.Live, n: Name, earlier: seq<N.Entry>, e: N.Entry)
    requires N.Indexed(w) && NU.EntryFits(w, earlier, e) && e.op.FirstUpdateOp? && e.op.name == n
    ensures N.HistoryOf(w, n) == []
  {
  }

  lemma IndexFits(p: Params, db: Db, b: Block, h: Height, i: nat, j: nat)
    requires ValidBlock(p, db, b, h) && Place(b.txs, i, j)
    ensures j < TWO_32 && EntryOf(b.txs[i], j).index == j
  {
    hide BlockOk;
    assert |b.txs[i].outs| <= TWO_32;
  }

  lemma WindowHeight(p: Params, db: Db, b: Block, h: Height, i: nat, j: nat)
    requires Inv(db, h - 1) && ValidBlock(p, db, b, h) && Place(b.txs, i, j)
    ensures b.txs[i].outs[j].op.FirstUpdateOp? ==> h >= 12
  {
    assert TxOk(p, db, b.txs[i], i, h);
    assert OutputOk(db.n.live, b.txs[i], b.txs[i].outs[j], h);
    hide BlockOk, Facts, N.Indexed, N.BackInv, N.Separate;
  }

  /** Some output of the block writes the name. */
  ghost predicate Writes(txs: seq<Tx>, n: Name) {
    exists i, j :: Place(txs, i, j) && txs[i].outs[j].op.Names() && txs[i].outs[j].op.name == n
  }

  /** A name that no output writes stays with its record and its history exactly when it has not expired. */
  lemma NameNotWritten(p: Params, db: Db, b: Block, h: Height, n: Name)
    requires Inv(db, h - 1) && ValidBlock(p, db, b, h) && !Writes(b.txs, n)
    ensures var l, l' := db.n.live, Connect(db, b, h).n.live;
            && (n in l'.names <==> n in l.names && l.names[n].expiresAt >= h)
            && (n in l'.names ==> l'.names[n] == l.names[n] && N.HistoryOf(l', n) == N.HistoryOf(l, n))
  {
    hide Inv, ValidBlock, Connect, NU.Fits, BlockEntries, N.ApplyEntries, Writes, NU.TouchedNames, NU.NamedTxs, N.Indexed, NU.CommitsFrame;
    var w := NamesAfter(p, db, b, h);
    NotTouched(b.txs, n);
    NU.ApplyEntriesShape(w, BlockEntries(b.txs), h, b.time);
  }

  lemma NotTouched(txs: seq<Tx>, n: Name)
    requires !Writes(txs, n)
    ensures n !in NU.TouchedNames(BlockEntries(txs))
  {
    var es := BlockEntries(txs);
    NU.EarlierFrom(es);
    hide BlockEntries, NU.TouchedNames, Offset;
    if n in NU.TouchedNames(es) {
      var k :| 0 <= k < |es| && es[k].op.Names() && es[k].op.name == n;
      var i, j := PlaceOf(txs, k);
      EntryAt(txs, i, j);
    }
  }

  // ----- the commitments after a block -----

  ghost predicate Commits(txs: seq<Tx>, c: Bytes) {
    exists i, j :: Place(txs, i, j) && txs[i].outs[j].op == N.NewOp(c)
  }

  ghost predicate Uses(txs: seq<Tx>, c: Bytes) {
    exists i, j :: Place(txs, i, j) && txs[i].outs[j].op.FirstUpdateOp? && txs[i].outs[j].op.commit == c
  }

  lemma {:induction false} RegisteredFrom(es: seq<N.Entry>, c: Bytes)
    ensures c in NU.Registered(es) <==> N.NewOp(c) in Ops(es)
  {
    if es != [] {
      var n := |es| - 1;
      RegisteredFrom(es[..n], c);
      assert Ops(es) == Ops(es[..n]) + [es[n].op];
    }
  }

  function Ops(es: seq<N.Entry>): (r: seq<N.NameOp>)
    ensures |r| == |es|
  {
    seq(|es|, k requires 0 <= k < |es| => es[k].op)
  }

  lemma CommitsInEntries(txs: seq<Tx>, c: Bytes)
    ensures c in NU.Registered(BlockEntries(txs)) <==> Commits(txs, c)
    ensures c in NU.Consumed(BlockEntries(txs)) <==> Uses(txs, c)
  {
    var es := BlockEntries(txs);
    RegisteredFrom(es, c);
    ConsumedFrom(es, c);
    hide BlockEntries, NU.Registered, NU.Consumed;
    if N.NewOp(c) in Ops(es) {
      var k :| 0 <= k < |es| && Ops(es)[k] == N.NewOp(c);
      var i, j := PlaceOf(txs, k);
      EntryAt(txs, i, j);
      assert txs[i].outs[j].op == N.NewOp(c);
    }
    if Commits(txs, c) {
      var i: nat, j: nat :| Place(txs, i, j) && txs[i].outs[j].op == N.NewOp(c);
      EntryAt(txs, i, j);
      assert Ops(es)[Offset(txs, i) + j] == N.NewOp(c);
    }
    if UsedUp(es, c) {
      var k :| 0 <= k < |es| && es[k].op.FirstUpdateOp? && es[k].op.commit == c;
      var i, j := PlaceOf(txs, k);
      EntryAt(txs, i, j);
      assert txs[i].outs[j].op.FirstUpdateOp?;
    }
    if Uses(txs, c) {
      var i: nat, j: nat :| Place(txs, i, j) && txs[i].outs[j].op.FirstUpdateOp? && txs[i].outs[j].op.commit == c;
      EntryAt(txs, i, j);
    }
  }

  /** The block's commitments are stored with its height, those its registrations use are gone, all others stay. */
  lemma CommitmentsAfter(p: Params, db: Db, b: Block, h: Height, c: Bytes)
    requires Inv(db, h - 1) && ValidBlock(p, db, b, h)
    ensures var l, l' := db.n.live, Connect(db, b, h).n.live;
            && (c in l'.nameNew <==> Commits(b.txs, c) || (c in l.nameNew && !Uses(b.txs, c)))
            && (c in l'.nameNew ==> l'.nameNew[c] == if Commits(b.txs, c) then h else l.nameNew[c])
  {
    var w := NamesAfter(p, db, b, h);
    CommitsInEntries(b.txs, c);
    hide Inv, ValidBlock, Connect, NU.Fits, BlockEntries, N.ApplyEntries, Commits, Uses, NU.Registered, NU.Consumed;
    NU.ApplyEntriesShape(w, BlockEntries(b.txs), h, b.time);
    hide N.Indexed, NU.NamesFrame;
  }

  // ----- the outputs after a block -----

  /** A transaction other than the first spends the output. */
  ghost predicate Spends(txs: seq<Tx>, op: OutPoint) {
    exists i :: 1 <= i < |txs| && op in txs[i].ins
  }

  /** The output op is output j of transaction i. */
  predicate IsOutput(txs: seq<Tx>, op: OutPoint, i: int, j: int) {
    Place(txs, i, j) && op.tx == txs[i].id && op.index == j
  }

  lemma {:induction false} SpendSteps(txs: seq<Tx>, h: Height, i: nat, k: nat)
    requires 1 <= i < |txs| && k < |txs[i].ins|
    ensures U.Spend(txs[i].ins[k]) in BlockSteps(txs, h)
  {
    var n := |txs| - 1;
    if i < n {
      SpendSteps(txs[..n], h, i, k);
    } else {
      var steps := TxSteps(txs[n], n, h);
      assert steps[k] == U.Spend(txs[i].ins[k]);
      assert steps[k] in steps;
    }
  }

  lemma {:induction false} CreateSteps(txs: seq<Tx>, h: Height, i: nat, j: nat)
    requires Place(txs, i, j)
    ensures CreateStep(txs[i], j, h) in BlockSteps(txs, h)
  {
    var n := |txs| - 1;
    if i < n {
      CreateSteps(txs[..n], h, i, j);
    } else {
      var steps, m := TxSteps(txs[n], n, h), if n > 0 then |txs[n].ins| else 0;
      assert steps[m + j] == CreateStep(txs[i], j, h);
      assert steps[m + j] in steps;
    }
  }

  lemma {:induction false} CreatedWith(steps: seq<U.UStep>, op: OutPoint, x: Utxo)
    requires U.DistinctCreates(steps) && U.Create(op, x) in steps
    ensures op in U.Creates(steps) && U.Creates(steps)[op] == x
  {
    var n := |steps| - 1;
    assert steps == steps[..n] + [steps[n]];
    if steps[n] != U.Create(op, x) {
      assert forall k :: 0 <= k < n ==> steps[..n][k] == steps[k];
      CreatedWith(steps[..n], op, x);
      var k :| 0 <= k < n && steps[k] == U.Create(op, x);
    }
  }

  /**
   The outputs that can be spent after a valid block: each output of the block, with its value,
   address and script and the block's height, and each earlier one that no transaction but the
   first has among its inputs.
   */
  lemma OutputsAfter(p: Params, db: Db, b: Block, h: Height, op: OutPoint)
    requires Inv(db, h - 1) && ValidBlock(p, db, b, h)
    ensures var u, u' := db.u.utxo, Connect(db, b, h).u.utxo;
            && (op in u' <==> (exists i, j :: IsOutput(b.txs, op, i, j)) || (op in u && !Spends(b.txs, op)))
            && (forall i, j :: IsOutput(b.txs, op, i, j) ==>
                  var o := b.txs[i].outs[j]; u'[op] == Utxo(o.value, o.address, o.script, h))
            && (op in u && op in u' ==> u'[op] == u[op])
  {
    var steps := BlockSteps(b.txs, h);
    ProcessShape(p, db, b, h);
    PrunedLive(Process(db, b, h), h);
    SpentByBlock(b.txs, h, op);
    CreatedByBlock(p, db, b, h, op);
    hide Process, Inv, ValidBlock, BlockSteps, Spends, IsOutput, U.Spends, U.Creates, U.AddressMirror, N.ApplyEntries;
  }

  lemma SpentByBlock(txs: seq<Tx>, h: Height, op: OutPoint)
    ensures op in U.Spends(BlockSteps(txs, h)) <==> Spends(txs, op)
  {
    var steps := BlockSteps(txs, h);
    SpendsFrom(steps);
    StepsFrom(txs, h);
    hide BlockSteps, U.Spends, TxIds;
    if Spends(txs, op) {
      var i :| 1 <= i < |txs| && op in txs[i].ins;
      var k :| 0 <= k < |txs[i].ins| && txs[i].ins[k] == op;
      SpendSteps(txs, h, i, k);
    }
    if U.Spend(op) in steps {
      var i :| 1 <= i < |txs| && U.Spend(op).op in txs[i].ins;
    }
  }

  lemma CreatedByBlock(p: Params, db: Db, b: Block, h: Height, op: OutPoint)
    requires ValidBlock(p, db, b, h)
    ensures var m := U.Creates(BlockSteps(b.txs, h));
            && (op in m <==> exists i, j :: IsOutput(b.txs, op, i, j))
            && (forall i, j :: IsOutput(b.txs, op, i, j) ==> var o := b.txs[i].outs[j]; m[op] == Utxo(o.value, o.address, o.script, h))
  {
    var steps := BlockSteps(b.txs, h);
    OutputsNew(p, db, b, h);
    hide ValidBlock, BlockSteps, U.Creates, IsOutput;
    forall i, j | IsOutput(b.txs, op, i, j)
      ensures op in U.Creates(steps) && var o := PlacedAt(b.txs, op, i, j); U.Creates(steps)[op] == Utxo(o.value, o.address, o.script, h)
    {
      CreatedAs(b.txs, h, op, i, j);
    }
    if op in U.Creates(steps) {
      var i, j := CreatedSomewhere(b.txs, h, op);
    }
  }

  /** The output at a place. */
  function PlacedAt(txs: seq<Tx>, op: OutPoint, i: int, j: int): Output
    requires IsOutput(txs, op, i, j)
  {
    txs[i].outs[j]
  }

  lemma CreatedAs(txs: seq<Tx>, h: Height, op: OutPoint, i: int, j: int)
    requires DistinctIds(txs) && IndexesFit(txs) && IsOutput(txs, op, i, j)
    ensures var m, o := U.Creates(BlockSteps(txs, h)), PlacedAt(txs, op, i, j);
            op in m && m[op] == Utxo(o.value, o.address, o.script, h)
  {
    var o := txs[i].outs[j];
    CreateSteps(txs, h, i, j);
    assert CreateStep(txs[i], j, h) == U.Create(op, Utxo(o.value, o.address, o.script, h));
    hide CreateStep, U.Creates, BlockSteps;
    StepsDistinct(txs, h);
    CreatedWith(BlockSteps(txs, h), op, Utxo(o.value, o.address, o.script, h));
  }

  lemma CreatedSomewhere(txs: seq<Tx>, h: Height, op: OutPoint) returns (i: nat, j: nat)
    requires IndexesFit(txs) && op in U.Creates(BlockSteps(txs, h))
    ensures IsOutput(txs, op, i, j)
  {
    var steps := BlockSteps(txs, h);
    U.CreatesFrom(steps);
    hide BlockSteps, U.Creates;
    var k :| 0 <= k < |steps| && steps[k].Create? && steps[k].op == op;
    assert steps[k] in steps;
    i, j := CreatedAtPlace(txs, h, steps[k]);
  }

  lemma {:induction false} CreatedAtPlace(txs: seq<Tx>, h: Height, s: U.UStep) returns (i: nat, j: nat)
    requires s in BlockSteps(txs, h) && s.Create?
    ensures Place(txs, i, j) && s == CreateStep(txs[i], j, h)
  {
    var n := |txs| - 1;
    assert BlockSteps(txs, h) == BlockSteps(txs[..n], h) + TxSteps(txs[n], n, h);
    hide TxSteps, CreateStep;
    if s in BlockSteps(txs[..n], h) {
      i, j := CreatedAtPlace(txs[..n], h, s);
    } else {
      i := n;
      j := CreatedInTx(txs[n], n, h, s);
    }
  }

  lemma CreatedInTx(tx: Tx, idx: nat, h: Height, s: U.UStep) returns (j: nat)
    requires s in TxSteps(tx, idx, h) && s.Create?
    ensures j < |tx.outs| && s == CreateStep(tx, j, h)
  {
    var steps, m := TxSteps(tx, idx, h), if idx > 0 then |tx.ins| else 0;
    var k :| 0 <= k < |steps| && steps[k] == s;
    assert k < m ==> steps[k] == U.Spend(tx.ins[k]);
    j := k - m;
  }

  // ----- when the buckets can hold a block -----

  /**
   Connecting a valid block fails exactly when an output has an address of more than 255 or a
   script of more than 65535 bytes, or a commitment is empty or longer than 32768 bytes.
   */
  lemma StorableExactly(p: Params, db: Db, b: Block, h: Height)
    requires Inv(db, h - 1) && ValidBlock(p, db, b, h)
    ensures ConnectOk(db, b, h) <==>
            forall i, j :: Place(b.txs, i, j) ==>
              var o := b.txs[i].outs[j];
              |o.address| <= 255 && |o.script| <= 65535 && (o.op.NewOp? ==> 1 <= |o.op.commit| <= 32768)
  {
    ConnectFailsOnUnstorable(p, db, b, h);
    hide Inv, ValidBlock, ConnectOk;
    EncodableAt(b.txs);
    LegalAt(b.txs);
    hide EncodableOutputs, CommitmentsLegal, BlockEntries;
  }

  lemma EncodableAt(txs: seq<Tx>)
    ensures EncodableOutputs(txs) <==>
            forall i, j :: Place(txs, i, j) ==> |txs[i].outs[j].address| <= 255 && |txs[i].outs[j].script| <= 65535
  {
    if forall i, j :: Place(txs, i, j) ==> |txs[i].outs[j].address| <= 255 && |txs[i].outs[j].script| <= 65535 {
      forall i, j | 0 <= i < |txs| && 0 <= j < |txs[i].outs|
        ensures |txs[i].outs[j].address| <= 255 && |txs[i].outs[j].script| <= 65535
      {
        assert Place(txs, i, j);
      }
    }
  }

  lemma LegalAt(txs: seq<Tx>)
    ensures CommitmentsLegal(BlockEntries(txs)) <==>
            forall i, j :: Place(txs, i, j) && txs[i].outs[j].op.NewOp? ==> 1 <= |txs[i].outs[j].op.commit| <= 32768
  {
    var es := BlockEntries(txs);
    hide BlockEntries, Offset;
    if CommitmentsLegal(es) {
      forall i: nat, j: nat | Place(txs, i, j) && txs[i].outs[j].op.NewOp? ensures 1 <= |txs[i].outs[j].op.commit| <= 32768 {
        EntryAt(txs, i, j);
      }
    } else {
      var k :| 0 <= k < |es| && es[k].op.NewOp? && !N.LegalKey(es[k].op.commit);
      var i, j := PlaceOf(txs, k);
      EntryAt(txs, i, j);
      assert Place(txs, i, j);
    }
  }
}
