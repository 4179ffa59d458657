/** The name-bucket invariant survives expiring, applying a block's operations, and pruning. */
module NameInvariant {
  import opened Bytes
  import opened Records
  import opened NameStore
  import opened NameUndo
  import opened NameExpiry
  import Maps

  // ----- pruning -----

  lemma PruneComplete(b: Backups, floor: int)
    requires BackupsComplete(b)
    ensures BackupsComplete(PruneExpired(b, floor))
  {
    var keys, p := KeysBefore(b, floor), PruneExpired(b, floor);
    assert p.histIdx == b.histIdx - keys;
    forall tx | tx in Maps.Elements(p.histIdx) ensures tx in p.hist {
      var k, i :| k in p.histIdx && 0 <= i < |p.histIdx[k]| && p.histIdx[k][i] == tx;
      KeptNotDropped(b, keys, k, i);
      assert b.histIdx[k][i] in Maps.Elements(b.histIdx);
    }
  }

  /** A transaction listed under a kept key is not listed under a dropped one. */
  lemma KeptNotDropped(b: Backups, keys: set<HeightName>, k: HeightName, i: nat)
    requires Maps.Disjoint(b.histIdx)
    requires k in b.histIdx && k !in keys && i < |b.histIdx[k]|
    ensures b.histIdx[k][i] !in Maps.Elements(Maps.Restrict(b.histIdx, keys))
  {
  }

  /** Without the histories of the given keys fewer transactions are listed. */
  lemma FewerListed(b: Backups, keys: set<HeightName>)
    ensures Maps.Elements(b.histIdx - keys) <= Maps.Elements(b.histIdx)
  {
    Maps.ElementsPart(b.histIdx, b.histIdx - keys);
  }

  lemma PruneInv(d: NameDb, tip: int, floor: int)
    requires Inv(d, tip)
    ensures Inv(NameDb(d.live, PruneExpired(d.back, floor)), tip)
  {
    FewerListed(d.back, KeysBefore(d.back, floor));
    hide LiveInv, Maps.Elements, KeysBefore;
  }

  lemma PruneExpiredTwice(b: Backups, f: int, g: int)
    ensures PruneExpired(PruneExpired(b, f), g) == PruneExpired(b, if f < g then g else f)
  {
    var m := if f < g then g else f;
    var p := PruneExpired(b, f);
    var kf, kg, km := KeysBefore(b, f), KeysBefore(p, g), KeysBefore(b, m);
    assert km == kf + kg;
    assert Maps.Restrict(p.histIdx, kg) == Maps.Restrict(b.histIdx, kg) by {
      assert kf !! kg;
    }
    Maps.ElementsUnion(b.histIdx, kf, kg);
    hide KeysBefore, Maps.Elements, Maps.Restrict;
    Maps.DropMore(b.expired, kf, kg);
    Maps.DropMore(b.histIdx, kf, kg);
    Maps.DropMore(b.hist, Maps.Elements(Maps.Restrict(b.histIdx, kf)), Maps.Elements(Maps.Restrict(b.histIdx, kg)));
    assert (b.idx - kf) - kg == b.idx - km;
  }

  /** Restoring the names of height h is not affected by pruning below some floor <= h. */
  lemma RestorePrune(l: Live, b: Backups, tip: int, h: Height, floor: int)
    requires BackInv(b, tip) && BackupsComplete(b) && floor <= h
    ensures var r := RestoreExpired(NameDb(l, b), h);
            RestoreExpired(NameDb(l, PruneExpired(b, floor)), h) == NameDb(r.live, PruneExpired(r.back, floor))
  {
    hide BackInv, BackupsComplete, KeysBefore, ExpiredAt, Slice, AtHeight, ExpirationMirror, Maps.Elements, Maps.Restrict;
    var keys, names := KeysBefore(b, floor), ExpiredAt(b, h);
    RestorePruneKeys(l, b, tip, h, floor);
    var dropped, moved := Maps.Elements(Maps.Restrict(b.histIdx, keys)), Maps.Elements(Slice(b.histIdx, h, names));
    MovedNotDropped(b, h, floor);
    Maps.RestrictOutside(b.hist, moved, dropped);
    Maps.DropBoth(b.expired, keys, AtHeight(h, names));
    Maps.DropBoth(b.histIdx, keys, AtHeight(h, names));
    assert (b.idx - keys) - AtHeight(h, names) == (b.idx - AtHeight(h, names)) - keys;
  }

  lemma RestorePruneKeys(l: Live, b: Backups, tip: int, h: Height, floor: int)
    requires BackInv(b, tip) && floor <= h
    ensures var p, names, keys := PruneExpired(b, floor), ExpiredAt(b, h), KeysBefore(b, floor);
            && ExpiredAt(p, h) == names
            && Slice(p.expired, h, names) == Slice(b.expired, h, names)
            && Slice(p.histIdx, h, names) == Slice(b.histIdx, h, names)
            && KeysBefore(RestoreExpired(NameDb(l, b), h).back, floor) == keys
            && Maps.Restrict(b.histIdx - AtHeight(h, names), keys) == Maps.Restrict(b.histIdx, keys)
  {
    hide AtHeight, Maps.Disjoint, Maps.Elements, Maps.Restrict, ExpirationMirror, Slice, RestoreExpired;
    var names, keys := ExpiredAt(b, h), KeysBefore(b, floor);
    assert keys !! AtHeight(h, names);
    assert ExpiredAt(PruneExpired(b, floor), h) == names;
    hide ExpiredAt, KeysBefore;
    KeysAfterRestore(l, b, h, floor);
    SliceAbove(b.expired, h, names, keys);
    SliceAbove(b.histIdx, h, names, keys);
    RestrictApart(b.histIdx, AtHeight(h, names), keys);
  }

  lemma KeysAfterRestore(l: Live, b: Backups, h: Height, floor: int)
    requires floor <= h
    ensures KeysBefore(RestoreExpired(NameDb(l, b), h).back, floor) == KeysBefore(b, floor)
  {
    hide Slice, ExpirationMirror, Maps.Elements, Maps.Restrict, ExpiredAt, AtHeight;
  }

  lemma SliceAbove<V>(m: map<HeightName, V>, h: Height, names: set<Name>, dropped: set<HeightName>)
    requires dropped !! AtHeight(h, names)
    ensures Slice(m - dropped, h, names) == Slice(m, h, names)
  {
    assert forall n :: n in names ==> HeightName(h, n) in AtHeight(h, names);
  }

  lemma RestrictApart<K, V>(m: map<K, V>, dropped: set<K>, keys: set<K>)
    requires dropped !! keys
    ensures Maps.Restrict(m - dropped, keys) == Maps.Restrict(m, keys)
  {
  }

  lemma MovedNotDropped(b: Backups, h: Height, floor: int)
    requires BackupsComplete(b) && floor <= h
    ensures Maps.Elements(Slice(b.histIdx, h, ExpiredAt(b, h))) !! Maps.Elements(Maps.Restrict(b.histIdx, KeysBefore(b, floor)))
  {
    var m := Slice(b.histIdx, h, ExpiredAt(b, h));
    forall tx | tx in Maps.Elements(m) ensures tx !in Maps.Elements(Maps.Restrict(b.histIdx, KeysBefore(b, floor))) {
      var n, i :| n in m && 0 <= i < |m[n]| && m[n][i] == tx;
      KeptNotDropped(b, KeysBefore(b, floor), HeightName(h, n), i);
    }
  }

  // ----- expiring -----

  /** The names whose last valid height is below h. */
  function Expired(l: Live, h: Height): set<Name> {
    set n | n in l.names && l.names[n].expiresAt < h
  }

  lemma WithoutLiveInv(l: Live, h: Height)
    requires LiveInv(l, h - 1)
    ensures LiveInv(Without(l, Expired(l, h)), h)
  {
    var s := Expired(l, h);
    WithoutMirror(l, s);
    hide ExpirationMirror, MarksOf, HistoryTxs;
  }

  lemma WithoutMirror(l: Live, s: set<Name>)
    requires l.expiration == ExpirationMirror(l.names)
    ensures Without(l, s).expiration == ExpirationMirror(Without(l, s).names)
  {
    hide ExpirationMirror, HistoryTxs;
  }

  lemma WithoutHistory(l: Live, s: set<Name>)
    requires HistoryMatchesNames(l)
    ensures HistoryMatchesNames(Without(l, s))
  {
    hide HistoryOk, HistoryTxs, MarksOf;
    var w := Without(l, s);
    assert w.histIdx == l.histIdx - s && Maps.Disjoint(w.histIdx);
    hide Maps.Disjoint;
    forall n | n in w.histIdx ensures HistoryOk(w, n) {
      WithoutOne(l, s, n);
    }
  }

  lemma WithoutOne(l: Live, s: set<Name>, n: Name)
    requires Maps.Disjoint(l.histIdx) && HistoryOk(l, n) && n in l.histIdx && n !in s
    ensures HistoryOk(Without(l, s), n)
  {
    hide HistoryTxs, MarksOf, Maps.Disjoint;
    forall tx | tx in l.histIdx[n] ensures tx !in HistoryTxs(l, s) {
      var i :| 0 <= i < |l.histIdx[n]| && l.histIdx[n][i] == tx;
      LiveNotDropped(l, s, n, i);
    }
  }

  lemma LiveNotDropped(l: Live, s: set<Name>, n: Name, i: nat)
    requires Maps.Disjoint(l.histIdx) && n in l.histIdx && n !in s && i < |l.histIdx[n]|
    ensures l.histIdx[n][i] !in HistoryTxs(l, s)
  {
  }

  lemma BackedUpApart(d: NameDb, s: set<Name>)
    requires Separate(d.live, d.back)
    ensures Only(d.live, s).history.Keys !! d.back.hist.Keys
    ensures Only(d.live, s).history.Keys !! Maps.Elements(d.back.histIdx)
  {
    hide Maps.Elements, HistoryTxs;
  }

  lemma WithBackupsInv(b: Backups, x: Live, h: Height)
    requires BackInv(b, h - 1) && x.histIdx.Keys == x.names.Keys && [] !in x.names
    ensures BackInv(WithBackups(b, x, h), h)
  {
    hide AtKeys, AtHeight;
  }

  /** The backed-up histories list what they listed before, and the histories of the expired names. */
  lemma ListedWith(b: Backups, x: Live, h: Height)
    ensures Maps.Elements(WithBackups(b, x, h).histIdx) <= Maps.Elements(b.histIdx) + Maps.Elements(x.histIdx)
  {
    hide AtKeys;
    var m := WithBackups(b, x, h).histIdx;
    forall tx | tx in Maps.Elements(m) ensures tx in Maps.Elements(b.histIdx) + Maps.Elements(x.histIdx) {
      var k, i :| k in m && 0 <= i < |m[k]| && m[k][i] == tx;
      if k in AtKeys(h, x.histIdx) {
        assert x.histIdx[k.name][i] in Maps.Elements(x.histIdx);
      } else {
        assert b.histIdx[k][i] in Maps.Elements(b.histIdx);
      }
    }
  }

  lemma WithoutSeparate(d: NameDb, s: set<Name>, h: Height)
    requires Separate(d.live, d.back)
    ensures Separate(Without(d.live, s), WithBackups(d.back, Only(d.live, s), h))
  {
    ListedWith(d.back, Only(d.live, s), h);
    hide Maps.Elements, AtKeys, MarksOf, Maps.Restrict;
  }

  lemma ExpireSetInv(d: NameDb, h: Height)
    requires Inv(d, h - 1)
    ensures Inv(ExpireSet(d, Expired(d.live, h), h), h)
  {
    var s := Expired(d.live, h);
    WithoutLiveInv(d.live, h);
    OnlyIsWhole(d.live, s);
    WithoutSeparate(d, s, h);
    hide LiveInv, BackInv, Only, Without, WithBackups, Separate;
    WithBackupsInv(d.back, Only(d.live, s), h);
  }

  lemma ExpireSetComplete(d: NameDb, s: set<Name>, tip: int, h: Height)
    requires Complete(d) && Inv(d, tip) && tip < h && s <= d.live.names.Keys
    ensures Complete(ExpireSet(d, s, h))
  {
    var x := Only(d.live, s);
    WithoutHistory(d.live, s);
    OnlyIsWhole(d.live, s);
    BackedUpApart(d, s);
    OnlyComplete(d.live, s);
    hide HistoryMatchesNames, LiveInv, Separate, BackInv, Only, Without;
    WithBackupsComplete(d.back, tip, x, h);
  }

  lemma OnlyComplete(l: Live, s: set<Name>)
    requires HistoryMatchesNames(l)
    ensures Maps.Elements(Only(l, s).histIdx) <= Only(l, s).history.Keys && Maps.Disjoint(Only(l, s).histIdx)
  {
    Maps.DisjointPart(l.histIdx, s);
    hide Maps.Disjoint, EndsLive, MarksOf;
    forall tx | tx in HistoryTxs(l, s) ensures tx in l.history {
      ListedOnRecord(l, s, tx);
    }
    hide Maps.Elements;
  }

  lemma ListedOnRecord(l: Live, s: set<Name>, tx: Hash)
    requires HistoryMatchesNames(l) && tx in HistoryTxs(l, s)
    ensures tx in l.history
  {
    hide Maps.Disjoint, HistoryOk;
    var m := Maps.Restrict(l.histIdx, s);
    var n, i :| n in m && 0 <= i < |m[n]| && m[n][i] == tx;
    RecordedAt(l, n, i);
  }

  lemma RecordedAt(l: Live, n: Name, i: nat)
    requires HistoryOk(l, n) && n in l.histIdx && i < |l.histIdx[n]|
    ensures l.histIdx[n][i] in l.history
  {
  }

  lemma WithBackupsComplete(b: Backups, tip: int, x: Live, h: Height)
    requires BackupsComplete(b) && BackInv(b, tip) && tip < h && Whole(x)
    requires Maps.Elements(x.histIdx) <= x.history.Keys && Maps.Disjoint(x.histIdx)
    requires x.history.Keys !! b.hist.Keys
    ensures BackupsComplete(WithBackups(b, x, h))
  {
    hide AtKeys, AtHeight, ExpirationMirror, Maps.Disjoint;
    ListedWith(b, x, h);
    AtKeysDisjoint(h, x.histIdx);
    var added := AtKeys(h, x.histIdx);
    forall k, i | k in added && 0 <= i < |added[k]| ensures added[k][i] in x.history {
      assert x.histIdx[k.name][i] in Maps.Elements(x.histIdx);
    }
    forall k, i | k in b.histIdx && 0 <= i < |b.histIdx[k]| ensures b.histIdx[k][i] in b.hist {
      assert b.histIdx[k][i] in Maps.Elements(b.histIdx);
    }
    hide Maps.Elements;
    Maps.DisjointUnion(b.histIdx, added, b.hist.Keys, x.history.Keys);
  }

  lemma AtKeysDisjoint(h: Height, m: map<Name, seq<Hash>>)
    requires Maps.Disjoint(m)
    ensures Maps.Disjoint(AtKeys(h, m))
  {
  }

  // ----- applying the operations of a block -----

  /** A first update comes at least 12 blocks after its commitment. */
  predicate Timely(l: Live, e: Entry, h: Height) {
    e.op.FirstUpdateOp? && e.op.commit in l.nameNew ==>
      l.nameNew[e.op.commit] + MIN_BLOCKS_BEFORE_FIRST_UPDATE <= h
  }

  predicate AllTimely(l: Live, es: seq<Entry>, h: Height) {
    forall i :: 0 <= i < |es| ==> Timely(l, es[i], h)
  }

  lemma {:induction false} ApplyEntriesLiveInv(x: Live, es: seq<Entry>, h: Height, time: int)
    requires LiveInv(x, h) && Fits(x, es) && AllTimely(x, es, h) && 1 <= h <= MAX_INT32
    ensures LiveInv(ApplyEntries(x, es, h, time), h)
  {
    if es != [] {
      var n := |es| - 1;
      assert AllTimely(x, es[..n], h) by {
        forall i | 0 <= i < n ensures Timely(x, es[..n][i], h) { assert Timely(x, es[i], h); }
      }
      ApplyEntriesLiveInv(x, es[..n], h, time);
      ApplyEntriesShape(x, es[..n], h, time);
      FitsSeparates(x, es[..n]);
      var l := ApplyEntries(x, es[..n], h, time);
      assert Timely(x, es[n], h);
      assert es[n].op.FirstUpdateOp? ==> 1 <= NameNewHeight(l, es[n].op.commit, h) <= h - 12;
      ApplyEntryLiveInv(l, es[n], h, time);
    }
  }

  lemma ApplyEntryLiveInv(l: Live, e: Entry, h: Height, time: int)
    requires LiveInv(l, h) && h <= MAX_INT32
    requires e.op.NewOp? ==> 1 <= h
    requires e.op.Names() ==> e.op.name != []
    requires e.op.FirstUpdateOp? ==> 1 <= NameNewHeight(l, e.op.commit, h) <= h - MIN_BLOCKS_BEFORE_FIRST_UPDATE
    requires e.op.UpdateOp? ==> e.op.name in l.names
    ensures LiveInv(ApplyEntry(l, e, h, time), h)
  {
    hide WriteName, WrittenRecord, Indexed, RecordInv;
    ApplyEntryIndexed(l, e, h, time);
    if e.op.Names() {
      WrittenRecordInv(l, e, h, time);
    }
  }

  lemma WrittenRecordInv(l: Live, e: Entry, h: Height, time: int)
    requires LiveInv(l, h) && h <= MAX_INT32 && e.op.Names()
    requires e.op.FirstUpdateOp? ==> 1 <= NameNewHeight(l, e.op.commit, h) <= h - MIN_BLOCKS_BEFORE_FIRST_UPDATE
    requires e.op.UpdateOp? ==> e.op.name in l.names
    ensures RecordInv(WrittenRecord(l, e, h, time), h)
  {
    hide Indexed;
  }

  lemma ApplyEntriesSeparate(x: Live, b: Backups, es: seq<Entry>, h: Height, time: int)
    requires Indexed(x) && Fits(x, es) && Separate(x, b)
    requires NamedTxs(es) !! b.hist.Keys && NamedTxs(es) !! Maps.Elements(b.histIdx)
    ensures Separate(ApplyEntries(x, es, h, time), b)
  {
    ApplyEntriesShape(x, es, h, time);
    hide Indexed, Fits, ApplyEntries, CommitsFrame, Maps.Elements;
  }
}
