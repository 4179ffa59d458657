/** Expiring names at a height, in closed form, and restoring them. */
module NameExpiry {
  import opened Records
  import opened NameStore
  import opened NameUndo
  import Maps

  /** A map keyed by name, keyed by a fixed height and name instead. */
  function AtKeys<V>(h: Height, m: map<Name, V>): (r: map<HeightName, V>)
    ensures forall k :: k in r <==> k.height == h && k.name in m
    ensures forall k :: k in r ==> r[k] == m[k.name]
  {
    map n | n in m :: HeightName(h, n) := m[n]
  }

  /** The transactions in the histories of the given names. */
  function HistoryTxs(l: Live, names: set<Name>): set<Hash> {
    Maps.Elements(Maps.Restrict(l.histIdx, names))
  }

  function MarksOf(l: Live, names: set<Name>): set<HeightName> {
    set k | k in l.expiration && k.name in names
  }

  /** The live buckets without the given names. */
  function Without(l: Live, names: set<Name>): Live {
    Live(l.names - names, l.expiration - MarksOf(l, names), l.history - HistoryTxs(l, names), l.histIdx - names, l.nameNew)
  }

  lemma FewerListed(l: Live, names: set<Name>)
    ensures Maps.Elements(Without(l, names).histIdx) <= Maps.Elements(l.histIdx)
    ensures HistoryTxs(l, names) <= Maps.Elements(l.histIdx)
  {
    Maps.ElementsPart(l.histIdx, l.histIdx - names);
    Maps.ElementsPart(l.histIdx, Maps.Restrict(l.histIdx, names));
    hide MarksOf, Maps.Elements;
  }

  /** A transaction no history mentions before is mentioned by none afterwards. */
  lemma WithoutHears(l: Live, names: set<Name>)
    ensures forall tx :: Unheard(l, tx) ==> Unheard(Without(l, names), tx)
  {
    FewerListed(l, names);
    hide HistoryTxs, MarksOf, Maps.Elements;
  }

  /** The given names and their history alone. */
  function Only(l: Live, names: set<Name>): Live {
    Live(Maps.Restrict(l.names, names), MarksOf(l, names), Maps.Restrict(l.history, HistoryTxs(l, names)),
         Maps.Restrict(l.histIdx, names), map[])
  }

  /** The backups with the names of x added at height h. */
  function WithBackups(b: Backups, x: Live, h: Height): Backups {
    Backups(b.expired + AtKeys(h, x.names), b.idx + AtHeight(h, x.names.Keys), b.hist + x.history, b.histIdx + AtKeys(h, x.histIdx))
  }

  /** The effect of expiring a set of names at height h. */
  function ExpireSet(d: NameDb, names: set<Name>, h: Height): NameDb {
    NameDb(Without(d.live, names), WithBackups(d.back, Only(d.live, names), h))
  }

  lemma ExpireSetLive(d: NameDb, names: set<Name>, h: Height)
    ensures ExpireSet(d, names, h).live == Without(d.live, names)
  {
  }

  lemma {:induction false} ExpireAllIsExpireSet(d: NameDb, names: seq<Name>, h: Height)
    requires Indexed(d.live)
    requires forall n :: n in names ==> n in d.live.names
    requires forall i, j :: 0 <= i < j < |names| ==> names[i] != names[j]
    ensures ExpireAll(d, names, h) == ExpireSet(d, Maps.Members(names), h)
  {
    hide Indexed, ExpireOne, ExpireSet;
    if names == [] {
      assert Maps.Members(names) == {};
      ExpireNone(d, h);
    } else {
      var k := |names| - 1;
      assert forall n :: n in names[..k] ==> n in names;
      ExpireAllIsExpireSet(d, names[..k], h);
      assert Maps.Members(names) == Maps.Members(names[..k]) + {names[k]};
      assert names[k] !in names[..k] && names[k] in d.live.names;
      ExpireOneMore(d, Maps.Members(names[..k]), names[k], h);
    }
  }

  lemma ExpireNone(d: NameDb, h: Height)
    ensures ExpireSet(d, {}, h) == d
  {
    var l, b := d.live, d.back;
    Maps.RestrictNone(l.names);
    Maps.RestrictNone(l.history);
    Maps.RestrictNone(l.histIdx);
    assert MarksOf(l, {}) == {};
    assert HistoryTxs(l, {}) == {};
    assert Only(l, {}) == Live(map[], {}, map[], map[], map[]);
    assert l.expiration - {} == l.expiration;
    assert Without(l, {}) == l;
    hide HistoryTxs, MarksOf, Without, Only, Maps.Restrict;
    assert AtKeys<Record>(h, map[]) == map[];
    assert AtKeys<seq<Hash>>(h, map[]) == map[];
    assert AtHeight(h, {}) == {};
    hide AtKeys, AtHeight;
    Maps.RestrictNone(b.expired);
    Maps.RestrictNone(b.hist);
    Maps.RestrictNone(b.histIdx);
    assert b.idx + {} == b.idx;
  }

  lemma ExpireOneMore(d: NameDb, s: set<Name>, n: Name, h: Height)
    requires Indexed(d.live) && n in d.live.names && n !in s
    ensures ExpireOne(ExpireSet(d, s, h), n, h) == ExpireSet(d, s + {n}, h)
  {
    var l := d.live;
    hide ExpirationMirror;
    var m, list := HeightName(l.names[n].expiresAt, n), l.histIdx[n];
    var txs := Maps.Members(list);
    assert MarksOf(l, s + {n}) == MarksOf(l, s) + {m};
    Maps.ElementsOneMore(l.histIdx, s, n);
    assert HistoryTxs(l, s + {n}) == HistoryTxs(l, s) + txs;
    ExpireOneMoreLive(d, s, n, h);
    ExpireOneMoreBack(d, s, n, h);
  }

  lemma ExpireOneMoreLive(d: NameDb, s: set<Name>, n: Name, h: Height)
    requires n in d.live.names && n in d.live.histIdx && n !in s
    requires MarksOf(d.live, s + {n}) == MarksOf(d.live, s) + {HeightName(d.live.names[n].expiresAt, n)}
    requires HistoryTxs(d.live, s + {n}) == HistoryTxs(d.live, s) + Maps.Members(d.live.histIdx[n])
    ensures ExpireOne(ExpireSet(d, s, h), n, h).live == ExpireSet(d, s + {n}, h).live
  {
    hide MarksOf, HistoryTxs, WithBackups, StoreExpired;
    var l := d.live;
    Maps.DropMore(l.names, s, {n});
    Maps.DropMore(l.histIdx, s, {n});
    Maps.DropMore(l.history, HistoryTxs(l, s), Maps.Members(l.histIdx[n]));
    assert l.expiration - MarksOf(l, s) - {HeightName(l.names[n].expiresAt, n)} == l.expiration - MarksOf(l, s + {n});
  }

  lemma ExpireOneMoreBack(d: NameDb, s: set<Name>, n: Name, h: Height)
    requires n in d.live.names && n in d.live.histIdx && n !in s && d.live.histIdx[n] != []
    requires HistoryTxs(d.live, s + {n}) == HistoryTxs(d.live, s) + Maps.Members(d.live.histIdx[n])
    ensures ExpireOne(ExpireSet(d, s, h), n, h).back == ExpireSet(d, s + {n}, h).back
  {
    hide MarksOf, HistoryTxs, DeleteName, DeleteHistory;
    var l, b := d.live, d.back;
    Maps.BackUpMore(l.history, b.hist, HistoryTxs(l, s), Maps.Members(l.histIdx[n]));
    AtKeysOneMore(b.expired, l.names, s, n, h);
    AtKeysOneMore(b.histIdx, l.histIdx, s, n, h);
    AtHeightOneMore(l.names, s, n, h);
    Maps.UnionOneMore(b.idx, AtHeight(h, Maps.Restrict(l.names, s).Keys), HeightName(h, n));
    hide AtKeys, AtHeight, Maps.Restrict;
  }

  lemma AtHeightOneMore<V>(m: map<Name, V>, s: set<Name>, n: Name, h: Height)
    requires n in m
    ensures AtHeight(h, Maps.Restrict(m, s + {n}).Keys) == AtHeight(h, Maps.Restrict(m, s).Keys) + {HeightName(h, n)}
  {
    hide AtHeight, Maps.Restrict;
  }

  lemma AtKeysOneMore<V>(b: map<HeightName, V>, m: map<Name, V>, s: set<Name>, n: Name, h: Height)
    requires n in m
    ensures (b + AtKeys(h, Maps.Restrict(m, s)))[HeightName(h, n) := m[n]] == b + AtKeys(h, Maps.Restrict(m, s + {n}))
  {
    hide AtKeys, Maps.Restrict;
  }

  // ----- expired names do not take part in the block -----

  /** The live buckets with the names of x added. */
  function Overlay(l: Live, x: Live): Live {
    Live(l.names + x.names, l.expiration + x.expiration, l.history + x.history, l.histIdx + x.histIdx, l.nameNew)
  }

  /** The given names and their history, with more history records. */
  function OnlyWith(l: Live, s: set<Name>, more: map<Hash, Record>): Live {
    Only(l, s).(history := Only(l, s).history + more)
  }

  lemma OverlayWithout(l: Live, s: set<Name>, more: map<Hash, Record>)
    requires Indexed(l) && s <= l.names.Keys
    ensures Overlay(Without(l, s), OnlyWith(l, s, more)) == l.(history := l.history + more)
  {
    hide HistoryTxs, ExpirationMirror, Maps.Restrict;
    Maps.Reinsert(l.names, s);
    Maps.Reinsert(l.histIdx, s);
    Maps.Reinsert(l.history, HistoryTxs(l, s));
    Maps.Associate(l.history - HistoryTxs(l, s), Maps.Restrict(l.history, HistoryTxs(l, s)), more);
    assert (l.expiration - MarksOf(l, s)) + MarksOf(l, s) == l.expiration;
  }

  lemma ApplyEntryOverlay(l: Live, x: Live, e: Entry, h: Height, time: int)
    requires e.op.Names() ==> e.op.name !in x.names && e.op.name !in x.histIdx && e.tx !in x.history
    requires forall k :: k in x.expiration ==> k.name in x.names
    ensures ApplyEntry(Overlay(l, x), e, h, time) == Overlay(ApplyEntry(l, e, h, time), x)
  {
    if e.op.Names() {
      WriteNameOverlay(l, x, e.tx, e.op.name, WrittenRecord(l, e, h, time));
      hide WriteName, WithoutMark;
      assert WrittenRecord(Overlay(l, x), e, h, time) == WrittenRecord(l, e, h, time);
    }
  }

  lemma WriteNameOverlay(l: Live, x: Live, tx: Hash, name: Name, r: Record)
    requires name !in x.names && name !in x.histIdx && tx !in x.history
    requires forall k :: k in x.expiration ==> k.name in x.names
    ensures WriteName(Overlay(l, x), tx, name, r) == Overlay(WriteName(l, tx, name, r), x)
  {
    hide WriteName;
    var o := Overlay(l, x);
    assert HistoryOf(o, name) == HistoryOf(l, name);
    assert WithoutMark(o, name) == WithoutMark(l, name) + x.expiration;
    hide HistoryOf, WithoutMark;
    Maps.PutUnder(l.names, x.names, name, r);
    Maps.PutUnder(l.history, x.history, tx, r);
    Maps.PutUnder(l.histIdx, x.histIdx, name, HistoryOf(l, name) + [tx]);
    Maps.UnionSwap(WithoutMark(l, name), x.expiration, HeightName(r.expiresAt, name));
  }

  lemma {:induction false} ApplyEntriesOverlay(l: Live, x: Live, es: seq<Entry>, h: Height, time: int)
    requires TouchedNames(es) !! x.names.Keys && TouchedNames(es) !! x.histIdx.Keys && NamedTxs(es) !! x.history.Keys
    requires forall k :: k in x.expiration ==> k.name in x.names
    ensures ApplyEntries(Overlay(l, x), es, h, time) == Overlay(ApplyEntries(l, es, h, time), x)
  {
    hide Overlay;
    if es != [] {
      var n := |es| - 1;
      ApplyEntriesOverlay(l, x, es[..n], h, time);
      ApplyEntryOverlay(ApplyEntries(l, es[..n], h, time), x, es[n], h, time);
    }
  }

  // ----- restoring -----

  /** Names with their marks and history lists, and no history record that is not listed. */
  ghost predicate Whole(x: Live) {
    && x.histIdx.Keys == x.names.Keys
    && x.expiration == ExpirationMirror(x.names)
    && x.history.Keys <= Maps.Elements(x.histIdx)
    && [] !in x.names
  }

  lemma OnlyIsWhole(l: Live, s: set<Name>)
    requires Indexed(l) && s <= l.names.Keys && [] !in l.names
    ensures Whole(Only(l, s))
  {
    MarksMirror(l, s);
    Maps.RestrictAll(l.names, s);
    Maps.RestrictAll(l.histIdx, s);
    assert [] !in s;
    hide Indexed, MarksOf, Maps.Restrict, Maps.Elements, ExpirationMirror;
  }

  lemma MarksMirror(l: Live, s: set<Name>)
    requires l.expiration == ExpirationMirror(l.names)
    ensures MarksOf(l, s) == ExpirationMirror(Maps.Restrict(l.names, s))
  {
    hide ExpirationMirror, Maps.Restrict;
  }

  /**
   Restoring at height h takes out exactly what was backed up at height h, and with it any record
   of an older backup that is also in one of the restored histories.
   */
  lemma RestoreBackedUp(l: Live, b: Backups, x: Live, h: Height)
    requires Whole(x) && BackInv(b, h - 1)
    requires x.history.Keys !! b.hist.Keys
    ensures var txs := Maps.Elements(x.histIdx);
            RestoreExpired(NameDb(l, WithBackups(b, x, h)), h)
            == NameDb(Overlay(l, x.(history := x.history + Maps.Restrict(b.hist, txs))), b.(hist := b.hist - txs))
  {
    var w := WithBackups(b, x, h);
    RestoreSlices(b, x, h);
    Maps.TakeBack(b.hist, x.history, Maps.Elements(x.histIdx));
    DropAtKeys(b.expired, x.names, h);
    DropAtKeys(b.histIdx, x.histIdx, h);
    assert (b.idx + AtHeight(h, x.names.Keys)) - AtHeight(h, x.names.Keys) == b.idx;
    hide Whole, BackInv, Maps.Restrict, AtHeight, AtKeys, ExpirationMirror, Slice, ExpiredAt, Maps.Elements;
  }

  lemma RestoreSlices(b: Backups, x: Live, h: Height)
    requires Whole(x) && BackInv(b, h - 1)
    ensures var w := WithBackups(b, x, h);
            && ExpiredAt(w, h) == x.names.Keys
            && Slice(w.expired, h, x.names.Keys) == x.names
            && Slice(w.histIdx, h, x.names.Keys) == x.histIdx
            && ExpirationMirror(x.names) == x.expiration
  {
    hide AtKeys, AtHeight, ExpirationMirror, Slice, Maps.Elements, ExpiredAt;
    ExpiredBack(b, x, h);
    SliceAdded(b.expired, x.names, h);
    SliceAdded(b.histIdx, x.histIdx, h);
  }

  lemma ExpiredBack(b: Backups, x: Live, h: Height)
    requires Whole(x) && BackInv(b, h - 1)
    ensures ExpiredAt(WithBackups(b, x, h), h) == x.names.Keys
  {
    hide AtKeys, AtHeight, ExpirationMirror, Maps.Elements;
    var w := WithBackups(b, x, h);
    forall n | n in x.names.Keys ensures n in ExpiredAt(w, h) {
      assert HeightName(h, n) in w.idx;
    }
  }

  lemma SliceAdded<V>(b: map<HeightName, V>, m: map<Name, V>, h: Height)
    requires forall k :: k in b ==> k.height < h
    ensures Slice(b + AtKeys(h, m), h, m.Keys) == m
  {
    hide AtKeys, Slice;
  }

  lemma DropAtKeys<V>(b: map<HeightName, V>, m: map<Name, V>, h: Height)
    requires forall k :: k in b ==> k.height < h
    ensures (b + AtKeys(h, m)) - AtHeight(h, m.Keys) == b
  {
    hide AtKeys, AtHeight;
  }

  // ----- pruning -----

  lemma PruneBackedUp(b: Backups, x: Live, h: Height, floor: int)
    requires BackInv(b, h - 1) && floor <= h
    requires x.history.Keys !! Maps.Elements(b.histIdx)
    ensures PruneExpired(WithBackups(b, x, h), floor) == WithBackups(PruneExpired(b, floor), x, h)
  {
    var w := WithBackups(b, x, h);
    var keys := KeysBefore(b, floor);
    KeysBelowBackups(b, x, h, floor);
    ListedUnder(b, keys);
    hide AtKeys, AtHeight, KeysBefore, Maps.Elements, Maps.Restrict, BackInv;
    Maps.DropBelow(b.hist, Maps.Elements(Maps.Restrict(b.histIdx, keys)), x.history);
    Maps.DropBelow(b.expired, keys, AtKeys(h, x.names));
    Maps.DropBelow(b.histIdx, keys, AtKeys(h, x.histIdx));
    Maps.DropBelowSet(b.idx, AtHeight(h, x.names.Keys), keys);
  }

  lemma KeysBelowBackups(b: Backups, x: Live, h: Height, floor: int)
    requires BackInv(b, h - 1) && floor <= h
    ensures var w, keys := WithBackups(b, x, h), KeysBefore(b, floor);
            && KeysBefore(w, floor) == keys
            && Maps.Restrict(w.histIdx, keys) == Maps.Restrict(b.histIdx, keys)
            && keys !! AtHeight(h, x.names.Keys)
            && keys !! AtKeys(h, x.names).Keys && keys !! AtKeys(h, x.histIdx).Keys
  {
    hide AtKeys, AtHeight;
  }

  lemma ListedUnder(b: Backups, keys: set<HeightName>)
    ensures Maps.Elements(Maps.Restrict(b.histIdx, keys)) <= Maps.Elements(b.histIdx)
  {
    Maps.ElementsPart(b.histIdx, Maps.Restrict(b.histIdx, keys));
  }
}
