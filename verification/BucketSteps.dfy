/** One iteration of the restore and cleanup loops, and what a number of iterations adds up to. */
module BucketSteps {
  import opened Records
  import Maps
  import N = NameStore
  import U = UtxoSet

  lemma MembersOneMore<V(!new)>(s: seq<V>, i: nat)
    requires i < |s|
    ensures Maps.Members(s[..i + 1]) == Maps.Members(s[..i]) + {s[i]}
  {
    assert s[..i + 1] == s[..i] + [s[i]];
  }

  lemma PutOver<K, V>(m: map<K, V>, c: map<K, V>, k: K, v: V)
    ensures (m + c)[k := v] == m + c[k := v]
  {
  }

  lemma ElementsPut<K(!new), V(!new)>(m: map<K, seq<V>>, k: K, list: seq<V>)
    requires k !in m
    ensures Maps.Elements(m[k := list]) == Maps.Elements(m) + Maps.Members(list)
  {
    var m' := m[k := list];
    forall v | v in Maps.Elements(m') ensures v in Maps.Elements(m) + Maps.Members(list) {
      var j, i :| j in m' && 0 <= i < |m'[j]| && m'[j][i] == v;
      assert j != k ==> m[j][i] in Maps.Elements(m);
    }
    forall v | v in Maps.Elements(m) ensures v in Maps.Elements(m') {
      var j, i :| j in m && 0 <= i < |m[j]| && m[j][i] == v;
      assert m'[j][i] in Maps.Elements(m');
    }
    forall v | v in list ensures v in Maps.Elements(m') {
      var i :| 0 <= i < |list| && list[i] == v;
      assert m'[k][i] in Maps.Elements(m');
    }
  }

  /** Copying one more value. */
  lemma CopyOne<K, V>(m: map<K, V>, src: map<K, V>, s: set<K>, k: K)
    ensures k in src ==> (m + Maps.Restrict(src, s))[k := src[k]] == m + Maps.Restrict(src, s + {k})
    ensures k !in src ==> Maps.Restrict(src, s) == Maps.Restrict(src, s + {k})
  {
  }

  /** Moving one more value. */
  lemma MoveOne<K, V>(m: map<K, V>, src: map<K, V>, s: set<K>, k: K)
    ensures k in src - s ==> (m + Maps.Restrict(src, s))[k := src[k]] == m + Maps.Restrict(src, s + {k})
    ensures k !in src - s ==> Maps.Restrict(src, s) == Maps.Restrict(src, s + {k}) && src - s == src - (s + {k})
    ensures (src - s) - {k} == src - (s + {k})
  {
  }

  /** No stored list of transactions is empty: an emptied list is deleted instead. */
  ghost predicate NoEmptyLists(d: N.NameDb) {
    && (forall n :: n in d.live.histIdx ==> d.live.histIdx[n] != [])
    && (forall k :: k in d.back.histIdx ==> d.back.histIdx[k] != [])
  }

  // ----- expired names -----

  function ListAt(b: N.Backups, k: HeightName): seq<Hash> {
    if k in b.histIdx then b.histIdx[k] else []
  }

  /** Restoring one expired name. */
  function RestoreOne(d: N.NameDb, k: HeightName): N.NameDb
    requires k in d.back.expired
  {
    var l, b, list := d.live, d.back, ListAt(d.back, k);
    N.NameDb(
      N.Live(
        l.names[k.name := b.expired[k]],
        l.expiration + {HeightName(b.expired[k].expiresAt, k.name)},
        l.history + Maps.Restrict(b.hist, Maps.Members(list)),
        if list == [] then l.histIdx else l.histIdx[k.name := list],
        l.nameNew),
      N.Backups(
        b.expired - {k},
        b.idx - {k},
        b.hist - Maps.Members(list),
        b.histIdx - {k}))
  }

  lemma SliceNone<V>(m: map<HeightName, V>, h: Height)
    ensures N.Slice(m, h, {}) == map[]
    ensures N.AtHeight(h, {}) == {}
  {
  }

  lemma SliceMore<V>(m: map<HeightName, V>, h: Height, s: set<Name>, n: Name)
    ensures HeightName(h, n) in m ==> N.Slice(m, h, s + {n}) == N.Slice(m, h, s)[n := m[HeightName(h, n)]]
    ensures HeightName(h, n) !in m ==> N.Slice(m, h, s + {n}) == N.Slice(m, h, s)
    ensures N.AtHeight(h, s + {n}) == N.AtHeight(h, s) + {HeightName(h, n)}
  {
  }

  lemma MirrorMore(names: map<Name, Record>, n: Name, r: Record)
    requires n !in names
    ensures N.ExpirationMirror(names[n := r]) == N.ExpirationMirror(names) + {HeightName(r.expiresAt, n)}
  {
  }

  lemma RestoreNone(d: N.NameDb, h: Height)
    ensures N.RestoreNames(d, h, {}) == d
  {
    hide N.Slice, N.AtHeight, N.ExpirationMirror, Maps.Elements, Maps.Restrict;
    var l, b := d.live, d.back;
    SliceNone(b.expired, h);
    SliceNone(b.histIdx, h);
    assert N.ExpirationMirror(map[]) == {};
    var none: map<Name, seq<Hash>> := map[];
    assert Maps.Elements(none) == {};
    Maps.RestrictNone(l.names);
    Maps.RestrictNone(b.expired);
    Maps.RestrictNone(b.hist);
    Maps.RestrictNone(b.histIdx);
    Maps.RestrictNone(l.history);
    Maps.RestrictNone(l.histIdx);
    assert l.expiration + {} == l.expiration && b.idx - {} == b.idx;
  }

  /** The history a partial restore has moved, one name further. */
  lemma RestoreStepHistory(d: N.NameDb, h: Height, s: set<Name>, n: Name)
    requires NoEmptyLists(d) && n !in s
    ensures var k := HeightName(h, n);
            var list, lists := ListAt(d.back, k), N.Slice(d.back.histIdx, h, s);
            && N.Slice(d.back.histIdx, h, s + {n}) == (if list == [] then lists else lists[n := list])
            && Maps.Elements(N.Slice(d.back.histIdx, h, s + {n})) == Maps.Elements(lists) + Maps.Members(list)
  {
    var k := HeightName(h, n);
    var lists := N.Slice(d.back.histIdx, h, s);
    SliceMore(d.back.histIdx, h, s, n);
    assert n !in lists;
    hide N.Slice, N.AtHeight, Maps.Elements;
    if k in d.back.histIdx {
      ElementsPut(lists, n, d.back.histIdx[k]);
    } else {
      var none: seq<Hash> := [];
      assert Maps.Elements(lists) + Maps.Members(none) == Maps.Elements(lists);
    }
  }

  lemma RestoreStep(d: N.NameDb, h: Height, s: set<Name>, n: Name)
    requires NoEmptyLists(d)
    requires n !in s && HeightName(h, n) in d.back.expired
    ensures HeightName(h, n) in N.RestoreNames(d, h, s).back.expired
    ensures RestoreOne(N.RestoreNames(d, h, s), HeightName(h, n)) == N.RestoreNames(d, h, s + {n})
  {
    hide N.Slice, N.AtHeight, N.ExpirationMirror, Maps.Elements, Maps.Restrict, Maps.Members, NoEmptyLists;
    var l, b, k := d.live, d.back, HeightName(h, n);
    var list, lists := ListAt(b, k), N.Slice(b.histIdx, h, s);
    var txs, at := Maps.Elements(lists), N.AtHeight(h, s);
    SliceMore(b.expired, h, s, n);
    RestoreStepHistory(d, h, s, n);
    var records := N.Slice(b.expired, h, s);
    assert k !in at && n !in records;
    MirrorMore(records, n, b.expired[k]);
    PutOver(l.names, records, n, b.expired[k]);
    PutOver(l.histIdx, lists, n, list);
    Maps.BackUpMore(b.hist, l.history, txs, Maps.Members(list));
    Maps.DropMore(b.hist, txs, Maps.Members(list));
    Maps.DropMore(b.expired, at, {k});
    Maps.DropMore(b.histIdx, at, {k});
    assert (b.idx - at) - {k} == b.idx - (at + {k});
    assert ListAt(N.RestoreNames(d, h, s).back, k) == list;
    assert (l.expiration + N.ExpirationMirror(records)) + {HeightName(b.expired[k].expiresAt, n)}
        == l.expiration + N.ExpirationMirror(records[n := b.expired[k]]);
  }

  /** Restoring the names of the keys a height scan found. */
  function Restorable(b: N.Backups, keys: seq<HeightName>): (r: set<Name>)
    ensures forall n :: n in r <==> exists k :: k in keys && k in b.expired && k.name != [] && k.name == n
  {
    set k | k in keys && k in b.expired && k.name != [] :: k.name
  }

  /** Dropping one backup. */
  function DropOne(b: N.Backups, k: HeightName): N.Backups {
    N.Backups(b.expired - {k}, b.idx - {k}, b.hist - Maps.Members(ListAt(b, k)), b.histIdx - {k})
  }

  lemma DropKeepsLists(d: N.NameDb, k: HeightName)
    requires NoEmptyLists(d)
    ensures NoEmptyLists(N.NameDb(d.live, DropOne(d.back, k)))
    ensures k in d.back.histIdx ==> d.back.histIdx[k] != []
  {
  }

  lemma StoreByParts(b: N.Backups, history: map<Hash, Record>, list: seq<Hash>, name: Name, r: Record, h: Height)
    ensures var k := HeightName(h, name);
            N.StoreExpired(b, history, list, name, r, h)
            == N.Backups(b.expired[k := r], b.idx + {k},
                         if list == [] then b.hist else b.hist + Maps.Restrict(history, Maps.Members(list)),
                         if list == [] then b.histIdx else b.histIdx[k := list])
  {
    hide Maps.Restrict, Maps.Members;
  }

  lemma StoreKeepsLists(d: N.NameDb, name: Name, r: Record, h: Height)
    requires NoEmptyLists(d)
    ensures NoEmptyLists(N.NameDb(d.live, N.StoreExpired(d.back, d.live.history, N.HistoryOf(d.live, name), name, r, h)))
  {
  }

  lemma DropNone(b: N.Backups)
    ensures N.DropBackups(b, {}) == b
  {
    hide Maps.Elements, Maps.Restrict;
    Maps.RestrictNone(b.histIdx);
    Maps.RestrictNone(b.expired);
    var none: map<HeightName, seq<Hash>> := map[];
    assert Maps.Elements(none) == {};
    Maps.RestrictNone(b.hist);
    assert b.idx - {} == b.idx;
  }

  lemma DropStep(b: N.Backups, s: set<HeightName>, k: HeightName)
    requires k !in s
    ensures DropOne(N.DropBackups(b, s), k) == N.DropBackups(b, s + {k})
  {
    hide Maps.Elements, Maps.Restrict, Maps.Members;
    var list := ListAt(b, k);
    assert ListAt(N.DropBackups(b, s), k) == list;
    var txs := Maps.Elements(Maps.Restrict(b.histIdx, s));
    DropStepHistory(b, s, k);
    Maps.DropMore(b.hist, txs, Maps.Members(list));
    Maps.DropMore(b.expired, s, {k});
    Maps.DropMore(b.histIdx, s, {k});
    assert (b.idx - s) - {k} == b.idx - (s + {k});
  }

  lemma DropStepHistory(b: N.Backups, s: set<HeightName>, k: HeightName)
    ensures Maps.Elements(Maps.Restrict(b.histIdx, s + {k})) == Maps.Elements(Maps.Restrict(b.histIdx, s)) + Maps.Members(ListAt(b, k))
  {
    hide Maps.Elements;
    if k in b.histIdx {
      Maps.ElementsOneMore(b.histIdx, s, k);
    } else {
      var none: seq<Hash> := [];
      CopyOne(map[], b.histIdx, s, k);
      assert Maps.Elements(Maps.Restrict(b.histIdx, s)) + Maps.Members(none) == Maps.Elements(Maps.Restrict(b.histIdx, s));
    }
  }

  // ----- spent outputs -----

  /** The buckets once the given outputs are restored. */
  function PartialRestore(u: U.UtxoDb, h: Height, ops: set<OutPoint>): U.UtxoDb {
    var back := Maps.Restrict(u.spent, ops);
    U.UtxoDb(u.utxo + back, u.addr + U.AddressMirror(back), u.spent - ops, u.spentIdx - U.IndexAt(h, ops))
  }

  /** Restoring one output, if its backup is there. */
  function RestoreOneSpent(u: U.UtxoDb, k: HeightOut): U.UtxoDb {
    var op := k.op;
    if op in u.spent then
      U.UtxoDb(u.utxo[op := u.spent[op]], u.addr + {AddressOut(u.spent[op].address, op)}, u.spent - {op}, u.spentIdx - {k})
    else
      u.(spent := u.spent - {op}, spentIdx := u.spentIdx - {k})
  }

  lemma PartialRestoreNone(u: U.UtxoDb, h: Height)
    ensures PartialRestore(u, h, {}) == u
  {
    hide Maps.Restrict, U.AddressMirror;
    Maps.RestrictNone(u.spent);
    Maps.RestrictNone(u.utxo);
    assert U.AddressMirror(map[]) == {};
    assert u.addr + {} == u.addr && u.spentIdx - U.IndexAt(h, {}) == u.spentIdx;
  }

  lemma AddressMirrorMore(m: map<OutPoint, Utxo>, op: OutPoint, x: Utxo)
    requires op !in m
    ensures U.AddressMirror(m[op := x]) == U.AddressMirror(m) + {AddressOut(x.address, op)}
  {
  }

  lemma RestrictMore<K, V>(m: map<K, V>, s: set<K>, k: K)
    requires k !in s
    ensures k !in Maps.Restrict(m, s)
    ensures k in m ==> Maps.Restrict(m, s + {k}) == Maps.Restrict(m, s)[k := m[k]]
    ensures k !in m ==> Maps.Restrict(m, s + {k}) == Maps.Restrict(m, s)
  {
  }

  lemma PartialRestoreStep(u: U.UtxoDb, h: Height, ops: set<OutPoint>, op: OutPoint)
    requires op !in ops
    ensures RestoreOneSpent(PartialRestore(u, h, ops), HeightOut(h, op)) == PartialRestore(u, h, ops + {op})
  {
    hide Maps.Restrict, U.AddressMirror, U.IndexAt;
    var back := Maps.Restrict(u.spent, ops);
    RestrictMore(u.spent, ops, op);
    Maps.DropMore(u.spent, ops, {op});
    assert (u.spentIdx - U.IndexAt(h, ops)) - {HeightOut(h, op)} == u.spentIdx - U.IndexAt(h, ops + {op});
    if op in u.spent {
      AddressMirrorMore(back, op, u.spent[op]);
      PutOver(u.utxo, back, op, u.spent[op]);
      assert (u.addr + U.AddressMirror(back)) + {AddressOut(u.spent[op].address, op)} == u.addr + U.AddressMirror(back[op := u.spent[op]]);
    }
  }

  lemma PartialRestoreAll(u: U.UtxoDb, h: Height, ops: set<OutPoint>)
    requires ops == U.SpentAt(u, h)
    ensures PartialRestore(u, h, ops) == U.RestoreSpent(u, h)
  {
    assert u.spentIdx - U.IndexAt(h, ops) == set k | k in u.spentIdx && k.height != h;
  }
}
