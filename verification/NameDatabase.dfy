/**
 The name database: its buckets, the cache in front of the names bucket, and the operations
 on them.  NameStore and UtxoSet say what each operation makes of the buckets.
 */
module NameDatabaseStore {
  import opened Bytes
  import opened Records
  import opened Lru
  import opened Coherence
  import opened BucketSteps
  import Cursor
  import Maps
  import Scans
  import N = NameStore
  import U = UtxoSet

  const DEFAULT_CACHE_SIZE: nat := 10000

  datatype NamedRecord = NamedRecord(name: Name, record: Record)

  datatype Unspent = Unspent(op: OutPoint, utxo: Utxo)

  /** The names bucket is keyed by the name itself. */
  function NameKey(name: Name): Bytes {
    name
  }

  class NameDatabase {
    const cache: LruCache<Name, Record>

    var names: map<Name, Record>
    var expiration: set<HeightName>
    var history: map<Hash, Record>
    var historyIndex: map<Name, seq<Hash>>
    var nameNew: map<Bytes, Height>

    var expiredNames: map<HeightName, Record>
    var expiredNamesIdx: set<HeightName>
    var expiredHist: map<Hash, Record>
    var expiredHistIdx: map<HeightName, seq<Hash>>

    var utxo: map<OutPoint, Utxo>
    var utxoAddr: set<AddressOut>
    var spentUtxo: map<OutPoint, Utxo>
    var spentUtxoIdx: set<HeightOut>

    ghost function Live(): N.Live
      reads this
    {
      N.Live(names, expiration, history, historyIndex, nameNew)
    }

    ghost function Back(): N.Backups
      reads this
    {
      N.Backups(expiredNames, expiredNamesIdx, expiredHist, expiredHistIdx)
    }

    ghost function Names(): N.NameDb
      reads this
    {
      N.NameDb(Live(), Back())
    }

    ghost function Utxos(): U.UtxoDb
      reads this
    {
      U.UtxoDb(utxo, utxoAddr, spentUtxo, spentUtxoIdx)
    }

    ghost predicate CacheValid()
      reads this, cache, cache.Repr
    {
      this !in cache.Repr && cache.Valid()
    }

    /** The cache never holds a record the bucket does not. */
    ghost predicate Valid()
      reads this, cache, cache.Repr
    {
      CacheValid() && Coherent(cache.Model, names) && NoEmptyLists(Names())
    }

    constructor (cacheSize: int)
      ensures Valid() && fresh(cache.Repr)
      ensures Names() == N.NameDb(N.Live(map[], {}, map[], map[], map[]), N.Backups(map[], {}, map[], map[]))
      ensures Utxos() == U.UtxoDb(map[], {}, map[], {})
    {
      cache := new LruCache(cacheSize, DEFAULT_CACHE_SIZE);
      names, expiration, history, historyIndex, nameNew := map[], {}, map[], map[], map[];
      expiredNames, expiredNamesIdx, expiredHist, expiredHistIdx := map[], {}, map[], map[];
      utxo, utxoAddr, spentUtxo, spentUtxoIdx := map[], {}, map[], {};
    }

    // ----- names -----

    /** Removes the index entry of the record about to be overwritten or deleted. */
    method DeleteOldExpirationIndex(name: Name)
      modifies `expiration
      ensures expiration == N.WithoutMark(old(Live()), name)
    {
      if name in names {
        expiration := expiration - {HeightName(names[name].expiresAt, name)};
      }
    }

    /** Stores a record and its index entry; the cache is the caller's business. */
    method WriteRecord(name: Name, record: Record)
      modifies `names, `expiration
      ensures Live() == N.PutName(old(Live()), name, record)
    {
      DeleteOldExpirationIndex(name);
      names := names[name := record];
      expiration := expiration + {HeightName(record.expiresAt, name)};
    }

    /** Deletes a record and its index entry; the cache is the caller's business. */
    method DropRecord(name: Name)
      modifies `names, `expiration
      ensures Live() == N.DeleteName(old(Live()), name)
    {
      DeleteOldExpirationIndex(name);
      names := names - {name};
    }

    method PutName(name: Name, record: Record)
      requires Valid()
      modifies `names, `expiration, cache.Repr
      ensures Valid() && fresh(cache.Repr - old(cache.Repr))
      ensures Live() == N.PutName(old(Live()), name, record)
    {
      PutCoherent(cache.Model, names, cache.capacity, name, record);
      hide Coherent;
      WriteRecord(name, record);
      var evicted := cache.Put(name, record);
    }

    /** The stored record, whether the cache answers or the bucket does. */
    method GetName(name: Name) returns (r: Option<Record>)
      requires Valid()
      modifies cache.Repr
      ensures Valid() && fresh(cache.Repr - old(cache.Repr))
      ensures r == if name in names then Some(names[name]) else None
    {
      GetCoherent(cache.Model, names, name);
      if Find(cache.Model, name).Some? { HitIsStored(cache.Model, names, name); }
      hide Coherent;
      r := cache.Get(name);
      if r.None? && name in names {
        r := Some(names[name]);
        PutCoherent(cache.Model, names, cache.capacity, name, names[name]);
        assert names[name := names[name]] == names;
        var evicted := cache.Put(name, names[name]);
      }
    }

    method DeleteName(name: Name)
      requires Valid()
      modifies `names, `expiration, cache.Repr
      ensures Valid() && cache.Repr == old(cache.Repr)
      ensures Live() == N.DeleteName(old(Live()), name)
    {
      RemoveCoherent(cache.Model, names, name);
      hide Coherent;
      DropRecord(name);
      var existed := cache.Delete(name);
    }

    method DeleteHistory(name: Name)
      requires Valid()
      modifies `history, `historyIndex
      ensures Valid()
      ensures Live() == N.DeleteHistory(old(Live()), name)
    {
      if name in historyIndex {
        var list := historyIndex[name];
        for i := 0 to |list|
          invariant history == old(history) - Maps.Members(list[..i])
          invariant historyIndex == old(historyIndex)
        {
          MembersOneMore(list, i);
          Maps.DropMore(old(history), Maps.Members(list[..i]), {list[i]});
          history := history - {list[i]};
        }
        assert list[..|list|] == list;
        historyIndex := historyIndex - {name};
      } else {
        Maps.RestrictNone(history);
        Maps.RestrictNone(historyIndex);
        assert Maps.Members(N.HistoryOf(Live(), name)) == {};
        assert historyIndex - {name} == historyIndex;
      }
    }

    method AddHistory(tx: Hash, name: Name, record: Record)
      requires Valid()
      modifies `history, `historyIndex
      ensures Valid()
      ensures Live() == N.AddHistory(old(Live()), tx, name, record)
    {
      history := history[tx := record];
      var existing := if name in historyIndex then historyIndex[name] else [];
      historyIndex := historyIndex[name := existing + [tx]];
    }

    /** Drops the last history entry of a name and returns the one before it. */
    method RemoveLastHistoryEntry(name: Name) returns (previous: Option<Record>)
      requires Valid()
      modifies `history, `historyIndex
      ensures Valid()
      ensures Live() == N.RemoveLastHistory(old(Live()), name)
      ensures previous == N.PreviousRecord(old(Live()), name)
    {
      previous := None;
      var list := if name in historyIndex then historyIndex[name] else [];
      if list != [] {
        history := history - {list[|list| - 1]};
        var shorter := list[..|list| - 1];
        if shorter == [] {
          historyIndex := historyIndex - {name};
        } else {
          historyIndex := historyIndex[name := shorter];
          var tx := shorter[|shorter| - 1];
          previous := if tx in history then Some(history[tx]) else None;
        }
      }
    }

    /** The recorded history of a name, oldest first; missing records are skipped. */
    method GetHistory(name: Name) returns (r: seq<Record>)
      requires Valid()
      ensures r == HistoryRecords(history, N.HistoryOf(Live(), name))
    {
      r := [];
      var list := if name in historyIndex then historyIndex[name] else [];
      for i := 0 to |list|
        invariant r == HistoryRecords(history, list[..i])
      {
        assert list[..i + 1][..i] == list[..i];
        if list[i] in history {
          r := r + [history[list[i]]];
        }
      }
      assert list[..|list|] == list;
    }

    // ----- NAME_NEW commitments -----

    /** Refused when the commitment is already stored, or is no legal key. */
    method PutNameNew(commit: Bytes, height: Height) returns (ok: bool)
      requires Valid()
      modifies `nameNew
      ensures Valid()
      ensures ok <==> N.LegalKey(commit) && commit !in old(nameNew)
      ensures nameNew == if ok then old(nameNew)[commit := height] else old(nameNew)
    {
      ok := commit !in nameNew && N.LegalKey(commit);
      if ok {
        nameNew := nameNew[commit := height];
      }
    }

    method RestoreNameNew(commit: Bytes, height: Height)
      requires Valid()
      modifies `nameNew
      ensures Valid()
      ensures nameNew == old(nameNew)[commit := height]
    {
      nameNew := nameNew[commit := height];
    }

    method GetNameNew(commit: Bytes) returns (r: Option<Height>)
      ensures r == if commit in nameNew then Some(nameNew[commit]) else None
    {
      r := if commit in nameNew then Some(nameNew[commit]) else None;
    }

    method DeleteNameNew(commit: Bytes)
      requires Valid()
      modifies `nameNew
      ensures Valid()
      ensures nameNew == old(nameNew) - {commit}
    {
      nameNew := nameNew - {commit};
    }

    // ----- expiring and restoring names -----

    /** Walks the expiration index from its first key and stops at the first unexpired one. */
    method GetExpiredNames(height: Height) returns (expired: seq<Name>)
      ensures expired == Cursor.GetExpiredNames(expiration, height)
    {
      var keys := Cursor.HeightOrder(expiration);
      hide Cursor.HeightOrder, Cursor.Ordered;
      expired := [];
      var i := 0;
      while i < |keys|
        invariant i <= |keys|
        invariant Cursor.ScanExpired(keys, height) == expired + Cursor.ScanExpired(keys[i..], height)
      {
        if keys[i].height >= height {
          break;
        }
        assert keys[i..][1..] == keys[i + 1..];
        expired := expired + [keys[i].name];
        i := i + 1;
      }
    }

    /** Copies the history records of a list into the backup. */
    method CopyHistoryRecords(list: seq<Hash>)
      modifies `expiredHist
      ensures expiredHist == old(expiredHist) + Maps.Restrict(history, Maps.Members(list))
    {
      Maps.RestrictNone(history);
      Maps.RestrictNone(expiredHist);
      hide Maps.Restrict, Maps.Members;
      assert Maps.Members(list[..0]) == {};
      for i := 0 to |list|
        invariant expiredHist == old(expiredHist) + Maps.Restrict(history, Maps.Members(list[..i]))
      {
        MembersOneMore(list, i);
        CopyOne(old(expiredHist), history, Maps.Members(list[..i]), list[i]);
        if list[i] in history {
          expiredHist := expiredHist[list[i] := history[list[i]]];
        }
      }
      assert list[..|list|] == list;
    }

    /** Backs up an expired record with the history its name still has. */
    method StoreExpiredName(name: Name, record: Record, height: Height)
      requires Valid()
      modifies `expiredNames, `expiredNamesIdx, `expiredHist, `expiredHistIdx
      ensures Valid()
      ensures Back() == N.StoreExpired(old(Back()), history, N.HistoryOf(Live(), name), name, record, height)
    {
      hide Coherent, Lru.LruCache.Valid, Maps.Restrict, Maps.Members, NoEmptyLists;
      hide N.StoreExpired;
      StoreKeepsLists(Names(), name, record, height);
      StoreByParts(Back(), history, N.HistoryOf(Live(), name), name, record, height);
      var key := HeightName(height, name);
      expiredNames := expiredNames[key := record];
      expiredNamesIdx := expiredNamesIdx + {key};
      var list := if name in historyIndex then historyIndex[name] else [];
      if list != [] {
        expiredHistIdx := expiredHistIdx[key := list];
        CopyHistoryRecords(list);
      }
    }

    /** Moves the history records of a list from the backup to the live bucket. */
    method MoveHistoryRecords(list: seq<Hash>)
      modifies `history, `expiredHist
      ensures history == old(history) + Maps.Restrict(old(expiredHist), Maps.Members(list))
      ensures expiredHist == old(expiredHist) - Maps.Members(list)
    {
      Maps.RestrictNone(history);
      Maps.RestrictNone(expiredHist);
      hide Maps.Restrict, Maps.Members;
      assert Maps.Members(list[..0]) == {};
      for i := 0 to |list|
        invariant history == old(history) + Maps.Restrict(old(expiredHist), Maps.Members(list[..i]))
        invariant expiredHist == old(expiredHist) - Maps.Members(list[..i])
      {
        MembersOneMore(list, i);
        MoveOne(old(history), old(expiredHist), Maps.Members(list[..i]), list[i]);
        if list[i] in expiredHist {
          history := history[list[i] := expiredHist[list[i]]];
          expiredHist := expiredHist - {list[i]};
        }
      }
      assert list[..|list|] == list;
    }

    /** Moves the history of one expired name back. */
    method RestoreExpiredHistory(key: HeightName)
      requires key in expiredHistIdx ==> expiredHistIdx[key] != []
      modifies `history, `historyIndex, `expiredHist, `expiredHistIdx
      ensures var list := ListAt(old(Back()), key);
              && history == old(history) + Maps.Restrict(old(expiredHist), Maps.Members(list))
              && expiredHist == old(expiredHist) - Maps.Members(list)
              && historyIndex == (if list == [] then old(historyIndex) else old(historyIndex)[key.name := list])
      ensures expiredHistIdx == old(expiredHistIdx) - {key}
    {
      hide Maps.Restrict, Maps.Members;
      var list := if key in expiredHistIdx then expiredHistIdx[key] else [];
      if list == [] {
        NothingToMove(history, expiredHist);
        assert expiredHistIdx == expiredHistIdx - {key};
      } else {
        historyIndex := historyIndex[key.name := list];
        MoveHistoryRecords(list);
        expiredHistIdx := expiredHistIdx - {key};
      }
    }

    /** Moves one expired name and its history back to the live buckets. */
    method RestoreBuckets(key: HeightName)
      requires key in expiredNames && NoEmptyLists(Names())
      modifies `names, `expiration, `history, `historyIndex
      modifies `expiredNames, `expiredNamesIdx, `expiredHist, `expiredHistIdx
      ensures Names() == RestoreOne(old(Names()), key) && NoEmptyLists(Names())
      ensures names == old(names)[key.name := old(expiredNames)[key]]
    {
      hide Maps.Restrict, Maps.Members;
      names := names[key.name := expiredNames[key]];
      expiration := expiration + {HeightName(expiredNames[key].expiresAt, key.name)};
      RestoreExpiredHistory(key);
      expiredNames := expiredNames - {key};
      expiredNamesIdx := expiredNamesIdx - {key};
    }

    /** Restores one expired name and forgets what the cache holds of it. */
    method RestoreExpiredName(key: HeightName)
      requires Valid() && key in expiredNames
      modifies `names, `expiration, `history, `historyIndex
      modifies `expiredNames, `expiredNamesIdx, `expiredHist, `expiredHistIdx, cache.Repr
      ensures Valid() && cache.Repr == old(cache.Repr)
      ensures Names() == RestoreOne(old(Names()), key)
    {
      WriteBehind(cache.Model, names, key.name, expiredNames[key]);
      hide Coherent, RestoreOne, NoEmptyLists, Remove;
      RestoreBuckets(key);
      var existed := cache.Delete(key.name);
    }

    method RestoreExpiredNamesForBlock(height: Height)
      requires Valid()
      modifies `names, `expiration, `history, `historyIndex
      modifies `expiredNames, `expiredNamesIdx, `expiredHist, `expiredHistIdx, cache.Repr
      ensures Valid() && cache.Repr == old(cache.Repr)
      ensures Names() == N.RestoreExpired(old(Names()), height)
    {
      var keys := Scans.CollectKeysForHeight(expiredNamesIdx, height);
      ghost var d := Names();
      RestoreNone(d, height);
      hide N.RestoreNames, RestoreOne, Coherent, Restorable;
      assert Restorable(d.back, keys[..0]) == {};
      for i := 0 to |keys|
        invariant Valid() && cache.Repr == old(cache.Repr)
        invariant Names() == N.RestoreNames(d, height, Restorable(d.back, keys[..i]))
      {
        KeyToRestore(d, height, keys, i);
        if keys[i] in expiredNames && keys[i].name != [] {
          RestoreExpiredName(keys[i]);
        }
      }
      assert keys[..|keys|] == keys;
      RestorableAll(d.back, keys, height);
    }

    /** Drops the backed-up history records of a list. */
    method DropHistoryRecords(list: seq<Hash>)
      modifies `expiredHist
      ensures expiredHist == old(expiredHist) - Maps.Members(list)
    {
      hide Maps.Members;
      NothingToMove(expiredHist, expiredHist);
      assert list[..0] == [];
      for i := 0 to |list|
        invariant expiredHist == old(expiredHist) - Maps.Members(list[..i])
      {
        MembersOneMore(list, i);
        Maps.DropMore(old(expiredHist), Maps.Members(list[..i]), {list[i]});
        expiredHist := expiredHist - {list[i]};
      }
      assert list[..|list|] == list;
    }

    /** Drops one backup of an expired name and its history. */
    method DropExpiredName(key: HeightName)
      requires Valid()
      modifies `expiredNames, `expiredNamesIdx, `expiredHist, `expiredHistIdx
      ensures Valid()
      ensures Back() == DropOne(old(Back()), key)
    {
      hide Coherent, Lru.LruCache.Valid, Maps.Members, NoEmptyLists;
      DropKeepsLists(Names(), key);
      var list := if key in expiredHistIdx then expiredHistIdx[key] else [];
      DropHistoryRecords(list);
      if list != [] {
        expiredHistIdx := expiredHistIdx - {key};
      } else {
        assert expiredHistIdx == expiredHistIdx - {key};
      }
      expiredNames := expiredNames - {key};
      expiredNamesIdx := expiredNamesIdx - {key};
    }

    method CleanupOldExpiredNames(floor: int)
      requires Valid()
      modifies `expiredNames, `expiredNamesIdx, `expiredHist, `expiredHistIdx
      ensures Valid()
      ensures Back() == N.PruneExpired(old(Back()), floor)
    {
      var keys := Scans.CollectKeysBeforeHeight(expiredNamesIdx, floor);
      ghost var b := Back();
      DropNone(b);
      for i := 0 to |keys|
        invariant Valid()
        invariant Back() == N.DropBackups(b, Maps.Members(keys[..i]))
      {
        hide N.DropBackups;
        MembersOneMore(keys, i);
        DropStepAgain(b, Maps.Members(keys[..i]), keys[i]);
        DropExpiredName(keys[i]);
      }
      assert keys[..|keys|] == keys;
    }

    // ----- unspent outputs -----

    method WriteUTXO(op: OutPoint, x: Utxo)
      modifies `utxo, `utxoAddr
      ensures Utxos() == U.AddUtxo(old(Utxos()), op, x)
    {
      utxo := utxo[op := x];
      utxoAddr := utxoAddr + {AddressOut(x.address, op)};
    }

    method DropUTXO(op: OutPoint)
      modifies `utxo, `utxoAddr
      ensures Utxos() == U.RemoveUtxo(old(Utxos()), op)
    {
      if op in utxo {
        utxoAddr := utxoAddr - {AddressOut(utxo[op].address, op)};
        utxo := utxo - {op};
      }
    }

    /** Refused when the output is too large to encode. */
    method AddUTXO(op: OutPoint, x: Utxo) returns (ok: bool)
      requires Valid()
      modifies `utxo, `utxoAddr
      ensures Valid()
      ensures ok <==> Encodable(x)
      ensures Utxos() == if ok then U.AddUtxo(old(Utxos()), op, x) else old(Utxos())
    {
      ok := Encodable(x);
      if ok {
        WriteUTXO(op, x);
      }
    }

    method RemoveUTXO(op: OutPoint)
      requires Valid()
      modifies `utxo, `utxoAddr
      ensures Valid()
      ensures Utxos() == U.RemoveUtxo(old(Utxos()), op)
    {
      DropUTXO(op);
    }

    method GetUTXO(op: OutPoint) returns (r: Option<Utxo>)
      ensures r == if op in utxo then Some(utxo[op]) else None
    {
      r := if op in utxo then Some(utxo[op]) else None;
    }

    method StoreSpentUTXO(op: OutPoint, x: Utxo, height: Height) returns (ok: bool)
      requires Valid()
      modifies `spentUtxo, `spentUtxoIdx
      ensures Valid()
      ensures ok <==> Encodable(x)
      ensures Utxos() == if ok then U.StoreSpent(old(Utxos()), op, x, height) else old(Utxos())
    {
      ok := Encodable(x);
      if ok {
        spentUtxo := spentUtxo[op := x];
        spentUtxoIdx := spentUtxoIdx + {HeightOut(height, op)};
      }
    }

    method RestoreSpentUTXO(key: HeightOut)
      requires Valid()
      modifies `utxo, `utxoAddr, `spentUtxo, `spentUtxoIdx
      ensures Valid()
      ensures Utxos() == RestoreOneSpent(old(Utxos()), key)
    {
      if key.op in spentUtxo {
        utxo := utxo[key.op := spentUtxo[key.op]];
        utxoAddr := utxoAddr + {AddressOut(spentUtxo[key.op].address, key.op)};
      }
      spentUtxo := spentUtxo - {key.op};
      spentUtxoIdx := spentUtxoIdx - {key};
    }

    method RestoreSpentUTXOsForBlock(height: Height)
      requires Valid()
      modifies `utxo, `utxoAddr, `spentUtxo, `spentUtxoIdx
      ensures Valid()
      ensures Utxos() == U.RestoreSpent(old(Utxos()), height)
    {
      var keys := Scans.CollectSpentKeysForHeight(spentUtxoIdx, height);
      ghost var u := Utxos();
      PartialRestoreNone(u, height);
      for i := 0 to |keys|
        invariant Valid()
        invariant Utxos() == PartialRestore(u, height, OutPointsOf(keys[..i]))
      {
        hide PartialRestore, RestoreOneSpent;
        SpentKeyToRestore(u, height, keys, i);
        RestoreSpentUTXO(keys[i]);
      }
      assert keys[..|keys|] == keys;
      assert OutPointsOf(keys) == U.SpentAt(u, height) by {
        assert forall k :: k in keys <==> k in Maps.Members(keys);
      }
      PartialRestoreAll(u, height, OutPointsOf(keys));
    }

    /** A page of the names with a prefix; nothing for a count that is not positive. */
    method ScanNames(prefix: Bytes, count: int) returns (r: seq<NamedRecord>)
      ensures if count <= 0 then r == [] else FirstWithPrefix(names, prefix, count, r)
    {
      hide Cursor.Ordered, FirstWithPrefix, Scans.Matching, Scans.HasPrefix, LexLe;
      r := [];
      if count > 0 {
        NameKeyInjective();
        var ks := Cursor.Ordered(names.Keys, NameKey);
        var found := Scans.PrefixScan(ks, NameKey, prefix, count);
        assert forall i :: 0 <= i < |found| ==> found[i] in Maps.Members(ks);
        r := LoadNames(found);
        PageOfScan(names, prefix, count, ks, Scans.Matching(ks, NameKey, prefix), r);
      }
    }

    method LoadNames(found: seq<Name>) returns (r: seq<NamedRecord>)
      requires forall i :: 0 <= i < |found| ==> found[i] in names
      ensures |r| == |found|
      ensures forall i :: 0 <= i < |r| ==> r[i] == NamedRecord(found[i], names[found[i]])
    {
      r := [];
      for i := 0 to |found|
        invariant |r| == i
        invariant forall j :: 0 <= j < i ==> r[j] == NamedRecord(found[j], names[found[j]])
      {
        r := r + [NamedRecord(found[i], names[found[i]])];
      }
    }

    /**
     The outputs of an address: scan the index for the address as a prefix, and skip the keys
     whose length shows that they belong to a longer address.
     */
    method GetUTXOsForAddress(address: Bytes) returns (r: Option<seq<Unspent>>)
      ensures r.None? <==> address == []
      ensures r.Some? && utxoAddr == U.AddressMirror(utxo) ==> AllOutputsOf(utxo, address, r.value)
    {
      if address == [] {
        return None;
      }
      Scans.AddressKeyInjective();
      var keys := Scans.CollectPrefix(utxoAddr, Scans.AddressKey, address);
      forall k: AddressOut { Scans.AddressKeyMatches(k, address); }
      hide Scans.AddressKey, Scans.HasPrefix, AllOutputsOf;
      var found := [];
      for i := 0 to |keys|
        invariant found == Indexed(utxo, keys[..i], address)
      {
        assert keys[..i + 1][..i] == keys[..i];
        assert keys[i] in Maps.Members(keys);
        if |Scans.AddressKey(keys[i])| == |address| + HASH_SIZE + 4 && keys[i].op in utxo {
          found := found + [Unspent(keys[i].op, utxo[keys[i].op])];
        }
      }
      assert keys[..|keys|] == keys;
      assert forall k :: k in keys <==> k in Maps.Members(keys);
      if utxoAddr == U.AddressMirror(utxo) {
        LookupIsExact(U.UtxoDb(utxo, utxoAddr, spentUtxo, spentUtxoIdx), keys, address);
      }
      r := Some(found);
    }

    method CleanupOldSpentUTXOs(floor: int)
      requires Valid()
      modifies `spentUtxo, `spentUtxoIdx
      ensures Valid()
      ensures Utxos() == U.PruneSpent(old(Utxos()), floor)
    {
      var keys := Scans.CollectSpentKeysBeforeHeight(spentUtxoIdx, floor);
      ghost var u := Utxos();
      for i := 0 to |keys|
        invariant spentUtxo == u.spent - OutPointsOf(keys[..i])
        invariant spentUtxoIdx == u.spentIdx - Maps.Members(keys[..i])
      {
        MembersOneMore(keys, i);
        assert keys[..i + 1] == keys[..i] + [keys[i]];
        assert OutPointsOf(keys[..i + 1]) == OutPointsOf(keys[..i]) + {keys[i].op};
        Maps.DropMore(u.spent, OutPointsOf(keys[..i]), {keys[i].op});
        spentUtxo := spentUtxo - {keys[i].op};
        spentUtxoIdx := spentUtxoIdx - {keys[i]};
      }
      assert keys[..|keys|] == keys;
      DroppedKeys(u, keys, floor);
    }
  }

  // ----- queries -----

  /**
   r is a page of the names with the prefix: the first count of them in byte order, or all
   of them when there are fewer.
   */
  ghost predicate FirstWithPrefix(names: map<Name, Record>, prefix: Bytes, count: int, r: seq<NamedRecord>) {
    && |r| <= count
    && (forall i :: 0 <= i < |r| ==> r[i].name in names && Scans.HasPrefix(r[i].name, prefix) && r[i].record == names[r[i].name])
    && (forall i, j :: 0 <= i < j < |r| ==> r[i].name != r[j].name && LexLe(r[i].name, r[j].name))
    && (forall n :: n in names && Scans.HasPrefix(n, prefix) ==> Listed(r, n) || (|r| == count && AfterAll(r, n)))
  }

  ghost predicate Listed(r: seq<NamedRecord>, n: Name) {
    exists i :: 0 <= i < |r| && r[i].name == n
  }

  ghost predicate AfterAll(r: seq<NamedRecord>, n: Name) {
    forall i :: 0 <= i < |r| ==> LexLe(r[i].name, n)
  }

  lemma NameKeyInjective()
    ensures Cursor.Injective(NameKey)
  {
    assert forall a, b :: NameKey(a) == NameKey(b) ==> a == b;
  }

  /** The first keys of a prefix scan are a page. */
  lemma PageOfScan(names: map<Name, Record>, prefix: Bytes, count: nat, ks: seq<Name>, all: seq<Name>, r: seq<NamedRecord>)
    requires Maps.Members(ks) == names.Keys && Scans.InOrder(ks, NameKey)
    requires all == Scans.Matching(ks, NameKey, prefix)
    requires |r| == if |all| <= count then |all| else count
    requires forall i :: 0 <= i < |r| ==> r[i].name == all[i] && all[i] in names && r[i].record == names[all[i]]
    ensures FirstWithPrefix(names, prefix, count, r)
  {
    hide Scans.Matching, LexLe, Scans.HasPrefix;
    Scans.MatchingMembers(ks, NameKey, prefix);
    Scans.MatchingOrdered(ks, NameKey, prefix);
    assert forall i :: 0 <= i < |all| ==> NameKey(all[i]) == all[i];
    forall n | n in names && Scans.HasPrefix(n, prefix) ensures Listed(r, n) || (|r| == count && AfterAll(r, n)) {
      assert n in Maps.Members(ks) && NameKey(n) == n;
      assert n in Maps.Members(all);
      var i :| 0 <= i < |all| && all[i] == n;
      if i < |r| {
        assert r[i].name == n;
      }
    }
  }

  /** Every live output of one address, each once. */
  ghost predicate AllOutputsOf(utxo: map<OutPoint, Utxo>, address: Bytes, r: seq<Unspent>) {
    && (forall i :: 0 <= i < |r| ==> r[i].op in utxo && r[i].utxo == utxo[r[i].op] && r[i].utxo.address == address)
    && (forall i, j :: 0 <= i < j < |r| ==> r[i].op != r[j].op)
    && (forall op :: op in utxo && utxo[op].address == address ==> exists i :: 0 <= i < |r| && r[i].op == op)
  }

  /** The outputs a list of index keys refers to, leaving out keys of other addresses. */
  function Indexed(utxo: map<OutPoint, Utxo>, keys: seq<AddressOut>, address: Bytes): seq<Unspent> {
    if keys == [] then []
    else
      var r := Indexed(utxo, keys[..|keys| - 1], address);
      var k := keys[|keys| - 1];
      if k.address == address && k.op in utxo then r + [Unspent(k.op, utxo[k.op])] else r
  }

  ghost predicate IndexedBy(utxo: map<OutPoint, Utxo>, keys: seq<AddressOut>, address: Bytes, r: seq<Unspent>) {
    && (forall i :: 0 <= i < |r| ==> r[i].op in utxo && r[i].utxo == utxo[r[i].op] && AddressOut(address, r[i].op) in keys)
    && (forall i, j :: 0 <= i < j < |r| ==> r[i].op != r[j].op)
    && (forall k :: k in keys && k.address == address && k.op in utxo ==> exists i :: 0 <= i < |r| && r[i].op == k.op)
  }

  lemma {:induction false} IndexedOutputs(utxo: map<OutPoint, Utxo>, keys: seq<AddressOut>, address: Bytes)
    requires forall i, j :: 0 <= i < j < |keys| ==> keys[i] != keys[j]
    ensures IndexedBy(utxo, keys, address, Indexed(utxo, keys, address))
  {
    if keys != [] {
      var n := |keys| - 1;
      assert forall i :: 0 <= i < n ==> keys[..n][i] == keys[i];
      IndexedOutputs(utxo, keys[..n], address);
      assert keys == keys[..n] + [keys[n]] && keys[n] !in keys[..n];
      IndexedOneMore(utxo, keys[..n], address, Indexed(utxo, keys[..n], address), keys[n]);
    }
  }

  lemma IndexedOneMore(utxo: map<OutPoint, Utxo>, keys: seq<AddressOut>, address: Bytes, r: seq<Unspent>, k: AddressOut)
    requires IndexedBy(utxo, keys, address, r) && k !in keys
    ensures IndexedBy(utxo, keys + [k], address, if k.address == address && k.op in utxo then r + [Unspent(k.op, utxo[k.op])] else r)
  {
    if k.address == address && k.op in utxo {
      var r' := r + [Unspent(k.op, utxo[k.op])];
      assert k == AddressOut(address, k.op);
      forall k' | k' in keys + [k] && k'.address == address && k'.op in utxo ensures exists i :: 0 <= i < |r'| && r'[i].op == k'.op {
        FoundOneMore(utxo, keys, address, r, k, k');
      }
    }
  }

  lemma FoundOneMore(utxo: map<OutPoint, Utxo>, keys: seq<AddressOut>, address: Bytes, r: seq<Unspent>, k: AddressOut, k': AddressOut)
    requires k.op in utxo && k' in keys + [k] && k'.address == address && k'.op in utxo
    requires k' in keys ==> exists i :: 0 <= i < |r| && r[i].op == k'.op
    ensures var r' := r + [Unspent(k.op, utxo[k.op])]; exists i :: 0 <= i < |r'| && r'[i].op == k'.op
  {
    var r' := r + [Unspent(k.op, utxo[k.op])];
    if k' == k {
      assert r'[|r|].op == k'.op;
    } else {
      var i :| 0 <= i < |r| && r[i].op == k'.op;
      assert r'[i].op == k'.op;
    }
  }

  /** With an address index that mirrors the outputs, the lookup is exact. */
  lemma LookupIsExact(u: U.UtxoDb, keys: seq<AddressOut>, address: Bytes)
    requires u.addr == U.AddressMirror(u.utxo)
    requires forall i, j :: 0 <= i < j < |keys| ==> keys[i] != keys[j]
    requires forall k :: k in keys ==> k in u.addr
    requires forall k :: k in u.addr && k.address == address ==> k in keys
    ensures AllOutputsOf(u.utxo, address, Indexed(u.utxo, keys, address))
  {
    var r := Indexed(u.utxo, keys, address);
    IndexedOutputs(u.utxo, keys, address);
    hide Indexed;
    forall i | 0 <= i < |r| ensures r[i].utxo.address == address {
      assert AddressOut(address, r[i].op) in u.addr;
    }
    forall op | op in u.utxo && u.utxo[op].address == address ensures exists i :: 0 <= i < |r| && r[i].op == op {
      assert AddressOut(address, op) in u.addr;
    }
  }

  /** The records of a list of transactions, in its order; missing ones are skipped. */
  function HistoryRecords(history: map<Hash, Record>, list: seq<Hash>): seq<Record> {
    if list == [] then []
    else
      var r := HistoryRecords(history, list[..|list| - 1]);
      var tx := list[|list| - 1];
      if tx in history then r + [history[tx]] else r
  }

  lemma {:induction false} AllRecorded(history: map<Hash, Record>, list: seq<Hash>)
    requires forall i :: 0 <= i < |list| ==> list[i] in history
    ensures var r := HistoryRecords(history, list); |r| == |list| && forall i :: 0 <= i < |r| ==> r[i] == history[list[i]]
  {
    if list != [] {
      assert forall i :: 0 <= i < |list| - 1 ==> list[..|list| - 1][i] == list[i];
      AllRecorded(history, list[..|list| - 1]);
    }
  }

  /** While histories are complete, a name's history skips nothing, keeps its order and ends with its live record. */
  lemma HistoryEndsLive(l: N.Live, name: Name)
    requires N.HistoryMatchesNames(l) && name in l.names
    ensures var r, list := HistoryRecords(l.history, N.HistoryOf(l, name)), N.HistoryOf(l, name);
            && |r| == |list| > 0 && r[|r| - 1] == l.names[name]
            && forall i :: 0 <= i < |r| ==> list[i] in l.history && r[i] == l.history[list[i]]
  {
    assert N.HistoryOk(l, name);
    AllRecorded(l.history, l.histIdx[name]);
  }

  // ----- the loops, one key further -----

  lemma NothingToMove(history: map<Hash, Record>, backup: map<Hash, Record>)
    ensures var none: seq<Hash> := [];
            && history + Maps.Restrict(backup, Maps.Members(none)) == history
            && backup - Maps.Members(none) == backup
  {
    var none: seq<Hash> := [];
    assert Maps.Members(none) == {};
  }

  lemma KeyToRestore(d: N.NameDb, h: Height, keys: seq<HeightName>, i: nat)
    requires NoEmptyLists(d) && i < |keys|
    requires forall j, k :: 0 <= j < k < |keys| ==> keys[j] != keys[k]
    requires forall j :: 0 <= j < |keys| ==> keys[j].height == h
    ensures var s, k := Restorable(d.back, keys[..i]), keys[i];
            var done := N.RestoreNames(d, h, s);
            && (k in done.back.expired <==> k in d.back.expired)
            && Restorable(d.back, keys[..i + 1]) == (if k in d.back.expired && k.name != [] then s + {k.name} else s)
            && (k in d.back.expired && k.name != [] ==> RestoreOne(done, k) == N.RestoreNames(d, h, s + {k.name}))
  {
    hide N.Slice, N.ExpirationMirror, Maps.Elements, Maps.Restrict, Maps.Members, NoEmptyLists, RestoreOne;
    var s, k := Restorable(d.back, keys[..i]), keys[i];
    RestorableOneMore(d.back, h, keys, i);
    assert k == HeightName(h, k.name);
    if k in d.back.expired && k.name != [] {
      RestoreStep(d, h, s, k.name);
    }
  }

  lemma RestorableOneMore(b: N.Backups, h: Height, keys: seq<HeightName>, i: nat)
    requires i < |keys|
    requires forall j, k :: 0 <= j < k < |keys| ==> keys[j] != keys[k]
    requires forall j :: 0 <= j < |keys| ==> keys[j].height == h
    ensures keys[i].name !in Restorable(b, keys[..i])
    ensures Restorable(b, keys[..i + 1]) ==
            if keys[i] in b.expired && keys[i].name != [] then Restorable(b, keys[..i]) + {keys[i].name} else Restorable(b, keys[..i])
  {
    assert keys[..i + 1] == keys[..i] + [keys[i]];
    assert forall j :: 0 <= j < i ==> keys[..i][j] == keys[j] && keys[j].name != keys[i].name;
  }

  lemma RestorableAll(b: N.Backups, keys: seq<HeightName>, h: Height)
    requires Maps.Members(keys) == set k | k in b.idx && k.height == h
    ensures Restorable(b, keys) == N.ExpiredAt(b, h)
  {
    assert forall k :: k in keys <==> k in Maps.Members(keys);
  }

  lemma DropStepAgain(b: N.Backups, s: set<HeightName>, k: HeightName)
    ensures DropOne(N.DropBackups(b, s), k) == N.DropBackups(b, s + {k})
  {
    if k in s {
      var d := N.DropBackups(b, s);
      assert s + {k} == s;
      var none: seq<Hash> := [];
      assert ListAt(d, k) == none && Maps.Members(none) == {};
      hide Maps.Elements, Maps.Restrict;
      assert d.expired - {k} == d.expired && d.idx - {k} == d.idx && d.histIdx - {k} == d.histIdx && d.hist - {} == d.hist;
    } else {
      DropStep(b, s, k);
    }
  }

  function OutPointsOf(keys: seq<HeightOut>): (r: set<OutPoint>)
    ensures forall op :: op in r <==> exists k :: k in keys && k.op == op
  {
    set k | k in keys :: k.op
  }

  lemma SpentKeyToRestore(u: U.UtxoDb, h: Height, keys: seq<HeightOut>, i: nat)
    requires i < |keys|
    requires forall j, k :: 0 <= j < k < |keys| ==> keys[j] != keys[k]
    requires forall j :: 0 <= j < |keys| ==> keys[j].height == h
    ensures RestoreOneSpent(PartialRestore(u, h, OutPointsOf(keys[..i])), keys[i]) == PartialRestore(u, h, OutPointsOf(keys[..i + 1]))
  {
    hide PartialRestore, RestoreOneSpent;
    var s, k := OutPointsOf(keys[..i]), keys[i];
    assert keys[..i + 1] == keys[..i] + [k];
    assert OutPointsOf(keys[..i + 1]) == s + {k.op};
    assert forall j :: 0 <= j < i ==> keys[..i][j] == keys[j] && keys[j].op != k.op;
    assert k.op !in s;
    PartialRestoreStep(u, h, s, k.op);
    assert k == HeightOut(h, k.op);
  }

  lemma DroppedKeys(u: U.UtxoDb, keys: seq<HeightOut>, floor: int)
    requires Maps.Members(keys) == set k | k in u.spentIdx && k.height < floor
    ensures OutPointsOf(keys) == U.SpentBefore(u, floor)
    ensures u.spentIdx - Maps.Members(keys) == set k | k in u.spentIdx && k.height >= floor
  {
    assert forall k :: k in keys <==> k in Maps.Members(keys);
  }
}
