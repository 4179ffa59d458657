/**
 The batch writer: writes are buffered and committed together, after so many of them or when
 asked.  The class keeps a log of every write it was given, to say that buffering them makes
 no difference.
 */
module BatchWrites {
  import opened Records
  import opened BatchSteps
  import opened NameDatabaseStore
  import BucketSteps
  import Coherence
  import Lru
  import N = NameStore
  import U = UtxoSet

  class BatchWriter {
    const ndb: NameDatabase
    const maxBatchSize: int

    var names: map<Name, Record>
    var deletedNames: set<Name>
    var utxos: seq<(OutPoint, Utxo)>
    var deletedUTXOs: seq<OutPoint>
    var batchSize: nat

    /** The buckets when the writer was made, and every write since. */
    ghost const start: Buckets
    ghost var log: seq<NameWrite>
    ghost var utxoLog: seq<UtxoWrite>

    /** The buffers are disjoint, and with them in front the names bucket is the one the log describes. */
    ghost predicate NamesFaithful()
      reads this, ndb
    {
      && names.Keys !! deletedNames
      && Mirrored(start.live) && Mirrored(ndb.Live())
      && Overlay(ndb.names, names, deletedNames) == Unbatched(start.live, log).names
    }

    /** As long as no output was added again after a removal, the same holds for the outputs. */
    ghost predicate UtxosFaithful()
      reads this, ndb
    {
      && (forall op :: op in deletedUTXOs ==> RemoveWrite(op) in utxoLog)
      && (NoReAdd(utxoLog) ==> Batched(ndb.Utxos(), utxos, deletedUTXOs) == UnbatchedUtxos(start.utxos, utxoLog))
    }

    ghost predicate Valid()
      reads this, ndb, ndb.cache, ndb.cache.Repr
    {
      && this !in ndb.cache.Repr && ndb.Valid()
      && NamesFaithful() && UtxosFaithful()
      && (batchSize == 0 ==> names == map[] && deletedNames == {} && utxos == [] && deletedUTXOs == [])
    }

    /** Nothing is buffered: the buckets are those that the log, write by write, leaves. */
    ghost predicate Settled()
      reads this, ndb
    {
      && batchSize == 0
      && ndb.names == Unbatched(start.live, log).names && ndb.expiration == Unbatched(start.live, log).expiration
      && (NoReAdd(utxoLog) ==> ndb.Utxos() == UnbatchedUtxos(start.utxos, utxoLog))
    }

    constructor (ndb: NameDatabase, maxBatchSize: int)
      requires ndb.Valid() && Mirrored(ndb.Live())
      ensures Valid() && Settled() && this.ndb == ndb && log == [] && utxoLog == []
      ensures this.maxBatchSize == if maxBatchSize < 0 then 100 else maxBatchSize
    {
      this.ndb := ndb;
      this.maxBatchSize := if maxBatchSize < 0 then 100 else maxBatchSize;
      names, deletedNames, utxos, deletedUTXOs, batchSize := map[], {}, [], [], 0;
      start := Buckets(ndb.Live(), ndb.Utxos());
      log, utxoLog := [], [];
    }

    /** One more write makes the batch reach its maximum; a maximum of 0 is never reached. */
    ghost predicate Fills()
      reads this
    {
      maxBatchSize >= 1 && batchSize + 1 >= maxBatchSize
    }

    method PutName(name: Name, record: Record) returns (ok: bool)
      requires Valid()
      modifies this, ndb, ndb.cache.Repr
      ensures Valid() && fresh(ndb.cache.Repr - old(ndb.cache.Repr))
      ensures log == old(log) + [PutWrite(name, record)] && utxoLog == old(utxoLog)
      ensures old(Fills()) && ok ==> Settled()
      ensures !old(Fills()) ==> ok && batchSize == old(batchSize) + 1 && unchanged(ndb)
    {
      hide Overlay, Unbatched, Mirrored, Batched, UnbatchedUtxos, BucketSteps.NoEmptyLists, Coherence.Coherent, Lru.LruCache.Valid;
      OverlayPut(ndb.names, names, deletedNames, name, record);
      LoggedLast(start.live, log, PutWrite(name, record));
      names := names[name := record];
      deletedNames := deletedNames - {name};
      log := log + [PutWrite(name, record)];
      batchSize := batchSize + 1;
      ok := AutoCommitIfNeeded();
    }

    method DeleteName(name: Name) returns (ok: bool)
      requires Valid()
      modifies this, ndb, ndb.cache.Repr
      ensures Valid() && fresh(ndb.cache.Repr - old(ndb.cache.Repr))
      ensures log == old(log) + [DeleteWrite(name)] && utxoLog == old(utxoLog)
      ensures old(Fills()) && ok ==> Settled()
      ensures !old(Fills()) ==> ok && batchSize == old(batchSize) + 1 && unchanged(ndb)
    {
      hide Overlay, Unbatched, Mirrored, Batched, UnbatchedUtxos, BucketSteps.NoEmptyLists, Coherence.Coherent, Lru.LruCache.Valid;
      OverlayDelete(ndb.names, names, deletedNames, name);
      LoggedLast(start.live, log, DeleteWrite(name));
      deletedNames := deletedNames + {name};
      names := names - {name};
      log := log + [DeleteWrite(name)];
      batchSize := batchSize + 1;
      ok := AutoCommitIfNeeded();
    }

    method AddUTXO(op: OutPoint, x: Utxo) returns (ok: bool)
      requires Valid()
      modifies this, ndb, ndb.cache.Repr
      ensures Valid() && fresh(ndb.cache.Repr - old(ndb.cache.Repr))
      ensures utxoLog == old(utxoLog) + [AddWrite(op, x)] && log == old(log)
      ensures old(Fills()) && ok ==> Settled()
      ensures !old(Fills()) ==> ok && batchSize == old(batchSize) + 1 && unchanged(ndb)
    {
      hide Overlay, Unbatched, Mirrored, Batched, UnbatchedUtxos, BucketSteps.NoEmptyLists, Coherence.Coherent, Lru.LruCache.Valid;
      NextAdd(ndb.Utxos(), start.utxos, utxos, deletedUTXOs, utxoLog, op, x);
      utxos := utxos + [(op, x)];
      utxoLog := utxoLog + [AddWrite(op, x)];
      batchSize := batchSize + 1;
      ok := AutoCommitIfNeeded();
    }

    method RemoveUTXO(op: OutPoint) returns (ok: bool)
      requires Valid()
      modifies this, ndb, ndb.cache.Repr
      ensures Valid() && fresh(ndb.cache.Repr - old(ndb.cache.Repr))
      ensures utxoLog == old(utxoLog) + [RemoveWrite(op)] && log == old(log)
      ensures old(Fills()) && ok ==> Settled()
      ensures !old(Fills()) ==> ok && batchSize == old(batchSize) + 1 && unchanged(ndb)
    {
      hide Overlay, Unbatched, Mirrored, Batched, UnbatchedUtxos, BucketSteps.NoEmptyLists, Coherence.Coherent, Lru.LruCache.Valid;
      NextRemove(ndb.Utxos(), start.utxos, utxos, deletedUTXOs, utxoLog, op);
      deletedUTXOs := deletedUTXOs + [op];
      utxoLog := utxoLog + [RemoveWrite(op)];
      batchSize := batchSize + 1;
      ok := AutoCommitIfNeeded();
    }

    /** The batch has reached a maximum; a maximum of 0 is never reached. */
    predicate Full()
      reads this
    {
      maxBatchSize > 0 && batchSize >= maxBatchSize
    }

    /** Commits exactly when the batch is full, and changes nothing otherwise. */
    method AutoCommitIfNeeded() returns (ok: bool)
      requires Valid()
      modifies this, ndb, ndb.cache.Repr
      ensures Valid() && fresh(ndb.cache.Repr - old(ndb.cache.Repr))
      ensures log == old(log) && utxoLog == old(utxoLog)
      ensures old(Full()) && ok ==> Settled()
      ensures !old(Full()) ==> ok && unchanged(this) && unchanged(ndb)
      ensures !ok ==> unchanged(this) && unchanged(ndb)
    {
      ok := true;
      if Full() {
        ok := Commit();
      }
    }

    /**
     Writes everything buffered.  A commit that meets an oversized output changes nothing and
     keeps the batch; any other commit leaves the buckets that the log, write by write, leaves.
     */
    method Commit() returns (ok: bool)
      requires Valid()
      modifies this, ndb, ndb.cache.Repr
      ensures Valid() && fresh(ndb.cache.Repr - old(ndb.cache.Repr))
      ensures log == old(log) && utxoLog == old(utxoLog)
      ensures ok ==> Settled()
      ensures !ok ==> unchanged(this) && unchanged(ndb)
      ensures ok <==> old(batchSize) == 0 || forall i :: 0 <= i < |old(utxos)| ==> Encodable(old(utxos)[i].1)
    {
      hide Unbatched, UnbatchedUtxos, Overlay, Batched, NoReAdd, NameDatabase.Valid;
      UnbatchedMirrored(start.live, log);
      NothingBuffered(ndb.names, ndb.Utxos());
      if batchSize == 0 {
        return true;
      }
      ok := AllEncodable();
      if !ok {
        return;
      }
      Flush();
      Clear();
      NothingBuffered(ndb.names, ndb.Utxos());
    }

    /** The transaction, and then the cache. */
    method Flush()
      requires Valid() && forall i :: 0 <= i < |utxos| ==> Encodable(utxos[i].1)
      modifies ndb, ndb.cache.Repr
      ensures ndb.Valid() && fresh(ndb.cache.Repr - old(ndb.cache.Repr)) && this !in ndb.cache.Repr
      ensures ndb.names == Overlay(old(ndb.names), names, deletedNames) && Mirrored(ndb.Live())
      ensures ndb.Utxos() == Batched(old(ndb.Utxos()), utxos, deletedUTXOs)
    {
      hide Unbatched, UnbatchedUtxos, Overlay, Batched, Lru.LruCache.Valid, Coherence.Coherent, NoReAdd, Mirrored;
      CacheBehind(ndb.cache.Model, ndb.names, names, deletedNames);
      ApplyWrites();
      UpdateCache();
    }

    /** The buffered writes, in the order of the transaction. */
    method ApplyWrites()
      requires Mirrored(ndb.Live())
      requires forall i :: 0 <= i < |utxos| ==> Encodable(utxos[i].1)
      modifies ndb`names, ndb`expiration, ndb`utxo, ndb`utxoAddr
      ensures ndb.names == Overlay(old(ndb.names), names, deletedNames) && Mirrored(ndb.Live())
      ensures ndb.Utxos() == Batched(old(ndb.Utxos()), utxos, deletedUTXOs)
    {
      hide Mirrored, AddAll, U.RemoveAll;
      WriteNames();
      DeleteNames();
      WriteUTXOs();
      DeleteUTXOs();
    }

    method AllEncodable() returns (ok: bool)
      ensures ok <==> forall i :: 0 <= i < |utxos| ==> Encodable(utxos[i].1)
    {
      for i := 0 to |utxos|
        invariant forall j :: 0 <= j < i ==> Encodable(utxos[j].1)
      {
        if !Encodable(utxos[i].1) {
          return false;
        }
      }
      ok := true;
    }

    /** Puts the buffered records, in the order in which the map happens to be iterated. */
    method WriteNames()
      requires Mirrored(ndb.Live())
      modifies ndb`names, ndb`expiration
      ensures ndb.names == old(ndb.names) + names
      ensures Mirrored(ndb.Live())
    {
      hide Mirrored;
      ghost var bucket := ndb.names;
      var rest := names.Keys;
      NoneWritten(bucket, names);
      while rest != {}
        invariant rest <= names.Keys
        invariant ndb.names == bucket + (names - rest)
        invariant Mirrored(ndb.Live())
        decreases |rest|
      {
        var name :| name in rest;
        var record := names[name];
        WrittenOneMore(bucket, names, rest, name);
        PutMirrored(ndb.Live(), name, record);
        ndb.WriteRecord(name, record);
        rest := rest - {name};
      }
    }

    method DeleteNames()
      requires Mirrored(ndb.Live())
      modifies ndb`names, ndb`expiration
      ensures ndb.names == old(ndb.names) - deletedNames
      ensures Mirrored(ndb.Live())
    {
      hide Mirrored;
      ghost var bucket := ndb.names;
      var rest := deletedNames;
      assert bucket - (deletedNames - rest) == bucket;
      while rest != {}
        invariant rest <= deletedNames
        invariant ndb.names == bucket - (deletedNames - rest)
        invariant Mirrored(ndb.Live())
        decreases |rest|
      {
        var name :| name in rest;
        DroppedOneMore(bucket, deletedNames, rest, name);
        DeleteMirrored(ndb.Live(), name);
        ndb.DropRecord(name);
        rest := rest - {name};
      }
      assert deletedNames - {} == deletedNames;
    }

    method WriteUTXOs()
      requires forall i :: 0 <= i < |utxos| ==> Encodable(utxos[i].1)
      modifies ndb`utxo, ndb`utxoAddr
      ensures ndb.Utxos() == AddAll(old(ndb.Utxos()), utxos)
    {
      ghost var u := ndb.Utxos();
      for i := 0 to |utxos|
        invariant ndb.Utxos() == AddAll(u, utxos[..i])
      {
        assert utxos[..i + 1][..i] == utxos[..i];
        ndb.WriteUTXO(utxos[i].0, utxos[i].1);
      }
      assert utxos[..|utxos|] == utxos;
    }

    method DeleteUTXOs()
      modifies ndb`utxo, ndb`utxoAddr
      ensures ndb.Utxos() == U.RemoveAll(old(ndb.Utxos()), deletedUTXOs)
    {
      ghost var u := ndb.Utxos();
      for i := 0 to |deletedUTXOs|
        invariant ndb.Utxos() == U.RemoveAll(u, deletedUTXOs[..i])
      {
        assert deletedUTXOs[..i + 1][..i] == deletedUTXOs[..i];
        ndb.DropUTXO(deletedUTXOs[i]);
      }
      assert deletedUTXOs[..|deletedUTXOs|] == deletedUTXOs;
    }

    /** Brings the cache up to date with the names just written. */
    method UpdateCache()
      requires this !in ndb.cache.Repr && ndb.CacheValid()
      requires CoherentExcept(ndb.cache.Model, ndb.names, names.Keys + deletedNames)
      requires names.Keys !! deletedNames && forall n :: n in names ==> n in ndb.names && ndb.names[n] == names[n]
      modifies ndb.cache.Repr
      ensures this !in ndb.cache.Repr && ndb.CacheValid() && fresh(ndb.cache.Repr - old(ndb.cache.Repr))
      ensures Coherence.Coherent(ndb.cache.Model, ndb.names)
    {
      CachePuts();
      CacheDeletes();
    }

    method CachePuts()
      requires this !in ndb.cache.Repr && ndb.CacheValid()
      requires CoherentExcept(ndb.cache.Model, ndb.names, names.Keys + deletedNames)
      requires forall n :: n in names ==> n in ndb.names && ndb.names[n] == names[n]
      modifies ndb.cache.Repr
      ensures this !in ndb.cache.Repr && ndb.CacheValid() && fresh(ndb.cache.Repr - old(ndb.cache.Repr))
      ensures CoherentExcept(ndb.cache.Model, ndb.names, deletedNames)
    {
      hide CoherentExcept, Lru.AfterPut;
      var rest := names.Keys;
      while rest != {}
        invariant rest <= names.Keys && this !in ndb.cache.Repr && ndb.CacheValid() && fresh(ndb.cache.Repr - old(ndb.cache.Repr))
        invariant CoherentExcept(ndb.cache.Model, ndb.names, rest + deletedNames)
        decreases |rest|
      {
        var name :| name in rest;
        CachePut(ndb.cache.Model, ndb.names, rest + deletedNames, ndb.cache.capacity, name);
        MoreExcept(Lru.AfterPut(ndb.cache.Model, ndb.cache.capacity, name, names[name]), ndb.names,
                   (rest + deletedNames) - {name}, (rest - {name}) + deletedNames);
        var evicted := ndb.cache.Put(name, names[name]);
        rest := rest - {name};
      }
      assert {} + deletedNames == deletedNames;
    }

    method CacheDeletes()
      requires this !in ndb.cache.Repr && ndb.CacheValid()
      requires CoherentExcept(ndb.cache.Model, ndb.names, deletedNames)
      modifies ndb.cache.Repr
      ensures this !in ndb.cache.Repr && ndb.CacheValid() && fresh(ndb.cache.Repr - old(ndb.cache.Repr))
      ensures Coherence.Coherent(ndb.cache.Model, ndb.names)
    {
      hide CoherentExcept, Lru.Remove;
      var rest := deletedNames;
      while rest != {}
        invariant rest <= deletedNames && this !in ndb.cache.Repr && ndb.CacheValid() && fresh(ndb.cache.Repr - old(ndb.cache.Repr))
        invariant CoherentExcept(ndb.cache.Model, ndb.names, rest)
        decreases |rest|
      {
        var name :| name in rest;
        CacheDelete(ndb.cache.Model, ndb.names, rest, name);
        var existed := ndb.cache.Delete(name);
        rest := rest - {name};
      }
      NoneExcept(ndb.cache.Model, ndb.names);
    }

    method Clear()
      modifies `names, `deletedNames, `utxos, `deletedUTXOs, `batchSize
      ensures names == map[] && deletedNames == {} && utxos == [] && deletedUTXOs == [] && batchSize == 0
    {
      names, deletedNames, utxos, deletedUTXOs, batchSize := map[], {}, [], [], 0;
    }
  }

  /** The bucket groups a batch writes to. */
  datatype Buckets = Buckets(live: N.Live, utxos: U.UtxoDb)

  lemma NothingBuffered(bucket: map<Name, Record>, u: U.UtxoDb)
    ensures Overlay(bucket, map[], {}) == bucket
    ensures Batched(u, [], []) == u
  {
  }

  lemma NextAdd(u: U.UtxoDb, start: U.UtxoDb, adds: seq<(OutPoint, Utxo)>, removes: seq<OutPoint>, log: seq<UtxoWrite>, op: OutPoint, x: Utxo)
    requires forall o :: o in removes ==> RemoveWrite(o) in log
    requires NoReAdd(log) ==> Batched(u, adds, removes) == UnbatchedUtxos(start, log)
    ensures forall o :: o in removes ==> RemoveWrite(o) in log + [AddWrite(op, x)]
    ensures NoReAdd(log + [AddWrite(op, x)]) ==> Batched(u, adds + [(op, x)], removes) == UnbatchedUtxos(start, log + [AddWrite(op, x)])
  {
    var log' := log + [AddWrite(op, x)];
    if NoReAdd(log') {
      assert forall i :: 0 <= i < |log| ==> log'[i] == log[i];
      forall i | 0 <= i < |log| && log[i].RemoveWrite? ensures log[i].op != op {
        assert log'[i].op != log'[|log|].op;
      }
      assert RemoveWrite(op) !in log;
      assert log'[..|log|] == log;
      BufferAdd(u, adds, removes, op, x);
      hide Batched;
    }
  }

  lemma NextRemove(u: U.UtxoDb, start: U.UtxoDb, adds: seq<(OutPoint, Utxo)>, removes: seq<OutPoint>, log: seq<UtxoWrite>, op: OutPoint)
    requires forall o :: o in removes ==> RemoveWrite(o) in log
    requires NoReAdd(log) ==> Batched(u, adds, removes) == UnbatchedUtxos(start, log)
    ensures forall o :: o in removes + [op] ==> RemoveWrite(o) in log + [RemoveWrite(op)]
    ensures NoReAdd(log + [RemoveWrite(op)]) ==> Batched(u, adds, removes + [op]) == UnbatchedUtxos(start, log + [RemoveWrite(op)])
  {
    var log' := log + [RemoveWrite(op)];
    assert log'[..|log|] == log;
    if NoReAdd(log') {
      assert forall i :: 0 <= i < |log| ==> log'[i] == log[i];
      BufferRemove(u, adds, removes, op);
      hide Batched;
    }
  }
}
