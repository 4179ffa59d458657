/** What a batch of buffered writes amounts to, compared with the same writes made one by one. */
module BatchSteps {
  import opened Bytes
  import opened Records
  import opened Lru
  import opened Coherence
  import Maps
  import N = NameStore
  import U = UtxoSet

  // ----- names -----

  datatype NameWrite = PutWrite(name: Name, record: Record) | DeleteWrite(name: Name)

  /** The writes made one after the other. */
  function Unbatched(l: N.Live, log: seq<NameWrite>): N.Live {
    if log == [] then l
    else
      var l' := Unbatched(l, log[..|log| - 1]);
      match log[|log| - 1]
      case PutWrite(name, r) => N.PutName(l', name, r)
      case DeleteWrite(name) => N.DeleteName(l', name)
  }

  predicate Mirrored(l: N.Live) {
    l.expiration == N.ExpirationMirror(l.names)
  }

  lemma PutMirrored(l: N.Live, name: Name, r: Record)
    requires Mirrored(l)
    ensures Mirrored(N.PutName(l, name, r))
  {
    var l' := N.PutName(l, name, r);
    forall k ensures k in l'.expiration <==> k in N.ExpirationMirror(l'.names) {
    }
  }

  lemma DeleteMirrored(l: N.Live, name: Name)
    requires Mirrored(l)
    ensures Mirrored(N.DeleteName(l, name))
  {
    var l' := N.DeleteName(l, name);
    forall k ensures k in l'.expiration <==> k in N.ExpirationMirror(l'.names) {
    }
  }

  lemma {:induction false} UnbatchedMirrored(l: N.Live, log: seq<NameWrite>)
    requires Mirrored(l)
    ensures Mirrored(Unbatched(l, log))
  {
    if log != [] {
      hide Mirrored;
      UnbatchedMirrored(l, log[..|log| - 1]);
      var l' := Unbatched(l, log[..|log| - 1]);
      match log[|log| - 1] {
        case PutWrite(name, r) => PutMirrored(l', name, r);
        case DeleteWrite(name) => DeleteMirrored(l', name);
      }
    }
  }

  lemma LoggedLast(l: N.Live, log: seq<NameWrite>, w: NameWrite)
    ensures Unbatched(l, log + [w]).names ==
            if w.PutWrite? then Unbatched(l, log).names[w.name := w.record] else Unbatched(l, log).names - {w.name}
  {
    assert (log + [w])[..|log|] == log;
  }

  /** The names bucket with the buffered puts and deletes in front of it. */
  function Overlay(bucket: map<Name, Record>, puts: map<Name, Record>, deletes: set<Name>): map<Name, Record> {
    (bucket + puts) - deletes
  }

  lemma OverlayPut(bucket: map<Name, Record>, puts: map<Name, Record>, deletes: set<Name>, name: Name, r: Record)
    ensures Overlay(bucket, puts[name := r], deletes - {name}) == Overlay(bucket, puts, deletes)[name := r]
  {
  }

  lemma OverlayDelete(bucket: map<Name, Record>, puts: map<Name, Record>, deletes: set<Name>, name: Name)
    ensures Overlay(bucket, puts - {name}, deletes + {name}) == Overlay(bucket, puts, deletes) - {name}
  {
  }

  /** One more buffered put written: done holds the names already written. */
  lemma WrittenOneMore(bucket: map<Name, Record>, puts: map<Name, Record>, rest: set<Name>, name: Name)
    requires name in rest && rest <= puts.Keys
    ensures (bucket + (puts - rest))[name := puts[name]] == bucket + (puts - (rest - {name}))
  {
  }

  lemma NoneWritten(bucket: map<Name, Record>, puts: map<Name, Record>)
    ensures bucket + (puts - puts.Keys) == bucket
    ensures puts - {} == puts
  {
  }

  lemma DroppedOneMore(bucket: map<Name, Record>, deletes: set<Name>, rest: set<Name>, name: Name)
    requires name in rest && rest <= deletes
    ensures (bucket - (deletes - rest)) - {name} == bucket - (deletes - (rest - {name}))
  {
    assert (deletes - rest) + {name} == deletes - (rest - {name});
    Maps.DropMore(bucket, deletes - rest, {name});
  }

  // ----- the cache while it catches up -----

  /** The cached records agree with the bucket, except perhaps for the given keys. */
  ghost predicate CoherentExcept<K(!new), V(!new)>(m: seq<Item<K, V>>, bucket: map<K, V>, except: set<K>) {
    forall i :: 0 <= i < |m| && m[i].key !in except ==> m[i].key in bucket && bucket[m[i].key] == m[i].value
  }

  lemma CachePut<K(!new), V(!new)>(m: seq<Item<K, V>>, bucket: map<K, V>, except: set<K>, capacity: nat, key: K)
    requires CoherentExcept(m, bucket, except) && Distinct(m) && key in bucket
    ensures CoherentExcept(AfterPut(m, capacity, key, bucket[key]), bucket, except - {key})
  {
    Survivors(m, key);
  }

  lemma CacheDelete<K(!new), V(!new)>(m: seq<Item<K, V>>, bucket: map<K, V>, except: set<K>, key: K)
    requires CoherentExcept(m, bucket, except) && Distinct(m)
    ensures CoherentExcept(Remove(m, key), bucket, except - {key})
  {
    Survivors(m, key);
  }

  lemma MoreExcept<K(!new), V(!new)>(m: seq<Item<K, V>>, bucket: map<K, V>, except: set<K>, more: set<K>)
    requires CoherentExcept(m, bucket, except) && except <= more
    ensures CoherentExcept(m, bucket, more)
  {
  }

  lemma NoneExcept<K(!new), V(!new)>(m: seq<Item<K, V>>, bucket: map<K, V>)
    requires CoherentExcept(m, bucket, {})
    ensures Coherent(m, bucket)
  {
  }

  /** Once the batch is in the bucket, the cache is behind for the names of the batch only. */
  lemma CacheBehind(m: seq<Item<Name, Record>>, bucket: map<Name, Record>, puts: map<Name, Record>, deletes: set<Name>)
    requires Coherent(m, bucket) && puts.Keys !! deletes
    ensures CoherentExcept(m, Overlay(bucket, puts, deletes), puts.Keys + deletes)
    ensures forall n :: n in puts ==> n in Overlay(bucket, puts, deletes) && Overlay(bucket, puts, deletes)[n] == puts[n]
  {
  }

  // ----- outputs -----

  datatype UtxoWrite = AddWrite(op: OutPoint, utxo: Utxo) | RemoveWrite(op: OutPoint)

  function UnbatchedUtxos(u: U.UtxoDb, log: seq<UtxoWrite>): U.UtxoDb {
    if log == [] then u
    else
      var u' := UnbatchedUtxos(u, log[..|log| - 1]);
      match log[|log| - 1]
      case AddWrite(op, x) => U.AddUtxo(u', op, x)
      case RemoveWrite(op) => U.RemoveUtxo(u', op)
  }

  function AddAll(u: U.UtxoDb, adds: seq<(OutPoint, Utxo)>): U.UtxoDb {
    if adds == [] then u else U.AddUtxo(AddAll(u, adds[..|adds| - 1]), adds[|adds| - 1].0, adds[|adds| - 1].1)
  }

  /** A batch writes all its additions before its removals. */
  function Batched(u: U.UtxoDb, adds: seq<(OutPoint, Utxo)>, removes: seq<OutPoint>): U.UtxoDb {
    U.RemoveAll(AddAll(u, adds), removes)
  }

  lemma AddThenRemove(u: U.UtxoDb, op: OutPoint, x: Utxo, other: OutPoint)
    requires op != other
    ensures U.AddUtxo(U.RemoveUtxo(u, other), op, x) == U.RemoveUtxo(U.AddUtxo(u, op, x), other)
  {
    var a, b := U.AddUtxo(U.RemoveUtxo(u, other), op, x), U.RemoveUtxo(U.AddUtxo(u, op, x), other);
    assert a.utxo == b.utxo;
    assert a.addr == b.addr;
  }

  lemma {:induction false} AddBeforeRemoves(u: U.UtxoDb, op: OutPoint, x: Utxo, removes: seq<OutPoint>)
    requires op !in removes
    ensures U.AddUtxo(U.RemoveAll(u, removes), op, x) == U.RemoveAll(U.AddUtxo(u, op, x), removes)
  {
    if removes != [] {
      hide U.AddUtxo, U.RemoveUtxo;
      var n := |removes| - 1;
      AddBeforeRemoves(u, op, x, removes[..n]);
      AddThenRemove(U.RemoveAll(u, removes[..n]), op, x, removes[n]);
    }
  }

  /** An addition can be buffered behind removals of other outputs. */
  lemma BufferAdd(u: U.UtxoDb, adds: seq<(OutPoint, Utxo)>, removes: seq<OutPoint>, op: OutPoint, x: Utxo)
    requires op !in removes
    ensures Batched(u, adds + [(op, x)], removes) == U.AddUtxo(Batched(u, adds, removes), op, x)
  {
    assert (adds + [(op, x)])[..|adds|] == adds;
    AddBeforeRemoves(AddAll(u, adds), op, x, removes);
  }

  lemma BufferRemove(u: U.UtxoDb, adds: seq<(OutPoint, Utxo)>, removes: seq<OutPoint>, op: OutPoint)
    ensures Batched(u, adds, removes + [op]) == U.RemoveUtxo(Batched(u, adds, removes), op)
  {
    assert (removes + [op])[..|removes|] == removes;
  }

  /** No output is added again after it has been removed. */
  ghost predicate NoReAdd(log: seq<UtxoWrite>) {
    forall i, j :: 0 <= i < j < |log| && log[i].RemoveWrite? && log[j].AddWrite? ==> log[i].op != log[j].op
  }

  // ----- exactly when a batch of output writes is faithful -----

  function Adds(log: seq<UtxoWrite>): seq<(OutPoint, Utxo)> {
    if log == [] then []
    else
      var w := log[|log| - 1];
      Adds(log[..|log| - 1]) + if w.AddWrite? then [(w.op, w.utxo)] else []
  }

  function Removes(log: seq<UtxoWrite>): seq<OutPoint> {
    if log == [] then []
    else
      var w := log[|log| - 1];
      Removes(log[..|log| - 1]) + if w.RemoveWrite? then [w.op] else []
  }

  /** The last write to an output is an addition. */
  predicate EndsAdded(log: seq<UtxoWrite>, op: OutPoint) {
    log != [] &&
    var w := log[|log| - 1];
    if w.op == op then w.AddWrite? else EndsAdded(log[..|log| - 1], op)
  }

  /** Some output was removed and then, for good, added again. */
  ghost predicate Revived(log: seq<UtxoWrite>) {
    exists op :: op in Removes(log) && EndsAdded(log, op)
  }

  lemma {:induction false} RemoveAllUtxo(u: U.UtxoDb, removes: seq<OutPoint>)
    ensures U.RemoveAll(u, removes).utxo == u.utxo - Maps.Members(removes)
  {
    if removes == [] {
      assert Maps.Members(removes) == {};
      Maps.RestrictNone(u.utxo);
    } else {
      var n := |removes| - 1;
      RemoveAllUtxo(u, removes[..n]);
      assert removes == removes[..n] + [removes[n]];
      assert Maps.Members(removes) == Maps.Members(removes[..n]) + {removes[n]};
      Maps.DropMore(u.utxo, Maps.Members(removes[..n]), {removes[n]});
    }
  }

  /** The outputs after the additions of a log alone, and after the whole log. */
  lemma {:induction false} WriteEffects(u: U.UtxoDb, log: seq<UtxoWrite>)
    ensures forall op :: op in UnbatchedUtxos(u, log).utxo ==> op in AddAll(u, Adds(log)).utxo
    ensures forall op :: EndsAdded(log, op) ==> op in UnbatchedUtxos(u, log).utxo
    ensures forall op :: op in Removes(log) && !EndsAdded(log, op) ==> op !in UnbatchedUtxos(u, log).utxo
    ensures forall op :: op !in Removes(log) ==>
                           && (op in AddAll(u, Adds(log)).utxo <==> op in UnbatchedUtxos(u, log).utxo)
                           && (op in AddAll(u, Adds(log)).utxo ==> AddAll(u, Adds(log)).utxo[op] == UnbatchedUtxos(u, log).utxo[op])
  {
    if log != [] {
      var n := |log| - 1;
      WriteEffects(u, log[..n]);
      var w := log[n];
      if w.AddWrite? {
        assert Adds(log)[..|Adds(log)| - 1] == Adds(log[..n]);
      } else {
        assert Adds(log) == Adds(log[..n]);
      }
    }
  }

  /**
   Buffering output writes into one batch leaves the outputs that writing them one by one
   leaves exactly when no output ends up added again after a removal: a batch adds first and
   removes afterwards, so such an output is lost.
   */
  lemma BatchedUtxosIff(u: U.UtxoDb, log: seq<UtxoWrite>)
    ensures Batched(u, Adds(log), Removes(log)).utxo == UnbatchedUtxos(u, log).utxo <==> !Revived(log)
  {
    var a, b := Batched(u, Adds(log), Removes(log)).utxo, UnbatchedUtxos(u, log).utxo;
    RemoveAllUtxo(AddAll(u, Adds(log)), Removes(log));
    WriteEffects(u, log);
    hide Adds, Removes, EndsAdded, AddAll, UnbatchedUtxos, U.RemoveAll;
    if Revived(log) {
      var op :| op in Removes(log) && EndsAdded(log, op);
      assert op in b && op !in a;
    } else {
      forall op ensures (op in a <==> op in b) && (op in a ==> a[op] == b[op]) {
        assert op in Removes(log) ==> !EndsAdded(log, op);
      }
    }
  }

  /** The address index mirrors the outputs, and every output has the address that its outpoint determines. */
  ghost predicate Addressed(u: U.UtxoDb, addressOf: OutPoint -> Bytes) {
    && u.addr == U.AddressMirror(u.utxo)
    && forall op :: op in u.utxo ==> u.utxo[op].address == addressOf(op)
  }

  lemma AddAddressed(u: U.UtxoDb, addressOf: OutPoint -> Bytes, op: OutPoint, x: Utxo)
    requires Addressed(u, addressOf) && x.address == addressOf(op)
    ensures Addressed(U.AddUtxo(u, op, x), addressOf)
  {
    hide U.AddressMirror;
    var v := U.AddUtxo(u, op, x);
    assert v.addr == U.AddressMirror(v.utxo);
  }

  lemma RemoveAddressed(u: U.UtxoDb, addressOf: OutPoint -> Bytes, op: OutPoint)
    requires Addressed(u, addressOf)
    ensures Addressed(U.RemoveUtxo(u, op), addressOf)
  {
    hide U.AddressMirror;
    var v := U.RemoveUtxo(u, op);
    assert v.addr == U.AddressMirror(v.utxo);
  }

  lemma {:induction false} RemoveAllAddressed(u: U.UtxoDb, addressOf: OutPoint -> Bytes, removes: seq<OutPoint>)
    requires Addressed(u, addressOf)
    ensures Addressed(U.RemoveAll(u, removes), addressOf)
    ensures U.RemoveAll(u, removes).spent == u.spent && U.RemoveAll(u, removes).spentIdx == u.spentIdx
  {
    hide Addressed;
    if removes != [] {
      RemoveAllAddressed(u, addressOf, removes[..|removes| - 1]);
      RemoveAddressed(U.RemoveAll(u, removes[..|removes| - 1]), addressOf, removes[|removes| - 1]);
    }
  }

  /** Additions alone, and the whole log one by one, keep the address index a mirror. */
  lemma {:induction false} WritesAddressed(u: U.UtxoDb, addressOf: OutPoint -> Bytes, log: seq<UtxoWrite>)
    requires Addressed(u, addressOf)
    requires forall i :: 0 <= i < |log| && log[i].AddWrite? ==> log[i].utxo.address == addressOf(log[i].op)
    ensures Addressed(AddAll(u, Adds(log)), addressOf) && Addressed(UnbatchedUtxos(u, log), addressOf)
    ensures AddAll(u, Adds(log)).spent == u.spent && AddAll(u, Adds(log)).spentIdx == u.spentIdx
    ensures UnbatchedUtxos(u, log).spent == u.spent && UnbatchedUtxos(u, log).spentIdx == u.spentIdx
  {
    hide Addressed;
    if log != [] {
      var n := |log| - 1;
      var w := log[n];
      assert forall i :: 0 <= i < n ==> log[..n][i] == log[i];
      WritesAddressed(u, addressOf, log[..n]);
      if w.AddWrite? {
        assert Adds(log)[..|Adds(log)| - 1] == Adds(log[..n]);
        AddAddressed(AddAll(u, Adds(log[..n])), addressOf, w.op, w.utxo);
        AddAddressed(UnbatchedUtxos(u, log[..n]), addressOf, w.op, w.utxo);
      } else {
        assert Adds(log) == Adds(log[..n]);
        RemoveAddressed(UnbatchedUtxos(u, log[..n]), addressOf, w.op);
      }
    }
  }

  /**
   The same for outputs and address index together.  An output's script, and with it the address,
   is determined by its transaction, so an outpoint never has two addresses.
   */
  lemma BatchedStateIff(u: U.UtxoDb, addressOf: OutPoint -> Bytes, log: seq<UtxoWrite>)
    requires Addressed(u, addressOf)
    requires forall i :: 0 <= i < |log| && log[i].AddWrite? ==> log[i].utxo.address == addressOf(log[i].op)
    ensures Batched(u, Adds(log), Removes(log)) == UnbatchedUtxos(u, log) <==> !Revived(log)
  {
    hide Revived, Adds, Removes, AddAll, UnbatchedUtxos, U.RemoveAll, U.AddressMirror;
    BatchedUtxosIff(u, log);
    WritesAddressed(u, addressOf, log);
    RemoveAllAddressed(AddAll(u, Adds(log)), addressOf, Removes(log));
  }
}
