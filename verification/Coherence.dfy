/** When the name cache agrees with the names bucket, and what keeps it so. */
module Coherence {
  import opened Records
  import opened Lru

  /** Every cached record is the stored one. */
  ghost predicate Coherent<K(!new), V(!new)>(m: seq<Item<K, V>>, bucket: map<K, V>) {
    forall i :: 0 <= i < |m| ==> m[i].key in bucket && bucket[m[i].key] == m[i].value
  }

  /** A hit returns what the bucket holds. */
  lemma {:induction false} HitIsStored<K(!new), V(!new)>(m: seq<Item<K, V>>, bucket: map<K, V>, key: K)
    requires Coherent(m, bucket) && Find(m, key).Some?
    ensures key in bucket && Find(m, key) == Some(bucket[key])
  {
    if m[0].key != key {
      HitIsStored(m[1..], bucket, key);
    }
  }

  lemma RemoveCoherent<K(!new), V(!new)>(m: seq<Item<K, V>>, bucket: map<K, V>, key: K)
    requires Coherent(m, bucket) && Distinct(m)
    ensures Coherent(Remove(m, key), bucket)
    ensures Coherent(Remove(m, key), bucket - {key})
    ensures forall i :: 0 <= i < |Remove(m, key)| ==> Remove(m, key)[i].key != key
  {
    Absent(m, key);
    RemoveDistinct(m, key);
    var r := Remove(m, key);
    if key in Keys(m) {
      var i := IndexOf(m, key);
      RemoveAt(m, key, i);
    }
    assert forall j :: 0 <= j < |r| ==> r[j].key in Keys(r);
  }

  lemma GetCoherent<K(!new), V(!new)>(m: seq<Item<K, V>>, bucket: map<K, V>, key: K)
    requires Coherent(m, bucket) && Distinct(m)
    ensures Coherent(AfterGet(m, key), bucket)
  {
    RemoveCoherent(m, bucket, key);
    if Find(m, key).Some? {
      HitIsStored(m, bucket, key);
    }
  }

  lemma PutCoherent<K(!new), V(!new)>(m: seq<Item<K, V>>, bucket: map<K, V>, capacity: nat, key: K, value: V)
    requires Coherent(m, bucket) && Distinct(m)
    ensures Coherent(AfterPut(m, capacity, key, value), bucket[key := value])
  {
    RemoveCoherent(m, bucket, key);
  }

  /** Writing other keys to the bucket leaves a cache without them coherent. */
  lemma WriteBehind<K(!new), V(!new)>(m: seq<Item<K, V>>, bucket: map<K, V>, key: K, value: V)
    requires Coherent(m, bucket) && Distinct(m)
    ensures Coherent(Remove(m, key), bucket[key := value])
  {
    RemoveCoherent(m, bucket, key);
  }
}
