/** Prefix scans over ordered buckets: seek the prefix, then walk while it matches. */
module Scans {
  import opened Bytes
  import opened Records
  import opened Cursor
  import Maps

  predicate HasPrefix(k: Bytes, p: Bytes) {
    |p| <= |k| && k[..|p|] == p
  }

  lemma {:induction false} PrefixIsLess(k: Bytes, p: Bytes)
    requires HasPrefix(k, p)
    ensures LexLe(p, k)
  {
    if p != [] {
      assert k[0] == k[..|p|][0] == p[0] && k[1..][..|p| - 1] == k[..|p|][1..];
      PrefixIsLess(k[1..], p[1..]);
    }
  }

  /** Between a prefix and a key that has it, in byte order, lie only keys that have it. */
  lemma {:induction false} PrefixContiguous(p: Bytes, a: Bytes, b: Bytes)
    requires LexLe(p, a) && LexLe(a, b) && HasPrefix(b, p)
    ensures HasPrefix(a, p)
  {
    if p != [] {
      assert b[0] == b[..|p|][0] == p[0] && b[1..][..|p| - 1] == b[..|p|][1..];
      assert a[0] == p[0];
      PrefixContiguous(p[1..], a[1..], b[1..]);
      assert a[..|p|] == [a[0]] + a[1..][..|p| - 1];
    }
  }

  /** The keys with the prefix, in bucket order. */
  function Matching<K>(ks: seq<K>, key: K -> Bytes, p: Bytes): (r: seq<K>)
    ensures forall i :: 0 <= i < |r| ==> r[i] in ks && HasPrefix(key(r[i]), p)
  {
    if ks == [] then []
    else
      var rest := Matching(ks[..|ks| - 1], key, p);
      var k := ks[|ks| - 1];
      if HasPrefix(key(k), p) then rest + [k] else rest
  }

  lemma {:induction false} MatchingMembers<K(!new)>(ks: seq<K>, key: K -> Bytes, p: Bytes)
    ensures Maps.Members(Matching(ks, key, p)) == (set k | k in ks && HasPrefix(key(k), p))
  {
    if ks != [] {
      var n := |ks| - 1;
      MatchingMembers(ks[..n], key, p);
      assert ks == ks[..n] + [ks[n]];
    }
  }

  lemma {:induction false} MatchingNone<K>(ks: seq<K>, key: K -> Bytes, p: Bytes)
    requires forall i :: 0 <= i < |ks| ==> !HasPrefix(key(ks[i]), p)
    ensures Matching(ks, key, p) == []
  {
    if ks != [] {
      MatchingNone(ks[..|ks| - 1], key, p);
    }
  }

  ghost predicate Sorted<K>(ks: seq<K>, key: K -> Bytes) {
    forall i, j :: 0 <= i < j < |ks| ==> LexLe(key(ks[i]), key(ks[j]))
  }

  /** A walk that stopped at a key past the prefix has missed nothing. */
  lemma {:induction false} NothingAfter<K>(ks: seq<K>, key: K -> Bytes, p: Bytes, i: nat)
    requires Sorted(ks, key) && i < |ks|
    requires LexLe(p, key(ks[i])) && !HasPrefix(key(ks[i]), p)
    ensures forall j :: i <= j < |ks| ==> !HasPrefix(key(ks[j]), p)
  {
    forall j | i < j < |ks| ensures !HasPrefix(key(ks[j]), p) {
      if HasPrefix(key(ks[j]), p) {
        PrefixContiguous(p, key(ks[i]), key(ks[j]));
      }
    }
  }

  lemma {:induction false} MatchingTail<K>(ks: seq<K>, key: K -> Bytes, p: Bytes, i: nat)
    requires i <= |ks|
    requires forall j :: i <= j < |ks| ==> !HasPrefix(key(ks[j]), p)
    ensures Matching(ks[..i], key, p) == Matching(ks, key, p)
    decreases |ks| - i
  {
    if i == |ks| {
      assert ks[..i] == ks;
    } else {
      assert ks[..i + 1][..i] == ks[..i];
      MatchingTail(ks, key, p, i + 1);
    }
  }

  /**
   The cursor loop of every prefix scan: Seek to the first key at or after the prefix, then
   collect while the prefix matches and at most limit keys are collected.  It returns the
   first keys of the bucket that have the prefix, and no other.
   */
  method PrefixScan<K>(ks: seq<K>, key: K -> Bytes, p: Bytes, limit: nat) returns (r: seq<K>)
    requires Sorted(ks, key)
    ensures var all := Matching(ks, key, p); r == if |all| <= limit then all else all[..limit]
  {
    hide LexLe, HasPrefix, Matching;
    var i := 0;
    while i < |ks| && !LexLe(p, key(ks[i]))
      invariant i <= |ks|
      invariant forall j :: 0 <= j < i ==> !HasPrefix(key(ks[j]), p)
    {
      if HasPrefix(key(ks[i]), p) { PrefixIsLess(key(ks[i]), p); }
      i := i + 1;
    }
    r := [];
    assert forall j :: 0 <= j < i ==> ks[..i][j] == ks[j];
    MatchingNone(ks[..i], key, p);
    ghost var start := i;
    while i < |ks|
      invariant start <= i <= |ks|
      invariant i < |ks| ==> LexLe(p, key(ks[i]))
      invariant r == Matching(ks[..i], key, p) && |r| <= limit
    {
      if !HasPrefix(key(ks[i]), p) {
        NothingAfter(ks, key, p, i);
        break;
      }
      if |r| >= limit {
        break;
      }
      MatchingNext(ks, key, p, i);
      r := r + [ks[i]];
      if i + 1 < |ks| { LexTransitive(p, key(ks[i]), key(ks[i + 1])); }
      i := i + 1;
    }
    ScanStopped(ks, key, p, limit, i, r);
  }

  lemma MatchingNext<K>(ks: seq<K>, key: K -> Bytes, p: Bytes, i: nat)
    requires i < |ks|
    ensures Matching(ks[..i + 1], key, p) == Matching(ks[..i], key, p) + if HasPrefix(key(ks[i]), p) then [ks[i]] else []
  {
    assert ks[..i + 1][..i] == ks[..i];
  }

  lemma ScanStopped<K>(ks: seq<K>, key: K -> Bytes, p: Bytes, limit: nat, i: nat, r: seq<K>)
    requires i <= |ks| && r == Matching(ks[..i], key, p) && |r| <= limit
    requires (forall j :: i <= j < |ks| ==> !HasPrefix(key(ks[j]), p)) || (i < |ks| && HasPrefix(key(ks[i]), p) && |r| == limit)
    ensures var all := Matching(ks, key, p); r == if |all| <= limit then all else all[..limit]
  {
    if forall j :: i <= j < |ks| ==> !HasPrefix(key(ks[j]), p) {
      MatchingTail(ks, key, p, i);
    } else {
      MatchingGrows(ks, key, p, i + 1);
      assert ks[..i + 1][..i] == ks[..i];
    }
  }

  lemma {:induction false} MatchingGrows<K>(ks: seq<K>, key: K -> Bytes, p: Bytes, i: nat)
    requires i <= |ks|
    ensures Matching(ks[..i], key, p) <= Matching(ks, key, p)
    decreases |ks| - i
  {
    if i == |ks| {
      assert ks[..i] == ks;
    } else {
      assert ks[..i + 1][..i] == ks[..i];
      MatchingGrows(ks, key, p, i + 1);
    }
  }

  // ----- height-prefixed indexes -----

  function HeightPrefix(h: Height): Bytes {
    BigEndian(ToUint32(h), 4)
  }

  /** A key starts with the four bytes of h exactly when its height is h. */
  /** Four bytes tell heights apart. */
  lemma SameHeightBytes(a: Height, b: Height)
    ensures BigEndian(ToUint32(a), 4) == BigEndian(ToUint32(b), 4) <==> a == b
  {
    hide BigEndian, FromBigEndian, Pow256, ToUint32;
    FourBytes();
    BigEndianRoundTrip(ToUint32(a), 4);
    BigEndianRoundTrip(ToUint32(b), 4);
    SameUint32(a, b);
  }

  lemma SameUint32(a: Height, b: Height)
    ensures ToUint32(a) == ToUint32(b) <==> a == b
  {
    assert ToUint32(a) == if a < 0 then a + TWO_32 else a;
    assert ToUint32(b) == if b < 0 then b + TWO_32 else b;
  }

  lemma HeightPrefixMatches(k: HeightName, h: Height)
    ensures HasPrefix(HeightNameKey(k), HeightPrefix(h)) <==> k.height == h
  {
    hide BigEndian, ToUint32;
    SameHeightBytes(k.height, h);
    assert HeightNameKey(k)[..4] == BigEndian(ToUint32(k.height), 4);
  }

  // ----- UTXO keys -----

  function OutPointKey(op: OutPoint): (r: Bytes)
    ensures |r| == HASH_SIZE + 4
  {
    op.tx + BigEndian(op.index, 4)
  }

  lemma OutPointKeyInjective(a: OutPoint, b: OutPoint)
    requires OutPointKey(a) == OutPointKey(b)
    ensures a == b
  {
    FourBytes();
    BigEndianRoundTrip(a.index, 4);
    BigEndianRoundTrip(b.index, 4);
    hide BigEndian, FromBigEndian, Pow256;
    assert OutPointKey(a)[..HASH_SIZE] == a.tx && OutPointKey(b)[..HASH_SIZE] == b.tx;
    assert OutPointKey(a)[HASH_SIZE..] == BigEndian(a.index, 4) && OutPointKey(b)[HASH_SIZE..] == BigEndian(b.index, 4);
  }

  function HeightOutKey(k: HeightOut): Bytes {
    BigEndian(ToUint32(k.height), 4) + OutPointKey(k.op)
  }

  /** A key starts with the four bytes of h exactly when its height is h. */
  lemma HeightOutPrefix(k: HeightOut, h: Height)
    ensures HasPrefix(HeightOutKey(k), HeightPrefix(h)) <==> k.height == h
    ensures HeightOutKey(k)[4..] == OutPointKey(k.op)
  {
    hide BigEndian, ToUint32, OutPointKey;
    SameHeightBytes(k.height, h);
    assert HeightOutKey(k)[..4] == BigEndian(ToUint32(k.height), 4);
  }

  lemma HeightOutKeyInjective()
    ensures Injective(HeightOutKey)
  {
    forall a, b | HeightOutKey(a) == HeightOutKey(b) ensures a == b {
      HeightOutPrefix(a, a.height);
      HeightOutPrefix(b, a.height);
      OutPointKeyInjective(a.op, b.op);
    }
  }

  /** Address-index key: the address, of any length, and then the fixed-size outpoint. */
  function AddressKey(k: AddressOut): Bytes {
    k.address + OutPointKey(k.op)
  }

  /** The length test of the lookup tells an address from its extensions. */
  lemma AddressKeyMatches(k: AddressOut, address: Bytes)
    ensures HasPrefix(AddressKey(k), address) && |AddressKey(k)| == |address| + HASH_SIZE + 4 <==> k.address == address
    ensures AddressKey(k)[|k.address|..] == OutPointKey(k.op)
  {
    hide OutPointKey;
    assert AddressKey(k)[..|k.address|] == k.address;
  }

  lemma AddressKeyInjective()
    ensures Injective(AddressKey)
  {
    forall a, b | AddressKey(a) == AddressKey(b) ensures a == b {
      AddressKeyMatches(a, a.address);
      AddressKeyMatches(b, a.address);
      OutPointKeyInjective(a.op, b.op);
    }
  }

  /** Without the length test an address would also find the outputs of addresses it is a prefix of. */
  lemma PrefixAloneIsNotEnough(address: Bytes, op: OutPoint)
    ensures var longer := AddressOut(address + [0], op); HasPrefix(AddressKey(longer), address) && longer.address != address
  {
    var longer := AddressOut(address + [0], op);
    assert AddressKey(longer)[..|address|] == address;
    assert |address + [0]| == |address| + 1;
  }

  // ----- collecting the keys of a scan -----

  /** Every key of the bucket with the prefix, in bucket order. */
  method CollectPrefix<K(==,!new)>(bucket: set<K>, key: K -> Bytes, p: Bytes) returns (r: seq<K>)
    requires Injective(key)
    ensures Maps.Members(r) == set k | k in bucket && HasPrefix(key(k), p)
    ensures InOrder(r, key)
  {
    var ks := Ordered(bucket, key);
    MatchingMembers(ks, key, p);
    MatchingOrdered(ks, key, p);
    MatchingShorter(ks, key, p);
    assert (set k | k in ks && HasPrefix(key(k), p)) == set k | k in Maps.Members(ks) && HasPrefix(key(k), p);
    r := PrefixScan(ks, key, p, |ks|);
  }

  lemma {:induction false} MatchingShorter<K>(ks: seq<K>, key: K -> Bytes, p: Bytes)
    ensures |Matching(ks, key, p)| <= |ks|
  {
    if ks != [] {
      MatchingShorter(ks[..|ks| - 1], key, p);
    }
  }

  /** The keys are all different and in byte order. */
  ghost predicate InOrder<K(!new)>(ks: seq<K>, key: K -> Bytes) {
    forall i, j :: 0 <= i < j < |ks| ==> ks[i] != ks[j] && LexLe(key(ks[i]), key(ks[j]))
  }

  lemma {:induction false} MatchingOrdered<K(!new)>(ks: seq<K>, key: K -> Bytes, p: Bytes)
    requires InOrder(ks, key)
    ensures InOrder(Matching(ks, key, p), key)
  {
    if ks != [] {
      hide LexLe, HasPrefix, InOrder;
      var n := |ks| - 1;
      ShorterInOrder(ks, key);
      MatchingOrdered(ks[..n], key, p);
      LastInOrder(ks, key, Matching(ks[..n], key, p));
    }
  }

  lemma ShorterInOrder<K(!new)>(ks: seq<K>, key: K -> Bytes)
    requires InOrder(ks, key) && ks != []
    ensures InOrder(ks[..|ks| - 1], key)
  {
    hide LexLe;
    assert forall i :: 0 <= i < |ks| - 1 ==> ks[..|ks| - 1][i] == ks[i];
  }

  /** The last key comes after keys chosen from those before it. */
  lemma LastInOrder<K(!new)>(ks: seq<K>, key: K -> Bytes, r: seq<K>)
    requires InOrder(ks, key) && ks != [] && InOrder(r, key) && forall i :: 0 <= i < |r| ==> r[i] in ks[..|ks| - 1]
    ensures InOrder(r + [ks[|ks| - 1]], key)
  {
    hide LexLe;
    var n := |ks| - 1;
    forall i | 0 <= i < |r| ensures r[i] != ks[n] && LexLe(key(r[i]), key(ks[n])) {
      var j :| 0 <= j < n && ks[..n][j] == r[i];
      assert ks[j] == r[i];
    }
  }

  method CollectKeysForHeight(idx: set<HeightName>, h: Height) returns (keys: seq<HeightName>)
    ensures Maps.Members(keys) == set k | k in idx && k.height == h
    ensures forall i, j :: 0 <= i < j < |keys| ==> keys[i] != keys[j]
    ensures forall i :: 0 <= i < |keys| ==> keys[i].height == h
  {
    HeightNameKeyInjective();
    forall k: HeightName { HeightPrefixMatches(k, h); }
    hide HasPrefix, HeightNameKey;
    keys := CollectPrefix(idx, HeightNameKey, HeightPrefix(h));
    assert forall i :: 0 <= i < |keys| ==> keys[i] in Maps.Members(keys);
    assert forall k :: k in idx ==> (HasPrefix(HeightNameKey(k), HeightPrefix(h)) <==> k.height == h);
  }

  method CollectSpentKeysForHeight(idx: set<HeightOut>, h: Height) returns (keys: seq<HeightOut>)
    ensures Maps.Members(keys) == set k | k in idx && k.height == h
    ensures forall i, j :: 0 <= i < j < |keys| ==> keys[i] != keys[j]
    ensures forall i :: 0 <= i < |keys| ==> keys[i].height == h
  {
    HeightOutKeyInjective();
    forall k: HeightOut { HeightOutPrefix(k, h); }
    hide HasPrefix, HeightOutKey;
    keys := CollectPrefix(idx, HeightOutKey, HeightPrefix(h));
    assert forall i :: 0 <= i < |keys| ==> keys[i] in Maps.Members(keys);
    assert forall k :: k in idx ==> (HasPrefix(HeightOutKey(k), HeightPrefix(h)) <==> k.height == h);
  }

  /** The keys below a height; the loop walks the whole bucket. */
  method CollectBelow<K(==,!new)>(ks: seq<K>, height: K -> int, floor: int) returns (keys: seq<K>)
    ensures Maps.Members(keys) == set k | k in ks && height(k) < floor
  {
    keys := [];
    for i := 0 to |ks|
      invariant Maps.Members(keys) == set k | k in ks[..i] && height(k) < floor
    {
      assert ks[..i + 1] == ks[..i] + [ks[i]];
      if height(ks[i]) < floor {
        keys := keys + [ks[i]];
      }
    }
    assert ks[..|ks|] == ks;
  }

  method CollectKeysBeforeHeight(idx: set<HeightName>, floor: int) returns (keys: seq<HeightName>)
    ensures Maps.Members(keys) == set k | k in idx && k.height < floor
  {
    HeightNameKeyInjective();
    hide HeightNameKey, Ordered;
    keys := CollectBelow(Ordered(idx, HeightNameKey), (k: HeightName) => k.height, floor);
    assert forall k :: k in idx <==> k in Ordered(idx, HeightNameKey);
  }

  method CollectSpentKeysBeforeHeight(idx: set<HeightOut>, floor: int) returns (keys: seq<HeightOut>)
    ensures Maps.Members(keys) == set k | k in idx && k.height < floor
  {
    HeightOutKeyInjective();
    hide HeightOutKey, Ordered;
    keys := CollectBelow(Ordered(idx, HeightOutKey), (k: HeightOut) => k.height, floor);
    assert forall k :: k in idx <==> k in Ordered(idx, HeightOutKey);
  }
}
