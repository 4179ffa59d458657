/**
 Buckets keep their keys in byte order, and a cursor visits them in that order.  The index
 scans rely on it: they stop at the first key beyond the range they look for.
 */
module Cursor {
  import opened Bytes
  import opened Records
  import Maps

  ghost predicate Injective<K(!new)>(key: K -> Bytes) {
    forall a, b :: key(a) == key(b) ==> a == b
  }

  predicate IsLeast<K(!new,==)>(s: set<K>, key: K -> Bytes, k: K) {
    k in s && forall j :: j in s ==> LexLe(key(k), key(j))
  }

  lemma LeastExists<K(!new)>(s: set<K>, key: K -> Bytes)
    requires s != {}
    ensures exists k :: IsLeast(s, key, k)
    decreases |s|
  {
    var a :| a in s;
    if s == {a} {
      LexTotal(key(a), key(a));
      assert IsLeast(s, key, a);
    } else {
      LeastExists(s - {a}, key);
      var b :| IsLeast(s - {a}, key, b);
      LexTotal(key(a), key(b));
      LexTotal(key(a), key(a));
      if LexLe(key(b), key(a)) {
        assert IsLeast(s, key, b);
      } else {
        forall j | j in s ensures LexLe(key(a), key(j)) {
          if j != a { LexTransitive(key(a), key(b), key(j)); }
        }
        assert IsLeast(s, key, a);
      }
    }
  }

  lemma LeastUnique<K(!new)>(s: set<K>, key: K -> Bytes)
    requires Injective(key)
    ensures forall a, b :: IsLeast(s, key, a) && IsLeast(s, key, b) ==> a == b
  {
    forall a, b | IsLeast(s, key, a) && IsLeast(s, key, b) ensures a == b {
      LexAntisymmetric(key(a), key(b));
    }
  }

  /** The key a cursor's First returns. */
  function Least<K(!new,==)>(s: set<K>, key: K -> Bytes): (k: K)
    requires Injective(key) && s != {}
    ensures IsLeast(s, key, k)
  {
    LeastExists(s, key);
    LeastUnique(s, key);
    var k :| k in s && IsLeast(s, key, k);
    k
  }

  /** The bucket's keys in the order a cursor visits them. */
  function Ordered<K(!new,==)>(s: set<K>, key: K -> Bytes): (r: seq<K>)
    requires Injective(key)
    ensures Maps.Members(r) == s
    ensures |r| == |s|
    ensures forall i, j :: 0 <= i < j < |r| ==> LexLe(key(r[i]), key(r[j])) && r[i] != r[j]
  {
    if s == {} then []
    else
      var k := Least(s, key);
      var rest := Ordered(s - {k}, key);
      LeastFirst(s, k, rest, key);
      [k] + rest
  }

  lemma LeastFirst<K(!new)>(s: set<K>, k: K, rest: seq<K>, key: K -> Bytes)
    requires k in s && Maps.Members(rest) == s - {k} && forall x :: x in s ==> LexLe(key(k), key(x))
    requires forall i, j :: 0 <= i < j < |rest| ==> LexLe(key(rest[i]), key(rest[j])) && rest[i] != rest[j]
    ensures Maps.Members([k] + rest) == s
    ensures forall i, j :: 0 <= i < j < |[k] + rest| ==> LexLe(key(([k] + rest)[i]), key(([k] + rest)[j])) && ([k] + rest)[i] != ([k] + rest)[j]
  {
    hide LexLe;
    var r := [k] + rest;
    assert forall x :: x in rest ==> x in Maps.Members(rest);
    assert forall j :: 0 < j < |r| ==> r[j] == rest[j - 1] && r[j] in rest;
  }

  // ----- height-prefixed keys -----

  /** Key of the height-ordered indexes: the height as four big-endian bytes, then the name. */
  function HeightNameKey(k: HeightName): Bytes {
    BigEndian(ToUint32(k.height), 4) + k.name
  }

  /** The height and the name can be read back from the key. */
  lemma HeightNameKeyParts(k: HeightName)
    ensures |HeightNameKey(k)| == 4 + |k.name|
    ensures FromBigEndian(HeightNameKey(k)[..4]) == ToUint32(k.height)
    ensures HeightNameKey(k)[4..] == k.name
  {
    FourBytes();
    BigEndianRoundTrip(ToUint32(k.height), 4);
    hide BigEndian, FromBigEndian, Pow256;
    assert HeightNameKey(k)[..4] == BigEndian(ToUint32(k.height), 4);
  }

  lemma HeightNameKeyInjective()
    ensures Injective(HeightNameKey)
  {
    hide HeightNameKey, FromBigEndian;
    forall a, b | HeightNameKey(a) == HeightNameKey(b) ensures a == b {
      HeightNameKeyParts(a);
      HeightNameKeyParts(b);
    }
  }

  /** A height-ordered index in cursor order. */
  function HeightOrder(s: set<HeightName>): seq<HeightName> {
    HeightNameKeyInjective();
    Ordered(s, HeightNameKey)
  }

  lemma {:induction false} BigEndianOrder(x: nat, y: nat, n: nat, a: Bytes, b: Bytes)
    requires x < Pow256(n) && y < Pow256(n)
    ensures x < y ==> LexLe(BigEndian(x, n) + a, BigEndian(y, n) + b) && !LexLe(BigEndian(y, n) + b, BigEndian(x, n) + a)
    decreases n
  {
    if n > 0 && x < y {
      var a', b' := [(x % 256) as byte] + a, [(y % 256) as byte] + b;
      assert BigEndian(x, n) + a == BigEndian(x / 256, n - 1) + a';
      assert BigEndian(y, n) + b == BigEndian(y / 256, n - 1) + b';
      if x / 256 < y / 256 {
        BigEndianOrder(x / 256, y / 256, n - 1, a', b');
      } else {
        SamePrefixOrder(BigEndian(x / 256, n - 1), a', b');
        SamePrefixOrder(BigEndian(x / 256, n - 1), b', a');
      }
    }
  }

  lemma {:induction false} SamePrefixOrder(p: Bytes, a: Bytes, b: Bytes)
    ensures LexLe(p + a, p + b) <==> LexLe(a, b)
  {
    if p == [] {
      assert p + a == a && p + b == b;
    } else {
      assert (p + a)[1..] == p[1..] + a && (p + b)[1..] == p[1..] + b;
      SamePrefixOrder(p[1..], a, b);
    }
  }

  lemma FourBytes()
    ensures Pow256(4) == TWO_32
  {
    assert Pow256(1) == 256;
    assert Pow256(2) == 65536;
    assert Pow256(3) == 0x100_0000;
  }

  /** Keys of non-negative heights sort by height. */
  lemma HeightsSorted(j: HeightName, k: HeightName)
    requires 0 <= j.height && 0 <= k.height
    requires LexLe(HeightNameKey(j), HeightNameKey(k))
    ensures j.height <= k.height
  {
    FourBytes();
    hide BigEndian, LexLe, Pow256;
    BigEndianOrder(k.height, j.height, 4, k.name, j.name);
  }

  /**
   Below zero they do not: the index stores a negative height as a large unsigned number, so
   a scan that stops at the first unexpired key would miss it.
   */
  lemma NegativeHeightSortsLast(name: Name)
    ensures var j, k := HeightName(0, name), HeightName(-1, name);
            LexLe(HeightNameKey(j), HeightNameKey(k)) && !LexLe(HeightNameKey(k), HeightNameKey(j))
  {
    FourBytes();
    BigEndianOrder(0, TWO_32 - 1, 4, name, name);
  }

  // ----- the expiration scan -----

  /** The names the scan collects before it stops at the first key at or above h. */
  function ScanExpired(ks: seq<HeightName>, h: Height): seq<Name> {
    if ks == [] || ks[0].height >= h then [] else [ks[0].name] + ScanExpired(ks[1..], h)
  }

  function GetExpiredNames(expiration: set<HeightName>, h: Height): seq<Name> {
    ScanExpired(HeightOrder(expiration), h)
  }

  ghost predicate SortedByHeight(ks: seq<HeightName>) {
    forall i, j :: 0 <= i < j < |ks| ==> ks[i].height <= ks[j].height
  }

  /** Stopping early loses nothing when the keys are sorted by height. */
  lemma {:induction false} ScanIsPrefix(ks: seq<HeightName>, h: Height)
    requires SortedByHeight(ks)
    ensures var r := ScanExpired(ks, h);
            && |r| <= |ks|
            && (forall i :: 0 <= i < |r| ==> r[i] == ks[i].name && ks[i].height < h)
            && (forall i :: |r| <= i < |ks| ==> ks[i].height >= h)
  {
    if ks != [] && ks[0].height < h {
      ScanIsPrefix(ks[1..], h);
      var r := ScanExpired(ks[1..], h);
      assert forall i :: 0 < i < |ks| ==> ks[i] == ks[1..][i - 1];
    }
  }

  /** The scan finds exactly the names indexed below h, and each once if no name is indexed twice. */
  lemma ExpiredScanComplete(expiration: set<HeightName>, h: Height)
    requires forall k :: k in expiration ==> 0 <= k.height
    ensures var r := GetExpiredNames(expiration, h);
            && Maps.Members(r) == (set k | k in expiration && k.height < h :: k.name)
            && (OneMarkEach(expiration) ==> forall i, j :: 0 <= i < j < |r| ==> r[i] != r[j])
  {
    HeightNameKeyInjective();
    var ks := HeightOrder(expiration);
    OrderedHeights(expiration);
    ScanIsPrefix(ks, h);
    hide ScanExpired, Ordered;
    PrefixComplete(expiration, h, ks, ScanExpired(ks, h));
  }

  ghost predicate OneMarkEach(s: set<HeightName>) {
    forall j, k :: j in s && k in s && j.name == k.name ==> j == k
  }

  lemma PrefixComplete(s: set<HeightName>, h: Height, ks: seq<HeightName>, r: seq<Name>)
    requires Maps.Members(ks) == s && (forall i, j :: 0 <= i < j < |ks| ==> ks[i] != ks[j])
    requires |r| <= |ks|
    requires forall i :: 0 <= i < |r| ==> r[i] == ks[i].name && ks[i].height < h
    requires forall i :: |r| <= i < |ks| ==> ks[i].height >= h
    ensures Maps.Members(r) == (set k | k in s && k.height < h :: k.name)
    ensures OneMarkEach(s) ==> forall i, j :: 0 <= i < j < |r| ==> r[i] != r[j]
  {
    assert forall i :: 0 <= i < |ks| ==> ks[i] in Maps.Members(ks);
    forall k | k in s && k.height < h ensures k.name in r {
      var i := IndexIn(ks, k);
      assert r[i] == k.name;
    }
    forall n | n in r ensures exists k :: k in s && k.height < h && k.name == n {
      var i :| 0 <= i < |r| && r[i] == n;
      assert ks[i] in s;
    }
  }

  lemma IndexIn<K(!new)>(ks: seq<K>, k: K) returns (i: nat)
    requires k in Maps.Members(ks)
    ensures i < |ks| && ks[i] == k
  {
    i :| 0 <= i < |ks| && ks[i] == k;
  }

  lemma OrderedHeights(s: set<HeightName>)
    requires forall k :: k in s ==> 0 <= k.height
    ensures SortedByHeight(HeightOrder(s))
  {
    HeightNameKeyInjective();
    var ks := HeightOrder(s);
    assert forall i :: 0 <= i < |ks| ==> ks[i] in Maps.Members(ks);
    hide HeightNameKey, Ordered;
    forall i, j | 0 <= i < j < |ks| ensures ks[i].height <= ks[j].height {
      HeightsSorted(ks[i], ks[j]);
    }
  }
}
