/**
 What a cache with a recency list holds, told from the operations alone: which keys, with which
 values, and in which order.
 */
module Recency {
  import opened Bytes
  import opened Records
  import opened Lru
  import opened RateLimiting

  // ----- one operation, place by place -----

  lemma NewKeyGoesToFront<K(!new), V>(m: seq<Item<K, V>>, capacity: nat, key: K, value: V)
    requires forall i :: 0 <= i < |m| ==> m[i].key != key
    ensures |m| < capacity ==> AfterPut(m, capacity, key, value) == [Item(key, value)] + m
    ensures |m| >= capacity ==> AfterPut(m, capacity, key, value) == ([Item(key, value)] + m)[..|m|]
    ensures AfterGet(m, key) == m && Remove(m, key) == m
  {
    Absent(m, key);
    if key in Keys(m) {
      var i := IndexOf(m, key);
    }
    assert ([Item(key, value)] + m)[..|m| + 1] == [Item(key, value)] + m;
  }

  lemma KnownKeyMovesToFront<K(!new), V>(m: seq<Item<K, V>>, capacity: nat, key: K, value: V, i: nat)
    requires Distinct(m) && i < |m| && m[i].key == key
    ensures AfterPut(m, capacity, key, value) == [Item(key, value)] + m[..i] + m[i + 1..]
    ensures AfterGet(m, key) == [m[i]] + m[..i] + m[i + 1..]
    ensures Remove(m, key) == m[..i] + m[i + 1..]
    ensures Find(m, key) == Some(m[i].value)
  {
    RemoveAt(m, key, i);
    hide Distinct, Find, Remove;
    assert m[i] == Item(key, m[i].value);
    FrontThenRest(Item(key, value), m[..i], m[i + 1..]);
    FrontThenRest(m[i], m[..i], m[i + 1..]);
  }

  lemma FrontThenRest<T>(x: T, a: seq<T>, b: seq<T>)
    ensures [x] + (a + b) == [x] + a + b
  {
  }

  // ----- runs -----

  datatype Op<K, V> = Get(key: K) | Put(key: K, value: V) | Delete(key: K)

  function Step<K(==), V>(m: seq<Item<K, V>>, capacity: nat, op: Op<K, V>): seq<Item<K, V>> {
    match op
    case Get(key) => AfterGet(m, key)
    case Put(key, value) => AfterPut(m, capacity, key, value)
    case Delete(key) => Remove(m, key)
  }

  /** The recency list of a cache that was empty before the operations. */
  function Run<K(==), V>(ops: seq<Op<K, V>>, capacity: nat): seq<Item<K, V>> {
    if ops == [] then [] else Step(Run(ops[..|ops| - 1], capacity), capacity, ops[|ops| - 1])
  }

  /** Operation j uses its key: it stores a value, or it finds one. */
  predicate Uses<K(==), V>(ops: seq<Op<K, V>>, capacity: nat, j: int) {
    && 0 <= j < |ops|
    && (ops[j].Put? || (ops[j].Get? && Find(Run(ops[..j], capacity), ops[j].key).Some?))
  }

  /** Operation j is a deletion of the key. */
  predicate Deletes<K(==), V>(ops: seq<Op<K, V>>, key: K, j: int) {
    0 <= j < |ops| && ops[j].Delete? && ops[j].key == key
  }

  /** Operation i uses the key, and none up to n uses it again or deletes it. */
  ghost predicate LastUse<K(!new), V>(ops: seq<Op<K, V>>, capacity: nat, key: K, i: int, n: int) {
    && Uses(ops, capacity, i) && ops[i].key == key && i < n
    && forall j :: i < j < n ==> !(Uses(ops, capacity, j) && ops[j].key == key) && !Deletes(ops, key, j)
  }

  /** The keys used between operation i and operation n, and not deleted again. */
  ghost function UsedBetween<K(!new), V>(ops: seq<Op<K, V>>, capacity: nat, i: int, n: int): (r: set<K>)
    ensures forall k :: k in r <==> exists j :: i < j && LastUse(ops, capacity, k, j, n)
  {
    set j | 0 <= j < |ops| && i < j && LastUse(ops, capacity, ops[j].key, j, n) :: ops[j].key
  }

  /** The key has not been pushed out since its last use: there were never capacity other keys used after it. */
  ghost predicate Recent<K(!new), V>(ops: seq<Op<K, V>>, capacity: nat, key: K, i: int) {
    && LastUse(ops, capacity, key, i, |ops|)
    && forall n :: i < n <= |ops| ==> |UsedBetween(ops, capacity, i, n)| < capacity
  }

  // ----- how a step changes what is in front of a key -----

  /** The keys in front of a place. */
  function Front<K(!new), V>(m: seq<Item<K, V>>, p: nat): (r: set<K>)
    requires p <= |m|
    ensures forall k :: k in r <==> exists j :: 0 <= j < p && m[j].key == k
  {
    set j | 0 <= j < p :: m[j].key
  }

  lemma {:induction false} FrontSize<K(!new), V>(m: seq<Item<K, V>>, p: nat)
    requires Distinct(m) && p <= |m|
    ensures |Front(m, p)| == p
  {
    hide Front, Distinct;
    if p == 0 {
      FrontNone(m);
    } else {
      FrontSnoc(m, p);
      FrontSize(m, p - 1);
      OneMore(Front(m, p - 1), m[p - 1].key);
    }
  }

  lemma FrontNone<K(!new), V>(m: seq<Item<K, V>>)
    ensures |Front(m, 0)| == 0
  {
    assert Front(m, 0) == {};
  }

  lemma OneMore<T>(s: set<T>, x: T)
    requires x !in s
    ensures |s + {x}| == |s| + 1
  {
  }

  lemma FrontSnoc<K(!new), V>(m: seq<Item<K, V>>, p: nat)
    requires Distinct(m) && 0 < p <= |m|
    ensures m[p - 1].key !in Front(m, p - 1) && Front(m, p) == Front(m, p - 1) + {m[p - 1].key}
  {
  }

  predicate PlaceOf<K(==), V>(m: seq<Item<K, V>>, key: K, p: int) {
    0 <= p < |m| && m[p].key == key
  }

  lemma FoundAtPlace<K(!new), V>(m: seq<Item<K, V>>, key: K)
    ensures Find(m, key).Some? <==> exists p :: PlaceOf(m, key, p)
  {
    Absent(m, key);
    if key in Keys(m) {
      var p := IndexOf(m, key);
      assert PlaceOf(m, key, p);
    }
    if p :| PlaceOf(m, key, p) {
      assert m[p].key in Keys(m);
    }
  }

  /** The list with an entry put in front of it: one that was at place q, or, when q is -1, a new one. */
  function Advance<K, V>(m: seq<Item<K, V>>, capacity: nat, x: Item<K, V>, q: int): seq<Item<K, V>>
    requires -1 <= q < |m| <= capacity && capacity > 0
  {
    if q >= 0 then [x] + m[..q] + m[q + 1..] else if |m| < capacity then [x] + m else ([x] + m)[..|m|]
  }

  /** q is the place of the key, or -1 when it has none. */
  predicate WasAt<K(==), V>(m: seq<Item<K, V>>, key: K, q: int) {
    -1 <= q < |m| && (q >= 0 ==> m[q].key == key) && (q < 0 ==> forall j :: 0 <= j < |m| ==> m[j].key != key)
  }

  /** Where the entry at place p is after another one has been put in front. */
  function Shifted(q: int, p: int): int {
    if 0 <= q < p then p else p + 1
  }

  /** Where the entry at place j was before. */
  function CameFrom(q: int, j: nat): nat
    requires j > 0
  {
    if 0 <= q < j then j else j - 1
  }

  /** m' is m with an entry in front that was at place q of m, or nowhere in it. */
  ghost predicate IsAdvanced<K(!new), V(!new)>(m: seq<Item<K, V>>, m': seq<Item<K, V>>, x: Item<K, V>, q: int) {
    && m' != [] && m'[0] == x
    && forall j :: 0 < j < |m'| ==> CameFrom(q, j) < |m| && m'[j] == m[CameFrom(q, j)]
  }

  lemma AdvancedFront<K(!new), V(!new)>(m: seq<Item<K, V>>, m': seq<Item<K, V>>, x: Item<K, V>, q: int, p: nat)
    requires p < |m| && q != p && Shifted(q, p) < |m'| && WasAt(m, x.key, q) && IsAdvanced(m, m', x, q)
    ensures m'[Shifted(q, p)] == m[p] && Front(m', Shifted(q, p)) == Front(m, p) + {x.key}
  {
    hide WasAt;
    var p' := Shifted(q, p);
    forall k | k in Front(m', p') ensures k in Front(m, p) + {x.key} {
      var j :| 0 <= j < p' && m'[j].key == k;
      assert j > 0 ==> m[CameFrom(q, j)].key == k;
    }
    forall k | k in Front(m, p) && k != x.key ensures k in Front(m', p') {
      var j :| 0 <= j < p && m[j].key == k;
      AtPlace(m, x.key, q, j);
      assert CameFrom(q, Shifted(q, j)) == j && m'[Shifted(q, j)] == m[j];
    }
    assert m'[0].key == x.key;
  }

  lemma AtPlace<K(!new), V>(m: seq<Item<K, V>>, k: K, q: int, j: nat)
    requires WasAt(m, k, q) && j < |m| && m[j].key != k
    ensures j != q
  {
  }

  lemma AdvancedSize<K(!new), V>(m: seq<Item<K, V>>, k: K, q: int, p: nat)
    requires Distinct(m) && WasAt(m, k, q) && p < |m| && q != p
    ensures |Front(m, p) + {k}| == Shifted(q, p)
  {
    FrontSize(m, p);
    if 0 <= q < p {
      assert Front(m, p) + {k} == Front(m, p);
    } else {
      forall j | 0 <= j < p ensures m[j].key != k {
        assert q >= 0 ==> j < q;
      }
      assert k !in Front(m, p);
    }
  }

  lemma AdvanceIs<K(!new), V(!new)>(m: seq<Item<K, V>>, capacity: nat, x: Item<K, V>, q: int)
    requires -1 <= q < |m| <= capacity && capacity > 0
    ensures IsAdvanced(m, Advance(m, capacity, x, q), x, q)
    ensures |Advance(m, capacity, x, q)| == if q >= 0 || |m| == capacity then |m| else |m| + 1
  {
    if q >= 0 {
      KnownAdvance(m, x, q);
    } else {
      NewAdvance(m, [x] + m, x);
      if |m| == capacity {
        NewAdvance(m, ([x] + m)[..|m|], x);
      }
    }
    hide IsAdvanced;
  }

  lemma KnownAdvance<K(!new), V(!new)>(m: seq<Item<K, V>>, x: Item<K, V>, q: nat)
    requires q < |m|
    ensures var m' := [x] + m[..q] + m[q + 1..]; IsAdvanced(m, m', x, q) && |m'| == |m|
  {
    var m' := [x] + m[..q] + m[q + 1..];
    forall j | 0 < j < |m'| ensures CameFrom(q, j) < |m| && m'[j] == m[CameFrom(q, j)] {
      if j > q {
        assert m'[j] == m[q + 1..][j - q - 1];
      } else {
        assert m'[j] == m[..q][j - 1];
      }
    }
  }

  lemma NewAdvance<K(!new), V(!new)>(m: seq<Item<K, V>>, m': seq<Item<K, V>>, x: Item<K, V>)
    requires m' != [] && m' <= [x] + m
    ensures IsAdvanced(m, m', x, -1)
  {
    forall j | 0 < j < |m'| ensures CameFrom(-1, j) < |m| && m'[j] == m[CameFrom(-1, j)] {
      assert m'[j] == ([x] + m)[j];
    }
  }

  /** Only the last place of a full list is lost. */
  lemma FallsOut<K(!new), V(!new)>(m: seq<Item<K, V>>, m': seq<Item<K, V>>, x: Item<K, V>, q: int, key: K, p: nat)
    requires Distinct(m) && PlaceOf(m, key, p) && x.key != key && p + 1 == |m| == |m'| && q < 0 && IsAdvanced(m, m', x, q)
    ensures !exists i :: PlaceOf(m', key, i)
  {
    forall i ensures !PlaceOf(m', key, i) {
      if 0 < i < |m'| {
        assert m'[i] == m[CameFrom(q, i)];
      }
    }
  }

  /** The key has exactly the given keys in front of it, unless they fill the list. */
  ghost predicate Lands<K(!new), V(!new)>(m: seq<Item<K, V>>, key: K, front: set<K>, capacity: nat) {
    && ((exists p :: PlaceOf(m, key, p)) <==> |front| < capacity)
    && (|front| < capacity ==> PlaceOf(m, key, |front|) && Front(m, |front|) == front)
  }

  /** The key keeps its place, or falls back by one; at the end of a full list it falls out. */
  lemma Advanced<K(!new), V(!new)>(m: seq<Item<K, V>>, capacity: nat, x: Item<K, V>, q: int, key: K, p: nat)
    requires Distinct(m) && |m| <= capacity && capacity > 0 && WasAt(m, x.key, q) && PlaceOf(m, key, p) && x.key != key
    ensures Lands(Advance(m, capacity, x, q), key, Front(m, p) + {x.key}, capacity)
  {
    var m', p' := Advance(m, capacity, x, q), Shifted(q, p);
    assert q != p;
    AdvancedSize(m, x.key, q, p);
    AdvanceIs(m, capacity, x, q);
    assert p' < |m'| <==> p' < capacity;
    hide Front, Distinct, IsAdvanced, WasAt, Advance;
    if p' < |m'| {
      AdvancedFront(m, m', x, q, p);
      assert PlaceOf(m', key, p');
    } else {
      FallsOut(m, m', x, q, key, p);
    }
  }

  /** m' is m without the entry at place q. */
  ghost predicate IsWithout<K(!new), V(!new)>(m: seq<Item<K, V>>, m': seq<Item<K, V>>, q: int) {
    |m'| == |m| - 1 && forall j :: 0 <= j < |m'| ==> m'[j] == m[if j < q then j else j + 1]
  }

  /** Taking out another key closes the gap. */
  lemma Removed<K(!new), V(!new)>(m: seq<Item<K, V>>, m': seq<Item<K, V>>, q: nat, key: K, p: nat)
    requires Distinct(m) && q < |m| && IsWithout(m, m', q) && PlaceOf(m, key, p) && q != p
    ensures var f := Front(m, p) - {m[q].key}; PlaceOf(m', key, |f|) && Front(m', |f|) == f
  {
    var p', f := if q < p then p - 1 else p, Front(m, p) - {m[q].key};
    RemovedFront(m, m', q, p);
    assert m'[p'] == m[p];
    hide Front;
    var all := Front(m, p);
    FrontSize(m, p);
    assert m[q].key in all ==> |all - {m[q].key}| == |all| - 1;
    assert m[q].key !in all ==> all - {m[q].key} == all;
  }

  lemma RemovedFront<K(!new), V(!new)>(m: seq<Item<K, V>>, m': seq<Item<K, V>>, q: nat, p: nat)
    requires Distinct(m) && q < |m| && p < |m| && IsWithout(m, m', q) && q != p
    ensures var p' := if q < p then p - 1 else p; Front(m', p') == Front(m, p) - {m[q].key}
    ensures m[q].key in Front(m, p) <==> q < p
  {
    var p', gone := if q < p then p - 1 else p, m[q].key;
    assert forall j :: 0 <= j < |m| && j != q ==> m[j].key != gone;
    hide Distinct;
    forall i | i in Front(m', p') ensures i in Front(m, p) - {gone} {
      var j :| 0 <= j < p' && m'[j].key == i;
      assert m[if j < q then j else j + 1].key == i;
    }
    forall i | i in Front(m, p) - {gone} ensures i in Front(m', p') {
      var j :| 0 <= j < p && m[j].key == i;
      assert m'[if j < q then j else j - 1] == m[j];
    }
  }

  // ----- how an operation changes what has been used -----

  /** The last operation uses the key. */
  predicate LastUses<K(==), V>(ops: seq<Op<K, V>>, capacity: nat, key: K)
    requires ops != []
  {
    Uses(ops, capacity, |ops| - 1) && ops[|ops| - 1].key == key
  }

  lemma UsesBefore<K(!new), V>(ops: seq<Op<K, V>>, capacity: nat, j: int)
    requires ops != [] && j < |ops| - 1
    ensures Uses(ops, capacity, j) <==> Uses(ops[..|ops| - 1], capacity, j)
    ensures 0 <= j ==> ops[..|ops| - 1][j] == ops[j]
  {
    if 0 <= j {
      assert ops[..|ops| - 1][..j] == ops[..j];
    }
  }

  lemma LastUseBefore<K(!new), V>(ops: seq<Op<K, V>>, capacity: nat, key: K, i: int, n: int)
    requires ops != [] && n < |ops|
    ensures LastUse(ops, capacity, key, i, n) <==> LastUse(ops[..|ops| - 1], capacity, key, i, n)
  {
    hide Uses;
    forall j | j < n ensures Uses(ops, capacity, j) <==> Uses(ops[..|ops| - 1], capacity, j) {
      UsesBefore(ops, capacity, j);
    }
    assert forall j :: 0 <= j < |ops| - 1 ==> ops[..|ops| - 1][j] == ops[j];
    InRange(ops, capacity);
    InRange(ops[..|ops| - 1], capacity);
  }

  lemma InRange<K(!new), V>(ops: seq<Op<K, V>>, capacity: nat)
    ensures forall j :: Uses(ops, capacity, j) ==> 0 <= j < |ops|
  {
  }

  /** One operation later: the last use of a key stays its last use unless this operation is about the key. */
  lemma LastUseLater<K(!new), V>(ops: seq<Op<K, V>>, capacity: nat, key: K, i: int)
    requires ops != [] && !LastUses(ops, capacity, key) && !Deletes(ops, key, |ops| - 1)
    ensures LastUse(ops, capacity, key, i, |ops|) <==> LastUse(ops, capacity, key, i, |ops| - 1)
  {
    hide Uses;
    InRange(ops, capacity);
  }

  /** The keys in use after one operation more. */
  lemma UsedLater<K(!new), V>(ops: seq<Op<K, V>>, capacity: nat, i: int)
    requires ops != [] && 0 <= i < |ops| - 1
    ensures var last, before := ops[|ops| - 1], UsedBetween(ops, capacity, i, |ops| - 1);
            UsedBetween(ops, capacity, i, |ops|) ==
            if Uses(ops, capacity, |ops| - 1) then before + {last.key}
            else if last.Delete? then before - {last.key}
            else before
  {
    hide Uses;
    var n := |ops| - 1;
    var last := ops[n];
    InRange(ops, capacity);
    if Uses(ops, capacity, n) {
      NoUseOfDeletion(ops, capacity, n);
    }
    assert Uses(ops, capacity, n) ==> LastUse(ops, capacity, last.key, n, |ops|);
    forall k | k != last.key || (!Uses(ops, capacity, n) && !last.Delete?)
      ensures k in UsedBetween(ops, capacity, i, |ops|) <==> k in UsedBetween(ops, capacity, i, n)
    {
      forall j ensures LastUse(ops, capacity, k, j, |ops|) <==> LastUse(ops, capacity, k, j, n) {
        LastUseLater(ops, capacity, k, j);
      }
    }
    assert last.Delete? ==> Deletes(ops, last.key, n);
    assert last.Delete? ==> last.key !in UsedBetween(ops, capacity, i, |ops|);
  }

  lemma NoUseOfDeletion<K(!new), V>(ops: seq<Op<K, V>>, capacity: nat, j: int)
    requires Uses(ops, capacity, j)
    ensures !ops[j].Delete?
  {
  }

  lemma UsedBefore<K(!new), V>(ops: seq<Op<K, V>>, capacity: nat, i: int, n: int)
    requires ops != [] && n < |ops|
    ensures UsedBetween(ops, capacity, i, n) == UsedBetween(ops[..|ops| - 1], capacity, i, n)
  {
    hide Uses, LastUse;
    forall k, j ensures LastUse(ops, capacity, k, j, n) <==> LastUse(ops[..|ops| - 1], capacity, k, j, n) {
      LastUseBefore(ops, capacity, k, j, n);
    }
  }

  /** Recency, one operation later. */
  lemma RecentLater<K(!new), V>(ops: seq<Op<K, V>>, capacity: nat, key: K, i: int)
    requires ops != [] && !LastUses(ops, capacity, key) && !Deletes(ops, key, |ops| - 1)
    ensures Recent(ops, capacity, key, i) <==>
            Recent(ops[..|ops| - 1], capacity, key, i) && |UsedBetween(ops, capacity, i, |ops|)| < capacity
    ensures Recent(ops, capacity, key, i) ==> 0 <= i < |ops| - 1
  {
    hide Uses, LastUse;
    LastUseLater(ops, capacity, key, i);
    LastUseBefore(ops, capacity, key, i, |ops| - 1);
    var before := ops[..|ops| - 1];
    LastUseRange(before, capacity, key, i);
    assert LastUse(ops, capacity, key, i, |ops|) <==> LastUse(before, capacity, key, i, |before|);
    forall n | n < |ops| ensures UsedBetween(ops, capacity, i, n) == UsedBetween(before, capacity, i, n) {
      UsedBefore(ops, capacity, i, n);
    }
    hide UsedBetween;
    if Recent(before, capacity, key, i) && |UsedBetween(ops, capacity, i, |ops|)| < capacity {
      forall n | i < n <= |ops| ensures |UsedBetween(ops, capacity, i, n)| < capacity {
        assert n < |ops| ==> |UsedBetween(before, capacity, i, n)| < capacity;
      }
    }
    if Recent(ops, capacity, key, i) {
      forall n | i < n <= |before| ensures |UsedBetween(before, capacity, i, n)| < capacity {
        assert |UsedBetween(ops, capacity, i, n)| < capacity;
      }
    }
  }

  lemma LastUseRange<K(!new), V>(ops: seq<Op<K, V>>, capacity: nat, key: K, i: int)
    ensures LastUse(ops, capacity, key, i, |ops|) ==> 0 <= i < |ops| && ops[i].key == key
  {
  }

  // ----- what is held -----

  /** List and operations agree on a key: whether it is held, and on the keys in front of it. */
  ghost predicate Agrees<K(!new), V(!new)>(m: seq<Item<K, V>>, ops: seq<Op<K, V>>, capacity: nat, key: K) {
    && (forall p :: PlaceOf(m, key, p) ==> exists i :: Recent(ops, capacity, key, i) && UsedBetween(ops, capacity, i, |ops|) == Front(m, p))
    && (forall i :: Recent(ops, capacity, key, i) ==> exists p :: PlaceOf(m, key, p))
  }

  lemma {:induction false} RunShape<K(!new), V>(ops: seq<Op<K, V>>, capacity: nat)
    requires capacity > 0
    ensures Distinct(Run(ops, capacity)) && |Run(ops, capacity)| <= capacity
  {
    if ops != [] {
      RunShape(ops[..|ops| - 1], capacity);
      var m, op := Run(ops[..|ops| - 1], capacity), ops[|ops| - 1];
      hide Distinct, Remove, Find;
      match op {
        case Get(key) => GetKeepsShape(m, key);
        case Put(key, value) => PutKeepsShape(m, capacity, key, value);
        case Delete(key) => RemoveDistinct(m, key);
      }
    }
  }

  lemma OneLastUse<K(!new), V(!new)>(ops: seq<Op<K, V>>, capacity: nat, key: K, i: int, i': int, n: int)
    requires LastUse(ops, capacity, key, i, n) && LastUse(ops, capacity, key, i', n)
    ensures i == i'
  {
    hide Uses;
  }

  lemma OnePlace<K(!new), V(!new)>(m: seq<Item<K, V>>, key: K, p: int, p': int)
    requires Distinct(m) && PlaceOf(m, key, p) && PlaceOf(m, key, p')
    ensures p == p'
  {
  }

  lemma NotThere<K(!new), V(!new)>(m: seq<Item<K, V>>, key: K)
    requires Find(m, key).None?
    ensures forall j :: 0 <= j < |m| ==> m[j].key != key
    ensures Remove(m, key) == m
  {
    Absent(m, key);
    NotAmong(m, key);
  }

  /** A use puts its key in front. */
  lemma StepUses<K(!new), V(!new)>(m: seq<Item<K, V>>, capacity: nat, op: Op<K, V>) returns (x: Item<K, V>, q: int)
    requires Distinct(m) && |m| <= capacity && capacity > 0
    requires op.Put? || (op.Get? && Find(m, op.key).Some?)
    ensures x.key == op.key && WasAt(m, op.key, q) && Step(m, capacity, op) == Advance(m, capacity, x, q)
  {
    FoundAtPlace(m, op.key);
    if Find(m, op.key).Some? {
      q :| PlaceOf(m, op.key, q);
      var v := if op.Put? then op.value else m[q].value;
      KnownKeyMovesToFront(m, capacity, op.key, v, q);
      x := Item(op.key, v);
    } else {
      q, x := -1, Item(op.key, op.value);
      NotThere(m, op.key);
      NewKeyGoesToFront(m, capacity, op.key, op.value);
    }
  }

  /** A deletion takes its key out, and an operation on a key that is not there does nothing. */
  lemma StepDeletes<K(!new), V(!new)>(m: seq<Item<K, V>>, capacity: nat, op: Op<K, V>) returns (q: int)
    requires Distinct(m) && (op.Delete? || (op.Get? && Find(m, op.key).None?))
    ensures WasAt(m, op.key, q) && (q >= 0 ==> op.Delete?)
    ensures Step(m, capacity, op) == if q >= 0 then m[..q] + m[q + 1..] else m
  {
    FoundAtPlace(m, op.key);
    if Find(m, op.key).Some? {
      q :| PlaceOf(m, op.key, q);
      KnownKeyMovesToFront(m, capacity, op.key, m[q].value, q);
    } else {
      q := -1;
      NotThere(m, op.key);
    }
  }

  lemma UseAgrees<K(!new), V(!new)>(ops: seq<Op<K, V>>, capacity: nat, key: K)
    requires capacity > 0 && ops != [] && LastUses(ops, capacity, key)
    requires Distinct(Run(ops, capacity)) && PlaceOf(Run(ops, capacity), key, 0)
    ensures Agrees(Run(ops, capacity), ops, capacity, key)
  {
    hide Uses, Run;
    var n, m := |ops| - 1, Run(ops, capacity);
    InRange(ops, capacity);
    assert LastUse(ops, capacity, key, n, |ops|);
    assert UsedBetween(ops, capacity, n, |ops|) == {};
    assert Front(m, 0) == {};
    assert Recent(ops, capacity, key, n);
    forall p | PlaceOf(m, key, p) ensures p == 0 {
      OnePlace(m, key, 0, p);
    }
  }

  lemma DeleteAgrees<K(!new), V(!new)>(ops: seq<Op<K, V>>, capacity: nat, key: K)
    requires ops != [] && Deletes(ops, key, |ops| - 1)
    requires forall p :: !PlaceOf(Run(ops, capacity), key, p)
    ensures Agrees(Run(ops, capacity), ops, capacity, key)
  {
    hide Run;
    forall i ensures !Recent(ops, capacity, key, i) {
      if LastUse(ops, capacity, key, i, |ops|) {
        assert i == |ops| - 1;
        NoUseOfDeletion(ops, capacity, i);
      }
    }
  }

  /** What the list says of a key before and after an operation about another key. */
  ghost predicate Moves<K(!new), V(!new)>(m: seq<Item<K, V>>, m': seq<Item<K, V>>, ops: seq<Op<K, V>>, capacity: nat, key: K)
    requires ops != []
  {
    && (forall p' :: PlaceOf(m', key, p') ==> exists p :: PlaceOf(m, key, p))
    && forall p :: PlaceOf(m, key, p) ==>
         var op := ops[|ops| - 1];
         var f := if Uses(ops, capacity, |ops| - 1) then Front(m, p) + {op.key}
                  else if op.Delete? then Front(m, p) - {op.key} else Front(m, p);
         Lands(m', key, f, capacity)
  }

  lemma MoveAgrees<K(!new), V(!new)>(m: seq<Item<K, V>>, m': seq<Item<K, V>>, ops: seq<Op<K, V>>, capacity: nat, key: K)
    requires ops != [] && !LastUses(ops, capacity, key) && !Deletes(ops, key, |ops| - 1)
    requires Distinct(m') && Agrees(m, ops[..|ops| - 1], capacity, key) && Moves(m, m', ops, capacity, key)
    ensures Agrees(m', ops, capacity, key)
  {
    hide Uses, LastUse, UsedBetween, Front, Distinct, LastUses, Deletes;
    var before := ops[..|ops| - 1];
    forall p' | PlaceOf(m', key, p')
      ensures exists i :: Recent(ops, capacity, key, i) && UsedBetween(ops, capacity, i, |ops|) == Front(m', p')
    {
      var p :| PlaceOf(m, key, p);
      var i :| Recent(before, capacity, key, i) && UsedBetween(before, capacity, i, |before|) == Front(m, p);
      StillRecent(ops, capacity, key, i);
      OnePlace(m', key, p', |UsedBetween(ops, capacity, i, |ops|)|);
      assert Recent(ops, capacity, key, i);
    }
    forall i | Recent(ops, capacity, key, i) ensures exists p' :: PlaceOf(m', key, p') {
      RecentLater(ops, capacity, key, i);
      StillRecent(ops, capacity, key, i);
      var p :| PlaceOf(m, key, p);
      var i' :| Recent(before, capacity, key, i') && UsedBetween(before, capacity, i', |before|) == Front(m, p);
      OneLastUse(before, capacity, key, i, i', |before|);
    }
  }

  lemma StillRecent<K(!new), V(!new)>(ops: seq<Op<K, V>>, capacity: nat, key: K, i: int)
    requires ops != [] && !LastUses(ops, capacity, key) && !Deletes(ops, key, |ops| - 1)
    requires Recent(ops[..|ops| - 1], capacity, key, i)
    ensures Recent(ops, capacity, key, i) <==> |UsedBetween(ops, capacity, i, |ops|)| < capacity
    ensures var last, used := ops[|ops| - 1], UsedBetween(ops[..|ops| - 1], capacity, i, |ops| - 1);
            UsedBetween(ops, capacity, i, |ops|) ==
            if Uses(ops, capacity, |ops| - 1) then used + {last.key} else if last.Delete? then used - {last.key} else used
  {
    hide Uses, LastUses, Deletes;
    LastUseRange(ops[..|ops| - 1], capacity, key, i);
    hide LastUse;
    RecentLater(ops, capacity, key, i);
    UsedLater(ops, capacity, i);
    UsedBefore(ops, capacity, i, |ops| - 1);
  }

  lemma UseMoves<K(!new), V(!new)>(m: seq<Item<K, V>>, ops: seq<Op<K, V>>, capacity: nat, key: K)
    requires Distinct(m) && |m| <= capacity && capacity > 0 && ops != []
    requires Uses(ops, capacity, |ops| - 1) && ops[|ops| - 1].key != key
    requires var op := ops[|ops| - 1]; op.Put? || (op.Get? && Find(m, op.key).Some?)
    ensures Moves(m, Step(m, capacity, ops[|ops| - 1]), ops, capacity, key)
  {
    var op := ops[|ops| - 1];
    var x, q := StepUses(m, capacity, op);
    AdvanceIs(m, capacity, x, q);
    hide Uses, Distinct, Find, Step, Front, WasAt;
    var m' := Advance(m, capacity, x, q);
    ComesFrom(m, m', x, q, key);
    hide Advance, IsAdvanced;
    hide Lands;
    forall p | PlaceOf(m, key, p) ensures Lands(m', key, Front(m, p) + {op.key}, capacity) {
      Advanced(m, capacity, x, q, key, p);
    }
  }

  lemma ComesFrom<K(!new), V(!new)>(m: seq<Item<K, V>>, m': seq<Item<K, V>>, x: Item<K, V>, q: int, key: K)
    requires IsAdvanced(m, m', x, q) && x.key != key
    ensures forall p' :: PlaceOf(m', key, p') ==> exists p :: PlaceOf(m, key, p)
  {
    forall p' | PlaceOf(m', key, p') ensures exists p :: PlaceOf(m, key, p) {
      assert PlaceOf(m, key, CameFrom(q, p'));
    }
  }

  lemma OtherMoves<K(!new), V(!new)>(m: seq<Item<K, V>>, ops: seq<Op<K, V>>, capacity: nat, key: K)
    requires Distinct(m) && |m| <= capacity && ops != []
    requires !Uses(ops, capacity, |ops| - 1) && ops[|ops| - 1].key != key
    requires var op := ops[|ops| - 1]; op.Delete? || (op.Get? && Find(m, op.key).None?)
    ensures Moves(m, Step(m, capacity, ops[|ops| - 1]), ops, capacity, key)
  {
    var op := ops[|ops| - 1];
    var q := StepDeletes(m, capacity, op);
    hide Uses, Find, Step, Distinct, Front, Moves, WasAt;
    if q >= 0 {
      AtKey(m, op.key, q);
      DeleteMoves(m, m[..q] + m[q + 1..], q, op.key, capacity, key);
      DeletedMoves(m, m[..q] + m[q + 1..], ops, capacity, key);
    } else {
      NothingMoves(m, ops, capacity, key);
    }
  }

  lemma AtKey<K(!new), V(!new)>(m: seq<Item<K, V>>, k: K, q: int)
    requires WasAt(m, k, q) && q >= 0
    ensures q < |m| && m[q].key == k
  {
  }

  lemma DeletedMoves<K(!new), V(!new)>(m: seq<Item<K, V>>, m': seq<Item<K, V>>, ops: seq<Op<K, V>>, capacity: nat, key: K)
    requires ops != [] && ops[|ops| - 1].Delete? && !Uses(ops, capacity, |ops| - 1)
    requires forall p' :: PlaceOf(m', key, p') ==> exists p :: PlaceOf(m, key, p)
    requires forall p :: PlaceOf(m, key, p) ==>
               var f := Front(m, p) - {ops[|ops| - 1].key}; |f| < capacity && PlaceOf(m', key, |f|) && Front(m', |f|) == f
    ensures Moves(m, m', ops, capacity, key)
  {
    hide Uses, Front;
  }

  lemma NothingMoves<K(!new), V(!new)>(m: seq<Item<K, V>>, ops: seq<Op<K, V>>, capacity: nat, key: K)
    requires ops != [] && !Uses(ops, capacity, |ops| - 1) && Distinct(m) && |m| <= capacity && WasAt(m, ops[|ops| - 1].key, -1)
    ensures Moves(m, m, ops, capacity, key)
  {
    hide Uses, Distinct, WasAt, Front;
    NotInFront(m, ops[|ops| - 1].key, key);
    InPlace(m, capacity, key);
  }

  lemma NotInFront<K(!new), V(!new)>(m: seq<Item<K, V>>, k: K, key: K)
    requires WasAt(m, k, -1)
    ensures forall p :: PlaceOf(m, key, p) ==> Front(m, p) - {k} == Front(m, p)
  {
  }

  lemma InPlace<K(!new), V(!new)>(m: seq<Item<K, V>>, capacity: nat, key: K)
    requires Distinct(m) && |m| <= capacity
    ensures forall p :: PlaceOf(m, key, p) ==> |Front(m, p)| == p < capacity
  {
    forall p | PlaceOf(m, key, p) ensures |Front(m, p)| == p < capacity {
      FrontSize(m, p);
    }
  }

  lemma DeleteMoves<K(!new), V(!new)>(m: seq<Item<K, V>>, m': seq<Item<K, V>>, q: nat, k: K, capacity: nat, key: K)
    requires Distinct(m) && |m| <= capacity && q < |m| && m[q].key == k && k != key && m' == m[..q] + m[q + 1..]
    ensures forall p' :: PlaceOf(m', key, p') ==> exists p :: PlaceOf(m, key, p)
    ensures forall p :: PlaceOf(m, key, p) ==>
              var f := Front(m, p) - {k}; |f| < capacity && PlaceOf(m', key, |f|) && Front(m', |f|) == f
  {
    assert IsWithout(m, m', q);
    forall p' | PlaceOf(m', key, p') ensures exists p :: PlaceOf(m, key, p) {
      assert PlaceOf(m, key, if p' < q then p' else p' + 1);
    }
    hide Distinct, Front, IsWithout;
    forall p | PlaceOf(m, key, p) ensures var f := Front(m, p) - {k}; |f| < capacity && PlaceOf(m', key, |f|) && Front(m', |f|) == f {
      Removed(m, m', q, key, p);
    }
  }

  /** A key the last operation is about: in front after a use, gone after a deletion. */
  lemma StepOnKey<K(!new), V(!new)>(m: seq<Item<K, V>>, capacity: nat, op: Op<K, V>)
    requires Distinct(m) && |m| <= capacity && capacity > 0
    ensures op.Put? || (op.Get? && Find(m, op.key).Some?) ==> PlaceOf(Step(m, capacity, op), op.key, 0)
    ensures op.Delete? ==> forall p :: !PlaceOf(Step(m, capacity, op), op.key, p)
  {
    if op.Put? || (op.Get? && Find(m, op.key).Some?) {
      var x, q := StepUses(m, capacity, op);
      AdvanceIs(m, capacity, x, q);
    } else if op.Delete? {
      RemoveDistinct(m, op.key);
      NotAmong(Remove(m, op.key), op.key);
    }
  }

  lemma {:induction false} AllAgree<K(!new), V(!new)>(ops: seq<Op<K, V>>, capacity: nat, key: K)
    requires capacity > 0
    ensures Agrees(Run(ops, capacity), ops, capacity, key)
  {
    if ops == [] {
    } else {
      var n := |ops| - 1;
      var m, op := Run(ops[..n], capacity), ops[n];
      AllAgree(ops[..n], capacity, key);
      RunShape(ops[..n], capacity);
      RunShape(ops, capacity);
      StepOnKey(m, capacity, op);
      assert Run(ops, capacity) == Step(m, capacity, op);
      assert Uses(ops, capacity, n) <==> op.Put? || (op.Get? && Find(m, op.key).Some?);
      hide Run, Step, Agrees, Moves, Distinct, Find, Uses;
      if LastUses(ops, capacity, key) {
        UseAgrees(ops, capacity, key);
      } else if Deletes(ops, key, n) {
        DeleteAgrees(ops, capacity, key);
      } else {
        if Uses(ops, capacity, n) {
          UseMoves(m, ops, capacity, key);
        } else if op.key != key {
          OtherMoves(m, ops, capacity, key);
        } else {
          MissMoves(m, ops, capacity, key);
        }
        MoveAgrees(m, Run(ops, capacity), ops, capacity, key);
      }
    }
  }

  /** Looking for the key itself in vain. */
  lemma MissMoves<K(!new), V(!new)>(m: seq<Item<K, V>>, ops: seq<Op<K, V>>, capacity: nat, key: K)
    requires ops != [] && ops[|ops| - 1] == Get(key) && Find(m, key).None?
    ensures Moves(m, Step(m, capacity, ops[|ops| - 1]), ops, capacity, key)
  {
    NotThere(m, key);
  }

  /**
   Which keys a cache holds after any operations on an empty one: those used and not deleted
   since, unless at some time after the last use as many other keys as the cache has places had
   been used after it and not deleted.  The keys in front of a key are the ones used after it.
   */
  lemma HeldIffRecent<K(!new), V(!new)>(ops: seq<Op<K, V>>, capacity: nat, key: K)
    requires capacity > 0
    ensures Find(Run(ops, capacity), key).Some? <==> exists i :: Recent(ops, capacity, key, i)
    ensures forall p, i :: PlaceOf(Run(ops, capacity), key, p) && LastUse(ops, capacity, key, i, |ops|) ==>
              Front(Run(ops, capacity), p) == UsedBetween(ops, capacity, i, |ops|)
  {
    var m := Run(ops, capacity);
    AllAgree(ops, capacity, key);
    FoundAtPlace(m, key);
    hide Run, LastUse, UsedBetween, Front;
    forall p, i | PlaceOf(m, key, p) && LastUse(ops, capacity, key, i, |ops|)
      ensures Front(m, p) == UsedBetween(ops, capacity, i, |ops|)
    {
      var i' :| Recent(ops, capacity, key, i') && UsedBetween(ops, capacity, i', |ops|) == Front(m, p);
      OneLastUse(ops, capacity, key, i, i', |ops|);
    }
  }

  lemma UsedGrows<K(!new), V(!new)>(ops: seq<Op<K, V>>, capacity: nat, i: int, n: int)
    requires n <= |ops| && forall j :: 0 <= j < |ops| ==> !ops[j].Delete?
    ensures UsedBetween(ops, capacity, i, n) <= UsedBetween(ops, capacity, i, |ops|)
    decreases |ops| - n
  {
    hide Uses;
    if n < |ops| {
      UsedGrows(ops, capacity, i, n + 1);
      InRange(ops, capacity);
      forall k | k in UsedBetween(ops, capacity, i, n) ensures k in UsedBetween(ops, capacity, i, n + 1) {
        var j :| i < j && LastUse(ops, capacity, k, j, n);
        if n >= 0 && Uses(ops, capacity, n) && ops[n].key == k {
          assert LastUse(ops, capacity, k, n, n + 1);
        } else {
          assert LastUse(ops, capacity, k, j, n + 1);
        }
      }
    }
  }

  /** Without deletions: a key is held exactly when fewer other keys than the cache has places were used after it. */
  lemma HeldWithoutDeletions<K(!new), V(!new)>(ops: seq<Op<K, V>>, capacity: nat, key: K)
    requires capacity > 0 && forall j :: 0 <= j < |ops| ==> !ops[j].Delete?
    ensures Find(Run(ops, capacity), key).Some?
            <==> exists i :: LastUse(ops, capacity, key, i, |ops|) && |UsedBetween(ops, capacity, i, |ops|)| < capacity
  {
    HeldIffRecent(ops, capacity, key);
    hide Run, Uses, LastUse, UsedBetween, Find;
    forall i ensures Recent(ops, capacity, key, i)
                     <==> LastUse(ops, capacity, key, i, |ops|) && |UsedBetween(ops, capacity, i, |ops|)| < capacity
    {
      LastUseRange(ops, capacity, key, i);
      if LastUse(ops, capacity, key, i, |ops|) && |UsedBetween(ops, capacity, i, |ops|)| < capacity {
        forall n | i < n <= |ops| ensures |UsedBetween(ops, capacity, i, n)| < capacity {
          UsedGrows(ops, capacity, i, n);
          Smaller(UsedBetween(ops, capacity, i, n), UsedBetween(ops, capacity, i, |ops|));
        }
      }
    }
  }

  lemma Smaller<T>(a: set<T>, b: set<T>)
    requires a <= b
    ensures |a| <= |b|
  {
    assert b == a + (b - a);
  }

  // ----- the values held -----

  /** The value is the last one stored under the key. */
  ghost predicate LastStored<K(!new), V(!new)>(ops: seq<Op<K, V>>, key: K, value: V) {
    exists j :: 0 <= j < |ops| && ops[j] == Put(key, value) && forall i :: j < i < |ops| && ops[i].Put? ==> ops[i].key != key
  }

  lemma StoredLater<K(!new), V(!new)>(ops: seq<Op<K, V>>, key: K, value: V)
    requires ops != [] && LastStored(ops[..|ops| - 1], key, value)
    requires ops[|ops| - 1].Put? ==> ops[|ops| - 1].key != key
    ensures LastStored(ops, key, value)
  {
    var n := |ops| - 1;
    assert forall i :: 0 <= i < n ==> ops[..n][i] == ops[i];
    var j :| 0 <= j < n && ops[..n][j] == Put(key, value) && forall i :: j < i < n && ops[..n][i].Put? ==> ops[..n][i].key != key;
    assert ops[j] == Put(key, value);
  }

  /** Where the entries of the list come from: the operation, or the list before. */
  lemma StepEntries<K(!new), V(!new)>(m: seq<Item<K, V>>, capacity: nat, op: Op<K, V>, p: nat)
    requires Distinct(m) && |m| <= capacity && capacity > 0 && p < |Step(m, capacity, op)|
    ensures var e := Step(m, capacity, op)[p];
            (op.Put? && e == Item(op.key, op.value)) || (e in m && (op.Put? ==> e.key != op.key))
  {
    FoundAtPlace(m, op.key);
    if Find(m, op.key).None? {
      NotThere(m, op.key);
    } else {
      var q :| PlaceOf(m, op.key, q);
      RemoveAt(m, op.key, q);
    }
    Survivors(m, op.key);
    hide Find, Remove;
  }

  lemma {:induction false} EntriesStored<K(!new), V(!new)>(ops: seq<Op<K, V>>, capacity: nat, p: nat)
    requires capacity > 0 && p < |Run(ops, capacity)|
    ensures LastStored(ops, Run(ops, capacity)[p].key, Run(ops, capacity)[p].value)
  {
    var n := |ops| - 1;
    var m, op, e := Run(ops[..n], capacity), ops[n], Run(ops, capacity)[p];
    RunShape(ops[..n], capacity);
    StepEntries(m, capacity, op, p);
    if op.Put? && e == Item(op.key, op.value) {
      assert ops[n] == Put(e.key, e.value);
    } else {
      var i :| 0 <= i < |m| && m[i] == e;
      EntriesStored(ops[..n], capacity, i);
      StoredLater(ops, e.key, e.value);
    }
  }

  /** A key that is held has the last value stored under it. */
  lemma HeldValue<K(!new), V(!new)>(ops: seq<Op<K, V>>, capacity: nat, key: K, value: V)
    requires capacity > 0 && Find(Run(ops, capacity), key) == Some(value)
    ensures LastStored(ops, key, value)
  {
    var m := Run(ops, capacity);
    FoundAtPlace(m, key);
    var p :| PlaceOf(m, key, p);
    RunShape(ops, capacity);
    RemoveAt(m, key, p);
    EntriesStored(ops, capacity, p);
  }

  // ----- the rate limiter's table -----

  /** Addresses used later come first. */
  predicate InUseOrder(m: Table) {
    forall i, j :: 0 <= i < j < |m| ==> m[i].value.lastUsed >= m[j].value.lastUsed
  }

  /** A bucket's tokens: what it had and what it has earned since its last refill, up to the rate. */
  function TokensNow(b: Bucket, rate: real, now: real): real {
    var earned := (now - b.lastRefill) * rate;
    if earned <= 0.0 then b.tokens else if b.tokens + earned > rate then rate else b.tokens + earned
  }

  /** The table after a request: its address in front, used now, and the others without it and without the one dropped. */
  lemma RequestByPlaces(m: Table, rate: real, maxSize: int, ip: Ip, now: real) returns (b: Bucket, rest: Table, q: int)
    requires Distinct(m)
    ensures AfterRequest(m, rate, maxSize, ip, now) == [Item(ip, b)] + rest && b.lastUsed == b.lastRefill == now
    ensures WasAt(m, ip, q)
    ensures rest == if q >= 0 then m[..q] + m[q + 1..] else if |m| >= maxSize && m != [] then m[..|m| - 1] else m
    ensures var have := if q >= 0 then TokensNow(m[q].value, rate, now) else rate;
            (IsAllowed(m, rate, maxSize, ip, now) <==> have >= 1.0) && b.tokens == have - if have >= 1.0 then 1.0 else 0.0
  {
    FoundAtPlace(m, ip);
    var a := Admit(m, rate, maxSize, ip, now);
    b, rest := Take(Refill(a[0].value, rate, now)), a[1..];
    if Find(m, ip).None? {
      NotThere(m, ip);
      q := -1;
    } else {
      q :| PlaceOf(m, ip, q);
      RemoveAt(m, ip, q);
    }
  }

  /**
   A request puts its address in front, used now, and drops none but the last one, which is one
   unused for the longest time; so the table stays in the order of use.
   */
  lemma RequestKeepsOrder(m: Table, rate: real, maxSize: int, ip: Ip, now: real)
    requires Distinct(m) && InUseOrder(m) && forall i :: 0 <= i < |m| ==> m[i].value.lastUsed <= now
    ensures var m' := AfterRequest(m, rate, maxSize, ip, now);
            && InUseOrder(m') && m' != [] && m'[0].key == ip && m'[0].value.lastUsed == m'[0].value.lastRefill == now
            && (forall k :: 0 <= k < |m| && m[k].key != ip && m[k] !in m' ==> k == |m| - 1 && |m| >= maxSize && Find(m, ip).None?)
  {
    var b, rest, q := RequestByPlaces(m, rate, maxSize, ip, now);
    var m' := AfterRequest(m, rate, maxSize, ip, now);
    assert q < 0 ==> Find(m, ip).None? by { FoundAtPlace(m, ip); }
    hide AfterRequest, Distinct, Find, InUseOrder;
    RestInOrder(m, rest, q);
    FrontInOrder(Item(ip, b), rest);
    assert forall e :: e in rest ==> e in [Item(ip, b)] + rest;
    forall k | 0 <= k < |m| && m[k].key != ip && m[k] !in m' ensures k == |m| - 1 && |m| >= maxSize && q < 0 {
      Dropped(m, rest, q, k);
    }
  }

  lemma Dropped(m: Table, rest: Table, q: int, k: nat)
    requires k < |m| && -1 <= q < |m| && k != q
    requires rest == (if q >= 0 then m[..q] + m[q + 1..] else m) || (q < 0 && m != [] && rest == m[..|m| - 1])
    ensures m[k] in rest || (q < 0 && k == |m| - 1 && rest == m[..|m| - 1])
  {
    if q >= 0 {
      assert rest[if k < q then k else k - 1] == m[k];
    } else if k < |rest| {
      assert rest[k] == m[k];
    }
  }

  lemma RestInOrder(m: Table, rest: Table, q: int)
    requires InUseOrder(m) && -1 <= q < |m|
    requires rest == (if q >= 0 then m[..q] + m[q + 1..] else m) || (q < 0 && m != [] && rest == m[..|m| - 1])
    ensures InUseOrder(rest) && forall e :: e in rest ==> e in m
  {
    if q >= 0 {
      assert forall i :: 0 <= i < |rest| ==> rest[i] == m[if i < q then i else i + 1];
    } else {
      assert forall i :: 0 <= i < |rest| ==> rest[i] == m[i];
    }
  }

  lemma FrontInOrder(x: Item<Ip, Bucket>, rest: Table)
    requires InUseOrder(rest) && forall i :: 0 <= i < |rest| ==> rest[i].value.lastUsed <= x.value.lastUsed
    ensures InUseOrder([x] + rest)
  {
  }

  /** A sweep keeps exactly the addresses used in the last ten minutes, and their order. */
  lemma SweepKeepsRecent(m: Table, now: real)
    requires Distinct(m)
    ensures forall e :: e in Swept(m, now) <==> e in m && now - e.value.lastUsed <= 10.0
    ensures InUseOrder(m) ==> InUseOrder(Swept(m, now))
  {
    SweptShape(m, now);
    if InUseOrder(m) {
      SweptInOrder(m, now);
    }
  }

  lemma {:induction false} SweptInOrder(m: Table, now: real)
    requires InUseOrder(m)
    ensures InUseOrder(Swept(m, now)) && forall i :: 0 <= i < |Swept(m, now)| ==> Swept(m, now)[i] in m
  {
    if m != [] {
      var n := |m| - 1;
      LastInOrder(m);
      hide InUseOrder, Stale;
      SweptInOrder(m[..n], now);
      AppendInOrder(Swept(m[..n], now), m[n]);
      assert m[n] in m;
    }
  }

  lemma LastInOrder(m: Table)
    requires InUseOrder(m) && m != []
    ensures InUseOrder(m[..|m| - 1])
    ensures forall e :: e in m[..|m| - 1] ==> e in m && e.value.lastUsed >= m[|m| - 1].value.lastUsed
  {
    assert forall i :: 0 <= i < |m| - 1 ==> m[..|m| - 1][i] == m[i];
  }

  lemma AppendInOrder(m: Table, x: Item<Ip, Bucket>)
    requires InUseOrder(m) && forall i :: 0 <= i < |m| ==> m[i].value.lastUsed >= x.value.lastUsed
    ensures InUseOrder(m + [x])
  {
  }
}
