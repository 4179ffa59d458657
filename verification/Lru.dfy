/**
 Maps with a recency list: a map from keys to list elements beside the list of those elements,
 most recently used first.  The name cache, the AuxPow cache and the rate limiter are of this
 kind.
 */
module Lru {
  import opened Records

  // ----- the recency list a cache stands for -----

  datatype Item<K, V> = Item(key: K, value: V)

  function Keys<K(!new), V>(m: seq<Item<K, V>>): set<K> {
    set i | 0 <= i < |m| :: m[i].key
  }

  predicate Distinct<K(==), V>(m: seq<Item<K, V>>) {
    forall i, j :: 0 <= i < j < |m| ==> m[i].key != m[j].key
  }

  function Find<K(==), V>(m: seq<Item<K, V>>, key: K): Option<V> {
    if m == [] then None else if m[0].key == key then Some(m[0].value) else Find(m[1..], key)
  }

  function Remove<K(==), V>(m: seq<Item<K, V>>, key: K): seq<Item<K, V>> {
    if m == [] then [] else if m[0].key == key then m[1..] else [m[0]] + Remove(m[1..], key)
  }

  /** A hit moves the entry to the front; a miss changes nothing. */
  function AfterGet<K(==), V>(m: seq<Item<K, V>>, key: K): seq<Item<K, V>> {
    match Find(m, key)
    case None => m
    case Some(v) => [Item(key, v)] + Remove(m, key)
  }

  /** The entry goes to the front; inserting a new key beyond the capacity drops the last one. */
  function AfterPut<K(==), V>(m: seq<Item<K, V>>, capacity: nat, key: K, value: V): seq<Item<K, V>> {
    var m' := [Item(key, value)] + Remove(m, key);
    if Find(m, key).None? && |m'| > capacity then m'[..|m'| - 1] else m'
  }

  lemma {:induction false} RemoveAt<K, V>(m: seq<Item<K, V>>, key: K, i: nat)
    requires Distinct(m) && i < |m| && m[i].key == key
    ensures Remove(m, key) == m[..i] + m[i + 1..]
    ensures Find(m, key) == Some(m[i].value)
  {
    if i > 0 {
      assert m[0].key != key;
      RemoveAt(m[1..], key, i - 1);
      assert m[..i] == [m[0]] + m[1..][..i - 1];
    }
  }

  lemma {:induction false} Absent<K(!new), V>(m: seq<Item<K, V>>, key: K)
    ensures Find(m, key).None? <==> key !in Keys(m)
    ensures key !in Keys(m) ==> Remove(m, key) == m
  {
    if m != [] {
      Absent(m[1..], key);
      assert Keys(m) == Keys(m[1..]) + {m[0].key};
    }
  }

  lemma KeysOfCons<K(!new), V>(x: Item<K, V>, m: seq<Item<K, V>>)
    ensures Keys([x] + m) == {x.key} + Keys(m)
  {
    var c := [x] + m;
    forall k | k in Keys(m) ensures k in Keys(c) {
      var i := IndexOf(m, k);
      assert c[i + 1].key == k;
    }
    assert c[0].key == x.key;
  }

  lemma NotAmong<K(!new), V>(m: seq<Item<K, V>>, key: K)
    requires key !in Keys(m)
    ensures forall j :: 0 <= j < |m| ==> m[j].key != key
  {
    assert forall j :: 0 <= j < |m| ==> m[j].key in Keys(m);
  }

  lemma {:induction false} KeysCount<K(!new), V>(m: seq<Item<K, V>>)
    requires Distinct(m)
    ensures |Keys(m)| == |m|
  {
    if m == [] {
      assert Keys(m) == {};
    } else {
      FirstIsNew(m);
      hide Keys, Distinct;
      KeysCount(m[1..]);
    }
  }

  lemma FirstIsNew<K(!new), V>(m: seq<Item<K, V>>)
    requires Distinct(m) && m != []
    ensures Distinct(m[1..]) && m[0].key !in Keys(m[1..]) && Keys(m) == {m[0].key} + Keys(m[1..])
  {
    assert m == [m[0]] + m[1..];
    KeysOfCons(m[0], m[1..]);
  }

  lemma ReplaceFront<K(!new), V>(m: seq<Item<K, V>>, value: V)
    requires Distinct(m) && m != []
    ensures var m' := [Item(m[0].key, value)] + m[1..]; Distinct(m') && Keys(m') == Keys(m)
    ensures forall j :: 0 < j < |m| ==> m[j].key != m[0].key
  {
    assert m == [m[0]] + m[1..];
    KeysOfCons(m[0], m[1..]);
    KeysOfCons(Item(m[0].key, value), m[1..]);
  }

  /** Where a key is, if it is there. */
  lemma IndexOf<K(!new), V>(m: seq<Item<K, V>>, key: K) returns (i: nat)
    requires key in Keys(m)
    ensures i < |m| && m[i].key == key
  {
    i :| 0 <= i < |m| && m[i].key == key;
  }

  lemma RemoveDistinct<K(!new), V>(m: seq<Item<K, V>>, key: K)
    requires Distinct(m)
    ensures Distinct(Remove(m, key)) && key !in Keys(Remove(m, key))
    ensures |Remove(m, key)| <= |m|
    ensures forall k :: k in Keys(Remove(m, key)) <==> k in Keys(m) && k != key
  {
    Absent(m, key);
    if key in Keys(m) {
      var i := IndexOf(m, key);
      RemoveAt(m, key, i);
      var r := Remove(m, key);
      forall k | k in Keys(m) && k != key ensures k in Keys(r) {
        var j := IndexOf(m, k);
        assert r[if j < i then j else j - 1].key == k;
      }
      forall k | k in Keys(r) ensures k in Keys(m) && k != key {
        var j := IndexOf(r, k);
        assert m[if j < i then j else j + 1].key == k;
      }
    }
  }

  /** What is left after a removal was there before, under other keys. */
  lemma Survivors<K(!new), V(!new)>(m: seq<Item<K, V>>, key: K)
    requires Distinct(m)
    ensures forall i :: 0 <= i < |Remove(m, key)| ==> Remove(m, key)[i] in m && Remove(m, key)[i].key != key
  {
    Absent(m, key);
    RemoveDistinct(m, key);
    var r := Remove(m, key);
    if key in Keys(m) {
      var i := IndexOf(m, key);
      RemoveAt(m, key, i);
    }
    assert forall j :: 0 <= j < |r| ==> r[j].key in Keys(r);
  }

  lemma RemoveLength<K(!new), V>(m: seq<Item<K, V>>, key: K)
    requires Distinct(m)
    ensures |Remove(m, key)| == if Find(m, key).None? then |m| else |m| - 1
  {
    Absent(m, key);
    if key in Keys(m) {
      var i := IndexOf(m, key);
      RemoveAt(m, key, i);
    }
  }

  /** A new entry in front keeps keys distinct, also when the last entry is dropped, and is found. */
  lemma FrontKeepsDistinct<K(!new), V>(x: Item<K, V>, m: seq<Item<K, V>>, n: nat)
    requires Distinct(m) && x.key !in Keys(m) && n <= |m|
    ensures Distinct([x] + m[..n]) && Find([x] + m[..n], x.key) == Some(x.value)
  {
    NotAmong(m, x.key);
    var r := [x] + m[..n];
    assert forall j :: 0 < j < |r| ==> r[j] == m[j - 1];
  }

  /** The keys stay distinct and never exceed the capacity, and the new value is found. */
  lemma PutKeepsShape<K(!new), V>(m: seq<Item<K, V>>, capacity: nat, key: K, value: V)
    requires Distinct(m) && |m| <= capacity && capacity > 0
    ensures var m' := AfterPut(m, capacity, key, value);
            && Distinct(m') && |m'| <= capacity
            && Find(m', key) == Some(value)
  {
    hide Distinct, Remove, Find, Keys;
    var x, r := Item(key, value), Remove(m, key);
    RemoveDistinct(m, key);
    RemoveLength(m, key);
    FrontKeepsDistinct(x, r, |r|);
    assert [x] + r[..|r|] == [x] + r;
    if r != [] {
      FrontKeepsDistinct(x, r, |r| - 1);
      assert [x] + r[..|r| - 1] == ([x] + r)[..|r|];
    }
  }

  lemma GetKeepsShape<K(!new), V>(m: seq<Item<K, V>>, key: K)
    requires Distinct(m)
    ensures Distinct(AfterGet(m, key)) && |AfterGet(m, key)| == |m|
    ensures Keys(AfterGet(m, key)) == Keys(m)
  {
    hide Distinct, Remove, Find, Keys;
    Absent(m, key);
    RemoveDistinct(m, key);
    RemoveLength(m, key);
    if Find(m, key).Some? {
      var x, r := Item(key, Find(m, key).value), Remove(m, key);
      FrontKeepsDistinct(x, r, |r|);
      assert [x] + r[..|r|] == [x] + r;
      KeysOfCons(x, r);
    }
  }

  // ----- map and list -----

  class Element<K, V> {
    const key: K
    var value: V

    constructor (key: K, value: V)
      ensures this.key == key && this.value == value
    {
      this.key, this.value := key, value;
    }
  }

  /** The list without an element. */
  function Unlink<T(==)>(list: seq<T>, e: T): seq<T> {
    if list == [] then [] else if list[0] == e then list[1..] else [list[0]] + Unlink(list[1..], e)
  }

  lemma {:induction false} UnlinkAt<T>(list: seq<T>, e: T, i: nat)
    requires i < |list| && list[i] == e && forall j :: 0 <= j < i ==> list[j] != e
    ensures Unlink(list, e) == list[..i] + list[i + 1..]
  {
    if i > 0 {
      UnlinkAt(list[1..], e, i - 1);
      assert list[..i] == [list[0]] + list[1..][..i - 1];
    }
  }

  /** The map leads to each element of the list, and the list stands for m. */
  ghost predicate Linked<K(!new), V>(items: map<K, Element<K, V>>, repr: set<object>, list: seq<Element<K, V>>, m: seq<Item<K, V>>)
    reads list
  {
    && |list| == |m|
    && (forall i :: 0 <= i < |list| ==> list[i] in repr && m[i] == Item(list[i].key, list[i].value))
    && (forall i :: 0 <= i < |list| ==> list[i].key in items && items[list[i].key] == list[i])
  }

  function Fronted<T>(s: seq<T>, i: nat): (r: seq<T>)
    requires i < |s|
    ensures |r| == |s| && r[0] == s[i]
    ensures forall j :: 0 < j < |r| ==> r[j] == s[if j - 1 < i then j - 1 else j]
  {
    [s[i]] + (s[..i] + s[i + 1..])
  }

  function Without<T>(s: seq<T>, i: nat): (r: seq<T>)
    requires i < |s|
    ensures |r| == |s| - 1
    ensures forall j :: 0 <= j < |r| ==> r[j] == s[if j < i then j else j + 1]
  {
    s[..i] + s[i + 1..]
  }

  lemma WithoutPart<T>(s: seq<T>, i: nat)
    requires i < |s|
    ensures Without(s, i) == s[..i] + s[i + 1..] && forall x :: x in Without(s, i) ==> x in s
  {
  }

  lemma OneKeyLess<K, V>(items: map<K, V>, keys: set<K>, keys': set<K>, key: K)
    requires items.Keys == keys && forall k :: k in keys' <==> k in keys && k != key
    ensures (items - {key}).Keys == keys'
  {
  }

  lemma LinkedFront<K(!new), V>(items: map<K, Element<K, V>>, repr: set<object>, list: seq<Element<K, V>>, m: seq<Item<K, V>>, i: nat)
    requires Linked(items, repr, list, m) && i < |list|
    ensures Linked(items, repr, Fronted(list, i), Fronted(m, i))
  {
    hide Fronted;
  }

  lemma LinkedRemove<K(!new), V>(items: map<K, Element<K, V>>, repr: set<object>, list: seq<Element<K, V>>, m: seq<Item<K, V>>, i: nat)
    requires Linked(items, repr, list, m) && i < |list| && Distinct(m)
    ensures Linked(items - {list[i].key}, repr, Without(list, i), Without(m, i))
  {
    hide Without;
    assert forall j :: 0 <= j < |m| && j != i ==> m[j].key != m[i].key;
  }

  lemma LinkedTail<K(!new), V>(items: map<K, Element<K, V>>, repr: set<object>, list: seq<Element<K, V>>, m: seq<Item<K, V>>)
    requires Linked(items, repr, list, m) && list != [] && Distinct(m)
    ensures Linked(items, repr, list[1..], m[1..])
    ensures list[0] in repr && m[0].key == list[0].key && list[0].key in items && items[list[0].key] == list[0]
    ensures list[0] !in list[1..]
  {
    assert forall j :: 0 < j < |m| ==> m[j].key != m[0].key;
  }

  lemma LinkedCons<K(!new), V>(items: map<K, Element<K, V>>, repr: set<object>, e: Element<K, V>, list: seq<Element<K, V>>, m: seq<Item<K, V>>)
    requires Linked(items, repr, list, m) && e in repr && e.key in items && items[e.key] == e
    ensures Linked(items, repr, [e] + list, [Item(e.key, e.value)] + m)
  {
  }

  lemma LinkedPush<K(!new), V>(items: map<K, Element<K, V>>, repr: set<object>, list: seq<Element<K, V>>, m: seq<Item<K, V>>, e: Element<K, V>)
    requires Linked(items, repr, list, m) && e.key !in items
    ensures Linked(items[e.key := e], repr + {e}, [e] + list, [Item(e.key, e.value)] + m)
  {
  }

  /** A map from keys to the elements of a list, in the order in which they were last used. */
  class RecencyList<K(==,!new), V> {
    var items: map<K, Element<K, V>>
    var list: seq<Element<K, V>>

    /** The recency list the object stands for. */
    ghost var Model: seq<Item<K, V>>
    ghost var Repr: set<object>

    /** Map and list hold the same elements, one per key, and the list stands for Model. */
    ghost predicate Valid()
      reads this, Repr
      ensures Valid() ==> this in Repr
    {
      && this in Repr
      && (forall e :: e in list ==> e in Repr)
      && Linked(items, Repr, list, Model)
      && items.Keys == Keys(Model)
      && Distinct(Model)
    }

    constructor ()
      ensures Valid() && fresh(Repr) && Model == []
    {
      items, list := map[], [];
      Model, Repr := [], {this};
    }

    lemma SameLength()
      requires Valid()
      ensures |list| == |Model| == |items|
    {
      KeysCount(Model);
      assert |items| == |items.Keys|;
    }

    /** The element at a place of the list. */
    function At(i: nat): (e: Element<K, V>)
      reads this, Repr
      requires Valid() && i < |Model|
      ensures e.key in items && items[e.key] == e && Model[i] == Item(e.key, e.value)
    {
      list[i]
    }

    /** A key that is not in the recency list is not in the map. */
    lemma StaysAway(key: K)
      requires Valid() && forall i :: 0 <= i < |Model| ==> Model[i].key != key
      ensures key !in items
    {
    }

    /** Where a key is: the recency list, the list and the map agree on it. */
    lemma Position(key: K) returns (i: nat)
      requires Valid() && key in items
      ensures i < |list| == |Model| && list[i] == items[key] && Model[i] == Item(key, items[key].value)
      ensures items[key] in Repr && items[key].key == key
      ensures Unlink(list, items[key]) == list[..i] + list[i + 1..]
      ensures Remove(Model, key) == Model[..i] + Model[i + 1..]
      ensures Find(Model, key) == Some(items[key].value)
    {
      i := IndexOf(Model, key);
      assert list[i].key == key;
      forall j | 0 <= j < i ensures list[j] != list[i] {
        assert Model[j].key != Model[i].key;
      }
      UnlinkAt(list, items[key], i);
      RemoveAt(Model, key, i);
    }

    lemma Missing(key: K)
      requires Valid() && key !in items
      ensures Find(Model, key).None? && Remove(Model, key) == Model
      ensures forall i :: 0 <= i < |Model| ==> Model[i].key != key
    {
      Absent(Model, key);
      NotAmong(Model, key);
    }

    /** Takes an element out of the list and its key out of the map. */
    method RemoveElement(e: Element<K, V>)
      requires Valid() && e.key in items && items[e.key] == e
      modifies this
      ensures Valid() && Repr == old(Repr)
      ensures Model == Remove(old(Model), e.key)
    {
      hide Linked, Distinct, Keys, Remove, Unlink, Find, Without;
      ghost var i := Position(e.key);
      RemoveDistinct(Model, e.key);
      LinkedRemove(items, Repr, list, Model, i);
      WithoutPart(list, i);
      WithoutPart(Model, i);
      OneKeyLess(items, Keys(Model), Keys(Remove(Model, e.key)), e.key);
      list := Unlink(list, e);
      items := items - {e.key};
      Model := Remove(Model, e.key);
    }

    /** Takes out the element at a place of the list. */
    method RemoveAtPlace(i: nat)
      requires Valid() && i < |Model|
      modifies this
      ensures Valid() && Repr == old(Repr)
      ensures Model == old(Model)[..i] + old(Model)[i + 1..]
    {
      RemoveAt(Model, Model[i].key, i);
      RemoveElement(list[i]);
    }

    /** Takes out the element that was used longest ago. */
    method RemoveBack()
      requires Valid() && |list| > 0
      modifies this
      ensures Valid() && Repr == old(Repr)
      ensures Model == old(Model)[..|old(Model)| - 1]
    {
      RemoveAtPlace(|list| - 1);
    }

    method MoveToFront(e: Element<K, V>)
      requires Valid() && e.key in items && items[e.key] == e
      modifies `list, `Model
      ensures Valid()
      ensures Model == AfterGet(old(Model), e.key)
      ensures |list| > 0 && list[0] == e
    {
      ghost var i := Position(e.key);
      GetKeepsShape(Model, e.key);
      hide Linked, Distinct, Keys, Remove, Unlink, Find;
      LinkedFront(items, Repr, list, Model, i);
      list := [e] + Unlink(list, e);
      Model := AfterGet(Model, e.key);
    }

    /** Stores a value in the element at the front. */
    method SetFront(value: V)
      requires Valid() && |list| > 0
      modifies list[0], `Model
      ensures Valid()
      ensures Model == [Item(old(list[0].key), value)] + old(Model)[1..]
    {
      hide Linked, Keys, Distinct;
      ghost var m := Model;
      var e := list[0];
      SameLength();
      ReplaceFront(m, value);
      LinkedTail(items, Repr, list, m);
      ghost var tail := list[1..];
      e.value := value;
      LinkedCons(items, Repr, e, tail, m[1..]);
      assert list == [e] + tail;
      Model := [Item(e.key, value)] + m[1..];
    }

    method PushFront(key: K, value: V)
      requires Valid() && key !in items
      modifies this
      ensures Valid() && fresh(Repr - old(Repr))
      ensures Model == [Item(key, value)] + old(Model)
    {
      hide Linked, Keys;
      var e := new Element(key, value);
      ghost var m := Model;
      LinkedPush(items, Repr, list, Model, e);
      KeysOfCons(Item(key, value), m);
      NotAmong(m, key);
      list := [e] + list;
      items := items[key := e];
      Model, Repr := [Item(key, value)] + Model, Repr + {e};
    }
  }

  // ----- the cache -----

  class LruCache<K(==,!new), V> {
    const capacity: nat
    const entries: RecencyList<K, V>

    /** The recency list the cache stands for. */
    ghost var Model: seq<Item<K, V>>
    ghost var Repr: set<object>

    /** At most capacity keys are held. */
    ghost predicate Valid()
      reads this, Repr
      ensures Valid() ==> this in Repr
    {
      && this in Repr && entries in Repr && entries.Repr <= Repr && this !in entries.Repr
      && entries.Valid() && Model == entries.Model
      && Distinct(Model) && |Model| <= capacity && capacity > 0
    }

    constructor (capacity: int, defaultCapacity: nat)
      requires defaultCapacity > 0
      ensures Valid() && fresh(Repr)
      ensures Model == [] && this.capacity == if capacity <= 0 then defaultCapacity else capacity
    {
      this.capacity := if capacity <= 0 then defaultCapacity else capacity;
      entries := new RecencyList();
      Model := [];
      new;
      Repr := {this} + entries.Repr;
    }

    method Get(key: K) returns (r: Option<V>)
      requires Valid()
      modifies Repr
      ensures Valid() && Repr == old(Repr)
      ensures r == Find(old(Model), key)
      ensures Model == AfterGet(old(Model), key)
    {
      hide Distinct, Keys, Find, Remove, RecencyList.Valid;
      GetKeepsShape(Model, key);
      if key in entries.items {
        ghost var i := entries.Position(key);
        var e := entries.items[key];
        entries.MoveToFront(e);
        Model := entries.Model;
        r := Some(e.value);
      } else {
        entries.Missing(key);
        r := None;
      }
    }

    method Put(key: K, value: V) returns (evicted: bool)
      requires Valid()
      modifies Repr
      ensures Valid() && fresh(Repr - old(Repr))
      ensures Model == AfterPut(old(Model), capacity, key, value)
      ensures evicted <==> Find(old(Model), key).None? && |old(Model)| == capacity
    {
      hide Distinct, Keys, Find, Remove, RecencyList.Valid;
      PutKeepsShape(Model, capacity, key, value);
      if key in entries.items {
        ghost var i := entries.Position(key);
        entries.MoveToFront(entries.items[key]);
        entries.SetFront(value);
        evicted := false;
      } else {
        entries.Missing(key);
        entries.PushFront(key, value);
        entries.SameLength();
        evicted := |entries.list| > capacity;
        if evicted {
          entries.RemoveBack();
        }
        Repr := Repr + entries.Repr;
      }
      Model := entries.Model;
    }

    method Delete(key: K) returns (existed: bool)
      requires Valid()
      modifies Repr
      ensures Valid() && Repr == old(Repr)
      ensures Model == Remove(old(Model), key)
      ensures existed <==> Find(old(Model), key).Some?
    {
      hide Distinct, Keys, Find, Remove, RecencyList.Valid;
      RemoveDistinct(Model, key);
      existed := key in entries.items;
      if existed {
        ghost var i := entries.Position(key);
        entries.RemoveElement(entries.items[key]);
        Model := entries.Model;
      } else {
        entries.Missing(key);
      }
    }
  }
}
