/** Facts about finite maps and sets that the bucket proofs rewrite with. */
module Maps {
  function Restrict<K, V>(m: map<K, V>, s: set<K>): (r: map<K, V>)
    ensures r.Keys == m.Keys * s
    ensures forall k :: k in r ==> r[k] == m[k]
  {
    map k | k in m && k in s :: m[k]
  }

  function Members<V(!new)>(s: seq<V>): (r: set<V>)
    ensures forall v :: v in r <==> v in s
  {
    set v | v in s
  }

  /** Every element of every list in m. */
  function Elements<K(!new), V(!new)>(m: map<K, seq<V>>): (r: set<V>)
    ensures forall k, i :: k in m && 0 <= i < |m[k]| ==> m[k][i] in r
    ensures forall v :: v in r ==> exists k, i :: k in m && 0 <= i < |m[k]| && m[k][i] == v
  {
    set k, i | k in m && 0 <= i < |m[k]| :: m[k][i]
  }

  /** No element occurs twice, neither in one list nor in two. */
  ghost predicate Disjoint<K(!new), V(!new)>(m: map<K, seq<V>>) {
    forall a, i, b, j :: a in m && b in m && 0 <= i < |m[a]| && 0 <= j < |m[b]| && m[a][i] == m[b][j] ==> a == b && i == j
  }

  lemma Regroup<T>(a: seq<T>, b: seq<T>, c: seq<T>)
    ensures (a + b) + c == a + (b + c)
  {
  }

  lemma DropOneMore<K, V>(m: map<K, V>, s: set<K>, c: map<K, V>, k: K)
    requires k !in c
    ensures ((m - s) + c) - {k} == (m - (s + {k})) + c
  {
  }

  lemma AddOneMore<K, V>(m: map<K, V>, s: set<K>, c: map<K, V>, k: K, v: V)
    ensures ((m - s) + c)[k := v] == (m - s) + c[k := v]
  {
  }

  lemma BackUpOneMore<K, V>(m: map<K, V>, backup: map<K, V>, s: set<K>, k: K)
    requires k in m
    ensures (backup + Restrict(m, s))[k := m[k]] == backup + Restrict(m, s + {k})
  {
  }

  lemma Reinsert<K, V>(m: map<K, V>, s: set<K>)
    ensures (m - s) + Restrict(m, s) == m
  {
  }

  lemma DropBelow<K, V>(m: map<K, V>, dropped: set<K>, added: map<K, V>)
    requires dropped !! added.Keys
    ensures (m - dropped) + added == (m + added) - dropped
  {
  }

  lemma DropAdded<K, V>(m: map<K, V>, s: set<K>, c: map<K, V>)
    requires c.Keys !! m.Keys
    ensures ((m - s) + c) - c.Keys == m - s
  {
  }

  /** Values backed up from m can be read back from, and removed from, the backup. */
  lemma RestrictAdded<K, V>(backup: map<K, V>, m: map<K, V>, s: set<K>)
    requires s <= m.Keys && s !! backup.Keys
    ensures Restrict(backup + Restrict(m, s), s) == Restrict(m, s)
    ensures (backup + Restrict(m, s)) - s == backup
  {
  }

  lemma RestrictOutside<K, V>(m: map<K, V>, s: set<K>, dropped: set<K>)
    requires s !! dropped
    ensures Restrict(m - dropped, s) == Restrict(m, s)
    ensures (m - dropped) - s == (m - s) - dropped
  {
  }

  lemma DisjointAppend<K(!new), V(!new)>(m: map<K, seq<V>>, k: K, list: seq<V>, v: V)
    requires Disjoint(m)
    requires list == if k in m then m[k] else []
    requires forall a, i :: a in m && 0 <= i < |m[a]| ==> m[a][i] != v
    ensures Disjoint(m[k := list + [v]])
  {
    var m' := m[k := list + [v]];
    forall a, i, b, j | a in m' && b in m' && 0 <= i < |m'[a]| && 0 <= j < |m'[b]| && m'[a][i] == m'[b][j]
      ensures a == b && i == j
    {
      assert a != k || i < |list| ==> a in m && i < |m[a]| && m'[a][i] == m[a][i];
      assert b != k || j < |list| ==> b in m && j < |m[b]| && m'[b][j] == m[b][j];
    }
  }

  /** Two maps of lists without a common key or element. */
  lemma DisjointUnion<K(!new), V(!new)>(a: map<K, seq<V>>, b: map<K, seq<V>>, inA: set<V>, inB: set<V>)
    requires Disjoint(a) && Disjoint(b) && a.Keys !! b.Keys && inA !! inB
    requires forall k, i :: k in a && 0 <= i < |a[k]| ==> a[k][i] in inA
    requires forall k, i :: k in b && 0 <= i < |b[k]| ==> b[k][i] in inB
    ensures Disjoint(a + b)
  {
    var m := a + b;
    forall k, i | k in m && 0 <= i < |m[k]| ensures m[k][i] in if k in a then inA else inB {
      assert k in a ==> m[k] == a[k];
    }
  }

  lemma PutAndDrop<K, V>(m: map<K, V>, k: K, v: V)
    requires k !in m
    ensures m[k := v] - {k} == m
  {
  }

  lemma PutTwice<K, V>(m: map<K, V>, k: K, v: V)
    requires k in m
    ensures m[k := v][k := m[k]] == m
  {
  }

  lemma ElementsOneMore<K(!new), V(!new)>(m: map<K, seq<V>>, s: set<K>, k: K)
    requires k in m
    ensures Elements(Restrict(m, s + {k})) == Elements(Restrict(m, s)) + Members(m[k])
  {
    var a, b := Restrict(m, s), Restrict(m, s + {k});
    forall v | v in Elements(b) ensures v in Elements(a) + Members(m[k]) {
      var j, i :| j in b && 0 <= i < |b[j]| && b[j][i] == v;
      assert j in a ==> a[j][i] in Elements(a);
    }
    forall v | v in Elements(a) ensures v in Elements(b) {
      var j, i :| j in a && 0 <= i < |a[j]| && a[j][i] == v;
      assert b[j][i] in Elements(b);
    }
    forall v | v in m[k] ensures v in Elements(b) {
      var i :| 0 <= i < |m[k]| && m[k][i] == v;
      assert b[k][i] in Elements(b);
    }
  }

  lemma RestrictNone<K, V>(m: map<K, V>)
    ensures Restrict(m, {}) == map[]
    ensures m - {} == m
    ensures m + map[] == m
  {
  }

  lemma DropMore<K, V>(m: map<K, V>, s: set<K>, t: set<K>)
    ensures (m - s) - t == m - (s + t)
  {
  }

  /** Backing up s and then, from what is left, t backs up both. */
  lemma BackUpMore<K, V>(m: map<K, V>, backup: map<K, V>, s: set<K>, t: set<K>)
    ensures (backup + Restrict(m, s)) + Restrict(m - s, t) == backup + Restrict(m, s + t)
  {
  }

  lemma UnionOneMore<K>(a: set<K>, b: set<K>, k: K)
    ensures a + (b + {k}) == (a + b) + {k}
  {
  }

  lemma PutUnder<K, V>(m: map<K, V>, over: map<K, V>, k: K, v: V)
    requires k !in over
    ensures (m + over)[k := v] == m[k := v] + over
  {
  }

  /** Taking s out of m and added, when s covers what was added. */
  lemma TakeBack<K, V>(m: map<K, V>, added: map<K, V>, s: set<K>)
    requires m.Keys !! added.Keys && added.Keys <= s
    ensures Restrict(m + added, s) == added + Restrict(m, s)
    ensures (m + added) - s == m - s
  {
  }

  lemma NothingTaken<K, V>(m: map<K, V>, s: set<K>)
    requires m.Keys !! s
    ensures Restrict(m, s) == map[] && m - s == m
  {
  }

  lemma Associate<K, V>(a: map<K, V>, b: map<K, V>, c: map<K, V>)
    ensures (a + b) + c == a + (b + c)
  {
  }

  lemma UnionSwap<K>(a: set<K>, b: set<K>, k: K)
    ensures (a + b) + {k} == (a + {k}) + b
  {
  }

  lemma DropBelowSet<K>(a: set<K>, b: set<K>, dropped: set<K>)
    requires dropped !! b
    ensures (a + b) - dropped == (a - dropped) + b
  {
  }

  lemma RestrictAll<K, V>(m: map<K, V>, s: set<K>)
    requires s <= m.Keys
    ensures Restrict(m, s).Keys == s
  {
  }

  lemma DropBoth<K, V>(m: map<K, V>, s: set<K>, t: set<K>)
    ensures (m - s) - t == (m - t) - s
  {
  }

  lemma ElementsPart<K(!new), V(!new)>(m: map<K, seq<V>>, part: map<K, seq<V>>)
    requires forall k :: k in part ==> k in m && part[k] == m[k]
    ensures Elements(part) <= Elements(m)
  {
    forall v | v in Elements(part) ensures v in Elements(m) {
      var k, i :| k in part && 0 <= i < |part[k]| && part[k][i] == v;
      assert m[k][i] in Elements(m);
    }
  }

  lemma ElementsAppend<K(!new), V(!new)>(m: map<K, seq<V>>, k: K, list: seq<V>, v: V)
    requires list == if k in m then m[k] else []
    ensures Elements(m[k := list + [v]]) == Elements(m) + {v}
  {
    var m' := m[k := list + [v]];
    forall x | x in Elements(m') ensures x in Elements(m) + {v} {
      var j, i :| j in m' && 0 <= i < |m'[j]| && m'[j][i] == x;
      assert j != k || i < |list| ==> j in m && i < |m[j]| && m[j][i] == x;
    }
    forall x | x in Elements(m) + {v} ensures x in Elements(m') {
      if x in Elements(m) {
        var j, i :| j in m && 0 <= i < |m[j]| && m[j][i] == x;
        assert m'[j][i] == x;
      } else {
        assert m'[k][|list|] == v;
      }
    }
  }

  lemma ElementsUnion<K(!new), V(!new)>(m: map<K, seq<V>>, s: set<K>, t: set<K>)
    ensures Elements(Restrict(m, s + t)) == Elements(Restrict(m, s)) + Elements(Restrict(m, t))
  {
    var a, b, c := Restrict(m, s), Restrict(m, t), Restrict(m, s + t);
    forall v | v in Elements(c) ensures v in Elements(a) + Elements(b) {
      var j, i :| j in c && 0 <= i < |c[j]| && c[j][i] == v;
      assert j in a ==> a[j][i] in Elements(a);
      assert j in b ==> b[j][i] in Elements(b);
    }
    forall v | v in Elements(a) ensures v in Elements(c) {
      var j, i :| j in a && 0 <= i < |a[j]| && a[j][i] == v;
      assert c[j][i] in Elements(c);
    }
    forall v | v in Elements(b) ensures v in Elements(c) {
      var j, i :| j in b && 0 <= i < |b[j]| && b[j][i] == v;
      assert c[j][i] in Elements(c);
    }
  }

  lemma DisjointPart<K(!new), V(!new)>(m: map<K, seq<V>>, s: set<K>)
    requires Disjoint(m)
    ensures Disjoint(Restrict(m, s))
  {
  }
}
