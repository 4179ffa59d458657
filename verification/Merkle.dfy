/**
 Merkle branches of merged-mining proofs.  The double SHA-256 is a parameter: completeness
 holds for any function, and soundness produces a collision of the function it is given.
 */
module Merkle {
  import opened Bytes
  import opened Records

  type HashFunction = Bytes -> Hash

  /** A path from a leaf to the root: siblings from the bottom up, and which side they are on. */
  datatype Branch = Branch(siblings: seq<Hash>, sideMask: Uint32)

  /** (x >> k) & 1. */
  function Bit(x: nat, k: nat): nat {
    if k == 0 then x % 2 else Bit(x / 2, k - 1)
  }

  /** The d lowest bits of x. */
  function Low(x: nat, d: nat): nat {
    if d == 0 then 0 else x % 2 + 2 * Low(x / 2, d - 1)
  }

  function Pow2(d: nat): (r: nat)
    ensures r > 0
  {
    if d == 0 then 1 else 2 * Pow2(d - 1)
  }

  /** Two hashes side by side. */
  function Join(left: Hash, right: Hash): (r: Bytes)
    ensures |r| == 2 * HASH_SIZE && r[..HASH_SIZE] == left && r[HASH_SIZE..] == right
  {
    left + right
  }

  /** One level up. */
  function Combine(dsha: HashFunction, hash: Hash, sibling: Hash, side: nat): Hash {
    if side == 0 then dsha(Join(hash, sibling)) else dsha(Join(sibling, hash))
  }

  /** Where the walk up from a leaf ends. */
  function Walk(dsha: HashFunction, leaf: Hash, siblings: seq<Hash>, mask: nat): Hash {
    if siblings == [] then leaf
    else
      var n := |siblings| - 1;
      Combine(dsha, Walk(dsha, leaf, siblings[..n], mask), siblings[n], Bit(mask, n))
  }

  // ----- the walks in the code -----

  lemma {:induction false} BitByDivision(x: nat, k: nat)
    ensures Bit(x, k) == x / Pow2(k) % 2
  {
    if k > 0 {
      BitByDivision(x / 2, k - 1);
      DivDiv(x, Pow2(k - 1));
    }
  }

  lemma DivDiv(x: nat, m: nat)
    requires m > 0
    ensures x / 2 / m == x / (2 * m)
  {
    var y := x / 2;
    var q := y / m;
    var r := x - 2 * m * q;
    var s := y - m * q;
    assert 0 <= s < m && x == 2 * y + x % 2;
    assert r == 2 * s + x % 2;
    assert 0 <= r < 2 * m;
    Quotient(x, 2 * m, q, r);
  }

  lemma Quotient(x: nat, m: nat, q: nat, r: nat)
    requires m > 0 && x == m * q + r && r < m
    ensures x / m == q && x % m == r
  {
    var k, r' := x / m, x % m;
    assert x == m * k + r' && 0 <= r' < m;
    if k > q {
      OneMultipleMore(m, q, k);
    } else if q > k {
      OneMultipleMore(m, k, q);
    }
  }

  lemma OneMultipleMore(m: nat, a: nat, b: nat)
    requires a < b
    ensures m * a + m <= m * b
  {
    Multiples(m, a + 1, b);
    Multiples(m, a, b);
  }

  lemma Multiples(m: nat, a: nat, b: nat)
    requires a <= b
    ensures m * a <= m * b
    ensures m * (a + 1) == m * a + m
    ensures a > 0 ==> m * a == m * (a - 1) + m
  {
  }

  method CheckMerkleBranch(dsha: HashFunction, leaf: Hash, branch: Branch, root: Hash) returns (ok: bool)
    ensures ok <==> Walk(dsha, leaf, branch.siblings, branch.sideMask) == root
  {
    var hash := leaf;
    for i := 0 to |branch.siblings|
      invariant hash == Walk(dsha, leaf, branch.siblings[..i], branch.sideMask)
    {
      assert branch.siblings[..i + 1][..i] == branch.siblings[..i];
      var sideBit := branch.sideMask / Pow2(i) % 2;
      BitByDivision(branch.sideMask, i);
      var combined: Bytes;
      if sideBit == 0 {
        combined := Join(hash, branch.siblings[i]);
      } else {
        combined := Join(branch.siblings[i], hash);
      }
      hash := dsha(combined);
    }
    assert branch.siblings[..|branch.siblings|] == branch.siblings;
    ok := hash == root;
  }

  method ComputeChainMerkleRoot(dsha: HashFunction, leaf: Hash, branch: Branch) returns (root: Hash)
    ensures root == Walk(dsha, leaf, branch.siblings, branch.sideMask)
  {
    root := leaf;
    for i := 0 to |branch.siblings|
      invariant root == Walk(dsha, leaf, branch.siblings[..i], branch.sideMask)
    {
      assert branch.siblings[..i + 1][..i] == branch.siblings[..i];
      var sideBit := branch.sideMask / Pow2(i) % 2;
      BitByDivision(branch.sideMask, i);
      root := dsha(if sideBit == 0 then Join(root, branch.siblings[i]) else Join(branch.siblings[i], root));
    }
    assert branch.siblings[..|branch.siblings|] == branch.siblings;
  }

  // ----- trees -----

  /** The root of a perfect tree of depth d. */
  function Root(dsha: HashFunction, leaves: seq<Hash>, d: nat): Hash
    requires |leaves| == Pow2(d)
  {
    if d == 0 then leaves[0]
    else
      var half := Pow2(d - 1);
      dsha(Join(Root(dsha, leaves[..half], d - 1), Root(dsha, leaves[half..], d - 1)))
  }

  /** The siblings on the way from leaf i to the root. */
  function Path(dsha: HashFunction, leaves: seq<Hash>, d: nat, i: nat): (r: seq<Hash>)
    requires |leaves| == Pow2(d) && i < Pow2(d)
    ensures |r| == d
  {
    if d == 0 then []
    else
      var half := Pow2(d - 1);
      if i < half then Path(dsha, leaves[..half], d - 1, i) + [Root(dsha, leaves[half..], d - 1)]
      else Path(dsha, leaves[half..], d - 1, i - half) + [Root(dsha, leaves[..half], d - 1)]
  }

  lemma {:induction false} LowBound(x: nat, d: nat)
    ensures Low(x, d) < Pow2(d)
  {
    if d > 0 { LowBound(x / 2, d - 1); }
  }

  /** Low is the remainder modulo 2^d. */
  lemma {:induction false} LowIsRemainder(x: nat, d: nat)
    ensures Low(x, d) == x % Pow2(d)
  {
    if d > 0 {
      LowIsRemainder(x / 2, d - 1);
      HalveRemainder(x, Pow2(d - 1));
    }
  }

  lemma HalveRemainder(x: nat, m: nat)
    requires m > 0
    ensures x % (2 * m) == x % 2 + 2 * (x / 2 % m)
  {
    var q, r := x / 2 / m, x / 2 % m;
    var z := m * q;
    assert x / 2 == z + r && r < m;
    DoubleProduct(m, q);
    Quotient(x, 2 * m, q, x % 2 + 2 * r);
  }

  lemma DoubleProduct(m: nat, q: nat)
    ensures (2 * m) * q == 2 * (m * q)
  {
  }

  /** The top bit decides the half of the tree, the others the place in it. */
  lemma {:induction false} LowSplit(x: nat, d: nat)
    requires d > 0
    ensures Low(x, d) == Low(x, d - 1) + (if Bit(x, d - 1) == 0 then 0 else Pow2(d - 1))
    ensures Bit(x, d - 1) <= 1
  {
    if d > 1 { LowSplit(x / 2, d - 1); }
  }

  lemma WalkOn(dsha: HashFunction, leaf: Hash, siblings: seq<Hash>, s: Hash, mask: nat)
    ensures Walk(dsha, leaf, siblings + [s], mask) == Combine(dsha, Walk(dsha, leaf, siblings, mask), s, Bit(mask, |siblings|))
  {
    assert (siblings + [s])[..|siblings|] == siblings;
  }

  /** The path of a leaf is accepted with any mask whose low bits are the leaf's index. */
  lemma {:induction false} Completeness(dsha: HashFunction, leaves: seq<Hash>, d: nat, mask: nat)
    requires |leaves| == Pow2(d)
    ensures Low(mask, d) < Pow2(d)
    ensures Walk(dsha, leaves[Low(mask, d)], Path(dsha, leaves, d, Low(mask, d)), mask) == Root(dsha, leaves, d)
  {
    hide Walk, Low, Bit, Path, Root, Pow2;
    LowBound(mask, d);
    if d == 0 {
      SingleLeaf(dsha, leaves, mask);
    } else {
      Doubles(d);
      LowBound(mask, d - 1);
      Completeness(dsha, leaves[..Pow2(d - 1)], d - 1, mask);
      Completeness(dsha, leaves[Pow2(d - 1)..], d - 1, mask);
      OneLevelUp(dsha, leaves, d, mask);
    }
  }

  lemma Doubles(d: nat)
    requires d > 0
    ensures Pow2(d) == 2 * Pow2(d - 1)
  {
  }

  lemma SingleLeaf(dsha: HashFunction, leaves: seq<Hash>, mask: nat)
    requires |leaves| == Pow2(0)
    ensures Low(mask, 0) == 0 < Pow2(0)
    ensures Walk(dsha, leaves[0], Path(dsha, leaves, 0, 0), mask) == Root(dsha, leaves, 0)
  {
  }

  /** If the paths in both halves are accepted, so is the path in the whole tree. */
  lemma OneLevelUp(dsha: HashFunction, leaves: seq<Hash>, d: nat, mask: nat)
    requires d > 0 && |leaves| == Pow2(d) && Low(mask, d) < Pow2(d) && Low(mask, d - 1) < Pow2(d - 1)
    requires var left, i := leaves[..Pow2(d - 1)], Low(mask, d - 1);
             Walk(dsha, left[i], Path(dsha, left, d - 1, i), mask) == Root(dsha, left, d - 1)
    requires var right, i := leaves[Pow2(d - 1)..], Low(mask, d - 1);
             Walk(dsha, right[i], Path(dsha, right, d - 1, i), mask) == Root(dsha, right, d - 1)
    ensures Walk(dsha, leaves[Low(mask, d)], Path(dsha, leaves, d, Low(mask, d)), mask) == Root(dsha, leaves, d)
  {
    hide Walk, Low, Bit, Join, Root, Path, Pow2;
    var half, j := Pow2(d - 1), Low(mask, d - 1);
    LowSplit(mask, d);
    Doubles(d);
    var left, right := leaves[..half], leaves[half..];
    Halves(dsha, leaves, d, Low(mask, d));
    if Bit(mask, d - 1) == 0 {
      WalkOn(dsha, left[j], Path(dsha, left, d - 1, j), Root(dsha, right, d - 1), mask);
    } else {
      WalkOn(dsha, right[j], Path(dsha, right, d - 1, j), Root(dsha, left, d - 1), mask);
    }
  }

  /** A tree and its paths in terms of its halves. */
  lemma Halves(dsha: HashFunction, leaves: seq<Hash>, d: nat, i: nat)
    requires d > 0 && |leaves| == Pow2(d) && i < Pow2(d)
    ensures Pow2(d) == 2 * Pow2(d - 1)
    ensures var half := Pow2(d - 1);
            var left, right := leaves[..half], leaves[half..];
            && Root(dsha, leaves, d) == dsha(Join(Root(dsha, left, d - 1), Root(dsha, right, d - 1)))
            && Path(dsha, leaves, d, i) == if i < half then Path(dsha, left, d - 1, i) + [Root(dsha, right, d - 1)]
                                           else Path(dsha, right, d - 1, i - half) + [Root(dsha, left, d - 1)]
  {
  }

  /** For a leaf of a tree of depth at most 32 the index itself is the mask. */
  lemma LeafIsProved(dsha: HashFunction, leaves: seq<Hash>, d: nat, i: nat)
    requires d <= 32 && |leaves| == Pow2(d) && i < Pow2(d)
    ensures i < TWO_32
    ensures Walk(dsha, leaves[i], Path(dsha, leaves, d, i), i) == Root(dsha, leaves, d)
  {
    hide Walk, Low, Bit, Path, Root, Pow2;
    LowIsRemainder(i, d);
    Quotient(i, Pow2(d), 0, i);
    Pow2Monotone(d, 32);
    ThirtyTwo();
    Completeness(dsha, leaves, d, i);
  }

  lemma {:induction false} Pow2Monotone(a: nat, b: nat)
    requires a <= b
    ensures Pow2(a) <= Pow2(b)
    decreases b
  {
    if a < b { Pow2Monotone(a, b - 1); }
  }

  lemma ThirtyTwo()
    ensures Pow2(32) == TWO_32
  {
    assert Pow2(8) == 256;
    Pow2Sum(8, 8);
    Pow2Sum(16, 16);
  }

  lemma {:induction false} Pow2Sum(a: nat, b: nat)
    ensures Pow2(a + b) == Pow2(a) * Pow2(b)
  {
    if a > 0 { Pow2Sum(a - 1, b); }
  }

  ghost predicate Collision(dsha: HashFunction, a: Bytes, b: Bytes) {
    a != b && |a| == |b| == 2 * HASH_SIZE && dsha(a) == dsha(b)
  }

  /**
   An accepted path of the tree's depth proves the leaf whose index is the mask's low bits: from
   a path accepted for anything else, two colliding inputs of the hash function can be read off.
   */
  lemma {:induction false} Soundness(dsha: HashFunction, leaves: seq<Hash>, d: nat, leaf: Hash, siblings: seq<Hash>, mask: nat)
    returns (a: Bytes, b: Bytes)
    requires |leaves| == Pow2(d) && |siblings| == d
    requires Walk(dsha, leaf, siblings, mask) == Root(dsha, leaves, d)
    ensures Low(mask, d) < Pow2(d)
    ensures leaf == leaves[Low(mask, d)] || Collision(dsha, a, b)
    decreases d
  {
    LowBound(mask, d);
    a, b := [], [];
    if d > 0 {
      var half, n := Pow2(d - 1), d - 1;
      var w := Walk(dsha, leaf, siblings[..n], mask);
      var l, r := Root(dsha, leaves[..half], n), Root(dsha, leaves[half..], n);
      LowSplit(mask, d);
      LowBound(mask, n);
      a := if Bit(mask, n) == 0 then Join(w, siblings[n]) else Join(siblings[n], w);
      b := Join(l, r);
      if a == b {
        if Bit(mask, n) == 0 {
          assert w == l;
          a, b := Soundness(dsha, leaves[..half], n, leaf, siblings[..n], mask);
        } else {
          assert w == r;
          a, b := Soundness(dsha, leaves[half..], n, leaf, siblings[..n], mask);
        }
      }
    }
  }

  /** Two leaves accepted at the same place of the same tree are equal, or the hash function collides. */
  lemma OneLeafPerPlace(dsha: HashFunction, leaves: seq<Hash>, d: nat, leaf: Hash, leaf': Hash, s: seq<Hash>, s': seq<Hash>, mask: nat)
    returns (a: Bytes, b: Bytes)
    requires |leaves| == Pow2(d) && |s| == |s'| == d
    requires Walk(dsha, leaf, s, mask) == Walk(dsha, leaf', s', mask) == Root(dsha, leaves, d)
    ensures leaf == leaf' || Collision(dsha, a, b)
  {
    a, b := Soundness(dsha, leaves, d, leaf, s, mask);
    if !Collision(dsha, a, b) {
      a, b := Soundness(dsha, leaves, d, leaf', s', mask);
    }
  }
}
