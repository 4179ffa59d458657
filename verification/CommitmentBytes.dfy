/** The chain commitment of a merged-mining proof, decided by the bytes of the parent coinbase. */
module CommitmentBytes {
  import opened Bytes
  import opened Records
  import opened Merkle
  import C = Commitment
  import Digits

  /** The 32 bytes from p on are the hash. */
  predicate HashAt(data: Bytes, p: nat, h: Hash) {
    p + 32 <= |data| && forall i :: p <= i < p + 32 ==> data[i] == h[i - p]
  }

  /** The 32 bytes from p on are the hash read backwards. */
  predicate BackwardsAt(data: Bytes, p: nat, h: Hash) {
    p + 32 <= |data| && forall i :: p <= i < p + 32 ==> data[i] == h[p + 31 - i]
  }

  predicate MagicAt(data: Bytes, p: nat) {
    p + 4 <= |data| && data[p] == 0xfa && data[p + 1] == 0xbe && data[p + 2] == 0x6d && data[p + 3] == 0x6d
  }

  /** 40 bytes: the magic, the root in either byte order, the size of the tree. */
  predicate EntryAt(data: Bytes, p: nat, root: Hash, size: nat) {
    && p + 40 <= |data|
    && MagicAt(data, p)
    && (HashAt(data, p + 4, root) || BackwardsAt(data, p + 4, root))
    && Digits.Little4(data, p + 36) == size
  }

  lemma SliceIsHash(data: Bytes, p: nat, h: Hash)
    requires p + 32 <= |data|
    ensures data[p..p + 32] == h <==> HashAt(data, p, h)
    ensures data[p..p + 32] == C.Reversed(h) <==> BackwardsAt(data, p, h)
  {
    var s := data[p..p + 32];
    assert forall i :: p <= i < p + 32 ==> data[i] == s[i - p];
    forall i: nat | i < 32 ensures C.Reversed(h)[i] == h[31 - i] {
      C.ReversedAt(h, i);
    }
    if s == C.Reversed(h) {
      forall i | p <= i < p + 32 ensures data[i] == h[p + 31 - i] {
        assert s[i - p] == C.Reversed(h)[i - p];
      }
    }
    if HashAt(data, p, h) { assert s == h; }
    if BackwardsAt(data, p, h) { assert s == C.Reversed(h); }
  }

  lemma SliceIsMagic(data: Bytes, p: nat)
    ensures C.OccursAt(data, p, C.MAGIC) <==> MagicAt(data, p)
  {
    if p + 4 <= |data| {
      var s := data[p..p + 4];
      assert s[0] == data[p] && s[1] == data[p + 1] && s[2] == data[p + 2] && s[3] == data[p + 3];
      assert s == [data[p], data[p + 1], data[p + 2], data[p + 3]];
    }
  }

  lemma SliceIsSize(data: Bytes, p: nat)
    requires p + 4 <= |data|
    ensures FromLittleEndian(data[p..p + 4]) == Digits.Little4(data, p)
  {
    var s := data[p..p + 4];
    assert s == [data[p], data[p + 1], data[p + 2], data[p + 3]];
    Digits.FourLittle(data[p], data[p + 1], data[p + 2], data[p + 3]);
  }

  lemma EntryIsCommitment(data: Bytes, p: nat, root: Hash, size: nat)
    ensures C.CommitsAt(data, p, root, size) <==> EntryAt(data, p, root, size)
  {
    hide HashAt, BackwardsAt, MagicAt, Digits.Little4, C.OccursAt, C.Reversed, FromLittleEndian;
    SliceIsMagic(data, p);
    if p + 40 <= |data| {
      SliceIsHash(data, p + 4, root);
      SliceIsSize(data, p + 36);
    }
  }

  /** Somewhere in the data. */
  ghost predicate HashSomewhere(data: Bytes, h: Hash) {
    exists p: nat :: HashAt(data, p, h) || BackwardsAt(data, p, h)
  }

  /** At exactly one place in the data. */
  ghost predicate EntryOnce(data: Bytes, root: Hash, size: nat) {
    exists p: nat :: EntryAt(data, p, root, size) && forall q: nat :: EntryAt(data, q, root, size) ==> q == p
  }

  lemma ContainsHash(data: Bytes, h: Hash)
    ensures C.Contains(data, h) || C.Contains(data, C.Reversed(h)) <==> HashSomewhere(data, h)
  {
    hide HashAt, BackwardsAt, C.Reversed;
    if p: nat :| C.OccursAt(data, p, h) || C.OccursAt(data, p, C.Reversed(h)) {
      SliceIsHash(data, p, h);
    }
    if p: nat :| HashAt(data, p, h) || BackwardsAt(data, p, h) {
      HashFits(data, p, h);
      SliceIsHash(data, p, h);
      assert C.OccursAt(data, p, h) || C.OccursAt(data, p, C.Reversed(h));
    }
  }

  lemma HashFits(data: Bytes, p: nat, h: Hash)
    requires HashAt(data, p, h) || BackwardsAt(data, p, h)
    ensures p + 32 <= |data|
  {
  }

  lemma EntryOnceIsUnique(data: Bytes, root: Hash, size: nat)
    ensures C.UniqueCommitment(data, root, size) <==> EntryOnce(data, root, size)
  {
    hide EntryAt, C.CommitsAt;
    forall p: nat ensures C.CommitsAt(data, p, root, size) <==> EntryAt(data, p, root, size) {
      EntryIsCommitment(data, p, root, size);
    }
  }

  /**
   Which coinbases pass.  Without chain branch: those that hold the block hash, forwards or
   backwards.  With 1 to 32 siblings: all, when the branch ends in the coinbase hash; else, up to
   31 siblings, those with exactly one entry for the end of the branch and 2^n as the size.
   */
  lemma CommittedByBytes(dsha: HashFunction, blockHash: Hash, branch: Branch, coinbaseHash: Hash, data: Bytes)
    ensures C.Committed(dsha, blockHash, branch, coinbaseHash, data) <==>
            var n, end := |branch.siblings|, Walk(dsha, blockHash, branch.siblings, branch.sideMask);
            || (n == 0 && HashSomewhere(data, blockHash))
            || (1 <= n <= 32 && end == coinbaseHash)
            || (1 <= n <= 31 && EntryOnce(data, end, Pow2(n)))
  {
    hide Walk, Pow2, C.Contains, C.UniqueCommitment, HashSomewhere, EntryOnce;
    ContainsHash(data, blockHash);
    EntryOnceIsUnique(data, Walk(dsha, blockHash, branch.siblings, branch.sideMask), Pow2(|branch.siblings|));
  }

  /** A coinbase with one entry, and no second magic, commits to the root of the branch. */
  lemma OneEntryPasses(dsha: HashFunction, blockHash: Hash, branch: Branch, coinbaseHash: Hash,
                       before: Bytes, root: Hash, size: seq<byte>, after: Bytes)
    requires 1 <= |branch.siblings| <= 31 && |size| == 4
    requires root == Walk(dsha, blockHash, branch.siblings, branch.sideMask)
    requires size[0] as nat + 256 * size[1] as nat + 65536 * size[2] as nat + 16777216 * size[3] as nat == Pow2(|branch.siblings|)
    requires var data := before + [0xfa, 0xbe, 0x6d, 0x6d] + root + size + after;
             forall p: nat :: MagicAt(data, p) ==> p == |before|
    ensures C.Committed(dsha, blockHash, branch, coinbaseHash, before + [0xfa, 0xbe, 0x6d, 0x6d] + root + size + after)
  {
    hide Walk, Pow2, C.Committed;
    var data, k := before + [0xfa, 0xbe, 0x6d, 0x6d] + root + size + after, |before|;
    assert EntryAt(data, k, root, Pow2(|branch.siblings|)) by {
      assert data[k] == 0xfa && data[k + 1] == 0xbe && data[k + 2] == 0x6d && data[k + 3] == 0x6d;
      assert data[k + 36] == size[0] && data[k + 37] == size[1] && data[k + 38] == size[2] && data[k + 39] == size[3];
      assert data[k + 4..k + 36] == root;
      assert forall i :: k + 4 <= i < k + 36 ==> data[i] == data[k + 4..k + 36][i - (k + 4)];
    }
    CommittedByBytes(dsha, blockHash, branch, coinbaseHash, data);
  }

  // ----- the branch, from the leaf up -----

  /** One sibling more at the bottom: it joins on the right of an even position, on the left of an odd one. */
  lemma {:induction false} WalkFromLeaf(dsha: HashFunction, leaf: Hash, siblings: seq<Hash>, mask: nat)
    requires |siblings| > 0
    ensures var s := siblings[0];
            var parent := if mask % 2 == 0 then dsha(leaf + s) else dsha(s + leaf);
            Walk(dsha, leaf, siblings, mask) == Walk(dsha, parent, siblings[1..], mask / 2)
  {
    var n := |siblings| - 1;
    if n == 0 {
      assert siblings[..0] == [] && siblings[1..] == [];
    } else {
      WalkFromLeaf(dsha, leaf, siblings[..n], mask);
      assert siblings[1..][..n - 1] == siblings[..n][1..];
    }
  }

  /** A tree of two leaves, and a tree of two trees. */
  lemma RootOfTwo(dsha: HashFunction, a: Hash, b: Hash)
    ensures Pow2(1) == 2 && Root(dsha, [a, b], 1) == dsha(a + b)
  {
    assert [a, b][..1] == [a] && [a, b][1..] == [b];
  }
}
