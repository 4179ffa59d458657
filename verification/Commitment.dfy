/** The search for the merged-mining commitment in a parent coinbase, and the check it belongs to. */
module Commitment {
  import opened Bytes
  import opened Records
  import opened Merkle

  const MAGIC: Bytes := [0xfa, 0xbe, 0x6d, 0x6d]
  const MAX_BRANCH: int := 32

  function Reversed(b: Bytes): (r: Bytes)
    ensures |r| == |b|
  {
    if b == [] then [] else [b[|b| - 1]] + Reversed(b[..|b| - 1])
  }

  lemma {:induction false} ReversedAt(b: Bytes, i: nat)
    requires i < |b|
    ensures Reversed(b)[i] == b[|b| - 1 - i]
  {
    if i > 0 {
      ReversedAt(b[..|b| - 1], i - 1);
    }
  }

  lemma ReversedTwice(b: Bytes)
    ensures Reversed(Reversed(b)) == b
  {
    forall i | 0 <= i < |b| ensures Reversed(Reversed(b))[i] == b[i] {
      ReversedAt(Reversed(b), i);
      ReversedAt(b, |b| - 1 - i);
    }
  }

  method ReverseHashBytes(h: Hash) returns (r: Hash)
    ensures r == Reversed(h)
  {
    var rev := new byte[HASH_SIZE];
    for i := 0 to HASH_SIZE
      invariant forall j :: 0 <= j < i ==> rev[j] == h[HASH_SIZE - 1 - j]
    {
      rev[i] := h[HASH_SIZE - 1 - i];
    }
    forall i | 0 <= i < HASH_SIZE ensures rev[i] == Reversed(h)[i] {
      ReversedAt(h, i);
    }
    assert rev[..] == Reversed(h);
    r := rev[..];
  }

  predicate OccursAt(data: Bytes, p: nat, part: Bytes) {
    p + |part| <= |data| && data[p..p + |part|] == part
  }

  /** A complete commitment to the root starts at p: magic, root in either byte order, tree size. */
  predicate CommitsAt(data: Bytes, p: nat, root: Hash, size: nat) {
    && p + 40 <= |data|
    && OccursAt(data, p, MAGIC)
    && (data[p + 4..p + 36] == root || data[p + 4..p + 36] == Reversed(root))
    && FromLittleEndian(data[p + 36..p + 40]) == size
  }

  /** The positions below end where a commitment starts. */
  function Commitments(data: Bytes, end: nat, root: Hash, size: nat): (r: set<nat>)
    ensures forall p: nat :: p in r <==> p < end && CommitsAt(data, p, root, size)
  {
    set p: nat | p < end && CommitsAt(data, p, root, size)
  }

  /** The first occurrence of a pattern. */
  method Index(data: Bytes, pattern: Bytes) returns (r: Option<nat>)
    ensures r.Some? ==> OccursAt(data, r.value, pattern) && forall p :: 0 <= p < r.value ==> !OccursAt(data, p, pattern)
    ensures r.None? ==> forall p :: 0 <= p ==> !OccursAt(data, p, pattern)
  {
    var p := 0;
    while p + |pattern| <= |data|
      invariant forall q :: 0 <= q < p ==> !OccursAt(data, q, pattern)
    {
      if data[p..p + |pattern|] == pattern {
        return Some(p);
      }
      p := p + 1;
    }
    r := None;
  }

  lemma NoMagicNoCommitment(data: Bytes, k: nat, rest: Bytes, n: nat, root: Hash, size: nat)
    requires k <= |data| && rest == data[k..]
    requires forall p :: 0 <= p < n ==> !OccursAt(rest, p, MAGIC)
    ensures Commitments(data, k + n, root, size) == Commitments(data, k, root, size)
  {
    forall p | k <= p < k + n ensures !CommitsAt(data, p, root, size) {
      assert !OccursAt(rest, p - k, MAGIC);
      if p + 4 <= |data| {
        assert rest[p - k..p - k + 4] == data[p..p + 4];
      }
    }
  }

  lemma OneMorePlace(data: Bytes, k: nat, root: Hash, size: nat)
    ensures Commitments(data, k + 1, root, size) ==
            Commitments(data, k, root, size) + if CommitsAt(data, k, root, size) then {k} else {}
    ensures k !in Commitments(data, k, root, size)
  {
  }

  /** The magic at idx starts a commitment: the root and the size after it are the expected ones. */
  method MatchesAt(rest: Bytes, idx: nat, computedRoot: Hash, reversedRoot: Hash, expectedSize: nat) returns (valid: bool)
    requires OccursAt(rest, idx, MAGIC) && reversedRoot == Reversed(computedRoot)
    ensures valid <==> CommitsAt(rest, idx, computedRoot, expectedSize)
  {
    var offset := idx + |MAGIC|;
    if offset + 36 > |rest| {
      return false;
    }
    var root := rest[offset..offset + 32];
    var size := FromLittleEndian(rest[offset + 32..offset + 36]);
    var rootMatch := root == computedRoot || root == reversedRoot;
    valid := rootMatch && size == expectedSize;
  }

  /** Moving on past a hit counts it when it is a commitment. */
  lemma ScanStep(data: Bytes, k: nat, rest: Bytes, idx: nat, root: Hash, size: nat)
    requires k <= |data| && rest == data[k..] && OccursAt(rest, idx, MAGIC)
    requires forall p :: 0 <= p < idx ==> !OccursAt(rest, p, MAGIC)
    ensures |Commitments(data, k + idx + 1, root, size)| ==
            |Commitments(data, k, root, size)| + if CommitsAt(rest, idx, root, size) then 1 else 0
    ensures k + idx + 1 <= |data| && rest[idx + 1..] == data[k + idx + 1..]
  {
    hide CommitsAt, Commitments;
    NoMagicNoCommitment(data, k, rest, idx, root, size);
    CommitmentAtMagic(data, k, rest, idx, root, size);
    OneMorePlace(data, k + idx, root, size);
    var before := Commitments(data, k + idx, root, size);
    assert CommitsAt(rest, idx, root, size) ==> |before + {k + idx}| == |before| + 1;
    assert before + {} == before;
  }

  /**
   Passes exactly when the coinbase holds one and only one commitment to the root with the
   branch's tree size.  Every start position counts, also those inside another commitment.
   */
  method CheckMergeMiningCommitment(coinbaseData: Bytes, computedRoot: Hash, branchLen: int) returns (ok: bool)
    ensures ok <==> 0 <= branchLen < MAX_BRANCH && UniqueCommitment(coinbaseData, computedRoot, Pow2(branchLen))
  {
    hide CommitsAt, Pow2, Reversed, OccursAt, Commitments, UniqueCommitment;
    if branchLen < 0 || branchLen >= MAX_BRANCH {
      return false;
    }
    var expectedSize := Pow2(branchLen);
    var reversedRoot := ReverseHashBytes(computedRoot);
    var validCommitCount := 0;
    var rest := coinbaseData;
    ghost var k: nat := 0;
    assert Commitments(coinbaseData, 0, computedRoot, expectedSize) == {};
    while true
      invariant k <= |coinbaseData| && rest == coinbaseData[k..]
      invariant validCommitCount == |Commitments(coinbaseData, k, computedRoot, expectedSize)|
      decreases |rest|
    {
      var found := Index(rest, MAGIC);
      if found.None? {
        NoMagicNoCommitment(coinbaseData, k, rest, |rest|, computedRoot, expectedSize);
        break;
      }
      var idx := found.value;
      ScanStep(coinbaseData, k, rest, idx, computedRoot, expectedSize);
      var valid := MatchesAt(rest, idx, computedRoot, reversedRoot, expectedSize);
      if valid {
        validCommitCount := validCommitCount + 1;
      }
      k := k + idx + 1;
      rest := rest[idx + 1..];
    }
    CountIsOne(coinbaseData, computedRoot, expectedSize);
    ok := validCommitCount == 1;
  }

  lemma CommitmentAtMagic(data: Bytes, k: nat, rest: Bytes, idx: nat, root: Hash, size: nat)
    requires k <= |data| && rest == data[k..] && OccursAt(rest, idx, MAGIC)
    ensures CommitsAt(data, k + idx, root, size) <==> CommitsAt(rest, idx, root, size)
  {
    hide FromLittleEndian, Reversed;
    assert rest[idx..idx + 4] == data[k + idx..k + idx + 4];
    if idx + 40 <= |rest| {
      assert rest[idx + 4..idx + 36] == data[k + idx + 4..k + idx + 36];
      assert rest[idx + 36..idx + 40] == data[k + idx + 36..k + idx + 40];
    }
  }

  /** There is exactly one start position. */
  ghost predicate UniqueCommitment(data: Bytes, root: Hash, size: nat) {
    exists p: nat :: CommitsAt(data, p, root, size) && forall q: nat :: CommitsAt(data, q, root, size) ==> q == p
  }

  lemma CountIsOne(data: Bytes, root: Hash, size: nat)
    ensures |Commitments(data, |data|, root, size)| == 1 <==> UniqueCommitment(data, root, size)
  {
    hide CommitsAt, Commitments;
    var s := Commitments(data, |data|, root, size);
    forall p: nat | CommitsAt(data, p, root, size) ensures p in s {
      CommitmentFits(data, p, root, size);
    }
    if |s| == 1 {
      var p :| p in s;
      SingletonOf(s, p);
      assert s == {p};
    }
    if UniqueCommitment(data, root, size) {
      var p: nat :| CommitsAt(data, p, root, size) && forall q: nat :: CommitsAt(data, q, root, size) ==> q == p;
      assert s == {p};
    }
  }

  lemma CommitmentFits(data: Bytes, p: nat, root: Hash, size: nat)
    requires CommitsAt(data, p, root, size)
    ensures p < |data|
  {
  }

  lemma SingletonOf(s: set<nat>, p: nat)
    requires |s| == 1 && p in s
    ensures s == {p}
  {
    assert |s - {p}| == 0;
    assert s == (s - {p}) + {p};
  }

  // ----- the chain commitment -----

  ghost predicate Contains(data: Bytes, part: Bytes) {
    exists p: nat :: OccursAt(data, p, part)
  }

  /** What a proof has to show about the block hash and the parent coinbase. */
  ghost predicate Committed(dsha: HashFunction, blockHash: Hash, branch: Branch, coinbaseHash: Hash, coinbaseData: Bytes) {
    var n := |branch.siblings|;
    var root := Walk(dsha, blockHash, branch.siblings, branch.sideMask);
    if n == 0 then Contains(coinbaseData, blockHash) || Contains(coinbaseData, Reversed(blockHash))
    else n <= MAX_BRANCH && (root == coinbaseHash || (n < MAX_BRANCH && UniqueCommitment(coinbaseData, root, Pow2(n))))
  }

  method ValidateDirectChainCommitment(blockHash: Hash, coinbaseData: Bytes) returns (ok: bool)
    ensures ok <==> Contains(coinbaseData, blockHash) || Contains(coinbaseData, Reversed(blockHash))
  {
    var reversed := ReverseHashBytes(blockHash);
    var found := Index(coinbaseData, blockHash);
    if found.None? {
      found := Index(coinbaseData, reversed);
    }
    ok := found.Some?;
  }

  method ValidateChainCommitment(dsha: HashFunction, blockHash: Hash, branch: Branch, coinbaseHash: Hash, coinbaseData: Bytes) returns (ok: bool)
    ensures ok <==> Committed(dsha, blockHash, branch, coinbaseHash, coinbaseData)
  {
    hide UniqueCommitment, Walk, Pow2;
    if |branch.siblings| == 0 {
      ok := ValidateDirectChainCommitment(blockHash, coinbaseData);
      return;
    }
    if |branch.siblings| > MAX_BRANCH {
      return false;
    }
    ok := CheckMerkleBranch(dsha, blockHash, branch, coinbaseHash);
    if !ok {
      var root := ComputeChainMerkleRoot(dsha, blockHash, branch);
      ok := CheckMergeMiningCommitment(coinbaseData, root, |branch.siblings|);
    }
  }

  // ----- what a commitment proves -----

  /** The coinbase commits to the root in one byte order exactly when it does in the other. */
  lemma EitherByteOrder(data: Bytes, p: nat, root: Hash, size: nat)
    ensures CommitsAt(data, p, root, size) <==> CommitsAt(data, p, Reversed(root), size)
  {
    ReversedTwice(root);
    hide Reversed, FromLittleEndian;
  }

  /** Every commitment of the given tree size in the coinbase is to the given root. */
  ghost predicate CommitsOnlyTo(data: Bytes, root: Hash, size: nat) {
    forall p: nat, r: Hash :: CommitsAt(data, p, r, size) ==> CommitsAt(data, p, root, size)
  }

  /** A place that commits to two roots holds one of them in both byte orders. */
  lemma SamePlace(data: Bytes, p: nat, r: Hash, root: Hash, size: nat)
    requires CommitsAt(data, p, r, size) && CommitsAt(data, p, root, size)
    ensures r == root || r == Reversed(root)
  {
    ReversedTwice(r);
    ReversedTwice(root);
    hide Reversed, FromLittleEndian;
  }

  /**
   What a merged-mining commitment promises.  Suppose that the parent coinbase commits to no
   other chain tree of the branch's depth than the one with the given leaves, and that the check
   passes, but not because the branch ends in the coinbase hash.  Then the block is the leaf at
   the masked index, or the hash function collides, or the branch ends in the root with its bytes
   reversed, which the check cannot tell from the root.
   */
  lemma CommittedBlockIsLeaf(dsha: HashFunction, blockHash: Hash, branch: Branch, coinbaseHash: Hash, data: Bytes, leaves: seq<Hash>, d: nat)
    returns (a: Bytes, b: Bytes)
    requires |leaves| == Pow2(d) && |branch.siblings| == d && d > 0
    requires Committed(dsha, blockHash, branch, coinbaseHash, data)
    requires Walk(dsha, blockHash, branch.siblings, branch.sideMask) != coinbaseHash
    requires CommitsOnlyTo(data, Root(dsha, leaves, d), Pow2(d))
    ensures d < MAX_BRANCH && 0 <= branch.sideMask % Pow2(d) < Pow2(d)
    ensures || blockHash == leaves[branch.sideMask % Pow2(d)]
            || Collision(dsha, a, b)
            || Walk(dsha, blockHash, branch.siblings, branch.sideMask) == Reversed(Root(dsha, leaves, d))
  {
    hide Walk, Root, Pow2, Low, CommitsAt, Reversed;
    a, b := [], [];
    var walk, root := Walk(dsha, blockHash, branch.siblings, branch.sideMask), Root(dsha, leaves, d);
    var p: nat :| CommitsAt(data, p, walk, Pow2(d));
    SamePlace(data, p, walk, root, Pow2(d));
    LowIsRemainder(branch.sideMask, d);
    LowBound(branch.sideMask, d);
    if walk == root {
      a, b := Soundness(dsha, leaves, d, blockHash, branch.siblings, branch.sideMask);
    }
  }

  /** The other direction: when the coinbase commits to the tree once, the check passes for each of its leaves. */
  lemma LeafIsCommitted(dsha: HashFunction, leaves: seq<Hash>, d: nat, i: nat, coinbaseHash: Hash, data: Bytes)
    requires 0 < d < MAX_BRANCH && |leaves| == Pow2(d) && i < Pow2(d)
    requires UniqueCommitment(data, Root(dsha, leaves, d), Pow2(d))
    ensures i < TWO_32
    ensures Committed(dsha, leaves[i], Branch(Path(dsha, leaves, d, i), i), coinbaseHash, data)
  {
    hide Walk, Root, Pow2, Path, UniqueCommitment;
    LeafIsProved(dsha, leaves, d, i);
  }

  /** The third case is real: a branch that ends in the reversed root passes as well. */
  lemma ReversedRootPasses(dsha: HashFunction, blockHash: Hash, branch: Branch, coinbaseHash: Hash, data: Bytes, root: Hash)
    requires 0 < |branch.siblings| < MAX_BRANCH && UniqueCommitment(data, root, Pow2(|branch.siblings|))
    requires Walk(dsha, blockHash, branch.siblings, branch.sideMask) == Reversed(root)
    ensures Committed(dsha, blockHash, branch, coinbaseHash, data)
  {
    hide Walk, Pow2, CommitsAt, Reversed;
    var size := Pow2(|branch.siblings|);
    var p: nat :| CommitsAt(data, p, root, size) && forall q: nat :: CommitsAt(data, q, root, size) ==> q == p;
    EitherByteOrder(data, p, root, size);
    forall q: nat | CommitsAt(data, q, Reversed(root), size) ensures q == p {
      EitherByteOrder(data, q, root, size);
    }
  }
}
