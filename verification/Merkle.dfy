/** The Merkle tree of direct credits: carried odd nodes, sorted pairs, proofs. */
module Merkle {
  import opened Words
  import opened Arithmetic

  /** The two-argument hash of a concatenation, left abstract. */
  type PairHash = (u256, u256) -> u256

  /** `hash_pair`: the smaller value first. */
  function HashPair(h: PairHash, a: u256, b: u256): u256 {
    if a <= b then h(a, b) else h(b, a)
  }

  // ----- levels ------------------------------------------------------------

  /** Pairs hashed, a lone last node carried unchanged. */
  function Parents(h: PairHash, level: seq<u256>): (r: seq<u256>)
    ensures |r| == (|level| + 1) / 2
  {
    if |level| <= 1 then level else [HashPair(h, level[0], level[1])] + Parents(h, level[2..])
  }

  lemma {:induction false} ParentAt(h: PairHash, level: seq<u256>, i: nat)
    requires i < |Parents(h, level)|
    ensures Parents(h, level)[i]
         == if 2 * i + 1 < |level| then HashPair(h, level[2 * i], level[2 * i + 1]) else level[2 * i]
  {
    if i > 0 { ParentAt(h, level[2..], i - 1); }
  }

  function Levels(h: PairHash, leaves: seq<u256>): (r: seq<seq<u256>>)
    requires |leaves| > 0
    ensures |r| > 0 && |r[|r| - 1]| == 1 && r[0] == leaves
    decreases |leaves|
  {
    if |leaves| == 1 then [leaves] else [leaves] + Levels(h, Parents(h, leaves))
  }

  datatype MerkleTree = MerkleTree(levels: seq<seq<u256>>) {
    predicate Rooted() { |levels| > 0 && |levels[|levels| - 1]| == 1 }

    /** `root`: the single node on top. */
    function Root(): u256
      requires Rooted()
    {
      levels[|levels| - 1][0]
    }
  }

  function TreeOf(h: PairHash, leaves: seq<u256>): (t: MerkleTree)
    requires |leaves| > 0
    ensures t.Rooted()
  {
    MerkleTree(Levels(h, leaves))
  }

  /** One level folded into its parents. */
  method FoldLevel(h: PairHash, current: seq<u256>) returns (next: seq<u256>)
    ensures next == Parents(h, current)
  {
    next := [];
    var i := 0;
    while i < |current|
      invariant 0 <= i <= |current| && (i % 2 == 0 || i == |current|)
      invariant next == Parents(h, current)[..(i + 1) / 2]
    {
      ParentAt(h, current, i / 2);
      if i + 1 < |current| {
        next := next + [HashPair(h, current[i], current[i + 1])];
        i := i + 2;
      } else {
        next := next + [current[i]];
        i := i + 1;
      }
    }
  }

  /** The levels below `last`, and those above it, make up the whole tree. */
  ghost predicate Growing(h: PairHash, leaves: seq<u256>, below: seq<seq<u256>>, last: seq<u256>)
    requires |leaves| > 0
  {
    |last| > 0 && below + Levels(h, last) == Levels(h, leaves)
  }

  lemma Grow(h: PairHash, leaves: seq<u256>, below: seq<seq<u256>>, last: seq<u256>)
    requires |leaves| > 0 && Growing(h, leaves, below, last)
    ensures |last| > 1 ==> Growing(h, leaves, below + [last], Parents(h, last))
    ensures |last| == 1 ==> below + [last] == Levels(h, leaves)
  {
    if |last| > 1 {
      var above := Levels(h, Parents(h, last));
      assert below + ([last] + above) == (below + [last]) + above;
    }
  }

  /** `build`: fold upward until a single node remains. */
  method Build(h: PairHash, leaves: seq<u256>) returns (t: MerkleTree)
    requires |leaves| > 0
    ensures t == TreeOf(h, leaves)
  {
    var levels, last := [leaves], leaves;
    ghost var below: seq<seq<u256>> := [];
    while |last| > 1
      invariant levels == below + [last] && Growing(h, leaves, below, last)
      decreases |last|
    {
      Grow(h, leaves, below, last);
      var next := FoldLevel(h, last);
      below, last := levels, next;
      levels := levels + [next];
    }
    Grow(h, leaves, below, last);
    return MerkleTree(levels);
  }

  // ----- proofs ------------------------------------------------------------

  /** `idx ^ 1`. */
  function Sibling(i: nat): nat {
    if i % 2 == 0 then i + 1 else i - 1
  }

  function Step(level: seq<u256>, i: nat): seq<u256> {
    if Sibling(i) < |level| then [level[Sibling(i)]] else []
  }

  /** Siblings from the bottom level up, skipping levels where the node is carried. */
  function Siblings(levels: seq<seq<u256>>, i: nat): seq<u256> {
    if |levels| <= 1 then [] else Step(levels[0], i) + Siblings(levels[1..], i / 2)
  }

  /** `proof`: walk every level except the root's. */
  method Proof(t: MerkleTree, index: nat) returns (proof: seq<u256>)
    ensures proof == Siblings(t.levels, index)
  {
    proof := [];
    var idx, rest := index, t.levels;
    while |rest| > 1
      invariant proof + Siblings(rest, idx) == Siblings(t.levels, index)
      decreases |rest|
    {
      var sibling := Sibling(idx);
      if sibling < |rest[0]| {
        proof := proof + [rest[0][sibling]];
      }
      idx, rest := idx / 2, rest[1..];
    }
  }

  /** A leaf folded along a proof. */
  function Fold(h: PairHash, leaf: u256, proof: seq<u256>): u256 {
    if |proof| == 0 then leaf else HashPair(h, Fold(h, leaf, proof[..|proof| - 1]), proof[|proof| - 1])
  }

  /** `verify`. */
  method Verify(h: PairHash, proof: seq<u256>, root: u256, leaf: u256) returns (ok: bool)
    ensures ok <==> Fold(h, leaf, proof) == root
  {
    var computed := leaf;
    for i := 0 to |proof|
      invariant computed == Fold(h, leaf, proof[..i])
    {
      assert proof[..i + 1][..i] == proof[..i];
      computed := HashPair(h, computed, proof[i]);
    }
    assert proof[..|proof|] == proof;
    return computed == root;
  }

  lemma {:induction false} FoldConcat(h: PairHash, leaf: u256, a: seq<u256>, b: seq<u256>)
    ensures Fold(h, leaf, a + b) == Fold(h, Fold(h, leaf, a), b)
    decreases |b|
  {
    if |b| == 0 {
      assert a + b == a;
    } else {
      FoldConcat(h, leaf, a, b[..|b| - 1]);
      assert (a + b)[..|a + b| - 1] == a + b[..|b| - 1];
    }
  }

  /** Folding one step of a node's proof gives its parent. */
  lemma StepReachesParent(h: PairHash, level: seq<u256>, i: nat)
    requires i < |level|
    ensures i / 2 < |Parents(h, level)|
    ensures Fold(h, level[i], Step(level, i)) == Parents(h, level)[i / 2]
  {
    ParentAt(h, level, i / 2);
  }

  /** Completeness: for every nonempty leaf list and every index, the generated
      proof folds the leaf to the root. */
  lemma {:induction false} EveryProofVerifies(h: PairHash, leaves: seq<u256>, i: nat)
    requires i < |leaves|
    ensures Fold(h, leaves[i], Siblings(Levels(h, leaves), i)) == TreeOf(h, leaves).Root()
    decreases |leaves|
  {
    if |leaves| > 1 {
      var up := Parents(h, leaves);
      var rest := Levels(h, up);
      StepReachesParent(h, leaves, i);
      EveryProofVerifies(h, up, i / 2);
      assert Levels(h, leaves)[1..] == rest;
      FoldConcat(h, leaves[i], Step(leaves, i), Siblings(rest, i / 2));
    }
  }

  // ----- proof length ------------------------------------------------------

  /** The number of halvings, rounding up, to reach one. */
  function CeilLog2(n: nat): nat {
    if n <= 1 then 0 else 1 + CeilLog2((n + 1) / 2)
  }

  /** It is the ceiling of the base-two logarithm: the least power at or above `n`. */
  lemma {:induction false} CeilLog2Least(n: nat)
    requires n >= 1
    ensures n <= Pow2(CeilLog2(n))
    ensures n > 1 ==> Pow2(CeilLog2(n) - 1) < n
    decreases n
  {
    if n > 1 {
      CeilLog2Least((n + 1) / 2);
    }
  }

  /** A proof holds at most `ceil(log2 n)` siblings. */
  lemma {:induction false} ProofLength(h: PairHash, leaves: seq<u256>, i: nat)
    requires |leaves| > 0
    ensures |Levels(h, leaves)| == CeilLog2(|leaves|) + 1
    ensures |Siblings(Levels(h, leaves), i)| <= CeilLog2(|leaves|)
    decreases |leaves|
  {
    if |leaves| > 1 {
      ProofLength(h, Parents(h, leaves), i / 2);
      assert Levels(h, leaves)[1..] == Levels(h, Parents(h, leaves));
    }
  }

  // ----- at most one leaf --------------------------------------------------

  function Ordered(a: u256, b: u256): (u256, u256) {
    if a <= b then (a, b) else (b, a)
  }

  /** The pairs hashed while folding. */
  function PairsHashed(h: PairHash, leaf: u256, proof: seq<u256>): set<(u256, u256)> {
    if |proof| == 0 then {}
    else
      var init := proof[..|proof| - 1];
      PairsHashed(h, leaf, init) + {Ordered(Fold(h, leaf, init), proof[|proof| - 1])}
  }

  ghost predicate CollisionFree(h: PairHash, hashed: set<(u256, u256)>) {
    forall p, q :: p in hashed && q in hashed && h(p.0, p.1) == h(q.0, q.1) ==> p == q
  }

  /** Unless the pair hash collides on the pairs actually hashed, at most one leaf
      verifies for a given proof and root. */
  lemma {:induction false} ProofBindsLeaf(h: PairHash, hashed: set<(u256, u256)>, a: u256, b: u256, proof: seq<u256>)
    requires CollisionFree(h, hashed)
    requires PairsHashed(h, a, proof) <= hashed && PairsHashed(h, b, proof) <= hashed
    requires Fold(h, a, proof) == Fold(h, b, proof)
    ensures a == b
  {
    if |proof| > 0 {
      var init, s := proof[..|proof| - 1], proof[|proof| - 1];
      var x, y := Fold(h, a, init), Fold(h, b, init);
      assert Ordered(x, s) in PairsHashed(h, a, proof) && Ordered(y, s) in PairsHashed(h, b, proof);
      ProofBindsLeaf(h, hashed, a, b, init);
    }
  }

  // ----- nodes and trees outright ------------------------------------------

  /** Two nodes hash with the smaller first, so their order does not matter. */
  lemma PairMeans(h: PairHash, a: u256, b: u256)
    ensures HashPair(h, a, b) == HashPair(h, b, a)
    ensures a <= b ==> HashPair(h, a, b) == h(a, b)
  {
  }

  /** Each node above the leaves is the pair hash of the two below it, or the one below
      it where there is no second; and the root is the single node on top. */
  lemma {:induction false} TreeMeans(h: PairHash, leaves: seq<u256>, l: nat, i: nat)
    requires |leaves| > 0 && l + 1 < |Levels(h, leaves)| && i < |Levels(h, leaves)[l + 1]|
    ensures var below := Levels(h, leaves)[l];
            && 2 * i < |below|
            && (2 * i + 1 < |below| && below[2 * i] <= below[2 * i + 1] ==>
                  Levels(h, leaves)[l + 1][i] == h(below[2 * i], below[2 * i + 1]))
            && (2 * i + 1 < |below| && below[2 * i] > below[2 * i + 1] ==>
                  Levels(h, leaves)[l + 1][i] == h(below[2 * i + 1], below[2 * i]))
            && (2 * i + 1 == |below| ==> Levels(h, leaves)[l + 1][i] == below[2 * i])
    decreases |leaves|
  {
    var up := Parents(h, leaves);
    if l == 0 {
      assert Levels(h, leaves)[1] == Levels(h, up)[0] == up;
      ParentAt(h, leaves, i);
    } else {
      assert Levels(h, leaves)[l + 1] == Levels(h, up)[l] && Levels(h, leaves)[l] == Levels(h, up)[l - 1];
      TreeMeans(h, up, l - 1, i);
    }
  }
}
