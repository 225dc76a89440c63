/**
 The Merkle engine of batcher/merkle.py: the bottom-up loops, and the top-down tree they
 are proved against.
 */
module Merkle {
  import opened Basics

  datatype MerkleError = EmptyTree | IndexOutOfRange

  // ----- Hashing a pair of siblings -----

  /** Lexicographic order; on equal-length digests it is the order of their lower-case hex text. */
  predicate LexLe(a: Bytes, b: Bytes) {
    if a == [] then true
    else if b == [] then false
    else a[0] < b[0] || (a[0] == b[0] && LexLe(a[1..], b[1..]))
  }

  /** The bytes hashed for two siblings: the smaller digest first. */
  function Pair(left: Digest, right: Digest): Bytes {
    if LexLe(left, right) then left + right else right + left
  }

  function HashPair(sha: Hash, left: Digest, right: Digest): Digest {
    sha(Pair(left, right))
  }

  /** `a` is no greater than `b`: they are equal, or `a` has the smaller byte where they first differ. */
  ghost predicate Before(a: Digest, b: Digest) {
    a == b || exists k :: 0 <= k < 32 && a[k] < b[k] && a[..k] == b[..k]
  }

  /** The two digests hashed for siblings, as an outside verifier has to order them. */
  ghost function Ordered(a: Digest, b: Digest): Bytes {
    if Before(a, b) then a + b else b + a
  }

  lemma {:induction false} LexLeIsFirstDifference(a: Bytes, b: Bytes)
    requires |a| == |b|
    ensures LexLe(a, b) <==> a == b || exists k :: 0 <= k < |a| && a[k] < b[k] && a[..k] == b[..k]
  {
    if a != [] {
      LexLeIsFirstDifference(a[1..], b[1..]);
      assert a == [a[0]] + a[1..] && b == [b[0]] + b[1..];
      if k :| 0 <= k < |a| && a[k] < b[k] && a[..k] == b[..k] {
        if k > 0 {
          assert a[0] == a[..k][0] == b[..k][0] == b[0];
          assert a[1..][..k - 1] == a[..k][1..] && b[1..][..k - 1] == b[..k][1..];
          assert a[1..][k - 1] < b[1..][k - 1];
        }
      }
      if a[0] < b[0] {
        assert a[..0] == b[..0];
      }
      if a[0] == b[0] {
        if k :| 0 <= k < |a| - 1 && a[1..][k] < b[1..][k] && a[1..][..k] == b[1..][..k] {
          assert a[..k + 1] == [a[0]] + a[1..][..k] && b[..k + 1] == [b[0]] + b[1..][..k];
          assert a[k + 1] < b[k + 1];
        }
      }
    }
  }

  /** Of two siblings the one with the smaller byte at the first difference is hashed first, on whichever side it stands. */
  lemma SmallerIsHashedFirst(sha: Hash, left: Digest, right: Digest, k: nat)
    requires k < 32 && left[..k] == right[..k]
    ensures left[k] < right[k] ==> HashPair(sha, left, right) == sha(left + right)
    ensures right[k] < left[k] ==> HashPair(sha, left, right) == sha(right + left)
    ensures HashPair(sha, left, left) == sha(left + left)
  {
    LexLeIsFirstDifference(left, right);
    LexLeIsFirstDifference(right, left);
    PairSymmetric(left, right);
  }

  lemma HashPairIsOrdered(sha: Hash, left: Digest, right: Digest)
    ensures HashPair(sha, left, right) == sha(Ordered(left, right))
  {
    LexLeIsFirstDifference(left, right);
  }

  function Padded(nodes: seq<Digest>): (p: seq<Digest>)
    ensures |p| == 2 * ((|nodes| + 1) / 2)
  {
    if |nodes| % 2 == 1 then nodes + [nodes[|nodes| - 1]] else nodes
  }

  function NextLevel(sha: Hash, nodes: seq<Digest>): (level: seq<Digest>)
    ensures |level| == (|nodes| + 1) / 2
  {
    var p := Padded(nodes);
    seq(|p| / 2, i requires 0 <= i < |p| / 2 => HashPair(sha, p[2 * i], p[2 * i + 1]))
  }

  // ----- The top-down tree -----

  datatype Tree = Leaf(digest: Digest) | Node(left: Tree, right: Tree)

  function RootOf(sha: Hash, t: Tree): Digest {
    match t
    case Leaf(d) => d
    case Node(l, r) => HashPair(sha, RootOf(sha, l), RootOf(sha, r))
  }

  /** All leaves of `t` lie at depth `h`. */
  predicate Perfect(t: Tree, h: nat) {
    match t
    case Leaf(_) => h == 0
    case Node(l, r) => h > 0 && Perfect(l, h - 1) && Perfect(r, h - 1)
  }

  function Pow2(h: nat): (p: nat)
    ensures p > 0
  {
    if h == 0 then 1 else 2 * Pow2(h - 1)
  }

  /** `leaves` fits under a tree of height `h`. */
  predicate Fits(leaves: seq<Digest>, h: nat) {
    0 < |leaves| <= Pow2(h)
  }

  /**
   The tree of height `h` over `leaves`: the first 2^(h-1) leaves go left and the rest right;
   where nothing is left over the left subtree is mirrored.
   */
  function TreeOver(leaves: seq<Digest>, h: nat): (t: Tree)
    requires Fits(leaves, h)
    ensures Perfect(t, h)
    decreases h
  {
    if h == 0 then Leaf(leaves[0])
    else if |leaves| <= Pow2(h - 1) then
      var t := TreeOver(leaves, h - 1);
      Node(t, t)
    else Node(TreeOver(leaves[..Pow2(h - 1)], h - 1), TreeOver(leaves[Pow2(h - 1)..], h - 1))
  }

  /** The height of the tree over `n` leaves: the number of times `n` is ceil-halved down to one. */
  function Height(n: nat): nat {
    if n <= 1 then 0 else 1 + Height((n + 1) / 2)
  }

  /** The height is the least `h` with `n <= 2^h`. */
  lemma {:induction false} HeightIsLeast(n: nat, h: nat)
    ensures n <= Pow2(h) <==> Height(n) <= h
  {
    if n > 1 && h > 0 {
      HeightIsLeast((n + 1) / 2, h - 1);
    }
  }

  /** The tree of least height over a non-empty list of leaves. */
  function TreeOf(leaves: seq<Digest>): (t: Tree)
    requires leaves != []
    ensures Perfect(t, Height(|leaves|))
  {
    HeightIsLeast(|leaves|, Height(|leaves|));
    TreeOver(leaves, Height(|leaves|))
  }

  function Root(sha: Hash, leaves: seq<Digest>): Digest
    requires leaves != []
  {
    RootOf(sha, TreeOf(leaves))
  }

  /** The digest that a leaf and a proof lead to. */
  function Fold(sha: Hash, leaf: Digest, proof: seq<Digest>): Digest {
    if proof == [] then leaf
    else HashPair(sha, Fold(sha, leaf, proof[..|proof| - 1]), proof[|proof| - 1])
  }

  // ----- One bottom-up level is one top-down layer -----

  lemma PaddedSplits(leaves: seq<Digest>, m: nat)
    requires m < |leaves| && m % 2 == 0
    ensures Padded(leaves[..m]) == Padded(leaves)[..m]
    ensures Padded(leaves[m..]) == Padded(leaves)[m..]
  {
    var low, high := leaves[..m], leaves[m..];
    assert Padded(low) == low;
    if |leaves| % 2 == 1 {
      var last := leaves[|leaves| - 1];
      assert (leaves + [last])[..m] == low;
      assert high[|high| - 1] == last && (leaves + [last])[m..] == high + [last];
    }
  }

  /** Hashing a level commutes with cutting it at an even position. */
  lemma NextLevelCut(sha: Hash, leaves: seq<Digest>, k: nat)
    requires 2 * k < |leaves|
    ensures NextLevel(sha, leaves)[..k] == NextLevel(sha, leaves[..2 * k])
    ensures NextLevel(sha, leaves)[k..] == NextLevel(sha, leaves[2 * k..])
  {
    PaddedSplits(leaves, 2 * k);
    LowHalf(sha, leaves, k);
    HighHalf(sha, leaves, k);
  }

  lemma LowHalf(sha: Hash, leaves: seq<Digest>, k: nat)
    requires 2 * k < |leaves| && Padded(leaves[..2 * k]) == Padded(leaves)[..2 * k]
    ensures NextLevel(sha, leaves)[..k] == NextLevel(sha, leaves[..2 * k])
  {
    var up, low := NextLevel(sha, leaves), leaves[..2 * k];
    forall i | 0 <= i < k
      ensures up[i] == NextLevel(sha, low)[i]
    {
      assert Padded(low)[2 * i] == Padded(leaves)[2 * i];
    }
    assert up[..k] == NextLevel(sha, low);
  }

  lemma HighHalf(sha: Hash, leaves: seq<Digest>, k: nat)
    requires 2 * k < |leaves| && Padded(leaves[2 * k..]) == Padded(leaves)[2 * k..]
    ensures NextLevel(sha, leaves)[k..] == NextLevel(sha, leaves[2 * k..])
  {
    var up, high := NextLevel(sha, leaves), leaves[2 * k..];
    forall i | 0 <= i < |up| - k
      ensures up[k + i] == NextLevel(sha, high)[i]
    {
      assert Padded(high)[2 * i] == Padded(leaves)[2 * (k + i)];
    }
    assert up[k..] == NextLevel(sha, high);
  }

  /** Every parent of two leaves becomes the leaf that carries its digest. */
  function Collapse(sha: Hash, t: Tree): Tree {
    match t
    case Leaf(_) => t
    case Node(Leaf(x), Leaf(y)) => Leaf(HashPair(sha, x, y))
    case Node(l, r) => Node(Collapse(sha, l), Collapse(sha, r))
  }

  lemma {:induction false} CollapseKeepsRoot(sha: Hash, t: Tree, h: nat)
    requires Perfect(t, h)
    ensures RootOf(sha, Collapse(sha, t)) == RootOf(sha, t)
  {
    if h > 1 {
      CollapseKeepsRoot(sha, t.left, h - 1);
      CollapseKeepsRoot(sha, t.right, h - 1);
    }
  }

  /** The tree over the next level is the tree with its lowest layer collapsed. */
  lemma {:induction false} LevelStep(sha: Hash, leaves: seq<Digest>, h: nat)
    requires h > 0 && Fits(leaves, h)
    ensures Fits(NextLevel(sha, leaves), h - 1)
    ensures TreeOver(NextLevel(sha, leaves), h - 1) == Collapse(sha, TreeOver(leaves, h))
    decreases h
  {
    if h == 1 {
      assert Pow2(1) == 2;
    } else {
      var k, up := Pow2(h - 2), NextLevel(sha, leaves);
      assert Pow2(h - 1) == 2 * k && Pow2(h) == 4 * k;
      if |leaves| <= 2 * k {
        LevelStep(sha, leaves, h - 1);
        assert TreeOver(up, h - 1) == Node(TreeOver(up, h - 2), TreeOver(up, h - 2));
      } else {
        NextLevelCut(sha, leaves, k);
        LevelStep(sha, leaves[..2 * k], h - 1);
        LevelStep(sha, leaves[2 * k..], h - 1);
        assert TreeOver(up, h - 1) == Node(TreeOver(up[..k], h - 2), TreeOver(up[k..], h - 2));
      }
    }
  }

  /** One turn of the root loop collapses the tree of the remaining level, and keeps the root. */
  lemma RootStep(sha: Hash, level: seq<Digest>)
    requires |level| > 1
    ensures TreeOf(NextLevel(sha, level)) == Collapse(sha, TreeOf(level))
    ensures Root(sha, NextLevel(sha, level)) == Root(sha, level)
  {
    var h := Height(|level|);
    assert h == 1 + Height((|level| + 1) / 2);
    HeightIsLeast(|level|, h);
    LevelStep(sha, level, h);
    CollapseKeepsRoot(sha, TreeOf(level), h);
  }

  // ----- Inclusion proofs -----

  /** The index of the other child of the same parent (`pos ^ 1`). */
  function Sibling(pos: nat): (s: nat)
    ensures s / 2 == pos / 2 && s != pos
  {
    if pos % 2 == 0 then pos + 1 else pos - 1
  }

  function SiblingNode(level: seq<Digest>, pos: nat): Digest
    requires pos < |level|
  {
    Padded(level)[Sibling(pos)]
  }

  /** The sibling of the leaf, then of its parent, and so on up to the root. */
  function Proof(sha: Hash, level: seq<Digest>, pos: nat): (path: seq<Digest>)
    requires pos < |level|
    ensures |path| == Height(|level|)
    decreases |level|
  {
    if |level| == 1 then [] else [SiblingNode(level, pos)] + Proof(sha, NextLevel(sha, level), pos / 2)
  }

  /** One turn of the proof loop moves the next sibling from what is missing to what is found. */
  lemma ProofTurn(sha: Hash, level: seq<Digest>, pos: nat, proof: seq<Digest>)
    requires pos < |level| && |level| > 1
    ensures proof + Proof(sha, level, pos)
         == proof + [SiblingNode(level, pos)] + Proof(sha, NextLevel(sha, level), pos / 2)
    ensures Sibling(pos) < |Padded(level)| && NextLevel(sha, Padded(level)) == NextLevel(sha, level)
    ensures pos / 2 < |NextLevel(sha, level)| < |level|
  {
    var sibling, rest := SiblingNode(level, pos), Proof(sha, NextLevel(sha, level), pos / 2);
    assert proof + ([sibling] + rest) == proof + [sibling] + rest;
    assert Padded(Padded(level)) == Padded(level);
  }

  lemma {:induction false} PairSymmetric(x: Bytes, y: Bytes)
    ensures LexLe(x, y) || LexLe(y, x)
    ensures LexLe(x, y) && LexLe(y, x) ==> x == y
  {
    if x != [] && y != [] {
      PairSymmetric(x[1..], y[1..]);
      assert x == [x[0]] + x[1..] && y == [y[0]] + y[1..];
    }
  }

  /** The parent of a node is the hash of the node and its sibling, in either order. */
  lemma ParentNode(sha: Hash, level: seq<Digest>, pos: nat)
    requires pos < |level|
    ensures HashPair(sha, level[pos], SiblingNode(level, pos)) == NextLevel(sha, level)[pos / 2]
  {
    PairSymmetric(level[pos], SiblingNode(level, pos));
    var p := Padded(level);
    assert p[pos] == level[pos];
    assert NextLevel(sha, level)[pos / 2] == HashPair(sha, p[2 * (pos / 2)], p[2 * (pos / 2) + 1]);
  }

  lemma {:induction false} FoldFromLeaf(sha: Hash, leaf: Digest, sibling: Digest, proof: seq<Digest>)
    ensures Fold(sha, leaf, [sibling] + proof) == Fold(sha, HashPair(sha, leaf, sibling), proof)
  {
    var all := [sibling] + proof;
    if proof == [] {
      assert all[..0] == [];
    } else {
      FoldFromLeaf(sha, leaf, sibling, proof[..|proof| - 1]);
      assert all[..|all| - 1] == [sibling] + proof[..|proof| - 1];
    }
  }

  /** Completeness: the proof of every leaf leads to the root, whatever the number of leaves. */
  lemma {:induction false} Completeness(sha: Hash, leaves: seq<Digest>, i: nat)
    requires i < |leaves|
    ensures Fold(sha, leaves[i], Proof(sha, leaves, i)) == Root(sha, leaves)
    decreases |leaves|
  {
    if |leaves| > 1 {
      var up := NextLevel(sha, leaves);
      ParentNode(sha, leaves, i);
      FoldFromLeaf(sha, leaves[i], SiblingNode(leaves, i), Proof(sha, up, i / 2));
      Completeness(sha, up, i / 2);
      RootStep(sha, leaves);
    }
  }

  /** The roots of short lists, spelled out. */
  lemma SmallRoots(sha: Hash, leaves: seq<Digest>)
    requires leaves != []
    ensures |leaves| == 1 ==> Root(sha, leaves) == leaves[0]
    ensures |leaves| == 2 ==> Root(sha, leaves) == sha(Ordered(leaves[0], leaves[1]))
    ensures |leaves| == 3 ==>
      var left, right := sha(Ordered(leaves[0], leaves[1])), sha(Ordered(leaves[2], leaves[2]));
      Root(sha, leaves) == sha(Ordered(left, right))
  {
    if |leaves| == 2 {
      RootOfTwo(sha, leaves[0], leaves[1]);
      assert leaves == [leaves[0], leaves[1]];
    } else if |leaves| == 3 {
      RootStep(sha, leaves);
      var up := NextLevel(sha, leaves);
      assert Padded(leaves) == leaves + [leaves[2]];
      assert up[0] == HashPair(sha, leaves[0], leaves[1]) && up[1] == HashPair(sha, leaves[2], leaves[2]);
      HashPairIsOrdered(sha, leaves[0], leaves[1]);
      HashPairIsOrdered(sha, leaves[2], leaves[2]);
      RootOfTwo(sha, up[0], up[1]);
      assert up == [up[0], up[1]];
    }
  }

  lemma RootOfTwo(sha: Hash, a: Digest, b: Digest)
    ensures Root(sha, [a, b]) == sha(Ordered(a, b))
  {
    var leaves := [a, b];
    RootStep(sha, leaves);
    var up := NextLevel(sha, leaves);
    assert up == [HashPair(sha, a, b)];
    HashPairIsOrdered(sha, a, b);
  }

  // ----- The loops -----

  method ComputeRoot(sha: Hash, leaves: seq<Digest>) returns (r: Result<Digest, MerkleError>)
    ensures leaves == [] ==> r == Failure(EmptyTree)
    ensures leaves != [] ==> r == Success(Root(sha, leaves))
    ensures |leaves| == 1 ==> r == Success(leaves[0])
    ensures |leaves| == 2 ==> r == Success(sha(Ordered(leaves[0], leaves[1])))
    ensures |leaves| == 3 ==>
      var left, right := sha(Ordered(leaves[0], leaves[1])), sha(Ordered(leaves[2], leaves[2]));
      r == Success(sha(Ordered(left, right)))
  {
    if leaves == [] {
      return Failure(EmptyTree);
    }
    SmallRoots(sha, leaves);
    var level := leaves;
    while |level| > 1
      invariant level != [] && Root(sha, level) == Root(sha, leaves)
      decreases |level|
    {
      RootStep(sha, level);
      level := NextLevel(sha, level);
    }
    r := Success(level[0]);
  }

  method ComputeProof(sha: Hash, leaves: seq<Digest>, index: int) returns (r: Result<seq<Digest>, MerkleError>)
    ensures leaves == [] ==> r == Failure(EmptyTree)
    ensures leaves != [] && !(0 <= index < |leaves|) ==> r == Failure(IndexOutOfRange)
    ensures 0 <= index < |leaves| ==> r == Success(Proof(sha, leaves, index))
  {
    if leaves == [] {
      return Failure(EmptyTree);
    }
    if index < 0 || index >= |leaves| {
      return Failure(IndexOutOfRange);
    }
    var proof: seq<Digest> := [];
    var level, pos := leaves, index;
    ghost var goal := Proof(sha, leaves, index);
    while |level| > 1
      invariant 0 <= pos < |level|
      invariant proof + Proof(sha, level, pos) == goal
      decreases |level|
    {
      ProofTurn(sha, level, pos, proof);
      ghost var padded, up := Padded(level), NextLevel(sha, level);
      if |level| % 2 == 1 {
        level := level + [level[|level| - 1]];
      }
      assert level == padded;
      proof := proof + [level[Sibling(pos)]];
      level := NextLevel(sha, level);
      assert level == up;
      pos := pos / 2;
    }
    assert proof + Proof(sha, level, pos) == proof;
    r := Success(proof);
  }

  method VerifyProof(sha: Hash, leaf: Digest, proof: seq<Digest>, root: Bytes) returns (valid: bool)
    ensures valid <==> Fold(sha, leaf, proof) == root
  {
    var current := leaf;
    for k := 0 to |proof|
      invariant current == Fold(sha, leaf, proof[..k])
    {
      assert proof[..k + 1][..k] == proof[..k];
      current := HashPair(sha, current, proof[k]);
    }
    assert proof[..|proof|] == proof;
    valid := current == root;
  }
}
