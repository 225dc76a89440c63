/**
 What a root and an accepted proof commit to: soundness at every depth, and exactly when
 two leaf lists share a root.
 */
module MerkleTheorems {
  import opened Basics
  import opened Merkle

  // ----- Pairs -----

  /** A hashed pair determines its two siblings, up to their order. */
  lemma PairInjective(l: Digest, r: Digest, l': Digest, r': Digest)
    ensures Pair(l, r) == Pair(l', r') <==> (l == l' && r == r') || (l == r' && r == l')
  {
    PairSymmetric(l, r);
    PairSymmetric(l', r');
    assert Pair(l, r) == Pair(r, l);
    var p, q := Pair(l, r), Pair(l', r');
    assert (p[..32] == l && p[32..] == r) || (p[..32] == r && p[32..] == l);
    assert (q[..32] == l' && q[32..] == r') || (q[..32] == r' && q[32..] == l');
  }

  // ----- Soundness -----

  /** The digests at distance `depth` below the root. */
  function NodesAt(sha: Hash, t: Tree, depth: nat): set<Digest> {
    if depth == 0 then {RootOf(sha, t)}
    else
      match t
      case Leaf(_) => {}
      case Node(l, r) => NodesAt(sha, l, depth - 1) + NodesAt(sha, r, depth - 1)
  }

  function LeafSet(leaves: seq<Digest>): set<Digest> {
    set x | x in leaves
  }

  lemma {:induction false} BottomNodesAreLeaves(sha: Hash, leaves: seq<Digest>, h: nat)
    requires Fits(leaves, h)
    ensures NodesAt(sha, TreeOver(leaves, h), h) == LeafSet(leaves)
  {
    var m := if h == 0 then 0 else Pow2(h - 1);
    if h == 0 {
      assert leaves == [leaves[0]];
    } else if |leaves| <= m {
      BottomNodesAreLeaves(sha, leaves, h - 1);
    } else {
      BottomNodesAreLeaves(sha, leaves[..m], h - 1);
      BottomNodesAreLeaves(sha, leaves[m..], h - 1);
      assert leaves == leaves[..m] + leaves[m..];
    }
  }

  /** Collapsing the lowest layer keeps the nodes above it. */
  lemma {:induction false} CollapseKeepsNodes(sha: Hash, t: Tree, h: nat, depth: nat)
    requires Perfect(t, h) && depth < h
    ensures NodesAt(sha, Collapse(sha, t), depth) == NodesAt(sha, t, depth)
  {
    CollapseKeepsRoot(sha, t, h);
    if depth > 0 {
      CollapseKeepsNodes(sha, t.left, h - 1, depth - 1);
      CollapseKeepsNodes(sha, t.right, h - 1, depth - 1);
    }
  }

  /** The level that the loops reach after `k` turns. */
  function LevelAfter(sha: Hash, leaves: seq<Digest>, k: nat): seq<Digest>
    decreases k
  {
    if k == 0 then leaves else LevelAfter(sha, NextLevel(sha, leaves), k - 1)
  }

  /** `level` is what the loops reach after `k` turns, and `t` is the tree of height `depth + k` over the leaves. */
  ghost predicate Reaches(sha: Hash, leaves: seq<Digest>, depth: nat, k: nat, t: Tree, level: seq<Digest>) {
    Fits(leaves, depth + k) && t == TreeOver(leaves, depth + k) && level == LevelAfter(sha, leaves, k)
  }

  /** One turn of the loops collapses the tree and keeps the nodes above its lowest layer. */
  lemma OneTurn(sha: Hash, leaves: seq<Digest>, depth: nat, k: nat, t: Tree, level: seq<Digest>)
    returns (up: seq<Digest>, t': Tree)
    requires k > 0 && Reaches(sha, leaves, depth, k, t, level)
    ensures Reaches(sha, up, depth, k - 1, t', level)
    ensures NodesAt(sha, t', depth) == NodesAt(sha, t, depth)
  {
    up, t' := NextLevel(sha, leaves), Collapse(sha, t);
    LevelStep(sha, leaves, depth + k);
    CollapseKeepsNodes(sha, t, depth + k, depth);
  }

  /**
   The nodes `depth` below the root of a tree over the leaves are the level that the loops
   reach after `k` turns, where `depth + k` is the height of the tree.
   */
  lemma {:induction false} NodesAreLevels(sha: Hash, leaves: seq<Digest>, depth: nat, k: nat, t: Tree, level: seq<Digest>)
    requires Reaches(sha, leaves, depth, k, t, level)
    ensures NodesAt(sha, t, depth) == LeafSet(level)
    decreases k
  {
    if k == 0 {
      BottomNodesAreLeaves(sha, leaves, depth);
    } else {
      var up, t' := OneTurn(sha, leaves, depth, k, t, level);
      NodesAreLevels(sha, up, depth, k - 1, t', level);
    }
  }

  datatype Evidence = IsNode | Collision(x: Bytes, y: Bytes)

  /**
   From an accepted proof, either the evidence that the proved digest is a node of the tree
   as far below the root as the proof is long, or two inputs on which the hash collides.
   */
  function Examine(sha: Hash, t: Tree, h: nat, x: Digest, proof: seq<Digest>): (e: Evidence)
    requires Perfect(t, h) && |proof| <= h
    requires Fold(sha, x, proof) == RootOf(sha, t)
    ensures e.IsNode? ==> x in NodesAt(sha, t, |proof|)
    ensures e.Collision? ==> Collide(sha, e.x, e.y)
  {
    if proof == [] then IsNode
    else
      var k := |proof| - 1;
      var y, s := Fold(sha, x, proof[..k]), proof[k];
      var l, r := RootOf(sha, t.left), RootOf(sha, t.right);
      if Pair(y, s) != Pair(l, r) then Collision(Pair(y, s), Pair(l, r))
      else
        PairInjective(y, s, l, r);
        if y == l then Examine(sha, t.left, h - 1, x, proof[..k])
        else Examine(sha, t.right, h - 1, x, proof[..k])
  }

  /** An accepted proof of full length proves membership, or exhibits a collision. */
  lemma Soundness(sha: Hash, leaves: seq<Digest>, x: Digest, proof: seq<Digest>) returns (e: Evidence)
    requires leaves != [] && |proof| == Height(|leaves|)
    requires Fold(sha, x, proof) == Root(sha, leaves)
    ensures x in leaves || (e.Collision? && Collide(sha, e.x, e.y))
  {
    var h := Height(|leaves|);
    e := Examine(sha, TreeOf(leaves), h, x, proof);
    HeightIsLeast(|leaves|, h);
    BottomNodesAreLeaves(sha, leaves, h);
  }

  /** The converse of `Examine`: every node at depth `depth` has an accepted proof of that length. */
  lemma {:induction false} NodeHasProof(sha: Hash, t: Tree, depth: nat, x: Digest) returns (proof: seq<Digest>)
    requires x in NodesAt(sha, t, depth)
    ensures |proof| == depth && Fold(sha, x, proof) == RootOf(sha, t)
  {
    if depth == 0 {
      proof := [];
    } else {
      var l, r := RootOf(sha, t.left), RootOf(sha, t.right);
      PairInjective(l, r, r, l);
      if x in NodesAt(sha, t.left, depth - 1) {
        var below := NodeHasProof(sha, t.left, depth - 1, x);
        proof := below + [r];
        assert proof[..depth - 1] == below;
      } else {
        var below := NodeHasProof(sha, t.right, depth - 1, x);
        proof := below + [l];
        assert proof[..depth - 1] == below;
      }
    }
  }

  /**
   Without fixing the proof length an accepted digest need not be a leaf.  Whatever the hash, the
   parent of two leaves is accepted against their root with the empty proof, which is shorter than
   the tree is high, and it is no leaf unless it happens to equal one of them.
   */
  lemma ShortProofAccepted(sha: Hash, a: Digest, b: Digest)
    requires HashPair(sha, a, b) != a && HashPair(sha, a, b) != b
    ensures
      var x, leaves, proof: seq<Digest> := HashPair(sha, a, b), [a, b], [];
      |proof| < Height(|leaves|) && Fold(sha, x, proof) == Root(sha, leaves) && x !in leaves
  {
    var leaves := [a, b];
    assert Height(1) == 0 && Height(2) == 1 && Pow2(1) == 2 && Pow2(0) == 1;
    assert leaves[..1] == [a] && leaves[1..] == [b];
    assert TreeOver([a], 0) == Leaf(a) && TreeOver([b], 0) == Leaf(b);
    assert TreeOf(leaves) == TreeOver(leaves, 1) == Node(Leaf(a), Leaf(b));
    assert RootOf(sha, Leaf(a)) == a && RootOf(sha, Leaf(b)) == b;
  }

  // ----- When two leaf lists share a root -----

  /** Equal up to exchanging the two children of any nodes. */
  predicate SameTree(s: Tree, t: Tree) {
    match (s, t)
    case (Leaf(x), Leaf(y)) => x == y
    case (Node(l, r), Node(l', r')) => (SameTree(l, l') && SameTree(r, r')) || (SameTree(l, r') && SameTree(r, l'))
    case _ => false
  }

  /** Every input that is hashed to build the tree. */
  function Hashed(sha: Hash, t: Tree): set<Bytes> {
    match t
    case Leaf(_) => {}
    case Node(l, r) => {Pair(RootOf(sha, l), RootOf(sha, r))} + Hashed(sha, l) + Hashed(sha, r)
  }

  /** Exchanging the children of any nodes keeps the root. */
  lemma {:induction false} SameTreeSameRoot(sha: Hash, s: Tree, t: Tree)
    requires SameTree(s, t)
    ensures RootOf(sha, s) == RootOf(sha, t)
  {
    if s.Node? {
      if SameTree(s.left, t.left) && SameTree(s.right, t.right) {
        SameTreeSameRoot(sha, s.left, t.left);
        SameTreeSameRoot(sha, s.right, t.right);
      } else {
        SameTreeSameRoot(sha, s.left, t.right);
        SameTreeSameRoot(sha, s.right, t.left);
        var l, r := RootOf(sha, t.left), RootOf(sha, t.right);
        PairInjective(l, r, r, l);
      }
    }
  }

  /** Unless the hash collides, nothing else keeps it. */
  lemma {:induction false} SameRootSameTree(sha: Hash, inputs: set<Bytes>, s: Tree, t: Tree, h: nat)
    requires Perfect(s, h) && Perfect(t, h)
    requires Hashed(sha, s) <= inputs && Hashed(sha, t) <= inputs && InjectiveOn(sha, inputs)
    requires RootOf(sha, s) == RootOf(sha, t)
    ensures SameTree(s, t)
  {
    if h > 0 {
      var x, y := RootOf(sha, s.left), RootOf(sha, s.right);
      var x', y' := RootOf(sha, t.left), RootOf(sha, t.right);
      assert Pair(x, y) in Hashed(sha, s) && Pair(x', y') in Hashed(sha, t);
      PairInjective(x, y, x', y');
      if x == x' && y == y' {
        SameRootSameTree(sha, inputs, s.left, t.left, h - 1);
        SameRootSameTree(sha, inputs, s.right, t.right, h - 1);
      } else {
        SameRootSameTree(sha, inputs, s.left, t.right, h - 1);
        SameRootSameTree(sha, inputs, s.right, t.left, h - 1);
      }
    }
  }

  /** Two lists of equal height share a root exactly when their trees are equal up to exchanging children. */
  lemma SameRootIffSameTree(sha: Hash, a: seq<Digest>, b: seq<Digest>)
    requires a != [] && b != [] && Height(|a|) == Height(|b|)
    requires InjectiveOn(sha, Hashed(sha, TreeOf(a)) + Hashed(sha, TreeOf(b)))
    ensures Root(sha, a) == Root(sha, b) <==> SameTree(TreeOf(a), TreeOf(b))
  {
    var s, t := TreeOf(a), TreeOf(b);
    if SameTree(s, t) {
      SameTreeSameRoot(sha, s, t);
    }
    if Root(sha, a) == Root(sha, b) {
      SameRootSameTree(sha, Hashed(sha, s) + Hashed(sha, t), s, t, Height(|a|));
    }
  }

  lemma {:induction false} SameTreeSameNodes(sha: Hash, s: Tree, t: Tree, depth: nat)
    requires SameTree(s, t)
    ensures NodesAt(sha, s, depth) == NodesAt(sha, t, depth)
  {
    SameTreeSameRoot(sha, s, t);
    if depth > 0 && s.Node? {
      if SameTree(s.left, t.left) && SameTree(s.right, t.right) {
        SameTreeSameNodes(sha, s.left, t.left, depth - 1);
        SameTreeSameNodes(sha, s.right, t.right, depth - 1);
      } else {
        SameTreeSameNodes(sha, s.left, t.right, depth - 1);
        SameTreeSameNodes(sha, s.right, t.left, depth - 1);
      }
    }
  }

  predicate NoDuplicates(s: seq<Digest>) {
    forall i, j :: 0 <= i < j < |s| ==> s[i] != s[j]
  }

  lemma {:induction false} DistinctMultiset(s: seq<Digest>)
    requires NoDuplicates(s)
    ensures multiset(s) == multiset(LeafSet(s))
  {
    if s != [] {
      var front, last := s[..|s| - 1], s[|s| - 1];
      DistinctMultiset(front);
      assert s == front + [last];
      assert last !in front;
      assert LeafSet(s) == LeafSet(front) + {last};
    }
  }

  /**
   Binding: unless the hash collides on an input hashed while building one of the two trees,
   lists with equal height and root have the same leaves, and are permutations of each other
   when neither has duplicates.
   */
  lemma Binding(sha: Hash, a: seq<Digest>, b: seq<Digest>)
    requires a != [] && b != [] && Height(|a|) == Height(|b|)
    requires InjectiveOn(sha, Hashed(sha, TreeOf(a)) + Hashed(sha, TreeOf(b)))
    requires Root(sha, a) == Root(sha, b)
    ensures LeafSet(a) == LeafSet(b)
    ensures NoDuplicates(a) && NoDuplicates(b) ==> multiset(a) == multiset(b)
  {
    var h := Height(|a|);
    SameRootIffSameTree(sha, a, b);
    SameTreeSameNodes(sha, TreeOf(a), TreeOf(b), h);
    HeightIsLeast(|a|, h);
    HeightIsLeast(|b|, h);
    BottomNodesAreLeaves(sha, a, h);
    BottomNodesAreLeaves(sha, b, h);
    if NoDuplicates(a) && NoDuplicates(b) {
      DistinctMultiset(a);
      DistinctMultiset(b);
    }
  }

  /**
   The permutation clause of `Binding` needs the leaves to be distinct: repeating the last of
   an odd number of leaves never changes the root.
   */
  lemma RepeatedLastLeaf(sha: Hash, leaves: seq<Digest>)
    requires |leaves| > 1 && |leaves| % 2 == 1
    ensures Height(|leaves| + 1) == Height(|leaves|)
    ensures Root(sha, leaves + [leaves[|leaves| - 1]]) == Root(sha, leaves)
  {
    var longer := leaves + [leaves[|leaves| - 1]];
    RootStep(sha, leaves);
    RootStep(sha, longer);
    assert Padded(leaves) == longer == Padded(longer);
    assert (|leaves| + 1) / 2 == (|longer| + 1) / 2;
  }

  /**
   The root is not invariant under permutation: of four distinct leaves, exchanging the middle
   two changes the root unless two of the six hashed pairs collide.
   */
  lemma PermutationChangesRoot(sha: Hash, a: Digest, b: Digest, c: Digest, d: Digest)
    requires NoDuplicates([a, b, c, d])
    requires InjectiveOn(sha, Hashed(sha, TreeOf([a, b, c, d])) + Hashed(sha, TreeOf([a, c, b, d])))
    ensures Root(sha, [a, b, c, d]) != Root(sha, [a, c, b, d])
  {
    var s := [a, b, c, d];
    assert s[0] == a && s[1] == b && s[2] == c && s[3] == d;
    FourLeafTree(a, b, c, d);
    FourLeafTree(a, c, b, d);
    assert !SameTree(Node(Leaf(a), Leaf(b)), Node(Leaf(a), Leaf(c)));
    assert !SameTree(Node(Leaf(a), Leaf(b)), Node(Leaf(b), Leaf(d)));
    SameRootIffSameTree(sha, s, [a, c, b, d]);
  }

  lemma FourLeafTree(a: Digest, b: Digest, c: Digest, d: Digest)
    ensures TreeOf([a, b, c, d]) == Node(Node(Leaf(a), Leaf(b)), Node(Leaf(c), Leaf(d)))
  {
    var s := [a, b, c, d];
    assert Height(4) == 2 && Pow2(2) == 4 && Pow2(1) == 2 && Pow2(0) == 1;
    assert s[..2] == [a, b] && s[2..] == [c, d];
    assert [a, b][..1] == [a] && [a, b][1..] == [b] && [c, d][..1] == [c] && [c, d][1..] == [d];
  }
}
