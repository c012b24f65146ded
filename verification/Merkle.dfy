/** Fixed-depth binary Merkle trees over any two-to-one hash.

    The tree a root stands for is given by its leaves alone (`NodeAt`). The three ways in
    which zkAPI folds a leaf and its siblings to a root are loops proved equal to one
    function (`Fold`), and a fold that reaches the root of a tree either is the path of
    that tree or shows a collision of the hash (`PathBindsOrCollides`). */
module Merkle {
  import opened Powers

  /** i >> k */
  function Shift(i: nat, k: nat): nat {
    if k == 0 then i else Shift(i, k - 1) / 2
  }

  /** i ^ 1 */
  function Sibling(i: nat): nat {
    if i % 2 == 0 then i + 1 else i - 1
  }

  lemma {:induction false} ShiftBound(i: nat, k: nat, d: nat)
    requires k <= d && i < Pow(2, d)
    ensures Shift(i, k) < Pow(2, d - k)
  {
    if k > 0 {
      ShiftBound(i, k - 1, d);
    }
  }

  // ---- The tree of a leaf map ----

  function LeafAt<F>(leaves: map<nat, F>, zero: F, i: nat): F {
    if i in leaves then leaves[i] else zero
  }

  function NodeAt<F>(h: (F, F) -> F, leaves: map<nat, F>, zero: F, level: nat, i: nat): F
    decreases level
  {
    if level == 0 then LeafAt(leaves, zero, i)
    else h(NodeAt(h, leaves, zero, level - 1, 2 * i), NodeAt(h, leaves, zero, level - 1, 2 * i + 1))
  }

  function Root<F>(h: (F, F) -> F, leaves: map<nat, F>, zero: F, depth: nat): F {
    NodeAt(h, leaves, zero, depth, 0)
  }

  /** Which leaf goes where. */
  lemma FourLeaves<F>(h: (F, F) -> F, a: F, b: F, c: F, d: F, zero: F)
    ensures Root(h, map[0 := a, 1 := b, 2 := c, 3 := d], zero, 2) == h(h(a, b), h(c, d))
  {
    var leaves := map[0 := a, 1 := b, 2 := c, 3 := d];
    assert NodeAt(h, leaves, zero, 1, 0) == h(a, b) && NodeAt(h, leaves, zero, 1, 1) == h(c, d);
  }

  /** The nodes beside the path of leaf `i`, bottom to top. */
  function TrueSiblings<F>(h: (F, F) -> F, leaves: map<nat, F>, zero: F, depth: nat, i: nat): (s: seq<F>)
    ensures |s| == depth
    ensures forall k :: 0 <= k < depth ==> s[k] == NodeAt(h, leaves, zero, k, Sibling(Shift(i, k)))
  {
    if depth == 0 then []
    else TrueSiblings(h, leaves, zero, depth - 1, i) + [NodeAt(h, leaves, zero, depth - 1, Sibling(Shift(i, depth - 1)))]
  }

  /** The value after folding `k` levels of the path of leaf `i`, bottom to top. */
  function Fold<F>(h: (F, F) -> F, i: nat, leaf: F, siblings: seq<F>, k: nat): F
    requires k <= |siblings|
  {
    if k == 0 then leaf
    else
      var below := Fold(h, i, leaf, siblings, k - 1);
      if Shift(i, k - 1) % 2 == 0 then h(below, siblings[k - 1]) else h(siblings[k - 1], below)
  }

  function PathRoot<F>(h: (F, F) -> F, i: nat, leaf: F, siblings: seq<F>): F {
    Fold(h, i, leaf, siblings, |siblings|)
  }

  /** Subtrees that do not hold leaf `i` do not see it. */
  lemma {:induction false} UpdateOffPath<F>(h: (F, F) -> F, leaves: map<nat, F>, zero: F, i: nat, v: F, level: nat, j: nat)
    requires j != Shift(i, level)
    ensures NodeAt(h, leaves[i := v], zero, level, j) == NodeAt(h, leaves, zero, level, j)
  {
    if level > 0 {
      UpdateOffPath(h, leaves, zero, i, v, level - 1, 2 * j);
      UpdateOffPath(h, leaves, zero, i, v, level - 1, 2 * j + 1);
    }
  }

  lemma {:induction false} SameLeavesSameNodes<F>(h: (F, F) -> F, a: map<nat, F>, b: map<nat, F>, zero: F, level: nat, j: nat)
    requires forall i :: LeafAt(a, zero, i) == LeafAt(b, zero, i)
    ensures NodeAt(h, a, zero, level, j) == NodeAt(h, b, zero, level, j)
  {
    if level > 0 {
      SameLeavesSameNodes(h, a, b, zero, level - 1, 2 * j);
      SameLeavesSameNodes(h, a, b, zero, level - 1, 2 * j + 1);
    }
  }

  lemma SiblingsIgnoreLeaf<F>(h: (F, F) -> F, leaves: map<nat, F>, zero: F, depth: nat, i: nat, v: F)
    ensures TrueSiblings(h, leaves[i := v], zero, depth, i) == TrueSiblings(h, leaves, zero, depth, i)
  {
    forall k | 0 <= k < depth
      ensures NodeAt(h, leaves[i := v], zero, k, Sibling(Shift(i, k))) == NodeAt(h, leaves, zero, k, Sibling(Shift(i, k)))
    {
      UpdateOffPath(h, leaves, zero, i, v, k, Sibling(Shift(i, k)));
    }
  }

  /** The true siblings fold to the nodes above leaf `i`, up to the root. */
  lemma {:induction false} PathOpens<F>(h: (F, F) -> F, leaves: map<nat, F>, zero: F, depth: nat, i: nat, k: nat)
    requires k <= depth
    ensures Fold(h, i, LeafAt(leaves, zero, i), TrueSiblings(h, leaves, zero, depth, i), k)
         == NodeAt(h, leaves, zero, k, Shift(i, k))
  {
    if k > 0 {
      PathOpens(h, leaves, zero, depth, i, k - 1);
    }
  }

  lemma PathOpensRoot<F>(h: (F, F) -> F, leaves: map<nat, F>, zero: F, depth: nat, i: nat)
    requires i < Pow(2, depth)
    ensures PathRoot(h, i, LeafAt(leaves, zero, i), TrueSiblings(h, leaves, zero, depth, i)) == Root(h, leaves, zero, depth)
  {
    PathOpens(h, leaves, zero, depth, i, depth);
    ShiftBound(i, depth, depth);
  }

  // ---- A path that reaches the root is the path, or the hash collides ----

  /** The pair hashed on level `k` of the walk. */
  function WalkPair<F>(h: (F, F) -> F, i: nat, leaf: F, siblings: seq<F>, k: nat): (F, F)
    requires k < |siblings|
  {
    var below := Fold(h, i, leaf, siblings, k);
    if Shift(i, k) % 2 == 0 then (below, siblings[k]) else (siblings[k], below)
  }

  /** The pair the tree hashes at the same place. */
  function TreePair<F>(h: (F, F) -> F, leaves: map<nat, F>, zero: F, i: nat, k: nat): (F, F) {
    (NodeAt(h, leaves, zero, k, 2 * Shift(i, k + 1)), NodeAt(h, leaves, zero, k, 2 * Shift(i, k + 1) + 1))
  }

  /** Two different pairs with one digest, met on level `k`. */
  ghost predicate CollidesAt<F>(h: (F, F) -> F, leaves: map<nat, F>, zero: F, i: nat, leaf: F, siblings: seq<F>, k: nat)
    requires k < |siblings|
  {
    var w, t := WalkPair(h, i, leaf, siblings, k), TreePair(h, leaves, zero, i, k);
    w != t && h(w.0, w.1) == h(t.0, t.1)
  }

  /** Where the pairs are the same, walk and tree agree one level down. */
  lemma SamePairBelow<F>(h: (F, F) -> F, leaves: map<nat, F>, zero: F, i: nat, leaf: F, siblings: seq<F>, k: nat)
    requires k < |siblings| && WalkPair(h, i, leaf, siblings, k) == TreePair(h, leaves, zero, i, k)
    ensures Fold(h, i, leaf, siblings, k) == NodeAt(h, leaves, zero, k, Shift(i, k))
    ensures siblings[k] == NodeAt(h, leaves, zero, k, Sibling(Shift(i, k)))
  {
    hide Fold, NodeAt;
    assert Shift(i, k + 1) == Shift(i, k) / 2;
  }

  lemma PairsHash<F>(h: (F, F) -> F, leaves: map<nat, F>, zero: F, i: nat, leaf: F, siblings: seq<F>, k: nat)
    requires k < |siblings| && Fold(h, i, leaf, siblings, k + 1) == NodeAt(h, leaves, zero, k + 1, Shift(i, k + 1))
    ensures WalkPair(h, i, leaf, siblings, k) != TreePair(h, leaves, zero, i, k) ==> CollidesAt(h, leaves, zero, i, leaf, siblings, k)
  {
    hide Shift;
  }

  lemma {:induction false} PathBindsOrCollides<F>(h: (F, F) -> F, leaves: map<nat, F>, zero: F, i: nat, leaf: F, siblings: seq<F>, k: nat)
    requires k <= |siblings|
    requires Fold(h, i, leaf, siblings, k) == NodeAt(h, leaves, zero, k, Shift(i, k))
    ensures (leaf == LeafAt(leaves, zero, i) && siblings[..k] == TrueSiblings(h, leaves, zero, k, i))
         || (exists l | 0 <= l < k :: CollidesAt(h, leaves, zero, i, leaf, siblings, l))
  {
    hide WalkPair, TreePair, CollidesAt, Sibling;
    if k > 0 {
      PairsHash(h, leaves, zero, i, leaf, siblings, k - 1);
      if WalkPair(h, i, leaf, siblings, k - 1) == TreePair(h, leaves, zero, i, k - 1) {
        SamePairBelow(h, leaves, zero, i, leaf, siblings, k - 1);
        hide Fold, NodeAt, Shift;
        PathBindsOrCollides(h, leaves, zero, i, leaf, siblings, k - 1);
        assert siblings[..k] == siblings[..k - 1] + [siblings[k - 1]];
      }
    }
  }

  /** One accepted path check forces the siblings and makes the second fold the root of
      the updated tree, for every hash on which the walk meets no collision. */
  lemma VerifiedUpdate<F>(h: (F, F) -> F, leaves: map<nat, F>, zero: F, i: nat, oldLeaf: F, newLeaf: F, siblings: seq<F>)
    requires i < Pow(2, |siblings|)
    requires PathRoot(h, i, oldLeaf, siblings) == Root(h, leaves, zero, |siblings|)
    ensures (&& oldLeaf == LeafAt(leaves, zero, i)
             && siblings == TrueSiblings(h, leaves, zero, |siblings|, i)
             && PathRoot(h, i, newLeaf, siblings) == Root(h, leaves[i := newLeaf], zero, |siblings|))
         || (exists l | 0 <= l < |siblings| :: CollidesAt(h, leaves, zero, i, oldLeaf, siblings, l))
  {
    var d := |siblings|;
    ShiftBound(i, d, d);
    PathBindsOrCollides(h, leaves, zero, i, oldLeaf, siblings, d);
    assert siblings[..d] == siblings;
    SiblingsIgnoreLeaf(h, leaves, zero, d, i, newLeaf);
    PathOpensRoot(h, leaves[i := newLeaf], zero, d, i);
  }

  /** Writing a leaf and putting the old one back gives every old node back. */
  lemma RestoreLeaf<F>(h: (F, F) -> F, leaves: map<nat, F>, zero: F, i: nat, v: F, level: nat, j: nat)
    ensures NodeAt(h, leaves[i := v][i := LeafAt(leaves, zero, i)], zero, level, j) == NodeAt(h, leaves, zero, level, j)
  {
    SameLeavesSameNodes(h, leaves[i := v][i := LeafAt(leaves, zero, i)], leaves, zero, level, j);
  }

  // ---- The loops ----

  /** merkle.rs: shift the index right once a level. */
  method ComputeRoot<F>(h: (F, F) -> F, index: nat, leaf: F, siblings: seq<F>) returns (current: F)
    ensures current == PathRoot(h, index, leaf, siblings)
  {
    current := leaf;
    var idx := index;
    for level := 0 to |siblings|
      invariant current == Fold(h, index, leaf, siblings, level)
      invariant idx == Shift(index, level)
    {
      if idx % 2 == 0 {
        current := h(current, siblings[level]);
      } else {
        current := h(siblings[level], current);
      }
      idx := idx / 2;
    }
  }

  /** v2.rs: read bit `level` of the note id. */
  method MerkleRoot<F>(h: (F, F) -> F, noteId: nat, leaf: F, siblings: seq<F>) returns (current: F)
    ensures current == PathRoot(h, noteId, leaf, siblings)
  {
    current := leaf;
    for level := 0 to |siblings|
      invariant current == Fold(h, noteId, leaf, siblings, level)
    {
      if Shift(noteId, level) % 2 == 0 {
        current := h(current, siblings[level]);
      } else {
        current := h(siblings[level], current);
      }
    }
  }

  /** Bn254Poseidon.sol: the old and the new root in one pass over the siblings. */
  method HashPairPath<F>(h: (F, F) -> F, index: nat, oldLeaf: F, newLeaf: F, siblings: seq<F>)
    returns (oldRoot: F, newRoot: F)
    ensures oldRoot == PathRoot(h, index, oldLeaf, siblings)
    ensures newRoot == PathRoot(h, index, newLeaf, siblings)
  {
    oldRoot, newRoot := oldLeaf, newLeaf;
    var level := 0;
    while level < |siblings|
      invariant level <= |siblings|
      invariant oldRoot == Fold(h, index, oldLeaf, siblings, level)
      invariant newRoot == Fold(h, index, newLeaf, siblings, level)
    {
      var sibling := siblings[level];
      if Shift(index, level) % 2 == 0 {
        oldRoot := h(oldRoot, sibling);
        newRoot := h(newRoot, sibling);
      } else {
        oldRoot := h(sibling, oldRoot);
        newRoot := h(sibling, newRoot);
      }
      level := level + 1;
    }
  }

  /** The hash of an empty subtree on each level. */
  method ZeroHashes<F>(h: (F, F) -> F, zero: F, depth: nat) returns (zeros: seq<F>)
    ensures |zeros| == depth + 1
    ensures forall level, i :: 0 <= level <= depth && 0 <= i ==> zeros[level] == NodeAt(h, map[], zero, level, i)
  {
    zeros := [zero];
    for level := 1 to depth + 1
      invariant |zeros| == level
      invariant forall l, i :: 0 <= l < level && 0 <= i ==> zeros[l] == NodeAt(h, map[], zero, l, i)
    {
      ghost var before := zeros;
      zeros := zeros + [h(zeros[level - 1], zeros[level - 1])];
      forall i: nat ensures zeros[level] == NodeAt(h, map[], zero, level, i) {
        assert before[level - 1] == NodeAt(h, map[], zero, level - 1, 2 * i);
        assert before[level - 1] == NodeAt(h, map[], zero, level - 1, 2 * i + 1);
      }
    }
  }

  /** ZkApiVault.sol: the root a new vault starts with. */
  method EmptyTreeRoot<F>(h: (F, F) -> F, zero: F, depth: nat) returns (root: F)
    ensures root == Root(h, map[], zero, depth)
  {
    root := zero;
    for level := 0 to depth
      invariant forall i: nat :: NodeAt(h, map[], zero, level, i) == root
    {
      forall i: nat {:trigger NodeAt(h, map[], zero, level + 1, i)} ensures NodeAt(h, map[], zero, level + 1, i) == h(root, root) {
        assert NodeAt(h, map[], zero, level, 2 * i) == root;
        assert NodeAt(h, map[], zero, level, 2 * i + 1) == root;
      }
      root := h(root, root);
    }
  }
}
