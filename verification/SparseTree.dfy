/** The in-memory tree of the indexer and the browser: one cached map of nodes a level,
    defaulting to the hash of an empty subtree.  It is proved to be the tree of its
    leaf map at every level and index, whatever was written to it. */
module SparseTree {
  import opened Powers
  import opened Merkle

  /** A cache read: the stored node, or the hash of an empty subtree of that level. */
  function Cached<F>(nodes: seq<map<nat, F>>, zeroHashes: seq<F>, level: nat, index: nat): F
    requires level < |nodes| && level < |zeroHashes|
  {
    if index in nodes[level] then nodes[level][index] else zeroHashes[level]
  }

  function Store<F>(nodes: seq<map<nat, F>>, level: nat, index: nat, value: F): seq<map<nat, F>>
    requires level < |nodes|
  {
    var updated: map<nat, F> := nodes[level][index := value];
    nodes[level := updated]
  }

  /** The cache holds the tree of `leaves`, except perhaps above level `done` on the path of `index`. */
  ghost predicate Synced<F>(h: (F, F) -> F, zero: F, nodes: seq<map<nat, F>>, zeroHashes: seq<F>, leaves: map<nat, F>, index: nat, done: nat)
    requires |nodes| == |zeroHashes|
  {
    forall l: nat, i: nat {:trigger Cached(nodes, zeroHashes, l, i)} ::
      l < |nodes| && (l <= done || i != Shift(index, l)) ==> Cached(nodes, zeroHashes, l, i) == NodeAt(h, leaves, zero, l, i)
  }

  /** Writing a leaf leaves only the path above it stale. */
  lemma WriteLeaf<F>(h: (F, F) -> F, zero: F, nodes: seq<map<nat, F>>, nodes': seq<map<nat, F>>, zeroHashes: seq<F>, index: nat, value: F)
    requires 0 < |nodes| == |zeroHashes|
    requires Synced(h, zero, nodes, zeroHashes, nodes[0], 0, |nodes|)
    requires nodes' == Store(nodes, 0, index, value)
    ensures Synced(h, zero, nodes', zeroHashes, nodes'[0], index, 0)
  {
    forall l: nat, i: nat | l < |nodes| && (l <= 0 || i != Shift(index, l))
      ensures Cached(nodes', zeroHashes, l, i) == NodeAt(h, nodes'[0], zero, l, i)
    {
      if l > 0 {
        UpdateOffPath(h, nodes[0], zero, index, value, l, i);
        assert Cached(nodes, zeroHashes, l, i) == NodeAt(h, nodes[0], zero, l, i);
      }
    }
  }

  /** Recomputing one parent moves the stale part one level up. */
  lemma WriteParent<F>(h: (F, F) -> F, zero: F, nodes: seq<map<nat, F>>, nodes': seq<map<nat, F>>, zeroHashes: seq<F>, leaves: map<nat, F>, index: nat, level: nat)
    requires level + 1 < |nodes| == |zeroHashes|
    requires Synced(h, zero, nodes, zeroHashes, leaves, index, level)
    requires var p := Shift(index, level + 1);
      nodes' == Store(nodes, level + 1, p, h(Cached(nodes, zeroHashes, level, 2 * p), Cached(nodes, zeroHashes, level, 2 * p + 1)))
    ensures Synced(h, zero, nodes', zeroHashes, leaves, index, level + 1)
  {
    var p := Shift(index, level + 1);
    forall l: nat, i: nat | l < |nodes| && (l <= level + 1 || i != Shift(index, l))
      ensures Cached(nodes', zeroHashes, l, i) == NodeAt(h, leaves, zero, l, i)
    {
      if l == level + 1 && i == p {
        assert Cached(nodes, zeroHashes, level, 2 * p) == NodeAt(h, leaves, zero, level, 2 * p);
      } else {
        assert Cached(nodes', zeroHashes, l, i) == Cached(nodes, zeroHashes, l, i);
      }
    }
  }

  class MerkleTree<F(==)> {
    const h: (F, F) -> F
    const zero: F
    const depth: nat
    var nextIndex: nat
    var leaves: seq<F>
    var zeroHashes: seq<F>
    var nodes: seq<map<nat, F>>

    ghost predicate Shaped()
      reads this
    {
      && |nodes| == depth + 1
      && |zeroHashes| == depth + 1
      && (forall level, i :: 0 <= level <= depth && 0 <= i ==> zeroHashes[level] == NodeAt(h, map[], zero, level, i))
    }

    /** Every node read from the cache is the node of the tree over the level-0 map. */
    ghost predicate Valid()
      reads this
    {
      && Shaped()
      && Synced(h, zero, nodes, zeroHashes, nodes[0], 0, |nodes|)
    }

    ghost function Leaves(): map<nat, F>
      reads this
      requires Shaped()
    {
      nodes[0]
    }

    function GetNode(level: nat, index: nat): F
      reads this
      requires Shaped() && level <= depth
    {
      Cached(nodes, zeroHashes, level, index)
    }

    function GetLeaf(index: nat): (r: F)
      reads this
      requires Valid()
      ensures r == LeafAt(Leaves(), zero, index)
    {
      GetNode(0, index)
    }

    function RootHash(): (r: F)
      reads this
      requires Valid()
      ensures r == Root(h, Leaves(), zero, depth)
    {
      GetNode(depth, 0)
    }

    constructor (h: (F, F) -> F, zero: F, depth: nat)
      ensures Valid() && this.h == h && this.zero == zero && this.depth == depth
      ensures Leaves() == map[] && nextIndex == 0
    {
      this.h, this.zero, this.depth, nextIndex, leaves := h, zero, depth, 0, [];
      var zs := ZeroHashes(h, zero, depth);
      zeroHashes := zs;
      nodes := seq(depth + 1, _ => map[]);
    }

    method SetLeaf(index: nat, value: F)
      requires Valid()
      modifies this
      ensures Valid()
      ensures Leaves() == old(Leaves())[index := value]
      ensures nextIndex == old(nextIndex)
    {
      while |leaves| <= index
        invariant Valid() && nodes == old(nodes) && nextIndex == old(nextIndex)
      {
        leaves := leaves + [zero];
      }
      leaves := leaves[index := value];
      var written := Store(nodes, 0, index, value);
      WriteLeaf(h, zero, nodes, written, zeroHashes, index, value);
      nodes := written;
      var idx := index;
      for level := 0 to depth
        invariant Shaped() && nodes[0] == written[0] && nextIndex == old(nextIndex)
        invariant idx == Shift(index, level)
        invariant Synced(h, zero, nodes, zeroHashes, written[0], index, level)
      {
        var parentIdx := idx / 2;
        var leftIdx := parentIdx * 2;
        var rightIdx := leftIdx + 1;
        var parent := h(GetNode(level, leftIdx), GetNode(level, rightIdx));
        var updated := Store(nodes, level + 1, parentIdx, parent);
        WriteParent(h, zero, nodes, updated, zeroHashes, written[0], index, level);
        nodes := updated;
        idx := parentIdx;
      }
    }

    method Insert(value: F) returns (idx: nat)
      requires Valid()
      modifies this
      ensures Valid() && idx == old(nextIndex) && nextIndex == idx + 1
      ensures Leaves() == old(Leaves())[idx := value]
    {
      idx := nextIndex;
      SetLeaf(idx, value);
      nextIndex := idx + 1;
    }

    method GetSiblings(index: nat) returns (siblings: seq<F>)
      requires Valid()
      ensures siblings == TrueSiblings(h, Leaves(), zero, depth, index)
      ensures index < Pow(2, depth) ==> PathRoot(h, index, GetLeaf(index), siblings) == RootHash()
    {
      siblings := [];
      var idx := index;
      for level := 0 to depth
        invariant |siblings| == level && idx == Shift(index, level)
        invariant siblings == TrueSiblings(h, Leaves(), zero, level, index)
      {
        siblings := siblings + [GetNode(level, Sibling(idx))];
        idx := idx / 2;
      }
      if index < Pow(2, depth) {
        PathOpensRoot(h, Leaves(), zero, depth, index);
      }
    }
  }

  /** Writing a leaf over and putting the former value back restores the root. */
  method SetAndRestore<F>(tree: MerkleTree<F>, index: nat, value: F)
    requires tree.Valid()
    modifies tree
    ensures tree.Valid() && tree.RootHash() == old(tree.RootHash())
  {
    var former := tree.GetLeaf(index);
    RestoreLeaf(tree.h, tree.Leaves(), tree.zero, index, value, tree.depth, 0);
    tree.SetLeaf(index, value);
    tree.SetLeaf(index, former);
  }
}
