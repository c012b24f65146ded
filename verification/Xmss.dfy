/** XMSS: many WOTS+ keys under one Merkle root, as RFC 8391 section 4.1 shapes it, with its
    signer in Rust and its verifiers in Rust and in Cairo. */
module Xmss {
  import opened Powers
  import opened Wrappers
  import opened Merkle
  import Wots
  import opened Primes

  /** The hashes: one chain step, a key to a leaf, two nodes to one, a seed and two indices to a
      secret, and a message to the number that is signed. */
  datatype Scheme<!F> = Scheme(
    step: (F, nat) -> F, leafHash: seq<F> -> F, nodeHash: (F, F) -> F, secretOf: (F, nat, nat) -> F, messageHash: F -> nat, zero: F)

  datatype Signature<F> = Signature(leafIndex: nat, wotsSig: seq<F>, authPath: seq<F>)

  function Secret<F>(s: Scheme<F>, seed: F, i: nat): (secret: seq<F>)
    ensures |secret| == Wots.LEN && forall j :: 0 <= j < Wots.LEN ==> secret[j] == s.secretOf(seed, i, j)
  {
    seq(Wots.LEN, j requires 0 <= j < Wots.LEN => s.secretOf(seed, i, j))
  }

  function LeafOf<F>(s: Scheme<F>, seed: F, i: nat): F {
    s.leafHash(Wots.KeyOf(s.step, Secret(s, seed, i)))
  }

  /** The leaves of a key, as the leaf map of a Merkle tree. */
  function Leaves<F>(s: Scheme<F>, seed: F, n: nat): (leaves: map<nat, F>)
    ensures forall i :: i in leaves <==> 0 <= i < n
    ensures forall i :: 0 <= i < n ==> leaves[i] == LeafOf(s, seed, i)
  {
    if n == 0 then map[] else Leaves(s, seed, n - 1)[n - 1 := LeafOf(s, seed, n - 1)]
  }

  function KeyLeaves<F>(s: Scheme<F>, seed: F, height: nat): (leaves: map<nat, F>)
    ensures forall i :: i in leaves <==> 0 <= i < Pow(2, height)
    ensures forall i :: 0 <= i < Pow(2, height) ==> leaves[i] == LeafOf(s, seed, i)
  {
    Leaves(s, seed, Pow(2, height))
  }

  function TreeNode<F>(s: Scheme<F>, seed: F, height: nat, level: nat, i: nat): F {
    NodeAt(s.nodeHash, KeyLeaves(s, seed, height), s.zero, level, i)
  }

  function KeyRoot<F>(s: Scheme<F>, seed: F, height: nat): F {
    TreeNode(s, seed, height, height, 0)
  }

  /** The signature that leaf i makes on a message. */
  function SignatureOf<F>(s: Scheme<F>, seed: F, height: nat, i: nat, message: F): Signature<F> {
    Signature(i, Wots.SignatureOf(s.step, Secret(s, seed, i), s.messageHash(message)),
              TrueSiblings(s.nodeHash, KeyLeaves(s, seed, height), s.zero, height, i))
  }

  /** No two chains of a key start from one secret, as long as the derivation gives no two places the same. */
  lemma SecretsDiffer<F(!new)>(s: Scheme<F>, seed: F, i: nat, j: nat, i': nat, j': nat)
    requires forall a: nat, b: nat, a': nat, b': nat :: s.secretOf(seed, a, b) == s.secretOf(seed, a', b') ==> a == a' && b == b'
    requires j < Wots.LEN && j' < Wots.LEN && Secret(s, seed, i)[j] == Secret(s, seed, i')[j']
    ensures i == i' && j == j'
  {
  }

  // ---- Verifying ----

  /** The root that a signature leads to. */
  function RecoveredRoot<F>(s: Scheme<F>, message: F, sig: Signature<F>): F
    requires |sig.wotsSig| == Wots.LEN
  {
    PathRoot(s.nodeHash, sig.leafIndex, s.leafHash(Wots.RecoveredKey(s.step, sig.wotsSig, s.messageHash(message))), sig.authPath)
  }

  predicate Accepts<F(==)>(s: Scheme<F>, root: F, message: F, sig: Signature<F>) {
    && |sig.wotsSig| == Wots.LEN && sig.leafIndex < Pow(2, |sig.authPath|)
    && RecoveredRoot(s, message, sig) == root
  }

  /** XmssVerifier::verify */
  method Verify<F(0, ==)>(s: Scheme<F>, root: F, message: F, sig: Signature<F>) returns (ok: bool)
    ensures ok <==> |sig.authPath| < 32 && Accepts(s, root, message, sig)
  {
    if |sig.wotsSig| != 65 || |sig.authPath| >= 32 || sig.leafIndex >= Pow(2, |sig.authPath|) {
      return false;
    }
    var key := Wots.Recover(s.step, sig.wotsSig, s.messageHash(message));
    var current := s.leafHash(key);
    var idx := sig.leafIndex;
    for level := 0 to |sig.authPath|
      invariant idx == Shift(sig.leafIndex, level)
      invariant current == Fold(s.nodeHash, sig.leafIndex, s.leafHash(key), sig.authPath, level)
    {
      if idx % 2 == 0 {
        current := s.nodeHash(current, sig.authPath[level]);
      } else {
        current := s.nodeHash(sig.authPath[level], current);
      }
      idx := idx / 2;
    }
    ok := current == root;
  }

  lemma {:induction false} ShiftVanishesIff(i: nat, k: nat, d: nat)
    requires k <= d
    ensures Shift(i, k) < Pow(2, d - k) <==> i < Pow(2, d)
  {
    if k > 0 {
      ShiftVanishesIff(i, k - 1, d);
    }
  }

  /** verify_auth_path in Cairo: false where it panics. */
  method VerifyAuthPath<F(==)>(s: Scheme<F>, leaf: F, leafIndex: nat, authPath: seq<F>, root: F) returns (ok: bool)
    ensures ok <==> 0 < |authPath| <= 20 && leafIndex < Pow(2, |authPath|) && PathRoot(s.nodeHash, leafIndex, leaf, authPath) == root
  {
    var treeHeight := |authPath|;
    if treeHeight == 0 || treeHeight > 20 {
      return false;
    }
    var current := leaf;
    var idx := leafIndex;
    var i: nat := 0;
    while i < treeHeight
      invariant i <= treeHeight && idx == Shift(leafIndex, i)
      invariant current == Fold(s.nodeHash, leafIndex, leaf, authPath, i)
    {
      var sibling := authPath[i];
      var bit := idx % 2;
      if bit == 0 {
        current := s.nodeHash(current, sibling);
      } else {
        current := s.nodeHash(sibling, current);
      }
      idx := idx / 2;
      i := i + 1;
    }
    ShiftVanishesIff(leafIndex, treeHeight, treeHeight);
    ok := idx == 0 && current == root;
  }

  /** verify_xmss in Cairo */
  method VerifyInCairo<F(==)>(s: Scheme<F>, root: F, message: F, sig: Signature<F>) returns (ok: bool)
    ensures ok <==> 0 < |sig.authPath| <= 20 && Accepts(s, root, message, sig)
  {
    var key := Wots.RecoverByDivision(s.step, sig.wotsSig, s.messageHash(message));
    if key.None? {
      return false;
    }
    ok := VerifyAuthPath(s, s.leafHash(key.value), sig.leafIndex, sig.authPath, root);
  }

  /** What a leaf of the key signs is accepted under the key's root, for every height. */
  lemma SignatureIsAccepted<F>(s: Scheme<F>, seed: F, height: nat, i: nat, message: F)
    requires i < Pow(2, height)
    ensures Accepts(s, KeyRoot(s, seed, height), message, SignatureOf(s, seed, height, i, message))
  {
    Wots.SignatureRecoversKey(s.step, Secret(s, seed, i), s.messageHash(message));
    PathOpensRoot(s.nodeHash, KeyLeaves(s, seed, height), s.zero, height, i);
  }

  /** A signature accepted under the root of the key recovers the WOTS+ leaf at its index, or its path
      collides with the tree. */
  lemma AcceptedNamesLeaf<F>(s: Scheme<F>, seed: F, height: nat, message: F, sig: Signature<F>)
    requires Accepts(s, KeyRoot(s, seed, height), message, sig) && |sig.authPath| == height
    ensures var leaf := s.leafHash(Wots.RecoveredKey(s.step, sig.wotsSig, s.messageHash(message)));
      var leaves := KeyLeaves(s, seed, height);
      leaf == LeafOf(s, seed, sig.leafIndex)
      || exists l | 0 <= l < height :: CollidesAt(s.nodeHash, leaves, s.zero, sig.leafIndex, leaf, sig.authPath, l)
  {
    var leaf := s.leafHash(Wots.RecoveredKey(s.step, sig.wotsSig, s.messageHash(message)));
    var leaves := KeyLeaves(s, seed, height);
    ShiftBound(sig.leafIndex, height, height);
    assert Fold(s.nodeHash, sig.leafIndex, leaf, sig.authPath, height) == NodeAt(s.nodeHash, leaves, s.zero, height, 0);
    PathBindsOrCollides(s.nodeHash, leaves, s.zero, sig.leafIndex, leaf, sig.authPath, height);
    assert LeafAt(leaves, s.zero, sig.leafIndex) == LeafOf(s, seed, sig.leafIndex);
  }

  /** A second message accepted at a leaf that signed already, with other low 248 bits, shows a collision of two nodes,
      a second key with the digest of the leaf, or a broken chain of that leaf's key. */
  lemma ForgeryBreaksHash<F>(s: Scheme<F>, seed: F, height: nat, i: nat, message: F, message': F, sig: Signature<F>)
    requires i < Pow(2, height) && sig.leafIndex == i && |sig.authPath| == height
    requires Accepts(s, KeyRoot(s, seed, height), message', sig)
    requires s.messageHash(message) % Pow(2, 248) != s.messageHash(message') % Pow(2, 248)
    ensures var key, key' := Wots.KeyOf(s.step, Secret(s, seed, i)), Wots.RecoveredKey(s.step, sig.wotsSig, s.messageHash(message'));
      || (exists l | 0 <= l < height :: CollidesAt(s.nodeHash, KeyLeaves(s, seed, height), s.zero, i, s.leafHash(key'), sig.authPath, l))
      || (key' != key && s.leafHash(key') == s.leafHash(key))
      || (exists j | 0 <= j < Wots.LEN :: Wots.BreaksChain(s.step, SignatureOf(s, seed, height, i, message).wotsSig[j], sig.wotsSig[j],
                                                           Wots.Digits(s.messageHash(message'))[j], Wots.Digits(s.messageHash(message))[j]))
  {
    hide Wots.BreaksChain, Wots.Digits, KeyLeaves, CollidesAt, Wots.RecoveredKey, Wots.KeyOf, Pow;
    var key, key' := Wots.KeyOf(s.step, Secret(s, seed, i)), Wots.RecoveredKey(s.step, sig.wotsSig, s.messageHash(message'));
    AcceptedNamesLeaf(s, seed, height, message', sig);
    if key' == key {
      var j := Wots.SecondSignatureBreaksChain(s.step, Secret(s, seed, i), s.messageHash(message), sig.wotsSig, s.messageHash(message'));
    }
  }

  // ---- Signing ----

  lemma SiblingIsInTree(i: nat, level: nat, height: nat)
    requires level < height && i < Pow(2, height)
    ensures Sibling(Shift(i, level)) < Pow(2, height - level)
  {
    ShiftBound(i, level, height);
    assert Pow(2, height - level) == 2 * Pow(2, height - level - 1);
  }

  class XmssKeypair<F(0, ==)> {
    const s: Scheme<F>
    ghost const seed: F
    const height: nat
    var secretKeys: seq<seq<F>>
    var tree: seq<seq<F>>
    var root: F
    var nextIndex: nat

    ghost predicate Valid()
      reads this
    {
      && |secretKeys| == Pow(2, height) && |tree| == height + 1
      && (forall i :: 0 <= i < Pow(2, height) ==> secretKeys[i] == Secret(s, seed, i))
      && (forall level :: 0 <= level <= height ==> LevelIsBuilt(s, seed, height, level, tree[level]))
      && root == KeyRoot(s, seed, height)
    }

    static ghost predicate LevelIsBuilt(s: Scheme<F>, seed: F, height: nat, level: nat, nodes: seq<F>)
      requires level <= height
    {
      |nodes| == Pow(2, height - level) && forall i :: 0 <= i < |nodes| ==> nodes[i] == TreeNode(s, seed, height, level, i)
    }

    static method GenerateSecrets(s: Scheme<F>, seed: F, n: nat) returns (secrets: seq<seq<F>>)
      ensures |secrets| == n && forall i :: 0 <= i < n ==> secrets[i] == Secret(s, seed, i)
    {
      secrets := [];
      for i := 0 to n
        invariant |secrets| == i && forall k :: 0 <= k < i ==> secrets[k] == Secret(s, seed, k)
      {
        var secret := new F[Wots.LEN];
        for j := 0 to Wots.LEN
          invariant forall k :: 0 <= k < j ==> secret[k] == s.secretOf(seed, i, k)
        {
          secret[j] := s.secretOf(seed, i, j);
        }
        secrets := secrets + [secret[..]];
      }
    }

    static method BuildLeaves(s: Scheme<F>, ghost seed: F, height: nat, secrets: seq<seq<F>>) returns (leaves: seq<F>)
      requires |secrets| == Pow(2, height) && forall i :: 0 <= i < |secrets| ==> secrets[i] == Secret(s, seed, i)
      ensures LevelIsBuilt(s, seed, height, 0, leaves)
    {
      leaves := [];
      for i := 0 to |secrets|
        invariant |leaves| == i && forall k :: 0 <= k < i ==> leaves[k] == TreeNode(s, seed, height, 0, k)
      {
        var key := Wots.Keygen(s.step, secrets[i]);
        leaves := leaves + [s.leafHash(key)];
      }
    }

    static method BuildLevel(s: Scheme<F>, ghost seed: F, ghost height: nat, ghost level: nat, below: seq<F>) returns (nodes: seq<F>)
      requires level < height && LevelIsBuilt(s, seed, height, level, below)
      ensures LevelIsBuilt(s, seed, height, level + 1, nodes)
    {
      nodes := [];
      var i := 0;
      assert |below| == 2 * Pow(2, height - level - 1);
      while i < |below|
        invariant i <= |below| && i == 2 * |nodes|
        invariant forall k :: 0 <= k < |nodes| ==> nodes[k] == TreeNode(s, seed, height, level + 1, k)
      {
        nodes := nodes + [s.nodeHash(below[i], below[i + 1])];
        i := i + 2;
      }
    }

    /** generate_with_height: the tree is built level by level. */
    constructor (s: Scheme<F>, seed: F, height: nat)
      requires height < 32
      ensures Valid() && this.s == s && this.seed == seed && this.height == height && nextIndex == 0
    {
      this.s, this.seed, this.height, nextIndex := s, seed, height, 0;
      var secrets := GenerateSecrets(s, seed, Pow(2, height));
      var leaves := BuildLeaves(s, seed, height, secrets);
      var levels := [leaves];
      for level := 0 to height
        invariant |levels| == level + 1
        invariant forall l :: 0 <= l <= level ==> LevelIsBuilt(s, seed, height, l, levels[l])
      {
        var nodes := BuildLevel(s, seed, height, level, levels[level]);
        levels := levels + [nodes];
      }
      secretKeys := secrets;
      tree := levels;
      root := levels[height][0];
    }

    lemma SiblingIsStored(index: nat, level: nat)
      requires Valid() && index < Pow(2, height) && level < height
      ensures Sibling(Shift(index, level)) < |tree[level]|
      ensures tree[level][Sibling(Shift(index, level))] == TreeNode(s, seed, height, level, Sibling(Shift(index, level)))
    {
      SiblingIsInTree(index, level, height);
      assert LevelIsBuilt(s, seed, height, level, tree[level]);
    }

    /** The siblings on the way up, read out of the stored levels. */
    method AuthPath(index: nat) returns (authPath: seq<F>)
      requires Valid() && index < Pow(2, height)
      ensures authPath == TrueSiblings(s.nodeHash, KeyLeaves(s, seed, height), s.zero, height, index)
    {
      authPath := [];
      var nodeIdx := index;
      ghost var leaves := KeyLeaves(s, seed, height);
      for level := 0 to height
        invariant nodeIdx == Shift(index, level)
        invariant authPath == TrueSiblings(s.nodeHash, leaves, s.zero, level, index)
      {
        SiblingIsStored(index, level);
        authPath := authPath + [tree[level][Sibling(nodeIdx)]];
        nodeIdx := nodeIdx / 2;
      }
    }

    /** sign_with_index: the message is built from the very leaf that signs it, and the leaf is spent. */
    method SignWithIndex(buildMessage: nat -> F) returns (result: Option<(Signature<F>, nat, F)>)
      requires Valid()
      modifies this`nextIndex
      ensures Valid()
      ensures result == if old(nextIndex) < Pow(2, height)
                        then Some((SignatureOf(s, seed, height, old(nextIndex), buildMessage(old(nextIndex))), old(nextIndex), buildMessage(old(nextIndex))))
                        else None
      ensures nextIndex == old(nextIndex) + (if result.Some? then 1 else 0)
    {
      var idx := nextIndex;
      if idx >= Pow(2, height) {
        return None;
      }
      var message := buildMessage(idx);
      nextIndex := idx + 1;
      var wotsSig := Wots.Sign(s.step, secretKeys[idx], s.messageHash(message));
      var authPath := AuthPath(idx);
      result := Some((Signature(idx, wotsSig, authPath), idx, message));
    }

    /** sign_reserved: the cursor moves past the leaf and never back. */
    method SignReserved(index: nat, message: F) returns (result: Option<Signature<F>>)
      requires Valid()
      modifies this`nextIndex
      ensures Valid()
      ensures result == if index < Pow(2, height) then Some(SignatureOf(s, seed, height, index, message)) else None
      ensures nextIndex == if index < Pow(2, height) && old(nextIndex) < index + 1 then index + 1 else old(nextIndex)
    {
      if index >= Pow(2, height) {
        return None;
      }
      var next := index + 1;
      if nextIndex < next {
        nextIndex := next;
      }
      var wotsSig := Wots.Sign(s.step, secretKeys[index], s.messageHash(message));
      var authPath := AuthPath(index);
      result := Some(Signature(index, wotsSig, authPath));
    }
  }
}
