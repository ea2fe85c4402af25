/**
 The reference meaning of a Merkle tree.

 Nodes are numbered as in a binary heap: node 0 is the root and node i has the children
 2*i+1 and 2*i+2, so that the leaves of a tree of height H are the nodes from 2^H - 1.
 `NodeVal` computes any node from the leaves alone; every other form of a tree in this
 project is measured against it.
 */
module Merkle {
  import opened Field

  /** The Poseidon hashes, left uninterpreted: two children, and the three parts of an indexed leaf. */
  datatype Hasher = Hasher(node: (Fr, Fr) -> Fr, leaf: (Fr, Fr, Fr) -> Fr) {
    /** The one fact every tree relies on: an empty sub-tree hashes to zero. */
    ghost predicate ZeroPreserving() {
      node(0, 0) == 0
    }
  }

  /** A stored tree: nodes that are absent have the value zero. */
  type Nodes = map<nat, Fr>

  function Get(t: Nodes, i: nat): Fr {
    if i in t then t[i] else 0
  }

  function LeafOrZero(leaves: seq<Fr>, k: nat): Fr {
    if k < |leaves| then leaves[k] else 0
  }

  function Parent(i: nat): nat
    requires i > 0
  {
    (i - 1) / 2
  }

  function Sibling(i: nat): nat
    requires i > 0
  {
    if i % 2 == 0 then i - 1 else i + 1
  }

  /** The value of node `i` of the tree of the given height over `leaves`, computed from scratch. */
  function NodeVal(h: Hasher, height: nat, leaves: seq<Fr>, i: nat): Fr
    requires i < Pow2(height + 1) - 1
    decreases Pow2(height + 1) - i
  {
    if i >= Pow2(height) - 1 then
      LeafOrZero(leaves, i + 1 - Pow2(height))
    else
      h.node(NodeVal(h, height, leaves, 2 * i + 1), NodeVal(h, height, leaves, 2 * i + 2))
  }

  lemma NodeValLeaf(h: Hasher, height: nat, leaves: seq<Fr>, p: nat)
    requires p < Pow2(height)
    ensures Pow2(height) - 1 + p < Pow2(height + 1) - 1
    ensures NodeVal(h, height, leaves, Pow2(height) - 1 + p) == LeafOrZero(leaves, p)
  {
  }

  lemma NodeValInner(h: Hasher, height: nat, leaves: seq<Fr>, i: nat)
    requires i < Pow2(height) - 1
    ensures 2 * i + 2 < Pow2(height + 1) - 1
    ensures NodeVal(h, height, leaves, i) == h.node(NodeVal(h, height, leaves, 2 * i + 1), NodeVal(h, height, leaves, 2 * i + 2))
  {
  }

  function TreeRoot(h: Hasher, height: nat, leaves: seq<Fr>): Fr {
    NodeVal(h, height, leaves, 0)
  }

  // ---------------------------------------------------------------- stored trees

  ghost predicate NodeIs(h: Hasher, t: Nodes, height: nat, leaves: seq<Fr>, i: nat)
    requires i < Pow2(height + 1) - 1
  {
    Get(t, i) == NodeVal(h, height, leaves, i)
  }

  /** Every node of the store has the value computed from scratch from `leaves`. */
  ghost predicate Represents(h: Hasher, t: Nodes, height: nat, leaves: seq<Fr>) {
    && |leaves| <= Pow2(height)
    && forall i: nat :: i < Pow2(height + 1) - 1 ==> NodeIs(h, t, height, leaves, i)
  }

  ghost predicate NodeOk(h: Hasher, t: Nodes, i: nat) {
    Get(t, i) == h.node(Get(t, 2 * i + 1), Get(t, 2 * i + 2))
  }

  /** Every internal node is the hash of its children. */
  ghost predicate Consistent(h: Hasher, t: Nodes, height: nat) {
    forall i: nat :: i < Pow2(height) - 1 ==> NodeOk(h, t, i)
  }

  ghost predicate HoldsLeaf(t: Nodes, height: nat, leaves: seq<Fr>, k: nat) {
    Get(t, Pow2(height) - 1 + k) == LeafOrZero(leaves, k)
  }

  ghost predicate HoldsLeaves(t: Nodes, height: nat, leaves: seq<Fr>) {
    forall k: nat :: k < Pow2(height) ==> HoldsLeaf(t, height, leaves, k)
  }

  /** The local condition at each node and the leaves together fix every node of the tree. */
  lemma ConsistentIsRepresents(h: Hasher, t: Nodes, height: nat, leaves: seq<Fr>)
    requires |leaves| <= Pow2(height)
    ensures Represents(h, t, height, leaves) <==> Consistent(h, t, height) && HoldsLeaves(t, height, leaves)
  {
    if Consistent(h, t, height) && HoldsLeaves(t, height, leaves) {
      forall i: nat | i < Pow2(height + 1) - 1
        ensures NodeIs(h, t, height, leaves, i)
      {
        ConsistentFixesNode(h, t, height, leaves, i);
      }
    }
    if Represents(h, t, height, leaves) {
      forall i: nat | i < Pow2(height) - 1
        ensures NodeOk(h, t, i)
      {
        assert NodeIs(h, t, height, leaves, i);
        assert NodeIs(h, t, height, leaves, 2 * i + 1);
        assert NodeIs(h, t, height, leaves, 2 * i + 2);
      }
      forall k: nat | k < Pow2(height)
        ensures HoldsLeaf(t, height, leaves, k)
      {
        var i: nat := Pow2(height) - 1 + k;
        assert NodeIs(h, t, height, leaves, i);
      }
    }
  }

  lemma {:induction false} ConsistentFixesNode(h: Hasher, t: Nodes, height: nat, leaves: seq<Fr>, i: nat)
    requires Consistent(h, t, height) && HoldsLeaves(t, height, leaves)
    requires i < Pow2(height + 1) - 1
    ensures Get(t, i) == NodeVal(h, height, leaves, i)
    decreases Pow2(height + 1) - i
  {
    if i >= Pow2(height) - 1 {
      var k: nat := i + 1 - Pow2(height);
      assert HoldsLeaf(t, height, leaves, k);
    } else {
      assert NodeOk(h, t, i);
      ConsistentFixesNode(h, t, height, leaves, 2 * i + 1);
      ConsistentFixesNode(h, t, height, leaves, 2 * i + 2);
    }
  }

  /** Trailing zero leaves make no difference. */
  lemma {:induction false} NodeValExtensional(h: Hasher, height: nat, a: seq<Fr>, b: seq<Fr>, i: nat)
    requires i < Pow2(height + 1) - 1
    requires forall k: nat :: k < Pow2(height) ==> LeafOrZero(a, k) == LeafOrZero(b, k)
    ensures NodeVal(h, height, a, i) == NodeVal(h, height, b, i)
    decreases Pow2(height + 1) - i
  {
    if i >= Pow2(height) - 1 {
      var k: nat := i + 1 - Pow2(height);
      assert LeafOrZero(a, k) == LeafOrZero(b, k);
    } else {
      NodeValExtensional(h, height, a, b, 2 * i + 1);
      NodeValExtensional(h, height, a, b, 2 * i + 2);
    }
  }

  lemma EmptyRepresentsNothing(h: Hasher, height: nat)
    requires h.ZeroPreserving()
    ensures Represents(h, map[], height, [])
  {
    ConsistentIsRepresents(h, map[], height, []);
  }

  // ---------------------------------------------------------------- writing over a run of leaves

  /** `leaves` with `chunk` written from position `off` on, padded with zeros where it was shorter. */
  function Splice(leaves: seq<Fr>, off: nat, chunk: seq<Fr>): (r: seq<Fr>)
    ensures |r| == if |leaves| <= off + |chunk| then off + |chunk| else |leaves|
    ensures forall k: nat :: LeafOrZero(r, k) == if off <= k < off + |chunk| then chunk[k - off] else LeafOrZero(leaves, k)
  {
    seq(if |leaves| <= off + |chunk| then off + |chunk| else |leaves|,
        k requires k >= 0 => if off <= k < off + |chunk| then chunk[k - off] else LeafOrZero(leaves, k))
  }
}
