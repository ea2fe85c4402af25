/**
 What a root binds a prover to. The hash into field elements cannot be injective, so the assumption
 is made where it is used: among the pairs that have actually been hashed, no two collide.
 Under it a path that folds to a tree's root is the path of that tree, and equal roots mean equal leaves.
 */
module HashBinding {
  import opened Field
  import opened Merkle
  import opened Paths
  import opened Grafts
  import opened AppendSpec
  import opened TreeHelpers

  type Pairs = set<(Fr, Fr)>

  ghost predicate NoCollision(h: Hasher, used: Pairs) {
    forall p, q :: p in used && q in used && h.node(p.0, p.1) == h.node(q.0, q.1) ==> p == q
  }

  /** All pairs hashed on the way from `v` along the path are among `used`. */
  ghost predicate FoldWithin(h: Hasher, used: Pairs, v: Fr, path: seq<PathElement>)
    decreases |path|
  {
    path == [] ||
    if path[0].direction.HashWithThisNodeOnLeft? then
      (path[0].value, v) in used && FoldWithin(h, used, h.node(path[0].value, v), path[1..])
    else
      (v, path[0].value) in used && FoldWithin(h, used, h.node(v, path[0].value), path[1..])
  }

  ghost predicate PairWithin(h: Hasher, used: Pairs, height: nat, leaves: seq<Fr>, i: nat)
    requires i < Pow2(height) - 1
  {
    (NodeVal(h, height, leaves, 2 * i + 1), NodeVal(h, height, leaves, 2 * i + 2)) in used
  }

  /** All pairs hashed in the tree over `leaves` are among `used`. */
  ghost predicate TreeWithin(h: Hasher, used: Pairs, height: nat, leaves: seq<Fr>) {
    forall i: nat :: i < Pow2(height) - 1 ==> PairWithin(h, used, height, leaves, i)
  }

  // ---------------------------------------------------------------- a hasher that tells the used pairs from the others

  /** Like `h` on the used pairs, and different from it on all others. */
  function Kept(h: Hasher, used: Pairs): Hasher {
    h.(node := (a, b) => KeptNode(h, used, a, b))
  }

  function KeptNode(h: Hasher, used: Pairs, a: Fr, b: Fr): Fr {
    if (a, b) in used then h.node(a, b) else Add(h.node(a, b), 1)
  }

  lemma KeptIff(h: Hasher, used: Pairs, a: Fr, b: Fr)
    ensures Kept(h, used).node(a, b) == h.node(a, b) <==> (a, b) in used
  {
  }

  /** A stored tree that is right for both hashers. */
  ghost predicate Bound(h: Hasher, used: Pairs, t: Nodes, height: nat, leaves: seq<Fr>) {
    Represents(h, t, height, leaves) && Represents(Kept(h, used), t, height, leaves)
  }

  lemma PairIsUsed(h: Hasher, used: Pairs, height: nat, leaves: seq<Fr>, i: nat)
    requires TreeWithin(h, used, height, leaves) && i < Pow2(height) - 1
    ensures 2 * i + 2 < Pow2(height + 1) - 1
    ensures (NodeVal(h, height, leaves, 2 * i + 1), NodeVal(h, height, leaves, 2 * i + 2)) in used
  {
    hide NodeVal;
    assert PairWithin(h, used, height, leaves, i);
  }

  lemma {:induction false} SameNode(h: Hasher, used: Pairs, height: nat, leaves: seq<Fr>, i: nat)
    requires TreeWithin(h, used, height, leaves) && i < Pow2(height + 1) - 1
    ensures NodeVal(Kept(h, used), height, leaves, i) == NodeVal(h, height, leaves, i)
    decreases Pow2(height + 1) - i
  {
    hide *;
    Doubles(height);
    if i >= Pow2(height) - 1 {
      NodeValLeaf(h, height, leaves, i + 1 - Pow2(height));
      NodeValLeaf(Kept(h, used), height, leaves, i + 1 - Pow2(height));
    } else {
      NodeValInner(h, height, leaves, i);
      NodeValInner(Kept(h, used), height, leaves, i);
      PairIsUsed(h, used, height, leaves, i);
      KeptIff(h, used, NodeVal(h, height, leaves, 2 * i + 1), NodeVal(h, height, leaves, 2 * i + 2));
      SameNode(h, used, height, leaves, 2 * i + 1);
      SameNode(h, used, height, leaves, 2 * i + 2);
    }
  }

  ghost function FullTree(h: Hasher, height: nat, leaves: seq<Fr>): Nodes {
    map i: nat | i < Pow2(height + 1) - 1 :: NodeVal(h, height, leaves, i)
  }

  lemma FullTreeIsBound(h: Hasher, used: Pairs, height: nat, leaves: seq<Fr>)
    requires |leaves| <= Pow2(height) && TreeWithin(h, used, height, leaves)
    ensures Bound(h, used, FullTree(h, height, leaves), height, leaves)
  {
    hide NodeVal, TreeWithin;
    var t := FullTree(h, height, leaves);
    forall i: nat | i < Pow2(height + 1) - 1
      ensures NodeIs(h, t, height, leaves, i) && NodeIs(Kept(h, used), t, height, leaves, i)
    {
      SameNode(h, used, height, leaves, i);
    }
  }

  lemma BoundPair(h: Hasher, used: Pairs, t: Nodes, height: nat, leaves: seq<Fr>, i: nat)
    requires Bound(h, used, t, height, leaves) && i < Pow2(height) - 1
    ensures (Get(t, 2 * i + 1), Get(t, 2 * i + 2)) in used
    ensures Get(t, i) == h.node(Get(t, 2 * i + 1), Get(t, 2 * i + 2))
  {
    hide NodeVal;
    assert |leaves| <= Pow2(height);
    hide Represents;
    ConsistentIsRepresents(h, t, height, leaves);
    ConsistentIsRepresents(Kept(h, used), t, height, leaves);
    assert NodeOk(h, t, i) && NodeOk(Kept(h, used), t, i);
    KeptIff(h, used, Get(t, 2 * i + 1), Get(t, 2 * i + 2));
  }

  lemma BoundIsWithin(h: Hasher, used: Pairs, t: Nodes, height: nat, leaves: seq<Fr>)
    requires Bound(h, used, t, height, leaves)
    ensures TreeWithin(h, used, height, leaves)
  {
    hide NodeVal;
    forall i: nat | i < Pow2(height) - 1
      ensures PairWithin(h, used, height, leaves, i)
    {
      BoundPair(h, used, t, height, leaves, i);
      assert NodeIs(h, t, height, leaves, 2 * i + 1) && NodeIs(h, t, height, leaves, 2 * i + 2);
    }
  }

  // ---------------------------------------------------------------- paths are binding

  function Up(h: Hasher, e: PathElement, v: Fr): Fr {
    if e.direction.HashWithThisNodeOnLeft? then h.node(e.value, v) else h.node(v, e.value)
  }

  /** One level up a path: the place, the bits and the pairs of the rest. */
  lemma FoldUnfold(h: Hasher, used: Pairs, v: Fr, path: seq<PathElement>, k: nat)
    requires path != [] && k < Pow2(|path|) && Directed(path, k) && FoldWithin(h, used, v, path)
    ensures var up := Up(h, path[0], v);
            && FoldPath(h, v, path) == FoldPath(h, up, path[1..]) && FoldWithin(h, used, up, path[1..])
    ensures k / 2 < Pow2(|path| - 1) && Directed(path[1..], k / 2)
    ensures path[0].direction == if k % 2 == 0 then HashWithThisNodeOnRight else HashWithThisNodeOnLeft
    ensures (if k % 2 == 0 then (v, path[0].value) else (path[0].value, v)) in used
  {
    RowParent(|path|, k);
    hide Pow2;
    assert Shr(k, 0) == k;
    var rest := path[1..];
    forall i | 0 <= i < |rest|
      ensures rest[i].direction == if Shr(k / 2, i) % 2 == 0 then HashWithThisNodeOnRight else HashWithThisNodeOnLeft
    {
      assert rest[i] == path[i + 1];
    }
  }

  /** The children of a node below the root, and the one on the path. */
  lemma ChildOnPath(n: nat, k: nat)
    requires n > 0 && k < Pow2(n)
    ensures var p, i := SubTreeNode(n - 1, k / 2), SubTreeNode(n, k);
            p < Pow2(n) - 1 && Parent(i) == p && i == if k % 2 == 0 then 2 * p + 1 else 2 * p + 2
  {
    RowParent(n, k);
  }

  lemma SiblingHead(t: Nodes, i: nat, levels: nat)
    requires Deep(i, levels) && levels > 0
    ensures SiblingPath(t, i, levels)
         == [if i % 2 == 0 then PathElement(HashWithThisNodeOnLeft, Get(t, i - 1))
             else PathElement(HashWithThisNodeOnRight, Get(t, i + 1))] + SiblingPath(t, Parent(i), levels - 1)
  {
  }

  /** The only value, and the only siblings, that fold to the root from a place are the tree's own. */
  lemma {:induction false} FoldBinds(h: Hasher, used: Pairs, t: Nodes, height: nat, leaves: seq<Fr>, v: Fr, path: seq<PathElement>, k: nat)
    requires NoCollision(h, used) && Bound(h, used, t, height, leaves)
    requires |path| <= height && k < Pow2(|path|) && Directed(path, k)
    requires FoldWithin(h, used, v, path) && FoldPath(h, v, path) == Get(t, 0)
    ensures Get(t, SubTreeNode(|path|, k)) == v
    ensures SiblingPath(t, SubTreeNode(|path|, k), |path|) == path
    decreases |path|
  {
    var n := |path|;
    if n == 0 {
      assert path == [] && SubTreeNode(0, k) == 0 && SiblingPath(t, 0, 0) == [];
      assert Get(t, SubTreeNode(0, k)) == v;
      hide *;
    } else {
      FoldUnfold(h, used, v, path, k);
      ChildOnPath(n, k);
      Pow2Monotone(n, height);
      hide *;
      FoldBinds(h, used, t, height, leaves, Up(h, path[0], v), path[1..], k / 2);
      BoundPair(h, used, t, height, leaves, SubTreeNode(n - 1, k / 2));
      PairOnPath(h, used, t, SubTreeNode(n - 1, k / 2), v, path[0], k);
      StepOfPath(h, used, t, v, path[0], path[1..], n, SubTreeNode(n, k), SubTreeNode(n - 1, k / 2), k);
      assert path == [path[0]] + path[1..];
    }
  }

  /** One level of a path that is bound above: node `i` is the child of `p` on the side that the direction names. */
  lemma StepOfPath(h: Hasher, used: Pairs, t: Nodes, v: Fr, e: PathElement, rest: seq<PathElement>, n: nat, i: nat, p: nat, k: nat)
    requires n > 0 && Deep(i, n) && Deep(p, n - 1) && i > 0 && Parent(i) == p && i == (if k % 2 == 0 then 2 * p + 1 else 2 * p + 2)
    requires Get(t, 2 * p + 1) == (if k % 2 == 0 then v else e.value) && Get(t, 2 * p + 2) == (if k % 2 == 0 then e.value else v)
    requires SiblingPath(t, p, n - 1) == rest
    requires e.direction == if k % 2 == 0 then HashWithThisNodeOnRight else HashWithThisNodeOnLeft
    ensures Get(t, i) == v && SiblingPath(t, i, n) == [e] + rest
  {
    hide *;
    if k % 2 == 0 {
      LeftChildPath(t, p, e, rest, n);
    } else {
      RightChildPath(t, p, e, rest, n);
    }
  }

  lemma Children(p: nat)
    ensures Parent(2 * p + 1) == p && (2 * p + 1) % 2 == 1
    ensures Parent(2 * p + 2) == p && (2 * p + 2) % 2 == 0
  {
  }

  lemma LeftChildPath(t: Nodes, p: nat, e: PathElement, rest: seq<PathElement>, n: nat)
    requires n > 0 && Deep(2 * p + 1, n) && Deep(p, n - 1) && SiblingPath(t, p, n - 1) == rest
    requires e == PathElement(HashWithThisNodeOnRight, Get(t, 2 * p + 2))
    ensures SiblingPath(t, 2 * p + 1, n) == [e] + rest
  {
    hide *;
    Children(p);
    SiblingHead(t, 2 * p + 1, n);
  }

  lemma RightChildPath(t: Nodes, p: nat, e: PathElement, rest: seq<PathElement>, n: nat)
    requires n > 0 && Deep(2 * p + 2, n) && Deep(p, n - 1) && SiblingPath(t, p, n - 1) == rest
    requires e == PathElement(HashWithThisNodeOnLeft, Get(t, 2 * p + 1))
    ensures SiblingPath(t, 2 * p + 2, n) == [e] + rest
  {
    hide *;
    Children(p);
    SiblingHead(t, 2 * p + 2, n);
  }

  lemma PairOnPath(h: Hasher, used: Pairs, t: Nodes, p: nat, v: Fr, e: PathElement, k: nat)
    requires NoCollision(h, used) && (Get(t, 2 * p + 1), Get(t, 2 * p + 2)) in used
    requires h.node(Get(t, 2 * p + 1), Get(t, 2 * p + 2)) == Up(h, e, v)
    requires e.direction == if k % 2 == 0 then HashWithThisNodeOnRight else HashWithThisNodeOnLeft
    requires (if k % 2 == 0 then (v, e.value) else (e.value, v)) in used
    ensures if k % 2 == 0 then Get(t, 2 * p + 1) == v && Get(t, 2 * p + 2) == e.value
            else Get(t, 2 * p + 2) == v && Get(t, 2 * p + 1) == e.value
  {
    var x, y := (Get(t, 2 * p + 1), Get(t, 2 * p + 2)), if k % 2 == 0 then (v, e.value) else (e.value, v);
    assert x in used && y in used && h.node(x.0, x.1) == h.node(y.0, y.1);
  }

  /** Carrying a value up its path hashes the same under both hashers. */
  lemma {:induction false} SameUpdates(h: Hasher, used: Pairs, t: Nodes, i: nat, v: Fr, levels: nat)
    requires Deep(i, levels) && FoldWithin(h, used, v, SiblingPath(t, i, levels))
    ensures PathUpdates(Kept(h, used), t, i, v, levels) == PathUpdates(h, t, i, v, levels)
    ensures PathTop(Kept(h, used), t, i, v, levels) == PathTop(h, t, i, v, levels)
    decreases levels
  {
    if levels > 0 {
      var path := SiblingPath(t, i, levels);
      assert path[1..] == SiblingPath(t, Parent(i), levels - 1);
      SameUpdates(h, used, t, Parent(i), HashUp(h, t, i, v), levels - 1);
    }
  }

  lemma RootOf(h: Hasher, used: Pairs, t: Nodes, height: nat, leaves: seq<Fr>)
    requires Bound(h, used, t, height, leaves)
    ensures Get(t, 0) == TreeRoot(h, height, leaves)
  {
    hide NodeVal;
    RootIs(h, t, height, leaves);
  }

  /** A leaf's proof is the tree's own, and with another value the same path gives the root of the tree with that leaf rewritten. */
  lemma LeafBinds(h: Hasher, used: Pairs, full: nat, leaves: seq<Fr>, k: nat, v: Fr, v': Fr, path: seq<PathElement>)
    requires NoCollision(h, used) && |leaves| <= Pow2(full) && TreeWithin(h, used, full, leaves)
    requires |path| == full && k < Pow2(full) && Directed(path, k)
    requires FoldWithin(h, used, v, path) && FoldPath(h, v, path) == TreeRoot(h, full, leaves)
    requires FoldWithin(h, used, v', path)
    ensures LeafOrZero(leaves, k) == v
    ensures FoldPath(h, v', path) == TreeRoot(h, full, Splice(leaves, k, [v']))
    ensures TreeWithin(h, used, full, Splice(leaves, k, [v'])) && |Splice(leaves, k, [v'])| <= Pow2(full)
  {
    hide NodeVal, TreeWithin, Represents, FoldPath, FoldWithin, Splice, PathTop, PathUpdates;
    var t, i := FullTree(h, full, leaves), SubTreeNode(full, k);
    FullTreeIsBound(h, used, full, leaves);
    RootOf(h, used, t, full, leaves);
    FoldBinds(h, used, t, full, leaves, v, path, k);
    LeafAt(h, t, full, leaves, k);
    FoldOfSiblingPath(h, t, i, v', full);
    SameUpdates(h, used, t, i, v', full);
    LeafStep(h, t, full, k, v');
    LeafStep(Kept(h, used), t, full, k, v');
    LeafWriteRepresents(h, full, t, leaves, k, v');
    LeafWriteRepresents(Kept(h, used), full, t, leaves, k, v');
    BoundIsWithin(h, used, t + PathUpdates(h, t, i, v', full), full, Splice(leaves, k, [v']));
    SpliceFits(full, leaves, k, [v']);
  }

  lemma SpliceFits(full: nat, leaves: seq<Fr>, k: nat, chunk: seq<Fr>)
    requires |leaves| <= Pow2(full) && k + |chunk| <= Pow2(full)
    ensures |Splice(leaves, k, chunk)| <= Pow2(full)
  {
  }

  lemma LeafAt(h: Hasher, t: Nodes, full: nat, leaves: seq<Fr>, k: nat)
    requires Represents(h, t, full, leaves) && k < Pow2(full)
    ensures Get(t, SubTreeNode(full, k)) == LeafOrZero(leaves, k)
  {
    hide NodeVal;
    ConsistentIsRepresents(h, t, full, leaves);
    assert HoldsLeaf(t, full, leaves, k);
  }

  // ---------------------------------------------------------------- empty sub-trees

  /** A zero node has only zeros below it: zero is the hash of two zeros, and of nothing else. */
  lemma {:induction false} ZeroBelow(h: Hasher, used: Pairs, t: Nodes, levels: nat, height: nat, leaves: seq<Fr>, i: nat, s: nat)
    requires NoCollision(h, used) && h.ZeroPreserving() && (0, 0) in used
    requires Bound(h, used, t, levels + height, leaves)
    requires Pow2(levels) - 1 <= i < Pow2(levels + 1) - 1 && s < Pow2(height + 1) - 1 && Get(t, i) == 0
    ensures Get(t, Graft(i, s)) == 0
    decreases s
  {
    if s > 0 {
      var p := Parent(s);
      ZeroBelow(h, used, t, levels, height, leaves, i, p);
      GraftDepth(i, p, levels, height);
      BoundPair(h, used, t, levels + height, leaves, Graft(i, p));
      GraftChildren(i, p);
      assert s == 2 * p + 1 || s == 2 * p + 2;
    }
  }

  /** A proof that a sub-tree's root is zero shows that its leaves are, and leads to the root of the tree with the sub-tree filled in. */
  lemma SlotBinds(h: Hasher, used: Pairs, levels: nat, height: nat, leaves: seq<Fr>, k: nat, chunk: seq<Fr>, path: seq<PathElement>)
    requires NoCollision(h, used) && h.ZeroPreserving() && (0, 0) in used
    requires |leaves| <= Pow2(levels + height) && TreeWithin(h, used, levels + height, leaves)
    requires |path| == levels && k < Pow2(levels) && Directed(path, k)
    requires FoldWithin(h, used, 0, path) && FoldPath(h, 0, path) == TreeRoot(h, levels + height, leaves)
    requires |chunk| == Pow2(height) && TreeWithin(h, used, height, chunk) && FoldWithin(h, used, TreeRoot(h, height, chunk), path)
    ensures forall m: nat :: Offset(k, height) <= m < Offset(k, height) + Pow2(height) ==> LeafOrZero(leaves, m) == 0
    ensures var leaves' := Splice(leaves, Offset(k, height), chunk);
            && FoldPath(h, TreeRoot(h, height, chunk), path) == TreeRoot(h, levels + height, leaves')
            && TreeWithin(h, used, levels + height, leaves') && |leaves'| <= Pow2(levels + height)
  {
    hide NodeVal, TreeWithin, Represents, FoldPath, FoldWithin, Splice, Bound, SubTree, Writes;
    var full := levels + height;
    var t, i := FullTree(h, full, leaves), SubTreeNode(levels, k);
    FullTreeIsBound(h, used, full, leaves);
    RootOf(h, used, t, full, leaves);
    FoldBinds(h, used, t, full, leaves, 0, path, k);
    forall m: nat | Offset(k, height) <= m < Offset(k, height) + Pow2(height)
      ensures LeafOrZero(leaves, m) == 0
    {
      SlotLeafIsZero(h, used, t, levels, height, leaves, k, m - Offset(k, height));
    }
    SlotFilled(h, used, t, levels, height, leaves, k, chunk);
    OffsetMonotone(k, Pow2(levels), height);
    OffsetFull(levels, height);
    SpliceFits(full, leaves, Offset(k, height), chunk);
  }

  lemma SlotLeafIsZero(h: Hasher, used: Pairs, t: Nodes, levels: nat, height: nat, leaves: seq<Fr>, k: nat, p: nat)
    requires NoCollision(h, used) && h.ZeroPreserving() && (0, 0) in used
    requires Bound(h, used, t, levels + height, leaves)
    requires k < Pow2(levels) && p < Pow2(height) && Get(t, SubTreeNode(levels, k)) == 0
    ensures LeafOrZero(leaves, Offset(k, height) + p) == 0
  {
    hide *;
    Doubles(levels);
    Doubles(height);
    PlaceOf(levels, k);
    PlaceOf(levels + height, Offset(k, height) + p);
    BoundRepresents(h, used, t, levels + height, leaves);
    ZeroBelow(h, used, t, levels, height, leaves, SubTreeNode(levels, k), Pow2(height) - 1 + p);
    GraftedLeaf(k, levels, height, p);
    LeafInTree(levels, height, k, p);
    LeafAt(h, t, levels + height, leaves, Offset(k, height) + p);
  }

  lemma BoundRepresents(h: Hasher, used: Pairs, t: Nodes, height: nat, leaves: seq<Fr>)
    requires Bound(h, used, t, height, leaves)
    ensures Represents(h, t, height, leaves)
  {
    hide Represents;
  }

  lemma SlotFilled(h: Hasher, used: Pairs, t: Nodes, levels: nat, height: nat, leaves: seq<Fr>, k: nat, chunk: seq<Fr>)
    requires Bound(h, used, t, levels + height, leaves) && k < Pow2(levels)
    requires |chunk| == Pow2(height) && TreeWithin(h, used, height, chunk)
    requires FoldWithin(h, used, TreeRoot(h, height, chunk), SiblingPath(t, SubTreeNode(levels, k), levels))
    ensures var leaves' := Splice(leaves, Offset(k, height), chunk);
            && FoldPath(h, TreeRoot(h, height, chunk), SiblingPath(t, SubTreeNode(levels, k), levels))
               == TreeRoot(h, levels + height, leaves')
            && TreeWithin(h, used, levels + height, leaves')
  {
    hide NodeVal, TreeWithin, Represents, FoldPath, FoldWithin, Splice, PathTop, PathUpdates, GraftMap, SiblingPath;
    var i, sub := SubTreeNode(levels, k), SubTree(h, height, chunk);
    var leaves' := Splice(leaves, Offset(k, height), chunk);
    SameSubTree(h, used, height, chunk);
    SameUpdates(h, used, t, i, sub[0], levels);
    WriteRepresents(h, t, k, levels, height, leaves, chunk);
    WriteRepresents(Kept(h, used), t, k, levels, height, leaves, chunk);
    FoldOfSiblingPath(h, t, i, sub[0], levels);
    BoundIsWithin(h, used, t + Writes(h, t, i, levels, sub), levels + height, leaves');
  }

  lemma SameSubTree(h: Hasher, used: Pairs, height: nat, chunk: seq<Fr>)
    requires TreeWithin(h, used, height, chunk)
    ensures SubTree(Kept(h, used), height, chunk) == SubTree(h, height, chunk)
    ensures |SubTree(h, height, chunk)| > 0 && SubTree(h, height, chunk)[0] == TreeRoot(h, height, chunk)
  {
    hide NodeVal, TreeWithin;
    var a, b := SubTree(Kept(h, used), height, chunk), SubTree(h, height, chunk);
    forall j | 0 <= j < |a|
      ensures a[j] == b[j]
    {
      SameNode(h, used, height, chunk, j);
    }
  }

  // ---------------------------------------------------------------- roots are binding

  lemma {:induction false} RootBindsNode(h: Hasher, used: Pairs, full: nat, a: seq<Fr>, b: seq<Fr>, i: nat)
    requires NoCollision(h, used) && TreeWithin(h, used, full, a) && TreeWithin(h, used, full, b)
    requires TreeRoot(h, full, a) == TreeRoot(h, full, b) && i < Pow2(full + 1) - 1
    ensures NodeVal(h, full, a, i) == NodeVal(h, full, b, i)
  {
    if i > 0 {
      var p := Parent(i);
      assert p < Pow2(full) - 1 && (i == 2 * p + 1 || i == 2 * p + 2);
      RootBindsNode(h, used, full, a, b, p);
      SameHashSameChildren(h, used, full, a, b, p);
      hide *;
    }
  }

  lemma SameHashSameChildren(h: Hasher, used: Pairs, full: nat, a: seq<Fr>, b: seq<Fr>, p: nat)
    requires NoCollision(h, used) && TreeWithin(h, used, full, a) && TreeWithin(h, used, full, b)
    requires p < Pow2(full) - 1 && NodeVal(h, full, a, p) == NodeVal(h, full, b, p)
    ensures 2 * p + 2 < Pow2(full + 1) - 1
    ensures NodeVal(h, full, a, 2 * p + 1) == NodeVal(h, full, b, 2 * p + 1)
    ensures NodeVal(h, full, a, 2 * p + 2) == NodeVal(h, full, b, 2 * p + 2)
  {
    assert PairWithin(h, used, full, a, p) && PairWithin(h, used, full, b, p);
    NodeValInner(h, full, a, p);
    NodeValInner(h, full, b, p);
    hide NodeVal;
  }

  /** Trees with the same root have the same leaves. */
  lemma RootBindsLeaves(h: Hasher, used: Pairs, full: nat, a: seq<Fr>, b: seq<Fr>)
    requires NoCollision(h, used) && TreeWithin(h, used, full, a) && TreeWithin(h, used, full, b)
    requires |a| <= Pow2(full) && |b| <= Pow2(full)
    ensures TreeRoot(h, full, a) == TreeRoot(h, full, b) <==> forall k: nat :: LeafOrZero(a, k) == LeafOrZero(b, k)
  {
    Pow2Monotone(1, full + 1);
    if TreeRoot(h, full, a) == TreeRoot(h, full, b) {
      forall k: nat
        ensures LeafOrZero(a, k) == LeafOrZero(b, k)
      {
        if k < Pow2(full) {
          NodeValLeaf(h, full, a, k);
          NodeValLeaf(h, full, b, k);
          RootBindsNode(h, used, full, a, b, Pow2(full) - 1 + k);
        }
      }
    } else if forall k: nat :: LeafOrZero(a, k) == LeafOrZero(b, k) {
      NodeValExtensional(h, full, a, b, 0);
    }
  }
}
