/** Runs of committed operations on a mutable tree, and what the capacity guard lets through. */
module TreeRuns {
  import opened Field
  import opened Merkle
  import opened Paths
  import opened Grafts
  import opened AppendSpec
  import opened MutableTrees
  import opened Results

  datatype Operation =
    | InsertLeaf(leaf: Fr)
    | AppendSubTrees(leaves: seq<Fr>)
    | UpdateSubTree(index: nat, leaves: seq<Fr>)

  datatype Contents = Contents(count: nat, leaves: seq<Fr>)

  /** What an operation does to the sequence of leaves. */
  function Apply(height: nat, c: Contents, op: Operation): Contents {
    match op
    case InsertLeaf(leaf) => Contents(c.count + 1, Splice(c.leaves, Offset(c.count, height), [leaf]))
    case AppendSubTrees(ls) =>
      if ls == [] || !IsWhole(|ls|, height) then c
      else Contents(c.count + Batches(|ls|, height), Splice(c.leaves, Offset(c.count, height), ls))
    case UpdateSubTree(index, ls) =>
      if NextPowerOfTwo(|ls|, 1) != |ls| then c
      else Contents(c.count, Splice(c.leaves, Offset(index, ILog2(|ls|)), ls))
  }

  /** The operation stays within the capacity, which the code itself does not check, or not tightly. */
  predicate Fits(levels: nat, height: nat, c: Contents, op: Operation) {
    match op
    case InsertLeaf(_) => c.count < Pow2(levels)
    case AppendSubTrees(ls) => c.count + Batches(|ls|, height) <= Pow2(levels)
    case UpdateSubTree(index, ls) =>
      NextPowerOfTwo(|ls|, 1) == |ls| ==>
        && (|ls| == 1 || |ls| == Pow2(height))
        && index < Pow2(levels + height)
        && Offset(index, ILog2(|ls|)) + |ls| <= Offset(c.count, height)
  }

  function ApplyAll(height: nat, c: Contents, ops: seq<Operation>): Contents {
    if ops == [] then c else Apply(height, ApplyAll(height, c, ops[..|ops| - 1]), ops[|ops| - 1])
  }

  ghost predicate AllFit(levels: nat, height: nat, c: Contents, ops: seq<Operation>) {
    forall i :: 0 <= i < |ops| ==> Fits(levels, height, ApplyAll(height, c, ops[..i]), ops[i])
  }

  /** One committed operation keeps the tree the from-scratch tree over its leaves. */
  method Step(t: MutableTree, op: Operation)
    requires t.Valid() && Fits(t.treeHeight, t.subTreeHeight, Contents(t.count, t.leaves), op)
    modifies t
    ensures t.Valid()
    ensures Contents(t.count, t.leaves) == Apply(t.subTreeHeight, old(Contents(t.count, t.leaves)), op)
  {
    hide Represents, NodeVal, Splice, SoundTree, AppendSpec.Step;
    match op
    case InsertLeaf(leaf) =>
      var hash := t.InsertLeaf(leaf, true);
    case AppendSubTrees(ls) =>
      var r := t.CommitSubTrees(ls);
    case UpdateSubTree(index, ls) =>
      Pow2Monotone(t.subTreeHeight, t.treeHeight + t.subTreeHeight);
      var r := t.UpdateSubTree(index, ls, true);
  }

  /**
   After any run of committed operations, every stored node and the stored root are those
   computed from scratch over the leaves the run leaves behind.
   */
  method Run(t: MutableTree, ops: seq<Operation>)
    requires t.Valid() && AllFit(t.treeHeight, t.subTreeHeight, Contents(t.count, t.leaves), ops)
    modifies t
    ensures t.Valid()
    ensures var c := ApplyAll(t.subTreeHeight, old(Contents(t.count, t.leaves)), ops);
            && t.root == TreeRoot(t.h, t.treeHeight + t.subTreeHeight, c.leaves)
            && Represents(t.h, t.nodes, t.treeHeight + t.subTreeHeight, c.leaves)
  {
    hide Fits, Apply;
    ghost var start := Contents(t.count, t.leaves);
    assert ops[..0] == [];
    for i := 0 to |ops|
      invariant t.Valid() && Contents(t.count, t.leaves) == ApplyAll(t.subTreeHeight, start, ops[..i])
    {
      assert ops[..i + 1][..i] == ops[..i];
      Step(t, ops[i]);
    }
    assert ops[..|ops|] == ops;
  }

  // ---------------------------------------------------------------- beyond capacity

  lemma {:induction false} PathMissesRoot(i: nat, levels: nat)
    requires i >= Pow2(levels + 1) - 1
    ensures 0 !in PathKeys(i, levels)
    decreases levels
  {
    if levels > 0 {
      PathMissesRoot(Parent(i), levels - 1);
    }
  }

  /** The node `levels` levels above node `i`, to which a path write carries its last hash. */
  function Top(i: nat, levels: nat): nat
    requires Deep(i, levels)
    decreases levels
  {
    if levels == 0 then i else Top(Parent(i), levels - 1)
  }

  lemma {:induction false} TopIsWritten(h: Hasher, t: Nodes, i: nat, v: Fr, levels: nat)
    requires Deep(i, levels)
    ensures Top(i, levels) <= i && Top(i, levels) in PathUpdates(h, t, i, v, levels)
    ensures PathUpdates(h, t, i, v, levels)[Top(i, levels)] == PathTop(h, t, i, v, levels)
    ensures i >= Pow2(levels + 1) - 1 ==> Top(i, levels) >= 1
    decreases levels
  {
    if levels > 0 {
      TopIsWritten(h, t, Parent(i), HashUp(h, t, i, v), levels - 1);
    }
  }

  lemma StepTop(h: Hasher, t: Nodes, levels: nat, height: nat, count: nat, chunk: seq<Fr>)
    requires |chunk| == Pow2(height)
    ensures var step := AppendSpec.Step(h, t, levels, height, count, chunk);
            && Get(t + step.nodes, Top(SubTreeNode(levels, count), levels)) == step.hash
            && (count >= Pow2(levels) ==> Get(t + step.nodes, 0) == Get(t, 0))
  {
    var i, sub := SubTreeNode(levels, count), SubTree(h, height, chunk);
    hide PathTop, PathUpdates, GraftMap, GraftKeys, SubTree, Top;
    TopIsWritten(h, t, i, sub[0], levels);
    GraftMapSpec(i, sub, |sub|);
    GraftKeysAbove(i, |sub|);
    if count >= Pow2(levels) {
      PathMissesRoot(i, levels);
      PathKeysSpec(h, t, i, sub[0], levels);
    }
  }

  /** The hash a batch returns is the value it leaves in the node its last path ends in. */
  lemma {:induction false} HashIsTop(h: Hasher, t: Nodes, levels: nat, height: nat, count: nat, n: nat, leaves: seq<Fr>, hash: Fr)
    requires n > 0 && |leaves| == Offset(n, height)
    ensures var a := Append(h, map[], t, map[], levels, height, count, leaves, hash);
            a.hash == Get(a.nodes, Top(SubTreeNode(levels, count + n - 1), levels))
    decreases n
  {
    hide Top, AppendSpec.Step, Append, Pow2, SubTreeNode;
    var chunk, rest := leaves[..Pow2(height)], leaves[Pow2(height)..];
    var step := AppendSpec.Step(h, t, levels, height, count, chunk);
    AppendUnfold(h, t, levels, height, count, leaves, hash);
    if n == 1 {
      assert leaves == chunk;
      AppendSingle(h, t, levels, height, count, leaves, hash);
      StepTop(h, t, levels, height, count, leaves);
    } else {
      HashIsTop(h, t + step.nodes, levels, height, count + 1, n - 1, rest, step.hash);
    }
  }

  /** From a full tree on, no sub-tree reaches the root. */
  lemma {:induction false} RootIsLeftAlone(h: Hasher, t: Nodes, levels: nat, height: nat, count: nat, n: nat, leaves: seq<Fr>, hash: Fr)
    requires count >= Pow2(levels) && |leaves| == Offset(n, height)
    ensures Get(Append(h, map[], t, map[], levels, height, count, leaves, hash).nodes, 0) == Get(t, 0)
    decreases n
  {
    hide Top, AppendSpec.Step, SubTreeNode;
    if n > 0 {
      hide Pow2, Append;
      var step := AppendSpec.Step(h, t, levels, height, count, leaves[..Pow2(height)]);
      AppendUnfold(h, t, levels, height, count, leaves, hash);
      StepTop(h, t, levels, height, count, leaves[..Pow2(height)]);
      RootIsLeftAlone(h, t + step.nodes, levels, height, count + 1, n - 1, leaves[Pow2(height)..], step.hash);
    }
  }

  lemma SpliceNothing(h: Hasher, full: nat, ls: seq<Fr>, off: nat)
    ensures TreeRoot(h, full, Splice(ls, off, [])) == TreeRoot(h, full, ls)
  {
    Pow2Monotone(1, full + 1);
    NodeValExtensional(h, full, Splice(ls, off, []), ls, 0);
  }

  /** The part of an overrunning batch that still fits is all that the root node ever sees. */
  lemma {:induction false} RootOfFittingPart(h: Hasher, t: Nodes, levels: nat, height: nat, count: nat, n: nat,
                                             leaves: seq<Fr>, hash: Fr, ls: seq<Fr>)
    requires Represents(h, t, levels + height, ls)
    requires count <= Pow2(levels) <= count + n && |leaves| == Offset(n, height)
    ensures Offset(Pow2(levels) - count, height) <= |leaves|
    ensures Get(Append(h, map[], t, map[], levels, height, count, leaves, hash).nodes, 0)
         == TreeRoot(h, levels + height, Splice(ls, Offset(count, height), leaves[..Offset(Pow2(levels) - count, height)]))
    decreases n
  {
    hide AppendSpec.Step, Represents, NodeVal, Splice, Pow2;
    OffsetMonotone(Pow2(levels) - count, n, height);
    if count == Pow2(levels) {
      RootIsLeftAlone(h, t, levels, height, count, n, leaves, hash);
      RootIs(h, t, levels + height, ls);
      assert leaves[..0] == [];
      SpliceNothing(h, levels + height, ls, Offset(count, height));
    } else {
      var chunk, rest := leaves[..Pow2(height)], leaves[Pow2(height)..];
      var step := AppendSpec.Step(h, t, levels, height, count, chunk);
      var off, fit := Offset(count, height), Offset(Pow2(levels) - count - 1, height);
      AppendUnfold(h, t, levels, height, count, leaves, hash);
      StepRepresents(h, t, levels, height, count, chunk, ls);
      RootOfFittingPart(h, t + step.nodes, levels, height, count + 1, n - 1, rest, step.hash, Splice(ls, off, chunk));
      SpliceAgain(ls, off, chunk, rest[..fit]);
      assert chunk + rest[..fit] == leaves[..fit + Pow2(height)];
    }
  }

  /**
   The capacity guard looks at the count before the batch only, so it admits every batch that runs
   over the end. The root node then sees just the part that fits. The returned root, which becomes
   the stored one, is the value of another node; the two agree only if the values of both coincide.
   */
  lemma GuardAdmitsOverrun(h: Hasher, t: Nodes, levels: nat, height: nat, count: nat, n: nat, leaves: seq<Fr>, ls: seq<Fr>)
    requires Represents(h, t, levels + height, ls)
    requires count <= Pow2(levels) < count + n && |leaves| == Offset(n, height)
    ensures Offset(Pow2(levels) - count, height) < |leaves|
    ensures var a := AppendPlain(h, t, levels, height, count, leaves);
            var fitting := Splice(ls, Offset(count, height), leaves[..Offset(Pow2(levels) - count, height)]);
            var other := Top(SubTreeNode(levels, count + n - 1), levels);
            && Get(a.nodes, 0) == TreeRoot(h, levels + height, fitting)
            && other >= 1 && a.hash == Get(a.nodes, other)
            && (a.hash == TreeRoot(h, levels + height, fitting) <==> Get(a.nodes, other) == Get(a.nodes, 0))
  {
    hide Represents, NodeVal, Splice, Append, Top;
    OffsetMonotone(Pow2(levels) - count, n, height);
    RootOfFittingPart(h, t, levels, height, count, n, leaves, 0, ls);
    HashIsTop(h, t, levels, height, count, n, leaves, 0);
    TopIsWritten(h, t, SubTreeNode(levels, count + n - 1), 0, levels);
  }

  /** An instance: in a tree of one leaf `a`, a second leaf `b` is accepted and becomes the stored root. */
  lemma OverfullTreeOfOne(h: Hasher, a: Fr, b: Fr)
    ensures var r := AppendPlain(h, map[0 := a], 0, 0, 1, [b]);
            r.hash == b && Get(r.nodes, 0) == a
  {
    RootIsLeftAlone(h, map[0 := a], 0, 0, 1, 1, [b], 0);
    AppendSingle(h, map[0 := a], 0, 0, 1, [b], 0);
    assert SubTree(h, 0, [b]) == [b];
  }
}
