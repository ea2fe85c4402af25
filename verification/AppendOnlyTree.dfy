/**
 The append-only tree: of the whole tree it stores one hash per level. The ghost field `leaves`
 is everything ever appended; each append returns the root computed from scratch over it.
 */
module AppendOnlyTrees {
  import opened Field
  import opened Merkle
  import opened Paths
  import opened AppendSpec
  import opened TreeHelpers
  import opened Frontiers
  import opened Results

  class AppendOnlyTree {
    const h: Hasher
    const treeHeight: nat
    const subTreeHeight: nat
    var frontier: seq<Fr>
    var count: nat        // sub-trees in the tree
    var root: Fr          // the metadata's root, which no operation refreshes
    ghost var leaves: seq<Fr>

    ghost predicate Valid()
      reads this
    {
      && h.ZeroPreserving()
      && |frontier| == treeHeight
      && |leaves| == Offset(count, subTreeHeight)
      && count < Pow2(treeHeight)
      && |SubRoots(h, subTreeHeight, leaves)| == count
      && FrontierOk(h, frontier, SubRoots(h, subTreeHeight, leaves))
    }

    constructor (h: Hasher, treeHeight: nat, subTreeHeight: nat)
      requires h.ZeroPreserving()
      ensures Valid() && leaves == [] && root == 0
      ensures this.h == h && this.treeHeight == treeHeight && this.subTreeHeight == subTreeHeight
    {
      this.h, this.treeHeight, this.subTreeHeight := h, treeHeight, subTreeHeight;
      frontier, count, root, leaves := seq(treeHeight, _ => 0), 0, 0, [];
      new;
      forall l: nat
        ensures Shr(0, l) == 0
      {
        ShrSpan(0, l);
        OffsetMonotone(0, Shr(0, l), l);
      }
    }

    /**
     Adds one sub-tree to a frontier that has `k` of them. The slot to refresh is looked up in a
     vector with one cell a level, which panics when the sub-tree fills the tree.
     */
    method AddSubTree(f: seq<Fr>, k: nat, chunk: seq<Fr>, ghost roots: seq<Fr>) returns (r: Result<(seq<Fr>, Fr)>)
      requires h.ZeroPreserving() && |f| == treeHeight && |chunk| == Pow2(subTreeHeight)
      requires |roots| == k < Pow2(treeHeight) && FrontierOk(h, f, roots)
      ensures r.Ok? <==> k + 1 < Pow2(treeHeight)
      ensures r.Err? ==> r.error == Panic
      ensures r.Ok? ==>
        var roots' := roots + [TreeRoot(h, subTreeHeight, chunk)];
        && |r.value.0| == treeHeight && FrontierOk(h, r.value.0, roots')
        && r.value.1 == TreeRoot(h, treeHeight, roots')
    {
      hide Level, FrontierOk;
      var subTree := MakeCompleteTree(h, subTreeHeight, chunk);
      Pow2Monotone(0, subTreeHeight);
      var subRoot := subTree[0];
      ghost var roots' := roots + [subRoot];
      assert subRoot == TreeRoot(h, subTreeHeight, chunk) by {
        assert subTree[..][0] == subRoot;
      }
      LevelZero(h, roots, subRoot);
      var hash := subRoot;
      var directions := IndexToDirections(k, treeHeight);
      var path := [hash];
      for level := 0 to treeHeight
        invariant |path| == level + 1 && hash == path[level]
        invariant forall l :: 0 <= l <= level ==> path[l] == Level(h, roots', l, Shr(k, l))
      {
        PathLevel(h, f, roots, subRoot, level);
        if directions[level] == HashWithThisNodeOnLeft {
          hash := h.node(f[level], hash);
        } else {
          hash := h.node(hash, 0);
        }
        path := path + [hash];
      }
      var index := GetFrontierIndex(k);
      ExponentWithin(k + 1, treeHeight);
      if index >= |f| {
        return Err(Panic);
      }
      FrontierStep(h, f, roots, subRoot);
      TopOfPath(h, treeHeight, roots', k);
      r := Ok((f[index := path[index]], path[|path| - 1]));
    }

    /** Appends sub-trees with nothing but the frontier, or works out the root that appending them would give. */
    method AppendSubTrees(ls: seq<Fr>, updateTree: bool) returns (r: Result<Fr>)
      requires Valid()
      modifies this
      ensures Valid()
      ensures !IsWhole(|ls|, subTreeHeight) ==> r == Err(IncorrectBatchSize)
      ensures ls == [] ==> r == Ok(root)
      ensures ls != [] && IsWhole(|ls|, subTreeHeight) ==>
        (r.Ok? <==> old(count) + Batches(|ls|, subTreeHeight) < Pow2(treeHeight)) && (r.Err? ==> r.error == Panic)
      ensures ls != [] && r.Ok? ==> r.value == TreeRoot(h, treeHeight + subTreeHeight, old(leaves) + ls)
      ensures if ls != [] && r.Ok? && updateTree then leaves == old(leaves) + ls && root == old(root) else unchanged(this)
    {
      hide FrontierOk, Level, SubRoots, TreeRoot, Batches, IsWhole, Pow2, NodeVal, Exponent;
      NothingIsWhole(subTreeHeight);
      if !IsWhole(|ls|, subTreeHeight) {
        return Err(IncorrectBatchSize);
      }
      if ls == [] {
        return Ok(root);
      }
      if count > Pow2(treeHeight) {
        return Err(TreeIsFull);
      }
      WholeBatch(|ls|, subTreeHeight);
      var rest, added: nat, f, newRoot := ls, 0, frontier, 0;
      ghost var done: seq<Fr> := [];
      ghost var left: nat := Batches(|ls|, subTreeHeight);
      assert leaves + [] == leaves;
      while rest != []
        invariant unchanged(this)
        invariant done + rest == ls && |rest| == Offset(left, subTreeHeight) && added + left == Batches(|ls|, subTreeHeight)
        invariant |leaves + done| == Offset(count + added, subTreeHeight)
        invariant FrontierFor(h, treeHeight, f, newRoot, SubRoots(h, subTreeHeight, leaves + done), count + added, done != [])
        decreases left
      {
        var chunk := rest[..Pow2(subTreeHeight)];
        SubRootsPush(h, subTreeHeight, leaves + done, count + added, chunk);
        assert leaves + done + chunk == leaves + (done + chunk);
        var step := AddSubTree(f, count + added, chunk, SubRoots(h, subTreeHeight, leaves + done));
        if step.Err? {
          return Err(Panic);
        }
        f, newRoot := step.value.0, step.value.1;
        rest, done, added, left := rest[Pow2(subTreeHeight)..], done + chunk, added + 1, left - 1;
      }
      assert done == ls;
      ComposedRoot(h, treeHeight, subTreeHeight, leaves + ls, count + added);
      if updateTree {
        count, frontier := count + added, f;
        leaves := leaves + ls;
      }
      r := Ok(newRoot);
    }
  }

  /** The frontier of a tree with the sub-tree roots `roots`, and its root if any sub-tree was added. */
  ghost predicate FrontierFor(h: Hasher, levels: nat, f: seq<Fr>, root: Fr, roots: seq<Fr>, n: nat, any: bool) {
    && |roots| == n < Pow2(levels) && |f| == levels && FrontierOk(h, f, roots)
    && (any ==> root == TreeRoot(h, levels, roots))
  }

  lemma LevelZero(h: Hasher, roots: seq<Fr>, root: Fr)
    ensures Level(h, roots + [root], 0, Shr(|roots|, 0)) == root
  {
  }

  lemma TopOfPath(h: Hasher, levels: nat, roots: seq<Fr>, k: nat)
    requires k < Pow2(levels)
    ensures Level(h, roots, levels, Shr(k, levels)) == TreeRoot(h, levels, roots)
  {
    ShrSpan(k, levels);
    LevelIsNode(h, levels, roots, levels, 0);
  }

  lemma ComposedRoot(h: Hasher, levels: nat, height: nat, leaves: seq<Fr>, n: nat)
    requires h.ZeroPreserving() && |leaves| == Offset(n, height)
    ensures TreeRoot(h, levels + height, leaves) == TreeRoot(h, levels, SubRoots(h, height, leaves))
  {
    Pow2Monotone(1, levels + 1);
    ComposedNode(h, levels, height, leaves, n, 0);
  }
}
