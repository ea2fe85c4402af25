/** Nodes of a growing tree by level and position, and what a frontier must remember of them. */
module Frontiers {
  import opened Field
  import opened Merkle
  import opened Grafts
  import opened AppendSpec
  import opened TreeHelpers

  /** Node `p` of the row `l` levels above the leaves `roots`. */
  function Level(h: Hasher, roots: seq<Fr>, l: nat, p: nat): Fr {
    if l == 0 then LeafOrZero(roots, p) else h.node(Level(h, roots, l - 1, 2 * p), Level(h, roots, l - 1, 2 * p + 1))
  }

  lemma {:induction false} LevelIsNode(h: Hasher, levels: nat, roots: seq<Fr>, l: nat, p: nat)
    requires l <= levels && p < Pow2(levels - l)
    ensures SubTreeNode(levels - l, p) < Pow2(levels + 1) - 1
    ensures Level(h, roots, l, p) == NodeVal(h, levels, roots, SubTreeNode(levels - l, p))
  {
    hide *;
    NodeAtLevel(levels, l, p);
    LevelUnfold(h, roots, l, p);
    if l == 0 {
      PlaceOf(levels, p);
      NodeValLeaf(h, levels, roots, p);
    } else {
      NodeValInner(h, levels, roots, SubTreeNode(levels - l, p));
      LevelIsNode(h, levels, roots, l - 1, 2 * p);
      LevelIsNode(h, levels, roots, l - 1, 2 * p + 1);
    }
  }

  lemma LevelUnfold(h: Hasher, roots: seq<Fr>, l: nat, p: nat)
    ensures Level(h, roots, l, p) ==
              if l == 0 then LeafOrZero(roots, p) else h.node(Level(h, roots, l - 1, 2 * p), Level(h, roots, l - 1, 2 * p + 1))
  {
  }

  lemma NodeAtLevel(levels: nat, l: nat, p: nat)
    requires l <= levels && p < Pow2(levels - l)
    ensures SubTreeNode(levels - l, p) < Pow2(levels + 1) - 1
    ensures l > 0 ==>
              && SubTreeNode(levels - l, p) < Pow2(levels) - 1 && 2 * p + 1 < Pow2(levels - (l - 1))
              && SubTreeNode(levels - (l - 1), 2 * p) == 2 * SubTreeNode(levels - l, p) + 1
              && SubTreeNode(levels - (l - 1), 2 * p + 1) == 2 * SubTreeNode(levels - l, p) + 2
  {
    Pow2Monotone(levels - l + 1, levels + 1);
    if l > 0 {
      Pow2Monotone(levels - l + 1, levels);
      assert Pow2(levels - l + 1) == 2 * Pow2(levels - l);
    }
  }

  /** Right of the last leaf everything is zero. */
  lemma {:induction false} LevelPastEnd(h: Hasher, roots: seq<Fr>, l: nat, p: nat)
    requires h.ZeroPreserving() && Offset(p, l) >= |roots|
    ensures Level(h, roots, l, p) == 0
  {
    if l == 0 {
      OffsetIsProduct(p, 0);
    } else {
      OffsetHalves(p, l);
      LevelPastEnd(h, roots, l - 1, 2 * p);
      LevelPastEnd(h, roots, l - 1, 2 * p + 1);
    }
  }

  lemma OffsetHalves(p: nat, l: nat)
    requires l > 0
    ensures Offset(2 * p, l - 1) == Offset(p, l)
    ensures Offset(2 * p + 1, l - 1) == Offset(p, l) + Pow2(l - 1)
    ensures Offset(2 * p + 2, l - 1) == Offset(p + 1, l)
  {
    OffsetHalf(p, l);
    OffsetHalf(p + 1, l);
    OffsetAdd(p, p, l - 1);
  }

  /** A node all of whose leaves are present no longer changes. */
  lemma {:induction false} LevelIsFinal(h: Hasher, roots: seq<Fr>, more: seq<Fr>, l: nat, p: nat)
    requires Offset(p + 1, l) <= |roots|
    ensures Level(h, roots + more, l, p) == Level(h, roots, l, p)
  {
    if l == 0 {
      OffsetIsProduct(p + 1, 0);
    } else {
      OffsetHalves(p, l);
      OffsetMonotone(2 * p + 1, 2 * p + 2, l - 1);
      LevelIsFinal(h, roots, more, l - 1, 2 * p);
      LevelIsFinal(h, roots, more, l - 1, 2 * p + 1);
    }
  }

  /** Leaf `k` lies under node `k >> l` of row `l`. */
  lemma {:induction false} ShrSpan(k: nat, l: nat)
    ensures Offset(Shr(k, l), l) <= k < Offset(Shr(k, l) + 1, l)
  {
    if l == 0 {
      OffsetIsProduct(k, 0);
      OffsetIsProduct(k + 1, 0);
    } else {
      ShrSpan(k / 2, l - 1);
      OffsetHalf(Shr(k, l), l);
      OffsetHalf(Shr(k, l) + 1, l);
    }
  }

  lemma {:induction false} ShrStep(k: nat, l: nat)
    ensures Shr(k, l + 1) == Shr(k, l) / 2
  {
    if l > 0 {
      ShrStep(k / 2, l - 1);
    }
  }

  /** How the bits of a count change when it is incremented. */
  lemma {:induction false} IncrementBits(k: nat, l: nat)
    ensures l < Exponent(k + 1) ==> Shr(k + 1, l) % 2 == 0
    ensures l == Exponent(k + 1) ==> Shr(k + 1, l) % 2 == 1 && Shr(k + 1, l) - 1 == Shr(k, l)
    ensures l > Exponent(k + 1) ==> Shr(k + 1, l) == Shr(k, l)
  {
    if k % 2 == 0 {
      assert (k + 1) / 2 == k / 2;
    } else {
      assert (k + 1) / 2 == k / 2 + 1;
      if l > 0 {
        IncrementBits(k / 2, l - 1);
      }
    }
  }

  /** The slot refreshed after `k` leaves exists exactly while the tree does not become full. */
  lemma ExponentWithin(n: nat, levels: nat)
    requires 0 < n <= Pow2(levels)
    ensures Exponent(n) < levels <==> n < Pow2(levels)
  {
    if n == Pow2(levels) {
      ExponentOf(levels, 1);
    } else if Exponent(n) >= levels {
      PowerOfExponent(n);
      Pow2Monotone(levels, Exponent(n));
    }
  }

  lemma {:induction false} PowerOfExponent(n: nat)
    requires n > 0
    ensures Pow2(Exponent(n)) <= n
  {
    if n % 2 == 0 {
      PowerOfExponent(n / 2);
    }
  }

  /** Every left sibling that the next insertion will read is remembered. */
  ghost predicate FrontierOk(h: Hasher, frontier: seq<Fr>, roots: seq<Fr>) {
    forall l :: 0 <= l < |frontier| && Shr(|roots|, l) % 2 == 1 ==> frontier[l] == Level(h, roots, l, Shr(|roots|, l) - 1)
  }

  /** One step up from the newest leaf: its sibling is remembered, or it is zero. */
  lemma PathLevel(h: Hasher, frontier: seq<Fr>, roots: seq<Fr>, root: Fr, l: nat)
    requires h.ZeroPreserving() && FrontierOk(h, frontier, roots) && l < |frontier|
    ensures var k, roots' := |roots|, roots + [root];
            && Level(h, roots', l + 1, Shr(k, l + 1))
            == (if Shr(k, l) % 2 == 0 then h.node(Level(h, roots', l, Shr(k, l)), 0)
                else h.node(frontier[l], Level(h, roots', l, Shr(k, l))))
  {
    var k, roots' := |roots|, roots + [root];
    ShrStep(k, l);
    ShrSpan(k, l);
    if Shr(k, l) % 2 == 0 {
      LevelPastEnd(h, roots', l, Shr(k, l) + 1);
    } else {
      LevelIsFinal(h, roots, [root], l, Shr(k, l) - 1);
    }
  }

  /** Refreshing the one slot keeps the frontier right for the next insertion. */
  lemma FrontierStep(h: Hasher, frontier: seq<Fr>, roots: seq<Fr>, root: Fr)
    requires FrontierOk(h, frontier, roots) && Exponent(|roots| + 1) < |frontier|
    ensures var e := Exponent(|roots| + 1);
            FrontierOk(h, frontier[e := Level(h, roots + [root], e, Shr(|roots|, e))], roots + [root])
  {
    hide Level;
    var k, e := |roots|, Exponent(|roots| + 1);
    var frontier' := frontier[e := Level(h, roots + [root], e, Shr(k, e))];
    forall l | 0 <= l < |frontier'| && Shr(k + 1, l) % 2 == 1
      ensures frontier'[l] == Level(h, roots + [root], l, Shr(k + 1, l) - 1)
    {
      IncrementBits(k, l);
      if l != e {
        ShrSpan(k, l);
        LevelIsFinal(h, roots, [root], l, Shr(k, l) - 1);
      }
    }
  }

  // ---------------------------------------------------------------- sub-trees as leaves

  /** The roots of the consecutive sub-trees of `leaves`. */
  function SubRoots(h: Hasher, height: nat, leaves: seq<Fr>): seq<Fr>
    decreases |leaves|
  {
    if |leaves| < Pow2(height) then [] else
    [TreeRoot(h, height, leaves[..Pow2(height)])] + SubRoots(h, height, leaves[Pow2(height)..])
  }

  lemma {:induction false} SubRootsAt(h: Hasher, height: nat, leaves: seq<Fr>, n: nat, k: nat)
    requires |leaves| == Offset(n, height)
    ensures |SubRoots(h, height, leaves)| == n
    ensures k < n ==> Offset(k, height) + Pow2(height) <= |leaves|
    ensures k < n ==> SubRoots(h, height, leaves)[k] == TreeRoot(h, height, leaves[Offset(k, height)..Offset(k, height) + Pow2(height)])
    decreases n
  {
    hide TreeRoot;
    if n > 0 {
      var rest := leaves[Pow2(height)..];
      if k == 0 {
        SubRootsAt(h, height, rest, n - 1, 0);
      } else {
        SubRootsAt(h, height, rest, n - 1, k - 1);
        if k < n {
          assert rest[Offset(k - 1, height)..Offset(k - 1, height) + Pow2(height)]
              == leaves[Offset(k, height)..Offset(k, height) + Pow2(height)];
        }
      }
    }
  }

  lemma {:induction false} SubRootsPush(h: Hasher, height: nat, leaves: seq<Fr>, n: nat, chunk: seq<Fr>)
    requires |leaves| == Offset(n, height) && |chunk| == Pow2(height)
    ensures SubRoots(h, height, leaves + chunk) == SubRoots(h, height, leaves) + [TreeRoot(h, height, chunk)]
    decreases n
  {
    hide TreeRoot;
    var all := leaves + chunk;
    if n == 0 {
      assert all[..Pow2(height)] == chunk && all[Pow2(height)..] == [];
    } else {
      assert all[..Pow2(height)] == leaves[..Pow2(height)];
      assert all[Pow2(height)..] == leaves[Pow2(height)..] + chunk;
      SubRootsPush(h, height, leaves[Pow2(height)..], n - 1, chunk);
    }
  }

  /** The tree over sub-tree roots agrees with the tree over all leaves. */
  lemma {:induction false} ComposedNode(h: Hasher, levels: nat, height: nat, leaves: seq<Fr>, n: nat, i: nat)
    requires h.ZeroPreserving() && |leaves| == Offset(n, height) && i < Pow2(levels + 1) - 1
    ensures i < Pow2(levels + height + 1) - 1
    ensures NodeVal(h, levels + height, leaves, i) == NodeVal(h, levels, SubRoots(h, height, leaves), i)
    decreases Pow2(levels + 1) - i
  {
    hide *;
    Pow2Monotone(levels + 1, levels + height + 1);
    Doubles(levels);
    Doubles(levels + height);
    if i >= Pow2(levels) - 1 {
      PlaceOf(levels, i + 1 - Pow2(levels));
      ComposedLeaf(h, levels, height, leaves, n, i + 1 - Pow2(levels));
      NodeValLeaf(h, levels, SubRoots(h, height, leaves), i + 1 - Pow2(levels));
    } else {
      Pow2Monotone(levels, levels + height);
      ComposedNode(h, levels, height, leaves, n, 2 * i + 1);
      ComposedNode(h, levels, height, leaves, n, 2 * i + 2);
      ComposedInner(h, levels, height, leaves, SubRoots(h, height, leaves), i);
    }
  }

  lemma ComposedInner(h: Hasher, levels: nat, height: nat, leaves: seq<Fr>, roots: seq<Fr>, i: nat)
    requires i < Pow2(levels) - 1 && 2 * i + 2 < Pow2(levels + 1) - 1 <= Pow2(levels + height + 1) - 1 && i < Pow2(levels + height) - 1
    requires NodeVal(h, levels + height, leaves, 2 * i + 1) == NodeVal(h, levels, roots, 2 * i + 1)
    requires NodeVal(h, levels + height, leaves, 2 * i + 2) == NodeVal(h, levels, roots, 2 * i + 2)
    ensures NodeVal(h, levels + height, leaves, i) == NodeVal(h, levels, roots, i)
  {
    hide *;
    NodeValInner(h, levels + height, leaves, i);
    NodeValInner(h, levels, roots, i);
  }

  lemma ComposedLeaf(h: Hasher, levels: nat, height: nat, leaves: seq<Fr>, n: nat, k: nat)
    requires h.ZeroPreserving() && |leaves| == Offset(n, height) && k < Pow2(levels)
    ensures SubTreeNode(levels, k) < Pow2(levels + height + 1) - 1
    ensures NodeVal(h, levels + height, leaves, SubTreeNode(levels, k)) == LeafOrZero(SubRoots(h, height, leaves), k)
  {
    assert Graft(SubTreeNode(levels, k), 0) == SubTreeNode(levels, k);
    SubRootsAt(h, height, leaves, n, k);
    if k < n {
      var off := Offset(k, height);
      NodeValGraft(h, levels, height, leaves, k, leaves[off..off + Pow2(height)], 0);
    } else {
      OffsetMonotone(n, k, height);
      EmptySlot(h, levels, height, leaves, k);
    }
  }
}
