/** Which nodes of a tree have ever been written. */
module NodeKeys {
  import opened Field
  import opened Merkle
  import opened Paths
  import opened Grafts
  import opened AppendSpec

  /** Whenever a node is stored, so is its parent. */
  ghost predicate UpwardClosed(keys: set<nat>) {
    forall j :: j in keys && j > 0 ==> Parent(j) in keys
  }

  lemma {:induction false} PathIsClosed(i: nat, levels: nat, j: nat)
    requires Pow2(levels) - 1 <= i < Pow2(levels + 1) - 1
    requires j in PathKeys(i, levels) && j > 0
    ensures Parent(j) in PathKeys(i, levels)
    decreases levels
  {
    if levels > 0 {
      if j == i {
        PathStartsAt(Parent(i), levels - 1);
      } else {
        PathIsClosed(Parent(i), levels - 1, j);
      }
    }
  }

  lemma PathStartsAt(i: nat, levels: nat)
    requires Deep(i, levels)
    ensures i in PathKeys(i, levels)
  {
  }

  /** Once a node is stored in a closed store, rewriting its path stores nothing new. */
  lemma {:induction false} PathInClosed(keys: set<nat>, i: nat, levels: nat)
    requires UpwardClosed(keys) && i in keys
    requires Deep(i, levels)
    ensures PathKeys(i, levels) <= keys
    decreases levels
  {
    if levels > 0 {
      PathInClosed(keys, Parent(i), levels - 1);
    }
  }

  lemma {:induction false} GraftIsKey(i: nat, n: nat, s: nat)
    requires 1 <= s < n
    ensures Graft(i, s) in GraftKeys(i, n)
  {
    if s < n - 1 {
      GraftIsKey(i, n - 1, s);
    }
  }

  lemma GraftParent(i: nat, s: nat)
    requires s > 0
    ensures Graft(i, s) > 0 && Parent(Graft(i, s)) == Graft(i, Parent(s))
  {
  }

  lemma WriteIsClosed(keys: set<nat>, i: nat, levels: nat, n: nat)
    requires UpwardClosed(keys) && Pow2(levels) - 1 <= i < Pow2(levels + 1) - 1
    ensures UpwardClosed(keys + WriteKeys(i, levels, n))
  {
    var all := keys + WriteKeys(i, levels, n);
    forall j | j in all && j > 0
      ensures Parent(j) in all
    {
      if j in PathKeys(i, levels) {
        PathIsClosed(i, levels, j);
      } else if j in GraftKeys(i, n) {
        var s := GraftKeysWitness(i, n, j);
        GraftParent(i, s);
        if Parent(s) > 0 {
          GraftIsKey(i, n, Parent(s));
        } else {
          PathStartsAt(i, levels);
        }
      }
    }
  }

  lemma {:induction false} AppendIsClosed(keys: set<nat>, levels: nat, height: nat, count: nat, n: nat)
    requires UpwardClosed(keys) && count + n <= Pow2(levels)
    ensures UpwardClosed(keys + AppendKeys(levels, height, count, n))
    decreases n
  {
    if n == 0 {
      assert keys + {} == keys;
    } else {
      var w := WriteKeys(SubTreeNode(levels, count), levels, Pow2(height + 1) - 1);
      WriteIsClosed(keys, SubTreeNode(levels, count), levels, Pow2(height + 1) - 1);
      AppendIsClosed(keys + w, levels, height, count + 1, n - 1);
      assert keys + w + AppendKeys(levels, height, count + 1, n - 1) == keys + AppendKeys(levels, height, count, n);
    }
  }

  lemma WriteInRange(i: nat, levels: nat, height: nat, j: nat)
    requires Pow2(levels) - 1 <= i < Pow2(levels + 1) - 1
    requires j in WriteKeys(i, levels, Pow2(height + 1) - 1)
    ensures j < Pow2(levels + height + 1) - 1
  {
    PathKeysBelow(i, levels);
    Pow2Monotone(levels + 1, levels + height + 1);
    if j in GraftKeys(i, Pow2(height + 1) - 1) {
      var s := GraftKeysWitness(i, Pow2(height + 1) - 1, j);
      GraftDepth(i, s, levels, height);
    }
  }

  lemma {:induction false} AppendInRange(levels: nat, height: nat, count: nat, n: nat, j: nat)
    requires count + n <= Pow2(levels) && j in AppendKeys(levels, height, count, n)
    ensures j < Pow2(levels + height + 1) - 1
    decreases n
  {
    if n > 0 {
      if j in WriteKeys(SubTreeNode(levels, count), levels, Pow2(height + 1) - 1) {
        WriteInRange(SubTreeNode(levels, count), levels, height, j);
      } else {
        AppendInRange(levels, height, count + 1, n - 1, j);
      }
    }
  }

  /** The stored nodes belong to the tree and are closed under parents. */
  ghost predicate TreeKeys(keys: set<nat>, full: nat) {
    && UpwardClosed(keys)
    && forall j :: j in keys ==> j < Pow2(full + 1) - 1
  }

  lemma AppendKeepsTreeKeys(keys: set<nat>, levels: nat, height: nat, count: nat, n: nat)
    requires TreeKeys(keys, levels + height) && count + n <= Pow2(levels)
    ensures TreeKeys(keys + AppendKeys(levels, height, count, n), levels + height)
  {
    AppendIsClosed(keys, levels, height, count, n);
    forall j | j in AppendKeys(levels, height, count, n)
      ensures j < Pow2(levels + height + 1) - 1
    {
      AppendInRange(levels, height, count, n, j);
    }
  }

  /** Every leaf of an appended sub-tree is stored. */
  lemma {:induction false} AppendedLeafIsKey(levels: nat, height: nat, count: nat, n: nat, k: nat)
    requires Offset(count, height) <= k < Offset(count + n, height)
    ensures SubTreeNode(levels + height, k) in AppendKeys(levels, height, count, n)
    decreases n
  {
    if n > 0 {
      var i := SubTreeNode(levels, count);
      if k < Offset(count, height) + Pow2(height) {
        var p := k - Offset(count, height);
        GraftedLeaf(count, levels, height, p);
        hide Graft, GraftKeys, PathKeys, SubTreeNode;
        if Pow2(height) - 1 + p == 0 {
          PathStartsAt(i, levels);
        } else {
          GraftIsKey(i, Pow2(height + 1) - 1, Pow2(height) - 1 + p);
        }
      } else {
        OffsetAdd(count, 1, height);
        AppendedLeafIsKey(levels, height, count + 1, n - 1, k);
      }
    }
  }

  lemma {:induction false} AppendKeysSplit(levels: nat, height: nat, count: nat, a: nat, b: nat)
    ensures AppendKeys(levels, height, count, a + b)
         == AppendKeys(levels, height, count, a) + AppendKeys(levels, height, count + a, b)
    decreases a
  {
    if a > 0 {
      assert a - 1 + b == a + b - 1 && (count + 1) + (a - 1) == count + a;
      hide WriteKeys, SubTreeNode, Pow2;
      AppendKeysSplit(levels, height, count + 1, a - 1, b);
    }
  }

  /** Rewriting a stored leaf stores nothing new. */
  lemma LeafStepKeys(h: Hasher, t: Nodes, full: nat, k: nat, v: Fr)
    requires UpwardClosed(t.Keys) && SubTreeNode(full, k) in t
    ensures (t + Step(h, t, full, 0, k, [v]).nodes).Keys == t.Keys
  {
    StepKeys(h, t, full, 0, k, [v]);
    PathInClosed(t.Keys, SubTreeNode(full, k), full);
    assert GraftKeys(SubTreeNode(full, k), 1) == {};
  }

  /** Two stores with the same nodes, both from scratch over equal leaves, are the same map. */
  lemma SameTree(h: Hasher, height: nat, s: Nodes, t: Nodes, a: seq<Fr>, b: seq<Fr>)
    requires Represents(h, s, height, a) && Represents(h, t, height, b)
    requires forall k: nat :: k < Pow2(height) ==> LeafOrZero(a, k) == LeafOrZero(b, k)
    requires s.Keys == t.Keys && TreeKeys(s.Keys, height)
    ensures s == t
  {
    hide NodeVal;
    forall i | i in s
      ensures s[i] == t[i]
    {
      assert NodeIs(h, s, height, a, i) && NodeIs(h, t, height, b, i);
      NodeValExtensional(h, height, a, b, i);
    }
  }
}
