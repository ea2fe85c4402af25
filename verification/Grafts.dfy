/** Placing a complete sub-tree below a node, and the effect of one whole insertion. */
module Grafts {
  import opened Field
  import opened Merkle
  import opened Paths

  /** The place, in the tree, of node `s` of a sub-tree whose root is put at node `i`. */
  function Graft(i: nat, s: nat): nat {
    if s == 0 then i else if s % 2 == 1 then 2 * Graft(i, Parent(s)) + 1 else 2 * Graft(i, Parent(s)) + 2
  }

  /** The nodes of a complete tree in heap order. */
  function SubTree(h: Hasher, height: nat, chunk: seq<Fr>): (r: seq<Fr>)
    ensures |r| == Pow2(height + 1) - 1
    ensures forall j: nat :: j < |r| ==> r[j] == NodeVal(h, height, chunk, j)
  {
    seq(Pow2(height + 1) - 1, j requires 0 <= j < Pow2(height + 1) - 1 => NodeVal(h, height, chunk, j))
  }

  /** The writes for the nodes 1 .. n-1 of a sub-tree grafted at `i`. */
  function GraftMap(i: nat, sub: seq<Fr>, n: nat): Nodes
    requires n <= |sub|
  {
    if n <= 1 then map[] else GraftMap(i, sub, n - 1)[Graft(i, n - 1) := sub[n - 1]]
  }

  /** Everything one insertion writes: the path up from `i`, then the sub-tree below it. */
  function Writes(h: Hasher, t: Nodes, i: nat, levels: nat, sub: seq<Fr>): Nodes
    requires Deep(i, levels) && |sub| > 0
  {
    PathUpdates(h, t, i, sub[0], levels) + GraftMap(i, sub, |sub|)
  }

  function GraftKeys(i: nat, n: nat): set<nat> {
    if n <= 1 then {} else GraftKeys(i, n - 1) + {Graft(i, n - 1)}
  }

  /** The nodes an insertion writes: a function of the position alone. */
  function WriteKeys(i: nat, levels: nat, n: nat): set<nat>
    requires Deep(i, levels)
  {
    PathKeys(i, levels) + GraftKeys(i, n)
  }

  lemma GraftChildren(i: nat, s: nat)
    ensures Graft(i, 2 * s + 1) == 2 * Graft(i, s) + 1
    ensures Graft(i, 2 * s + 2) == 2 * Graft(i, s) + 2
  {
    assert Parent(2 * s + 1) == s && Parent(2 * s + 2) == s;
  }

  lemma {:induction false} GraftMonotone(i: nat, a: nat, b: nat)
    requires a < b
    ensures Graft(i, a) < Graft(i, b)
  {
    if a == 0 {
      if Parent(b) > 0 {
        GraftMonotone(i, 0, Parent(b));
      }
    } else if Parent(a) < Parent(b) {
      GraftMonotone(i, Parent(a), Parent(b));
    }
  }

  /** The leftmost node `r` rows below `i`. */
  function Leftmost(i: nat, r: nat): nat {
    if r == 0 then i else 2 * Leftmost(i, r - 1) + 1
  }

  lemma {:induction false} LeftmostIs(i: nat, r: nat)
    ensures Leftmost(i, r) == (i + 1) * Pow2(r) - 1
  {
    if r > 0 {
      LeftmostIs(i, r - 1);
      var a := Pow2(r - 1);
      assert (i + 1) * (2 * a) == 2 * ((i + 1) * a);
    }
  }

  /** A row of the sub-tree is a run of consecutive nodes of the tree. */
  lemma {:induction false} GraftRow(i: nat, r: nat, p: nat)
    requires p < Pow2(r)
    ensures Graft(i, Pow2(r) - 1 + p) == Leftmost(i, r) + p
  {
    if r > 0 {
      var q := p / 2;
      GraftRow(i, r - 1, q);
      var s: nat := Pow2(r - 1) - 1 + q;
      GraftChildren(i, s);
      assert Pow2(r) - 1 + p == 2 * s + 1 + p % 2;
    }
  }

  /** Rows keep their depth: internal nodes land above the leaf row, leaves in it. */
  lemma {:induction false} GraftDepth(i: nat, s: nat, levels: nat, height: nat)
    requires Pow2(levels) - 1 <= i < Pow2(levels + 1) - 1
    ensures s < Pow2(height) - 1 ==> Graft(i, s) < Pow2(levels + height) - 1
    ensures s >= Pow2(height) - 1 ==> Graft(i, s) >= Pow2(levels + height) - 1
    ensures s < Pow2(height + 1) - 1 ==> Graft(i, s) < Pow2(levels + height + 1) - 1
    decreases height, s
  {
    if height > 0 {
      assert Pow2(levels + height) == 2 * Pow2(levels + (height - 1));
      assert Pow2(levels + height + 1) == 2 * Pow2(levels + height);
      if s > 0 {
        GraftDepth(i, Parent(s), levels, height - 1);
      } else {
        Pow2Monotone(levels + 1, levels + height);
      }
    } else if s > 0 {
      GraftMonotone(i, 0, s);
    }
  }

  lemma {:induction false} GraftKeysWitness(i: nat, n: nat, j: nat) returns (s: nat)
    requires j in GraftKeys(i, n)
    ensures 1 <= s < n && Graft(i, s) == j
  {
    if j == Graft(i, n - 1) {
      s := n - 1;
    } else {
      s := GraftKeysWitness(i, n - 1, j);
    }
  }

  lemma {:induction false} GraftMapSpec(i: nat, sub: seq<Fr>, n: nat)
    requires n <= |sub|
    ensures GraftMap(i, sub, n).Keys == GraftKeys(i, n)
  {
    if n > 1 {
      GraftMapSpec(i, sub, n - 1);
    }
  }

  lemma {:induction false} GraftMapAt(i: nat, sub: seq<Fr>, n: nat, s: nat)
    requires 1 <= s < n <= |sub|
    ensures Graft(i, s) in GraftMap(i, sub, n) && GraftMap(i, sub, n)[Graft(i, s)] == sub[s]
  {
    if s < n - 1 {
      GraftMonotone(i, s, n - 1);
      GraftMapAt(i, sub, n - 1, s);
    }
  }

  lemma {:induction false} GraftKeysAbove(i: nat, n: nat)
    ensures forall j :: j in GraftKeys(i, n) ==> j > i
  {
    if n > 1 {
      GraftKeysAbove(i, n - 1);
      GraftMonotone(i, 0, n - 1);
    }
  }

  lemma WriteKeysSpec(h: Hasher, t: Nodes, i: nat, levels: nat, sub: seq<Fr>)
    requires Deep(i, levels) && |sub| > 0
    ensures Writes(h, t, i, levels, sub).Keys == WriteKeys(i, levels, |sub|)
  {
    PathKeysSpec(h, t, i, sub[0], levels);
    GraftMapSpec(i, sub, |sub|);
  }

  /** One step of the path: a new value and its parent's new hash agree. */
  lemma StepKeepsHashes(h: Hasher, t: Nodes, t1: Nodes, i: nat, v: Fr, j: nat)
    requires i > 0 && j != i
    requires j == Parent(i) ==> Get(t1, j) == HashUp(h, t, i, v) && Get(t1, Sibling(i)) == Get(t, Sibling(i))
    requires j != Parent(i) ==> NodeOk(h, t1, j)
    ensures NodeOk(h, t1[i := v], j)
  {
    if j == Parent(i) {
      assert i == 2 * j + 1 || i == 2 * j + 2;
    } else {
      assert i != 2 * j + 1 && i != 2 * j + 2;
    }
  }

  /** The path write repairs the hash equation everywhere but at `i` itself. */
  lemma {:induction false} PathKeepsHashes(h: Hasher, t: Nodes, i: nat, v: Fr, levels: nat, j: nat)
    requires Pow2(levels) - 1 <= i < Pow2(levels + 1) - 1
    requires j != i && NodeOk(h, t, j)
    ensures NodeOk(h, t + PathUpdates(h, t, i, v, levels), j)
    decreases levels
  {
    if levels == 0 {
      assert NodeOk(h, t[i := v], j);
      assert t + PathUpdates(h, t, i, v, levels) == t[i := v];
    } else {
      var v' := HashUp(h, t, i, v);
      var u := PathUpdates(h, t, Parent(i), v', levels - 1);
      PathKeysSpec(h, t, Parent(i), v', levels - 1);
      assert t + PathUpdates(h, t, i, v, levels) == (t + u)[i := v];
      if j != Parent(i) {
        PathKeepsHashes(h, t, Parent(i), v', levels - 1, j);
      }
      StepKeepsHashes(h, t, t + u, i, v, j);
    }
  }

  ghost predicate InGraft(i: nat, n: nat, j: nat) {
    exists s: nat :: s < n && Graft(i, s) == j
  }

  /** A write seen through `Get`: inside the sub-tree, and outside it. */
  lemma WriteInside(h: Hasher, t: Nodes, i: nat, levels: nat, sub: seq<Fr>, s: nat)
    requires Deep(i, levels) && s < |sub|
    ensures Get(t + Writes(h, t, i, levels, sub), Graft(i, s)) == sub[s]
  {
    GraftMapSpec(i, sub, |sub|);
    if s == 0 {
      PathKeysSpec(h, t, i, sub[0], levels);
      GraftKeysAbove(i, |sub|);
    } else {
      GraftMapAt(i, sub, |sub|, s);
    }
  }

  lemma WriteOutside(h: Hasher, t: Nodes, i: nat, levels: nat, sub: seq<Fr>, j: nat)
    requires Deep(i, levels) && |sub| > 0
    requires !InGraft(i, |sub|, j) || j <= i
    ensures Get(t + Writes(h, t, i, levels, sub), j) == Get(t + PathUpdates(h, t, i, sub[0], levels), j)
  {
    GraftMapSpec(i, sub, |sub|);
    GraftKeysAbove(i, |sub|);
    if j in GraftKeys(i, |sub|) {
      var s := GraftKeysWitness(i, |sub|, j);
      assert false;
    }
  }

  lemma SubTreeHashes(h: Hasher, height: nat, chunk: seq<Fr>, s: nat)
    requires s < Pow2(height) - 1
    ensures var sub := SubTree(h, height, chunk); sub[s] == h.node(sub[2 * s + 1], sub[2 * s + 2])
  {
  }

  lemma WriteOkInside(h: Hasher, t: Nodes, i: nat, levels: nat, sub: seq<Fr>, s: nat)
    requires Deep(i, levels) && 2 * s + 2 < |sub|
    requires sub[s] == h.node(sub[2 * s + 1], sub[2 * s + 2])
    ensures NodeOk(h, t + Writes(h, t, i, levels, sub), Graft(i, s))
  {
    GraftChildren(i, s);
    WriteInside(h, t, i, levels, sub, s);
    WriteInside(h, t, i, levels, sub, 2 * s + 1);
    WriteInside(h, t, i, levels, sub, 2 * s + 2);
  }

  lemma WriteOkOutside(h: Hasher, t: Nodes, i: nat, levels: nat, sub: seq<Fr>, j: nat)
    requires Pow2(levels) - 1 <= i < Pow2(levels + 1) - 1 && |sub| > 0
    requires NodeOk(h, t, j) && !InGraft(i, |sub|, j)
    ensures NodeOk(h, t + Writes(h, t, i, levels, sub), j)
  {
    assert Graft(i, 0) == i;
    PathKeepsHashes(h, t, i, sub[0], levels, j);
    WriteOutside(h, t, i, levels, sub, j);
    forall c: nat | c == 2 * j + 1 || c == 2 * j + 2
      ensures Get(t + Writes(h, t, i, levels, sub), c) == Get(t + PathUpdates(h, t, i, sub[0], levels), c)
    {
      if c > i && InGraft(i, |sub|, c) {
        ChildInGraft(i, |sub|, j, c);
      }
      WriteOutside(h, t, i, levels, sub, c);
    }
  }

  lemma WriteIsConsistent(h: Hasher, t: Nodes, i: nat, levels: nat, height: nat, chunk: seq<Fr>)
    requires Pow2(levels) - 1 <= i < Pow2(levels + 1) - 1
    requires Consistent(h, t, levels + height)
    ensures Consistent(h, t + Writes(h, t, i, levels, SubTree(h, height, chunk)), levels + height)
  {
    var sub := SubTree(h, height, chunk);
    forall j: nat | j < Pow2(levels + height) - 1
      ensures NodeOk(h, t + Writes(h, t, i, levels, sub), j)
    {
      assert NodeOk(h, t, j);
      if InGraft(i, |sub|, j) {
        var s: nat :| s < |sub| && Graft(i, s) == j;
        GraftDepth(i, s, levels, height);
        SubTreeHashes(h, height, chunk, s);
        WriteOkInside(h, t, i, levels, sub, s);
      } else {
        WriteOkOutside(h, t, i, levels, sub, j);
      }
    }
  }

  /** Below `i`, the parent of a grafted node is grafted too. */
  lemma ChildInGraft(i: nat, n: nat, j: nat, c: nat)
    requires c == 2 * j + 1 || c == 2 * j + 2
    requires InGraft(i, n, c) && c != i
    ensures InGraft(i, n, j)
  {
    var s: nat :| s < n && Graft(i, s) == c;
    assert Graft(i, Parent(s)) == j;
  }

  /** The leaf row of a graft at position `k` of its row is the `k`-th run of leaves. */
  lemma GraftLeafRow(k: nat, levels: nat, height: nat)
    ensures Leftmost(Pow2(levels) - 1 + k, height) == Pow2(levels + height) - 1 + Offset(k, height)
  {
    LeftmostIs(Pow2(levels) - 1 + k, height);
    Pow2Add(levels, height);
    OffsetIsProduct(k, height);
    assert (Pow2(levels) + k) * Pow2(height) == Pow2(levels) * Pow2(height) + k * Pow2(height);
  }

  lemma LeafNotGrafted(k: nat, levels: nat, height: nat, m: nat)
    requires k < Pow2(levels) && !(Offset(k, height) <= m < Offset(k, height) + Pow2(height))
    ensures !InGraft(Pow2(levels) - 1 + k, Pow2(height + 1) - 1, Pow2(levels + height) - 1 + m)
  {
    var i: nat := Pow2(levels) - 1 + k;
    forall s: nat | s < Pow2(height + 1) - 1
      ensures Graft(i, s) != Pow2(levels + height) - 1 + m
    {
      GraftDepth(i, s, levels, height);
      if s >= Pow2(height) - 1 {
        GraftRow(i, height, s + 1 - Pow2(height));
        GraftLeafRow(k, levels, height);
      }
    }
  }

  lemma SubTreeLeaves(h: Hasher, height: nat, chunk: seq<Fr>)
    requires |chunk| == Pow2(height)
    ensures SubTree(h, height, chunk)[Pow2(height) - 1..] == chunk
  {
  }

  lemma LeafInGraft(h: Hasher, t: Nodes, k: nat, levels: nat, height: nat, sub: seq<Fr>, p: nat)
    requires p < Pow2(height) && |sub| == Pow2(height + 1) - 1
    ensures Get(t + Writes(h, t, Pow2(levels) - 1 + k, levels, sub), Pow2(levels + height) - 1 + Offset(k, height) + p)
         == sub[Pow2(height) - 1 + p]
  {
    var i: nat := Pow2(levels) - 1 + k;
    GraftRow(i, height, p);
    GraftLeafRow(k, levels, height);
    WriteInside(h, t, i, levels, sub, Pow2(height) - 1 + p);
  }

  lemma LeafOutsideGraft(h: Hasher, t: Nodes, k: nat, levels: nat, height: nat, sub: seq<Fr>, m: nat)
    requires k < Pow2(levels) && |sub| == Pow2(height + 1) - 1
    requires !(Offset(k, height) <= m < Offset(k, height) + Pow2(height))
    ensures Get(t + Writes(h, t, Pow2(levels) - 1 + k, levels, sub), Pow2(levels + height) - 1 + m)
         == Get(t, Pow2(levels + height) - 1 + m)
  {
    LeafNotGrafted(k, levels, height, m);
    WriteOutside(h, t, Pow2(levels) - 1 + k, levels, sub, Pow2(levels + height) - 1 + m);
    LeafOffPath(h, t, k, sub[0], levels, height, m);
  }

  lemma WriteHoldsLeaf(h: Hasher, t: Nodes, k: nat, levels: nat, height: nat, leaves: seq<Fr>, chunk: seq<Fr>,
                       sub: seq<Fr>, m: nat)
    requires k < Pow2(levels) && |chunk| == Pow2(height) && |sub| == Pow2(height + 1) - 1
    requires sub[Pow2(height) - 1..] == chunk
    requires HoldsLeaf(t, levels + height, leaves, m)
    ensures HoldsLeaf(t + Writes(h, t, Pow2(levels) - 1 + k, levels, sub),
                      levels + height, Splice(leaves, Offset(k, height), chunk), m)
  {
    var off := Offset(k, height);
    if off <= m < off + Pow2(height) {
      LeafInGraft(h, t, k, levels, height, sub, m - off);
      assert chunk[m - off] == sub[Pow2(height) - 1 + (m - off)];
    } else {
      LeafOutsideGraft(h, t, k, levels, height, sub, m);
    }
  }

  lemma WriteHoldsLeaves(h: Hasher, t: Nodes, k: nat, levels: nat, height: nat, leaves: seq<Fr>, chunk: seq<Fr>)
    requires k < Pow2(levels) && |chunk| == Pow2(height)
    requires HoldsLeaves(t, levels + height, leaves)
    ensures HoldsLeaves(t + Writes(h, t, Pow2(levels) - 1 + k, levels, SubTree(h, height, chunk)),
                        levels + height, Splice(leaves, Offset(k, height), chunk))
  {
    hide *;
    SubTreeLeaves(h, height, chunk);
    WriteHoldsRow(h, t, k, levels, height, leaves, chunk, SubTree(h, height, chunk));
  }

  lemma WriteHoldsRow(h: Hasher, t: Nodes, k: nat, levels: nat, height: nat, leaves: seq<Fr>, chunk: seq<Fr>, sub: seq<Fr>)
    requires k < Pow2(levels) && |chunk| == Pow2(height) && |sub| == Pow2(height + 1) - 1
    requires sub[Pow2(height) - 1..] == chunk
    requires HoldsLeaves(t, levels + height, leaves)
    ensures HoldsLeaves(t + Writes(h, t, Pow2(levels) - 1 + k, levels, sub),
                        levels + height, Splice(leaves, Offset(k, height), chunk))
  {
    var t' := t + Writes(h, t, Pow2(levels) - 1 + k, levels, sub);
    var leaves' := Splice(leaves, Offset(k, height), chunk);
    var full := levels + height;
    forall m: nat | m < Pow2(full)
      ensures HoldsLeaf(t', full, leaves', m)
    {
      assert HoldsLeaf(t, full, leaves, m);
      WriteHoldsLeaf(h, t, k, levels, height, leaves, chunk, sub, m);
    }
  }

  lemma LeafOffPath(h: Hasher, t: Nodes, k: nat, v: Fr, levels: nat, height: nat, m: nat)
    requires k < Pow2(levels) && !(Offset(k, height) <= m < Offset(k, height) + Pow2(height))
    ensures Pow2(levels + height) - 1 + m !in PathUpdates(h, t, Pow2(levels) - 1 + k, v, levels)
  {
    var i: nat := Pow2(levels) - 1 + k;
    PathKeysSpec(h, t, i, v, levels);
    PathKeysBelow(i, levels);
    var j := Pow2(levels + height) - 1 + m;
    if height > 0 {
      Pow2Monotone(levels + 1, levels + height);
      assert j > i;
    } else {
      OffsetIsProduct(k, height);
      assert m != k && j != i && (levels > 0 ==> j > Parent(i));
    }
    assert j !in PathKeys(i, levels);
    hide *;
  }

  /**
   One insertion of a whole sub-tree (a single leaf when `height` is 0) turns the tree over
   `leaves` into the tree over `leaves` with the new run spliced in, and the hash carried to
   the top is the from-scratch root.
   */
  lemma WriteRepresents(h: Hasher, t: Nodes, k: nat, levels: nat, height: nat, leaves: seq<Fr>, chunk: seq<Fr>)
    requires k < Pow2(levels) && |chunk| == Pow2(height)
    requires Represents(h, t, levels + height, leaves)
    ensures var i := Pow2(levels) - 1 + k;
            var sub := SubTree(h, height, chunk);
            var leaves' := Splice(leaves, Offset(k, height), chunk);
            && Represents(h, t + Writes(h, t, i, levels, sub), levels + height, leaves')
            && PathTop(h, t, i, sub[0], levels) == TreeRoot(h, levels + height, leaves')
  {
    var i: nat := Pow2(levels) - 1 + k;
    var sub := SubTree(h, height, chunk);
    var leaves' := Splice(leaves, Offset(k, height), chunk);
    hide *;
    Doubles(levels);
    Doubles(height);
    WriteGives(h, t, k, levels, height, leaves, chunk);
    TopOfWrite(h, t, i, levels, sub);
    RootIs(h, t + Writes(h, t, i, levels, sub), levels + height, leaves');
  }

  lemma WriteGives(h: Hasher, t: Nodes, k: nat, levels: nat, height: nat, leaves: seq<Fr>, chunk: seq<Fr>)
    requires k < Pow2(levels) && |chunk| == Pow2(height)
    requires Represents(h, t, levels + height, leaves)
    ensures Represents(h, t + Writes(h, t, Pow2(levels) - 1 + k, levels, SubTree(h, height, chunk)), levels + height,
                       Splice(leaves, Offset(k, height), chunk))
  {
    hide *;
    var i: nat := Pow2(levels) - 1 + k;
    Doubles(levels);
    Doubles(height);
    DeepInRow(levels, k);
    var t' := t + Writes(h, t, i, levels, SubTree(h, height, chunk));
    LeavesFit(h, t, levels + height, leaves);
    RunFits(k, levels, height, leaves, chunk);
    ConsistentIsRepresents(h, t, levels + height, leaves);
    WriteIsConsistent(h, t, i, levels, height, chunk);
    WriteHoldsLeaves(h, t, k, levels, height, leaves, chunk);
    ConsistentIsRepresents(h, t', levels + height, Splice(leaves, Offset(k, height), chunk));
  }

  lemma DeepInRow(levels: nat, k: nat)
    ensures Deep(Pow2(levels) - 1 + k, levels)
  {
  }

  lemma RunFits(k: nat, levels: nat, height: nat, leaves: seq<Fr>, chunk: seq<Fr>)
    requires k < Pow2(levels) && |chunk| == Pow2(height) && |leaves| <= Pow2(levels + height)
    ensures |Splice(leaves, Offset(k, height), chunk)| <= Pow2(levels + height)
  {
    OffsetMonotone(k, Pow2(levels), height);
    OffsetFull(levels, height);
  }

  /** The root node gets the hash that the path carries to the top. */
  lemma TopOfWrite(h: Hasher, t: Nodes, i: nat, levels: nat, sub: seq<Fr>)
    requires Pow2(levels) - 1 <= i < Pow2(levels + 1) - 1 && |sub| > 0
    ensures Get(t + Writes(h, t, i, levels, sub), 0) == PathTop(h, t, i, sub[0], levels)
  {
    hide Writes, PathTop, PathUpdates, Pow2;
    PathReachesRoot(h, t, i, sub[0], levels);
    WriteOutside(h, t, i, levels, sub, 0);
  }

  lemma LeavesFit(h: Hasher, t: Nodes, full: nat, leaves: seq<Fr>)
    requires Represents(h, t, full, leaves)
    ensures |leaves| <= Pow2(full)
  {
  }

  lemma RootIs(h: Hasher, t: Nodes, height: nat, leaves: seq<Fr>)
    requires Represents(h, t, height, leaves)
    ensures Get(t, 0) == TreeRoot(h, height, leaves)
  {
    assert NodeIs(h, t, height, leaves, 0);
  }
}
