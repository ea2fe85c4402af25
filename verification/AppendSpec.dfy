/**
 What appending a batch of sub-trees does to the stored nodes, as a function.

 Nodes are read through layers: the map written to (`t`), a layer below it and a layer above
 it. A commit writes the nodes under the cache; a dry run writes the cache over the nodes.
 */
module AppendSpec {
  import opened Field
  import opened Merkle
  import opened Paths
  import opened Grafts

  /** The node at which sub-tree number `count` is rooted, `levels` levels below the root. */
  function SubTreeNode(levels: nat, count: nat): (i: nat)
    ensures Deep(i, levels)
  {
    Pow2(levels) - 1 + count
  }

  lemma PlaceOf(levels: nat, k: nat)
    ensures SubTreeNode(levels, k) == Pow2(levels) - 1 + k
  {
  }

  datatype Appended = Appended(nodes: Nodes, hash: Fr)

  /** The writes of one sub-tree whose siblings are read in `view`, and the hash its path carries to the top. */
  function Step(h: Hasher, view: Nodes, levels: nat, height: nat, count: nat, chunk: seq<Fr>): Appended {
    var sub := SubTree(h, height, chunk);
    var i := SubTreeNode(levels, count);
    Appended(Writes(h, view, i, levels, sub), PathTop(h, view, i, sub[0], levels))
  }

  function Append(h: Hasher, under: Nodes, t: Nodes, over: Nodes,
                  levels: nat, height: nat, count: nat, leaves: seq<Fr>, hash: Fr): Appended
    decreases |leaves|
  {
    if |leaves| < Pow2(height) then Appended(t, hash) else
    var step := Step(h, under + t + over, levels, height, count, leaves[..Pow2(height)]);
    Append(h, under, t + step.nodes, over, levels, height, count + 1, leaves[Pow2(height)..], step.hash)
  }

  /** An append to plain nodes, nothing cached. */
  function AppendPlain(h: Hasher, t: Nodes, levels: nat, height: nat, count: nat, leaves: seq<Fr>): Appended {
    Append(h, map[], t, map[], levels, height, count, leaves, 0)
  }

  /** A dry run over an empty cache: the resulting cache and hash. */
  function DryRun(h: Hasher, t: Nodes, levels: nat, height: nat, count: nat, leaves: seq<Fr>): Appended {
    Append(h, t, map[], map[], levels, height, count, leaves, 0)
  }

  /** The nodes an append of `n` sub-trees writes. */
  function AppendKeys(levels: nat, height: nat, count: nat, n: nat): set<nat>
    decreases n
  {
    if n == 0 then {} else
    WriteKeys(SubTreeNode(levels, count), levels, Pow2(height + 1) - 1) + AppendKeys(levels, height, count + 1, n - 1)
  }

  /** The number of whole sub-trees in a batch of leaves: len / 2^height. */
  function Batches(len: nat, height: nat): nat {
    if len < Pow2(height) then 0 else 1 + Batches(len - Pow2(height), height)
  }

  /** The size check of a batch: len % 2^height == 0. */
  predicate IsWhole(len: nat, height: nat) {
    if len < Pow2(height) then len == 0 else IsWhole(len - Pow2(height), height)
  }

  lemma NothingIsWhole(height: nat)
    ensures IsWhole(0, height) && Batches(0, height) == 0
  {
  }

  lemma OneBatch(height: nat)
    ensures IsWhole(Pow2(height), height) && Batches(Pow2(height), height) == 1
  {
  }

  /** The recursive forms are division and remainder. */
  lemma {:induction false} BatchesIsDivision(len: nat, height: nat)
    ensures Batches(len, height) == len / Pow2(height)
    ensures IsWhole(len, height) <==> len % Pow2(height) == 0
  {
    DivisionStep(len, Pow2(height));
    if len >= Pow2(height) {
      BatchesIsDivision(len - Pow2(height), height);
    }
  }

  lemma DivisionStep(a: nat, m: nat)
    requires m > 0
    ensures a < m ==> a / m == 0 && a % m == a
    ensures a >= m ==> (a - m) / m == a / m - 1 && (a - m) % m == a % m
  {
    if a >= m {
      var q, r := a / m, a % m;
      assert a - m == (q - 1) * m + r;
      DivisionIs(a - m, m, q - 1, r);
    } else {
      DivisionIs(a, m, 0, a);
    }
  }

  lemma DivisionIs(a: nat, m: nat, q: int, r: nat)
    requires m > 0 && a == q * m + r && r < m
    ensures a / m == q && a % m == r
  {
    var p, t := a / m, a % m;
    assert a == p * m + t;
    hide *;
    if p < q {
      MultiplesApart(p, q, m);
    } else if q < p {
      MultiplesApart(q, p, m);
    }
  }

  lemma MultiplesApart(p: int, q: int, m: nat)
    requires p < q
    ensures p * m + m <= q * m
  {
    assert q * m == p * m + (q - p) * m;
    assert (q - p) * m == m + (q - p - 1) * m;
  }

  /** A batch that passes the size check is a whole number of sub-trees. */
  lemma {:induction false} WholeBatch(len: nat, height: nat)
    requires IsWhole(len, height)
    ensures len == Offset(Batches(len, height), height)
  {
    if len >= Pow2(height) {
      WholeBatch(len - Pow2(height), height);
    }
  }
  // ---------------------------------------------------------------- appending is splicing

  lemma SpliceAgain(ls: seq<Fr>, off: nat, a: seq<Fr>, b: seq<Fr>)
    ensures Splice(Splice(ls, off, a), off + |a|, b) == Splice(ls, off, a + b)
  {
    var x := Splice(Splice(ls, off, a), off + |a|, b);
    var y := Splice(ls, off, a + b);
    forall k: nat | k < |y|
      ensures x[k] == y[k]
    {
      assert LeafOrZero(x, k) == LeafOrZero(y, k);
    }
  }

  lemma StepKeys(h: Hasher, view: Nodes, levels: nat, height: nat, count: nat, chunk: seq<Fr>)
    ensures Step(h, view, levels, height, count, chunk).nodes.Keys
         == WriteKeys(SubTreeNode(levels, count), levels, Pow2(height + 1) - 1)
  {
    WriteKeysSpec(h, view, SubTreeNode(levels, count), levels, SubTree(h, height, chunk));
  }

  lemma SpliceNext(ls: seq<Fr>, count: nat, added: nat, height: nat, done: seq<Fr>, was: seq<Fr>, chunk: seq<Fr>)
    requires |done| == Offset(added, height)
    requires was == if done == [] then ls else Splice(ls, Offset(count, height), done)
    ensures Splice(was, Offset(count + added, height), chunk) == Splice(ls, Offset(count, height), done + chunk)
  {
    OffsetAdd(count, added, height);
    if done == [] {
      assert done + chunk == chunk;
    } else {
      SpliceAgain(ls, Offset(count, height), done, chunk);
    }
  }

  /** One step of a plain append. */
  lemma AppendUnfold(h: Hasher, t: Nodes, levels: nat, height: nat, count: nat, leaves: seq<Fr>, hash: Fr)
    requires |leaves| >= Pow2(height)
    ensures var step := Step(h, t, levels, height, count, leaves[..Pow2(height)]);
            && Append(h, map[], t, map[], levels, height, count, leaves, hash)
            == Append(h, map[], t + step.nodes, map[], levels, height, count + 1, leaves[Pow2(height)..], step.hash)
  {
    assert map[] + t + map[] == t;
  }

  lemma AppendSingle(h: Hasher, t: Nodes, levels: nat, height: nat, count: nat, chunk: seq<Fr>, hash: Fr)
    requires |chunk| == Pow2(height)
    ensures var step := Step(h, t, levels, height, count, chunk);
            Append(h, map[], t, map[], levels, height, count, chunk, hash) == Appended(t + step.nodes, step.hash)
  {
    AppendUnfold(h, t, levels, height, count, chunk, hash);
    assert chunk[..Pow2(height)] == chunk && chunk[Pow2(height)..] == [];
  }

  lemma StepRepresents(h: Hasher, t: Nodes, levels: nat, height: nat, count: nat, chunk: seq<Fr>, ls: seq<Fr>)
    requires Represents(h, t, levels + height, ls) && |chunk| == Pow2(height) && count < Pow2(levels)
    ensures var step := Step(h, t, levels, height, count, chunk);
            var ls' := Splice(ls, Offset(count, height), chunk);
            Represents(h, t + step.nodes, levels + height, ls') && step.hash == TreeRoot(h, levels + height, ls')
  {
    hide Represents, Splice, NodeVal, Writes, PathTop, SubTree;
    WriteRepresents(h, t, count, levels, height, ls, chunk);
  }

  /** Appending sub-trees within capacity splices their leaves in and returns the from-scratch root. */
  lemma {:induction false} AppendRepresents(h: Hasher, t: Nodes, levels: nat, height: nat, count: nat, n: nat,
                                            leaves: seq<Fr>, hash: Fr, ls: seq<Fr>)
    requires Represents(h, t, levels + height, ls)
    requires n > 0 && |leaves| == Offset(n, height) && count + n <= Pow2(levels)
    ensures var r := Append(h, map[], t, map[], levels, height, count, leaves, hash);
            var ls' := Splice(ls, Offset(count, height), leaves);
            Represents(h, r.nodes, levels + height, ls') && r.hash == TreeRoot(h, levels + height, ls')
    decreases n
  {
    hide Represents, Splice, NodeVal, Step;
    var chunk, rest := leaves[..Pow2(height)], leaves[Pow2(height)..];
    var step := Step(h, t, levels, height, count, chunk);
    AppendUnfold(h, t, levels, height, count, leaves, hash);
    StepRepresents(h, t, levels, height, count, chunk, ls);
    if n == 1 {
      assert rest == [] && chunk == leaves;
    } else {
      var ls1 := Splice(ls, Offset(count, height), chunk);
      AppendRepresents(h, t + step.nodes, levels, height, count + 1, n - 1, rest, step.hash, ls1);
      SpliceAgain(ls, Offset(count, height), chunk, rest);
      assert chunk + rest == leaves;
    }
  }

  // ---------------------------------------------------------------- dry runs

  /** A dry run sees, over the nodes, exactly what an append to the nodes would produce. */
  lemma {:induction false} DryRunView(h: Hasher, under: Nodes, t: Nodes, levels: nat, height: nat, count: nat,
                                      leaves: seq<Fr>, hash: Fr)
    ensures var d := Append(h, under, t, map[], levels, height, count, leaves, hash);
            var p := Append(h, map[], under + t, map[], levels, height, count, leaves, hash);
            under + d.nodes == p.nodes && d.hash == p.hash
    decreases |leaves|
  {
    hide Step, Pow2;
    if |leaves| >= Pow2(height) {
      var view := under + t;
      var step := Step(h, view, levels, height, count, leaves[..Pow2(height)]);
      AppendUnfold(h, view, levels, height, count, leaves, hash);
      assert under + t + map[] == view;
      assert Append(h, under, t, map[], levels, height, count, leaves, hash)
          == Append(h, under, t + step.nodes, map[], levels, height, count + 1, leaves[Pow2(height)..], step.hash);
      hide Append;
      assert under + (t + step.nodes) == view + step.nodes;
      DryRunView(h, under, t + step.nodes, levels, height, count + 1, leaves[Pow2(height)..], step.hash);
    }
  }

  lemma {:induction false} AppendKeysSpec(h: Hasher, under: Nodes, t: Nodes, over: Nodes, levels: nat, height: nat,
                                          count: nat, n: nat, leaves: seq<Fr>, hash: Fr)
    requires |leaves| == Offset(n, height)
    ensures var r := Append(h, under, t, over, levels, height, count, leaves, hash).nodes;
            && r.Keys == t.Keys + AppendKeys(levels, height, count, n)
            && forall j :: j in t && j !in AppendKeys(levels, height, count, n) ==> r[j] == t[j]
    decreases n
  {
    if n > 0 {
      var view := under + t + over;
      var step := Step(h, view, levels, height, count, leaves[..Pow2(height)]);
      StepKeys(h, view, levels, height, count, leaves[..Pow2(height)]);
      AppendKeysSpec(h, under, t + step.nodes, over, levels, height, count + 1, n - 1, leaves[Pow2(height)..], step.hash);
    }
  }

  /** Whatever is committed, flushing a cache that covers the same nodes leaves the cache's nodes. */
  lemma CommitUnderCache(h: Hasher, t: Nodes, cache: Nodes, levels: nat, height: nat, count: nat, n: nat, leaves: seq<Fr>)
    requires |leaves| == Offset(n, height)
    requires AppendKeys(levels, height, count, n) <= cache.Keys
    ensures Append(h, map[], t, cache, levels, height, count, leaves, 0).nodes + cache == t + cache
  {
    AppendKeysSpec(h, map[], t, cache, levels, height, count, n, leaves, 0);
  }

  /** The hash the last of `n` sub-trees carries to the top, read in `view`. */
  function LastHash(h: Hasher, view: Nodes, levels: nat, height: nat, count: nat, n: nat, leaves: seq<Fr>): Fr
    requires n > 0 && |leaves| == Offset(n, height)
  {
    PathTop(h, view, SubTreeNode(levels, count + n - 1), SubTree(h, height, leaves[Offset(n - 1, height)..])[0], levels)
  }

  lemma LastHashStep(h: Hasher, view: Nodes, levels: nat, height: nat, count: nat, n: nat, leaves: seq<Fr>)
    requires n > 1 && |leaves| == Offset(n, height)
    ensures |leaves[Pow2(height)..]| == Offset(n - 1, height)
    ensures LastHash(h, view, levels, height, count, n, leaves)
         == LastHash(h, view, levels, height, count + 1, n - 1, leaves[Pow2(height)..])
  {
    assert Offset(n, height) == Offset(n - 1, height) + Pow2(height) && Offset(n - 1, height) == Offset(n - 2, height) + Pow2(height);
    assert count + n - 1 == (count + 1) + (n - 1) - 1;
    hide Offset, SubTreeNode, SubTree, PathTop, Pow2;
    assert leaves[Offset(n - 1, height)..] == leaves[Pow2(height)..][Offset(n - 2, height)..];
  }

  /** A write does not disturb the siblings its own path reads. */
  lemma WriteKeepsPath(h: Hasher, t: Nodes, i: nat, levels: nat, sub: seq<Fr>)
    requires Deep(i, levels) && |sub| > 0
    ensures PathTop(h, t + Writes(h, t, i, levels, sub), i, sub[0], levels) == PathTop(h, t, i, sub[0], levels)
  {
    var t' := t + Writes(h, t, i, levels, sub);
    forall j: nat | j > 0 && j in PathKeys(i, levels)
      ensures Get(t, Sibling(j)) == Get(t', Sibling(j))
    {
      SiblingsOffPath(i, levels, j);
      PathKeysSpec(h, t, i, sub[0], levels);
      GraftMapSpec(i, sub, |sub|);
      SiblingNotGrafted(i, levels, |sub|, j);
    }
    PathReadsSiblings(h, t, t', i, sub[0], levels);
  }

  lemma SiblingNotGrafted(i: nat, levels: nat, n: nat, j: nat)
    requires Deep(i, levels) && j > 0 && j in PathKeys(i, levels)
    ensures Sibling(j) !in GraftKeys(i, n)
  {
    PathKeysBelow(i, levels);
    GraftKeysAbove(i, n);
    if Sibling(j) in GraftKeys(i, n) {
      var s := GraftKeysWitness(i, n, Sibling(j));
      GraftMonotone(i, 0, s);
      if Parent(s) > 0 {
        GraftMonotone(i, 0, Parent(s));
      }
      assert false;
    }
  }

  lemma LastHashOfOne(h: Hasher, t: Nodes, levels: nat, height: nat, count: nat, leaves: seq<Fr>, hash: Fr)
    requires |leaves| == Offset(1, height)
    ensures var r := Append(h, map[], t, map[], levels, height, count, leaves, hash);
            r.hash == LastHash(h, r.nodes, levels, height, count, 1, leaves)
  {
    assert Offset(0, height) == 0 && Offset(1, height) == Pow2(height) && Pow2(height + 1) >= 2;
    assert leaves[0..] == leaves;
    hide Pow2, Writes, PathTop, SubTree, Append;
    WriteKeepsPath(h, t, SubTreeNode(levels, count), levels, SubTree(h, height, leaves));
    AppendSingle(h, t, levels, height, count, leaves, hash);
  }

  /** The hash a batch returns is the one its last path has in the tree it leaves behind. */
  lemma {:induction false} AppendLastHash(h: Hasher, t: Nodes, levels: nat, height: nat, count: nat, n: nat,
                                          leaves: seq<Fr>, hash: Fr)
    requires n > 0 && |leaves| == Offset(n, height)
    ensures var r := Append(h, map[], t, map[], levels, height, count, leaves, hash);
            r.hash == LastHash(h, r.nodes, levels, height, count, n, leaves)
    decreases n
  {
    hide Pow2, Writes, PathTop, SubTree, LastHash, Step, Append;
    if n == 1 {
      LastHashOfOne(h, t, levels, height, count, leaves, hash);
    } else {
      assert |leaves| >= Pow2(height);
      var step := Step(h, t, levels, height, count, leaves[..Pow2(height)]);
      AppendUnfold(h, t, levels, height, count, leaves, hash);
      var r := Append(h, map[], t, map[], levels, height, count, leaves, hash);
      AppendLastHash(h, t + step.nodes, levels, height, count + 1, n - 1, leaves[Pow2(height)..], step.hash);
      LastHashStep(h, r.nodes, levels, height, count, n, leaves);
    }
  }

  /** Under a covering cache every path is read in the same final view. */
  lemma {:induction false} CommitLastHash(h: Hasher, t: Nodes, cache: Nodes, levels: nat, height: nat, count: nat, n: nat,
                                          leaves: seq<Fr>, hash: Fr)
    requires n > 0 && |leaves| == Offset(n, height)
    requires AppendKeys(levels, height, count, n) <= cache.Keys
    ensures Append(h, map[], t, cache, levels, height, count, leaves, hash).hash
         == LastHash(h, t + cache, levels, height, count, n, leaves)
    decreases n
  {
    hide Pow2, Writes, PathTop, SubTree, WriteKeys;
    var step := Step(h, t + cache, levels, height, count, leaves[..Pow2(height)]);
    assert map[] + t + cache == t + cache;
    if n == 1 {
      assert Offset(0, height) == 0 && Offset(1, height) == Pow2(height);
      assert leaves[0..] == leaves[..Pow2(height)] == leaves;
      assert leaves[Pow2(height)..] == [];
    } else {
      hide LastHash;
      StepKeys(h, t + cache, levels, height, count, leaves[..Pow2(height)]);
      assert (t + step.nodes) + cache == t + cache;
      CommitLastHash(h, t + step.nodes, cache, levels, height, count + 1, n - 1, leaves[Pow2(height)..], step.hash);
      LastHashStep(h, t + cache, levels, height, count, n, leaves);
    }
  }

  /**
   Committing what was dry-run first gives, after the flush, the nodes and the hash of
   committing alone, although the commit reads through the dry run's cache.
   */
  lemma CommitAfterDryRun(h: Hasher, t: Nodes, levels: nat, height: nat, count: nat, n: nat, leaves: seq<Fr>)
    requires |leaves| == Offset(n, height)
    ensures var d := DryRun(h, t, levels, height, count, leaves);
            var c := Append(h, map[], t, d.nodes, levels, height, count, leaves, 0);
            var p := AppendPlain(h, t, levels, height, count, leaves);
            d.hash == p.hash && c.nodes + d.nodes == p.nodes && c.hash == p.hash
  {
    var d := DryRun(h, t, levels, height, count, leaves);
    assert t + map[] == t;
    DryRunView(h, t, map[], levels, height, count, leaves, 0);
    AppendKeysSpec(h, t, map[], map[], levels, height, count, n, leaves, 0);
    CommitUnderCache(h, t, d.nodes, levels, height, count, n, leaves);
    if n > 0 {
      CommitLastHash(h, t, d.nodes, levels, height, count, n, leaves, 0);
      AppendLastHash(h, t, levels, height, count, n, leaves, 0);
    }
  }

  /**
   Committing other leaves than were dry-run, but equally many, leaves the dry run's nodes behind:
   the node store is the one a direct commit builds exactly when the two batches are the same. The
   root returned is that of neither: it is that of the dry run with the last sub-tree committed.
   */
  lemma CommitAfterOtherDryRun(h: Hasher, t: Nodes, levels: nat, height: nat, count: nat, n: nat,
                               dry: seq<Fr>, leaves: seq<Fr>, ls: seq<Fr>)
    requires Represents(h, t, levels + height, ls)
    requires |leaves| == |dry| == Offset(n, height) && count + n <= Pow2(levels)
    ensures var d := DryRun(h, t, levels, height, count, dry).nodes;
            var c := Append(h, map[], t, d, levels, height, count, leaves, 0);
            var left := c.nodes + d;
            && left == AppendPlain(h, t, levels, height, count, dry).nodes
            && (left == AppendPlain(h, t, levels, height, count, leaves).nodes <==> leaves == dry)
            && (n > 0 ==>
                  var both := Splice(ls, Offset(count, height), dry);
                  c.hash == TreeRoot(h, levels + height,
                                     Splice(both, Offset(count + n - 1, height), leaves[Offset(n - 1, height)..])))
  {
    var d := DryRun(h, t, levels, height, count, dry).nodes;
    var p := AppendPlain(h, t, levels, height, count, leaves).nodes;
    var q := AppendPlain(h, t, levels, height, count, dry).nodes;
    assert t + map[] == t;
    DryRunView(h, t, map[], levels, height, count, dry, 0);
    AppendKeysSpec(h, t, map[], map[], levels, height, count, n, dry, 0);
    CommitUnderCache(h, t, d, levels, height, count, n, leaves);
    if p == q {
      AppendInjective(h, t, levels, height, count, n, dry, leaves, ls);
    }
    if n > 0 {
      CommitLastHash(h, t, d, levels, height, count, n, leaves, 0);
      AppendRepresents(h, t, levels, height, count, n, dry, 0, ls);
      LastHashIs(h, q, levels, height, count, n, leaves, Splice(ls, Offset(count, height), dry));
    }
  }

  lemma LastHashIs(h: Hasher, view: Nodes, levels: nat, height: nat, count: nat, n: nat, leaves: seq<Fr>, ls: seq<Fr>)
    requires Represents(h, view, levels + height, ls)
    requires n > 0 && |leaves| == Offset(n, height) && count + n <= Pow2(levels)
    ensures LastHash(h, view, levels, height, count, n, leaves)
         == TreeRoot(h, levels + height, Splice(ls, Offset(count + n - 1, height), leaves[Offset(n - 1, height)..]))
  {
    hide Represents, NodeVal, Writes, PathTop, Splice;
    WriteRepresents(h, view, count + n - 1, levels, height, ls, leaves[Offset(n - 1, height)..]);
  }

  lemma SplicedLeaf(h: Hasher, t: Nodes, full: nat, ls: seq<Fr>, off: nat, a: seq<Fr>, k: nat)
    requires Represents(h, t, full, Splice(ls, off, a))
    requires k < |a| && off + |a| <= Pow2(full)
    ensures Get(t, Pow2(full) - 1 + (off + k)) == a[k]
  {
    var ls' := Splice(ls, off, a);
    ConsistentIsRepresents(h, t, full, ls');
    assert HoldsLeaf(t, full, ls', off + k);
    assert LeafOrZero(ls', off + k) == a[k];
  }

  lemma RoomFor(levels: nat, height: nat, count: nat, n: nat)
    requires count + n <= Pow2(levels)
    ensures Offset(count, height) + Offset(n, height) <= Pow2(levels + height)
  {
    OffsetAdd(count, n, height);
    OffsetMonotone(count + n, Pow2(levels), height);
    OffsetFull(levels, height);
  }

  lemma AppendedLeaf(h: Hasher, t: Nodes, levels: nat, height: nat, count: nat, n: nat, a: seq<Fr>, ls: seq<Fr>, k: nat)
    requires Represents(h, t, levels + height, ls)
    requires |a| == Offset(n, height) && count + n <= Pow2(levels) && k < |a|
    ensures Get(AppendPlain(h, t, levels, height, count, a).nodes, Pow2(levels + height) - 1 + (Offset(count, height) + k)) == a[k]
  {
    RoomFor(levels, height, count, n);
    AppendRepresents(h, t, levels, height, count, n, a, 0, ls);
    SplicedLeaf(h, AppendPlain(h, t, levels, height, count, a).nodes, levels + height, ls, Offset(count, height), a, k);
  }

  lemma AppendInjective(h: Hasher, t: Nodes, levels: nat, height: nat, count: nat, n: nat,
                        a: seq<Fr>, b: seq<Fr>, ls: seq<Fr>)
    requires Represents(h, t, levels + height, ls)
    requires |a| == |b| == Offset(n, height) && count + n <= Pow2(levels)
    requires AppendPlain(h, t, levels, height, count, a).nodes == AppendPlain(h, t, levels, height, count, b).nodes
    ensures a == b
  {
    forall k | 0 <= k < |a|
      ensures a[k] == b[k]
    {
      AppendedLeaf(h, t, levels, height, count, n, a, ls, k);
      AppendedLeaf(h, t, levels, height, count, n, b, ls, k);
    }
  }

  // ---------------------------------------------------------------- the loop over sub-trees

  /** The loop has turned `start` into `t`, with the hash `hash`, and has `rest` of `leaves` to add. */
  ghost predicate BatchSoFar(h: Hasher, under: Nodes, start: Nodes, over: Nodes, levels: nat, height: nat, count: nat,
                             leaves: seq<Fr>, t: Nodes, added: nat, rest: seq<Fr>, hash: Fr)
  {
    && Append(h, under, start, over, levels, height, count, leaves, 0)
    == Append(h, under, t, over, levels, height, count + added, rest, hash)
  }

  lemma BatchPush(h: Hasher, under: Nodes, start: Nodes, over: Nodes, levels: nat, height: nat, count: nat,
                  leaves: seq<Fr>, t: Nodes, added: nat, rest: seq<Fr>, hash: Fr, view: Nodes)
    requires BatchSoFar(h, under, start, over, levels, height, count, leaves, t, added, rest, hash)
    requires |rest| >= Pow2(height) && view == under + t + over
    ensures var step := Step(h, view, levels, height, count + added, rest[..Pow2(height)]);
            BatchSoFar(h, under, start, over, levels, height, count, leaves, t + step.nodes, added + 1, rest[Pow2(height)..], step.hash)
  {
  }

  lemma BatchDone(h: Hasher, under: Nodes, start: Nodes, over: Nodes, levels: nat, height: nat, count: nat,
                  leaves: seq<Fr>, t: Nodes, added: nat, hash: Fr)
    requires BatchSoFar(h, under, start, over, levels, height, count, leaves, t, added, [], hash)
    ensures Append(h, under, start, over, levels, height, count, leaves, 0) == Appended(t, hash)
  {
  }

  // ---------------------------------------------------------------- sound trees

  /** Stored nodes and root are the from-scratch ones over `leaves`, and nothing lies past the count. */
  ghost predicate SoundTree(h: Hasher, levels: nat, height: nat, t: Nodes, count: nat, root: Fr, leaves: seq<Fr>) {
    && h.ZeroPreserving()
    && Represents(h, t, levels + height, leaves)
    && root == TreeRoot(h, levels + height, leaves)
    && count <= Pow2(levels)
    && |leaves| <= Offset(count, height)
  }

  lemma AppendSound(h: Hasher, levels: nat, height: nat, t: Nodes, count: nat, n: nat, root: Fr, leaves: seq<Fr>, ls: seq<Fr>)
    requires SoundTree(h, levels, height, t, count, root, leaves)
    requires n > 0 && |ls| == Offset(n, height) && count + n <= Pow2(levels)
    ensures var p := AppendPlain(h, t, levels, height, count, ls);
            SoundTree(h, levels, height, p.nodes, count + n, p.hash, Splice(leaves, Offset(count, height), ls))
  {
    AppendRepresents(h, t, levels, height, count, n, ls, 0, leaves);
    OffsetAdd(count, n, height);
  }

  /** A commit and its flush keep a tree sound when nothing is cached, or just what a dry run of the same leaves left. */
  lemma CommitSound(h: Hasher, levels: nat, height: nat, t: Nodes, cache: Nodes, count: nat, n: nat, root: Fr,
                    leaves: seq<Fr>, ls: seq<Fr>)
    requires SoundTree(h, levels, height, t, count, root, leaves)
    requires n > 0 && |ls| == Offset(n, height) && count + n <= Pow2(levels)
    requires cache == map[] || cache == DryRun(h, t, levels, height, count, ls).nodes
    ensures var a := Append(h, map[], t, cache, levels, height, count, ls, 0);
            && Appended(a.nodes + cache, a.hash) == AppendPlain(h, t, levels, height, count, ls)
            && SoundTree(h, levels, height, a.nodes + cache, count + n, a.hash, Splice(leaves, Offset(count, height), ls))
  {
    CommitAfterDryRun(h, t, levels, height, count, n, ls);
    AppendSound(h, levels, height, t, count, n, root, leaves, ls);
    var a := AppendPlain(h, t, levels, height, count, ls);
    assert a.nodes + map[] == a.nodes;
  }

  /** The slice of a tree below one of its sub-tree roots is the tree over that run of leaves. */
  lemma {:induction false} NodeValGraft(h: Hasher, levels: nat, height: nat, leaves: seq<Fr>, k: nat, chunk: seq<Fr>, s: nat)
    requires k < Pow2(levels) && s < Pow2(height + 1) - 1
    requires forall p: nat :: p < Pow2(height) ==> LeafOrZero(chunk, p) == LeafOrZero(leaves, Offset(k, height) + p)
    ensures Graft(SubTreeNode(levels, k), s) < Pow2(levels + height + 1) - 1
    ensures NodeVal(h, levels + height, leaves, Graft(SubTreeNode(levels, k), s)) == NodeVal(h, height, chunk, s)
    decreases Pow2(height + 1) - s
  {
    hide *;
    var i := SubTreeNode(levels, k);
    GraftedNode(levels, height, k, s);
    if s >= Pow2(height) - 1 {
      var p: nat := s + 1 - Pow2(height);
      Doubles(height);
      GraftedLeaf(k, levels, height, p);
      NodeValLeaf(h, height, chunk, p);
      LeafInTree(levels, height, k, p);
      NodeValLeaf(h, levels + height, leaves, Offset(k, height) + p);
      assert LeafOrZero(chunk, p) == LeafOrZero(leaves, Offset(k, height) + p);
    } else {
      NodeValInner(h, height, chunk, s);
      NodeValInner(h, levels + height, leaves, Graft(i, s));
      GraftChildren(i, s);
      NodeValGraft(h, levels, height, leaves, k, chunk, 2 * s + 1);
      NodeValGraft(h, levels, height, leaves, k, chunk, 2 * s + 2);
    }
  }

  lemma GraftedNode(levels: nat, height: nat, k: nat, s: nat)
    requires k < Pow2(levels)
    ensures s < Pow2(height) - 1 ==> Graft(SubTreeNode(levels, k), s) < Pow2(levels + height) - 1
    ensures s < Pow2(height + 1) - 1 ==> Graft(SubTreeNode(levels, k), s) < Pow2(levels + height + 1) - 1
  {
    GraftDepth(SubTreeNode(levels, k), s, levels, height);
  }

  lemma LeafInTree(levels: nat, height: nat, k: nat, p: nat)
    requires k < Pow2(levels) && p < Pow2(height)
    ensures Offset(k, height) + p < Pow2(levels + height)
  {
    OffsetMonotone(k, Pow2(levels), height);
    OffsetFull(levels, height);
  }

  /** Leaf `p` of sub-tree number `k`. */
  lemma GraftedLeaf(k: nat, levels: nat, height: nat, p: nat)
    requires p < Pow2(height)
    ensures Graft(SubTreeNode(levels, k), Pow2(height) - 1 + p) == Pow2(levels + height) - 1 + (Offset(k, height) + p)
  {
    GraftRow(SubTreeNode(levels, k), height, p);
    GraftLeafRow(k, levels, height);
  }

  lemma {:induction false} EmptyTreeIsZero(h: Hasher, height: nat, i: nat)
    requires h.ZeroPreserving() && i < Pow2(height + 1) - 1
    ensures NodeVal(h, height, [], i) == 0
    decreases Pow2(height + 1) - i
  {
    if i < Pow2(height) - 1 {
      EmptyTreeIsZero(h, height, 2 * i + 1);
      EmptyTreeIsZero(h, height, 2 * i + 2);
    }
  }

  lemma EmptySlot(h: Hasher, levels: nat, height: nat, leaves: seq<Fr>, count: nat)
    requires h.ZeroPreserving() && count < Pow2(levels) && |leaves| <= Offset(count, height)
    ensures SubTreeNode(levels, count) < Pow2(levels + height + 1) - 1
    ensures NodeVal(h, levels + height, leaves, SubTreeNode(levels, count)) == 0
  {
    NodeValGraft(h, levels, height, leaves, count, [], 0);
    EmptyTreeIsZero(h, height, 0);
    assert Graft(SubTreeNode(levels, count), 0) == SubTreeNode(levels, count);
  }

  /** The next free sub-tree slot of a sound tree is empty. */
  lemma NextSlotIsZero(h: Hasher, levels: nat, height: nat, t: Nodes, count: nat, root: Fr, leaves: seq<Fr>)
    requires SoundTree(h, levels, height, t, count, root, leaves) && count < Pow2(levels)
    ensures Get(t, SubTreeNode(levels, count)) == 0
  {
    EmptySlot(h, levels, height, leaves, count);
    assert NodeIs(h, t, levels + height, leaves, SubTreeNode(levels, count));
  }

  /** Writing one leaf of a sound tree. */
  lemma LeafWriteRepresents(h: Hasher, full: nat, t: Nodes, leaves: seq<Fr>, k: nat, v: Fr)
    requires Represents(h, t, full, leaves) && k < Pow2(full)
    ensures var step := Step(h, t, full, 0, k, [v]);
            && Represents(h, t + step.nodes, full, Splice(leaves, k, [v]))
            && step.hash == TreeRoot(h, full, Splice(leaves, k, [v]))
  {
    assert Offset(k, 0) == k && |[v]| == Pow2(0) by {
      OffsetIsProduct(k, 0);
    }
    assert full + 0 == full;
    hide Represents, Writes, PathTop, NodeVal, SubTree, Splice, Pow2, Offset;
    WriteRepresents(h, t, k, full, 0, leaves, [v]);
  }

  /** Writing one leaf is writing its path. */
  lemma LeafStep(h: Hasher, view: Nodes, full: nat, k: nat, v: Fr)
    ensures Step(h, view, full, 0, k, [v])
         == Appended(PathUpdates(h, view, SubTreeNode(full, k), v, full), PathTop(h, view, SubTreeNode(full, k), v, full))
  {
    assert SubTree(h, 0, [v]) == [v];
  }

  // ---------------------------------------------------------------- membership

  /** In a consistent tree the path from a node's own value leads to the root. */
  lemma {:induction false} PathOfOwnValue(h: Hasher, t: Nodes, height: nat, i: nat, levels: nat)
    requires Consistent(h, t, height)
    requires Pow2(levels) - 1 <= i < Pow2(levels + 1) - 1 && levels <= height
    ensures PathTop(h, t, i, Get(t, i), levels) == Get(t, 0)
    decreases levels
  {
    if levels > 0 {
      Pow2Monotone(levels, height);
      assert NodeOk(h, t, Parent(i));
      assert i == 2 * Parent(i) + 1 || i == 2 * Parent(i) + 2;
      PathOfOwnValue(h, t, height, Parent(i), levels - 1);
    }
  }

  /** Any stored node proves its membership under the root. */
  lemma MembershipVerifies(h: Hasher, t: Nodes, height: nat, leaves: seq<Fr>, i: nat, levels: nat)
    requires Represents(h, t, height, leaves)
    requires Pow2(levels) - 1 <= i < Pow2(levels + 1) - 1 && levels <= height
    ensures FoldPath(h, Get(t, i), SiblingPath(t, i, levels)) == TreeRoot(h, height, leaves)
  {
    ConsistentIsRepresents(h, t, height, leaves);
    PathOfOwnValue(h, t, height, i, levels);
    FoldOfSiblingPath(h, t, i, Get(t, i), levels);
    assert NodeIs(h, t, height, leaves, 0);
  }

  /** Dropping the part of a leaf's path inside its sub-tree leaves the path of the sub-tree's root. */
  lemma {:induction false} DropSubTreePath(t: Nodes, levels: nat, height: nat, count: nat)
    ensures SiblingPath(t, SubTreeNode(levels + height, Offset(count, height)), levels + height)[height..]
         == SiblingPath(t, SubTreeNode(levels, count), levels)
    decreases height
  {
    if height == 0 {
      OffsetIsProduct(count, 0);
    } else {
      OffsetHalf(count, height);
      assert Parent(SubTreeNode(levels + height, Offset(count, height))) == SubTreeNode(levels + (height - 1), Offset(count, height - 1));
      DropSubTreePath(t, levels, height - 1, count);
    }
  }
}
