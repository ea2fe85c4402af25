/** A commit under the cache that a dry run of some other batch left behind. */
module DryRuns {
  import opened Field
  import opened Merkle
  import opened Paths
  import opened Grafts
  import opened AppendSpec
  import opened HashBinding

  /** Two batches that differ at most in zeros at the end. */
  ghost predicate SamePadded(a: seq<Fr>, b: seq<Fr>) {
    forall k: nat :: LeafOrZero(a, k) == LeafOrZero(b, k)
  }

  /** The batch is what the leaves hold already from `off` on. */
  ghost predicate HeldFrom(ls: seq<Fr>, off: nat, batch: seq<Fr>) {
    forall k :: 0 <= k < |batch| ==> LeafOrZero(ls, off + k) == batch[k]
  }

  lemma RepresentsPadded(h: Hasher, t: Nodes, full: nat, a: seq<Fr>, b: seq<Fr>)
    requires Represents(h, t, full, a) && SamePadded(a, b) && |b| <= Pow2(full)
    ensures Represents(h, t, full, b) && TreeRoot(h, full, a) == TreeRoot(h, full, b)
  {
    hide NodeVal;
    forall i: nat | i < Pow2(full + 1) - 1
      ensures NodeIs(h, t, full, b, i)
    {
      assert NodeIs(h, t, full, a, i);
      NodeValExtensional(h, full, a, b, i);
    }
    Pow2Monotone(1, full + 1);
    NodeValExtensional(h, full, a, b, 0);
  }

  /** Two stores over the same leaves read alike, and so does one laid over the other. */
  lemma Overlaid(h: Hasher, a: Nodes, b: Nodes, over: Nodes, full: nat, ls: seq<Fr>)
    requires Represents(h, a, full, ls) && Represents(h, b, full, ls)
    requires forall j :: j in over ==> j in a && a[j] == over[j]
    ensures Represents(h, b + over, full, ls)
  {
    hide NodeVal;
    forall i: nat | i < Pow2(full + 1) - 1
      ensures NodeIs(h, b + over, full, ls, i)
    {
      assert NodeIs(h, a, full, ls, i) && NodeIs(h, b, full, ls, i);
    }
  }

  lemma SameRootPadded(h: Hasher, used: Pairs, full: nat, a: seq<Fr>, b: seq<Fr>)
    requires NoCollision(h, used) && TreeWithin(h, used, full, a) && TreeWithin(h, used, full, b)
    requires |a| <= Pow2(full) && |b| <= Pow2(full) && TreeRoot(h, full, a) == TreeRoot(h, full, b)
    ensures SamePadded(a, b)
  {
    RootBindsLeaves(h, used, full, a, b);
  }

  /** Writing a sub-tree that is there already, below a cache that shows it, changes nothing that is seen. */
  lemma RewriteStep(h: Hasher, t: Nodes, over: Nodes, levels: nat, height: nat, count: nat, chunk: seq<Fr>, ls: seq<Fr>)
    requires Represents(h, t + over, levels + height, ls)
    requires |chunk| == Pow2(height) && count < Pow2(levels) && HeldFrom(ls, Offset(count, height), chunk)
    ensures var step := Step(h, t + over, levels, height, count, chunk);
            && Represents(h, t + step.nodes + over, levels + height, ls)
            && step.hash == TreeRoot(h, levels + height, ls)
  {
    hide Represents, Step, Splice, NodeVal, HeldFrom, Pow2, Offset;
    var full, off, view := levels + height, Offset(count, height), t + over;
    var ls' := Splice(ls, off, chunk);
    var step := Step(h, view, levels, height, count, chunk);
    LeavesFit(h, view, full, ls);
    StepRepresents(h, view, levels, height, count, chunk, ls);
    SpliceHeld(ls, off, chunk);
    RepresentsPadded(h, view + step.nodes, full, ls', ls);
    assert (view + step.nodes) + over == t + step.nodes + over;
    Overlaid(h, view, view + step.nodes, over, full, ls);
  }

  lemma SpliceHeld(ls: seq<Fr>, off: nat, chunk: seq<Fr>)
    requires HeldFrom(ls, off, chunk)
    ensures SamePadded(Splice(ls, off, chunk), ls)
  {
  }

  /** So does appending a whole batch that is there already; the hash returned is the root. */
  lemma {:induction false} RewriteSame(h: Hasher, t: Nodes, over: Nodes, levels: nat, height: nat, count: nat, n: nat,
                                       leaves: seq<Fr>, hash: Fr, ls: seq<Fr>)
    requires Represents(h, t + over, levels + height, ls)
    requires |leaves| == Offset(n, height) && count + n <= Pow2(levels) && HeldFrom(ls, Offset(count, height), leaves)
    ensures var r := Append(h, map[], t, over, levels, height, count, leaves, hash);
            && Represents(h, r.nodes + over, levels + height, ls)
            && (n > 0 ==> r.hash == TreeRoot(h, levels + height, ls))
    decreases n
  {
    hide Represents, NodeVal, Step;
    if n > 0 {
      var chunk, rest := leaves[..Pow2(height)], leaves[Pow2(height)..];
      var step := Step(h, t + over, levels, height, count, chunk);
      assert map[] + t + over == t + over;
      OffsetAdd(count, 1, height);
      HeldSplit(ls, Offset(count, height), leaves, Pow2(height));
      RewriteStep(h, t, over, levels, height, count, chunk, ls);
      RewriteSame(h, t + step.nodes, over, levels, height, count + 1, n - 1, rest, step.hash, ls);
      if n == 1 {
        assert rest == [];
      }
    }
  }

  lemma HeldSplit(ls: seq<Fr>, off: nat, leaves: seq<Fr>, k: nat)
    requires HeldFrom(ls, off, leaves) && k <= |leaves|
    ensures HeldFrom(ls, off, leaves[..k]) && HeldFrom(ls, off + k, leaves[k..])
  {
    var rest := leaves[k..];
    forall j | 0 <= j < |rest|
      ensures LeafOrZero(ls, off + k + j) == rest[j]
    {
      assert leaves[k + j] == rest[j];
      assert LeafOrZero(ls, off + (k + j)) == leaves[k + j];
    }
  }

  lemma SpliceHolds(ls: seq<Fr>, off: nat, dry: seq<Fr>, leaves: seq<Fr>)
    requires |ls| <= off
    ensures SamePadded(dry, leaves) <==> SamePadded(Splice(ls, off, dry), Splice(ls, off, leaves))
    ensures SamePadded(dry, leaves) ==> HeldFrom(Splice(ls, off, dry), off, leaves)
  {
    var a, b := Splice(ls, off, dry), Splice(ls, off, leaves);
    forall k: nat
      ensures LeafOrZero(a, off + k) == LeafOrZero(dry, k) && LeafOrZero(b, off + k) == LeafOrZero(leaves, k)
    {
    }
    if SamePadded(dry, leaves) {
      forall k: nat
        ensures LeafOrZero(a, k) == LeafOrZero(b, k)
      {
        if k >= off {
          assert LeafOrZero(dry, k - off) == LeafOrZero(leaves, k - off);
        }
      }
      forall k | 0 <= k < |leaves|
        ensures LeafOrZero(a, off + k) == leaves[k]
      {
        assert LeafOrZero(dry, k) == LeafOrZero(leaves, k);
      }
    }
    if SamePadded(a, b) {
      forall k: nat
        ensures LeafOrZero(dry, k) == LeafOrZero(leaves, k)
      {
        assert LeafOrZero(a, off + k) == LeafOrZero(b, off + k);
      }
    }
  }

  /** Every append of at least one sub-tree writes the root. */
  lemma RootIsWritten(levels: nat, height: nat, count: nat, n: nat, h: Hasher)
    requires n > 0 && count < Pow2(levels)
    ensures 0 in AppendKeys(levels, height, count, n)
  {
    var i := SubTreeNode(levels, count);
    PathReachesRoot(h, map[], i, 0, levels);
    PathKeysSpec(h, map[], i, 0, levels);
  }

  /** What a dry run leaves in the cache, and what is seen through it. */
  lemma CacheOf(h: Hasher, t: Nodes, levels: nat, height: nat, count: nat, m: nat, dry: seq<Fr>, ls: seq<Fr>)
    requires Represents(h, t, levels + height, ls) && m > 0 && |dry| == Offset(m, height) && count + m <= Pow2(levels)
    ensures var d := DryRun(h, t, levels, height, count, dry).nodes;
            0 in d && Represents(h, t + d, levels + height, Splice(ls, Offset(count, height), dry))
  {
    hide Represents, NodeVal, Splice, Append;
    assert t + map[] == t;
    DryRunView(h, t, map[], levels, height, count, dry, 0);
    AppendKeysSpec(h, t, map[], map[], levels, height, count, m, dry, 0);
    AppendRepresents(h, t, levels, height, count, m, dry, 0, ls);
    RootIsWritten(levels, height, count, m, h);
  }

  /**
   Whatever was dry-run before, and however much of it: the commit and its flush leave a sound tree
   with the leaves committed if and only if the two batches are the same up to zeros at the end.
   Left to right it takes two different trees not to collide; the other way nothing is assumed.
   */
  lemma CommitAfterAnyDryRun(h: Hasher, used: Pairs, levels: nat, height: nat, t: Nodes, count: nat, root: Fr, ls: seq<Fr>,
                             m: nat, dry: seq<Fr>, n: nat, leaves: seq<Fr>)
    requires SoundTree(h, levels, height, t, count, root, ls)
    requires m > 0 && |dry| == Offset(m, height) && count + m <= Pow2(levels)
    requires n > 0 && |leaves| == Offset(n, height) && count + n <= Pow2(levels)
    requires NoCollision(h, used)
    requires TreeWithin(h, used, levels + height, Splice(ls, Offset(count, height), dry))
    requires TreeWithin(h, used, levels + height, Splice(ls, Offset(count, height), leaves))
    ensures var d := DryRun(h, t, levels, height, count, dry).nodes;
            var c := Append(h, map[], t, d, levels, height, count, leaves, 0);
            SoundTree(h, levels, height, c.nodes + d, count + n, c.hash, Splice(ls, Offset(count, height), leaves))
            <==> SamePadded(dry, leaves)
  {
    hide Represents, NodeVal, Splice, Append, DryRun, TreeWithin, NoCollision, SamePadded, HeldFrom, Pow2, Offset;
    var full, off := levels + height, Offset(count, height);
    var a, b := Splice(ls, off, dry), Splice(ls, off, leaves);
    var d := DryRun(h, t, levels, height, count, dry).nodes;
    var c := Append(h, map[], t, d, levels, height, count, leaves, 0);
    CacheOf(h, t, levels, height, count, m, dry, ls);
    RoomFor(levels, height, count, m);
    RoomFor(levels, height, count, n);
    SpliceHolds(ls, off, dry, leaves);
    OffsetAdd(count, n, height);
    SpliceSize(ls, off, dry, leaves, Pow2(full));
    if SamePadded(dry, leaves) {
      RewriteSame(h, t, d, levels, height, count, n, leaves, 0, a);
      RepresentsPadded(h, c.nodes + d, full, a, b);
    } else if Represents(h, c.nodes + d, full, b) {
      RootIs(h, c.nodes + d, full, b);
      RootIs(h, t + d, full, a);
      SameRootPadded(h, used, full, a, b);
    }
  }

  lemma SpliceSize(ls: seq<Fr>, off: nat, a: seq<Fr>, b: seq<Fr>, size: nat)
    requires |ls| <= off && off + |a| <= size && off + |b| <= size
    ensures |Splice(ls, off, a)| <= size && |Splice(ls, off, b)| <= size
    ensures |Splice(ls, off, b)| == off + |b|
  {
  }
}
