/**
 The mutable Merkle tree: a node store with a write cache for dry runs, and its metadata.
 Every operation is proved against the functions of AppendSpec, for any state of the cache.
 In a sound state with nothing cached, the stored nodes and root are those of the tree
 computed from scratch over the ghost field `leaves`.
 */
module MutableTrees {
  import opened Field
  import opened Merkle
  import opened Paths
  import opened Grafts
  import opened AppendSpec
  import opened TreeHelpers
  import opened Updates
  import opened Results

  /** A node value, the siblings from it up to the root, and its index in its row. */
  datatype MembershipProof = MembershipProof(nodeValue: Fr, siblingPath: seq<PathElement>, leafIndex: nat)

  datatype CircuitInsertionInfo =
    CircuitInsertionInfo(oldRoot: Fr, newRoot: Fr, proof: MembershipProof, leafCount: nat, leaves: seq<Fr>)

  /** The proof hashes its node value to `root`, from the place it claims. */
  ghost predicate ProofVerifies(h: Hasher, proof: MembershipProof, root: Fr) {
    && FoldPath(h, proof.nodeValue, proof.siblingPath) == root
    && proof.leafIndex < Pow2(|proof.siblingPath|) && Directed(proof.siblingPath, proof.leafIndex)
  }

  /** What the insertion circuit checks: one path leads from zero to the old root and from the new sub-tree to the new root. */
  ghost predicate InsertionVerifies(h: Hasher, levels: nat, height: nat, info: CircuitInsertionInfo) {
    && |info.proof.siblingPath| == levels
    && info.proof.nodeValue == 0
    && ProofVerifies(h, info.proof, info.oldRoot)
    && FoldPath(h, TreeRoot(h, height, info.leaves), info.proof.siblingPath) == info.newRoot
    && info.leafCount == Offset(info.proof.leafIndex, height) + Pow2(height)
  }

  /** Consecutive insertions: each starts from the root the one before it left. */
  ghost predicate InsertionChain(h: Hasher, levels: nat, height: nat, first: Fr, infos: seq<CircuitInsertionInfo>, last: Fr)
    decreases |infos|
  {
    if infos == [] then first == last else
    && InsertionVerifies(h, levels, height, infos[0])
    && infos[0].oldRoot == first
    && InsertionChain(h, levels, height, infos[0].newRoot, infos[1..], last)
  }

  function LeavesOf(infos: seq<CircuitInsertionInfo>): seq<Fr> {
    if infos == [] then [] else infos[0].leaves + LeavesOf(infos[1..])
  }

  function NextPowerOfTwo(n: nat, p: nat): nat
    requires p > 0
    decreases n - p
  {
    if p >= n then p else NextPowerOfTwo(n, 2 * p)
  }

  function ILog2(n: nat): nat {
    if n <= 1 then 0 else 1 + ILog2(n / 2)
  }

  lemma {:induction false} ILog2OfPow2(n: nat)
    ensures ILog2(Pow2(n)) == n
  {
    if n > 0 {
      ILog2OfPow2(n - 1);
    }
  }

  lemma {:induction false} NextPowerIsPower(n: nat, i: nat) returns (k: nat)
    requires NextPowerOfTwo(n, Pow2(i)) == n
    ensures n == Pow2(k)
    decreases n - Pow2(i)
  {
    k := i;
    if Pow2(i) < n {
      assert Pow2(i + 1) == 2 * Pow2(i);
      k := NextPowerIsPower(n, i + 1);
    }
  }

  /** The logarithm of a power of two, against two heights. */
  lemma PowersOfTwo(n: nat, low: nat, high: nat)
    requires NextPowerOfTwo(n, 1) == n
    ensures n == Pow2(ILog2(n)) && (n == 1 <==> ILog2(n) == 0)
    ensures n >= Pow2(low) <==> ILog2(n) >= low
    ensures n == Pow2(low) <==> ILog2(n) == low
    ensures n <= Pow2(high) <==> ILog2(n) <= high
  {
    var k := NextPowerIsPower(n, 0);
    ILog2OfPow2(k);
    PowersOrdered(k, 0);
    PowersOrdered(k, low);
    PowersOrdered(k, high);
  }

  lemma PowersOrdered(a: nat, b: nat)
    ensures a <= b <==> Pow2(a) <= Pow2(b)
    ensures a == b <==> Pow2(a) == Pow2(b)
  {
    if a < b {
      Pow2Monotone(a + 1, b);
    } else if b < a {
      Pow2Monotone(b + 1, a);
    }
  }

  lemma OneLeaf(id: nat, value: Fr)
    ensures ILog2(|[value]|) == 0 && NextPowerOfTwo(|[value]|, 1) == |[value]| && Offset(id, 0) == id
  {
    OffsetIsProduct(id, 0);
  }

  /** The nodes of a complete tree down to row `rows`. */
  function UpperRows(h: Hasher, height: nat, rows: nat, chunk: seq<Fr>): (r: seq<Fr>)
    requires rows <= height
    ensures |r| == Pow2(rows + 1) - 1 > 0
  {
    Pow2Monotone(rows + 1, height + 1);
    Pow2Monotone(1, rows + 1);
    SubTree(h, height, chunk)[..Pow2(rows + 1) - 1]
  }

  lemma AllRows(h: Hasher, height: nat, chunk: seq<Fr>)
    ensures UpperRows(h, height, height, chunk) == SubTree(h, height, chunk)
  {
  }

  /** The writes of a sub-tree of which only the upper rows are written. */
  function UpperStep(h: Hasher, view: Nodes, levels: nat, height: nat, rows: nat, index: nat, ls: seq<Fr>): Appended
    requires rows <= height
  {
    var sub, i := UpperRows(h, height, rows, ls), SubTreeNode(levels, index);
    Appended(Writes(h, view, i, levels, sub), PathTop(h, view, i, sub[0], levels))
  }

  class MutableTree {
    const h: Hasher
    const treeHeight: nat
    const subTreeHeight: nat
    var nodes: Nodes
    var cache: Nodes
    var count: nat      // sub-trees in the tree
    var root: Fr
    ghost var leaves: seq<Fr>

    /** The stored nodes and root are the from-scratch ones, and nothing lies past the count. */
    ghost predicate Sound()
      reads this
    {
      SoundTree(h, treeHeight, subTreeHeight, nodes, count, root, leaves)
    }

    /** Sound, and no dry run is pending. */
    ghost predicate Valid()
      reads this
    {
      Sound() && cache == map[]
    }

    constructor (h: Hasher, treeHeight: nat, subTreeHeight: nat)
      ensures this.h == h && this.treeHeight == treeHeight && this.subTreeHeight == subTreeHeight
      ensures nodes == map[] && cache == map[] && count == 0 && root == 0 && leaves == []
      ensures h.ZeroPreserving() ==> Valid()
    {
      this.h := h;
      this.treeHeight := treeHeight;
      this.subTreeHeight := subTreeHeight;
      nodes, cache, count, root, leaves := map[], map[], 0, 0, [];
      new;
      if h.ZeroPreserving() {
        EmptyRepresentsNothing(h, treeHeight + subTreeHeight);
        assert NodeIs(h, nodes, treeHeight + subTreeHeight, [], 0);
      }
    }

    /** The cache is looked up first, then the nodes; anything absent is zero. */
    method GetNode(i: nat) returns (v: Fr)
      ensures v == Get(nodes + cache, i)
    {
      if i in cache {
        v := cache[i];
      } else if i in nodes {
        v := nodes[i];
      } else {
        v := 0;
      }
    }

    method SetNode(i: nat, v: Fr, updateTree: bool)
      modifies `nodes, `cache
      ensures nodes == if updateTree then old(nodes)[i := v] else old(nodes)
      ensures cache == if updateTree then old(cache) else old(cache)[i := v]
    {
      if updateTree {
        nodes := nodes[i := v];
      } else {
        cache := cache[i := v];
      }
    }

    /** Writes every cached node to the node store, in whatever order the cursor yields them, and drops the cache. */
    method FlushCache()
      modifies `nodes, `cache
      ensures nodes == old(nodes) + old(cache) && cache == map[]
    {
      var pending := cache.Keys;
      while pending != {}
        invariant pending <= cache.Keys && cache == old(cache)
        invariant nodes == old(nodes) + map i | i in cache && i !in pending :: cache[i]
        decreases pending
      {
        var i :| i in pending;
        nodes := nodes[i := cache[i]];
        pending := pending - {i};
      }
      cache := map[];
    }

    /** Runs a batch of writes concurrently: they may complete in any order. */
    method JoinAll(us: seq<Update>, updateTree: bool)
      requires Distinct(us)
      modifies `nodes, `cache
      ensures nodes == if updateTree then old(nodes) + AsMap(us) else old(nodes)
      ensures cache == if updateTree then old(cache) else old(cache) + AsMap(us)
    {
      var pending := set u | u in us;
      ghost var was := if updateTree then nodes else cache;
      ghost var now := was;
      while pending != {}
        invariant forall u :: u in pending ==> u in us
        invariant now == if updateTree then nodes else cache
        invariant updateTree ==> cache == old(cache)
        invariant !updateTree ==> nodes == old(nodes)
        invariant forall k :: 0 <= k < |us| && us[k] !in pending ==> us[k].index in now && now[us[k].index] == us[k].value
        invariant forall j :: j in was ==> j in now
        invariant forall j :: j in now ==> (exists k :: 0 <= k < |us| && us[k].index == j) || (j in was && now[j] == was[j])
        decreases pending
      {
        var u :| u in pending;
        SetNode(u.index, u.value, updateTree);
        now := now[u.index := u.value];
        pending := pending - {u};
      }
      WrittenIs(was, us, now);
    }

    /** Hashes the value `v` of node `i` up `levels` levels, gathering the writes. */
    method HashPath(i: nat, v: Fr, levels: nat) returns (hash: Fr, us: seq<Update>)
      requires Deep(i, levels)
      ensures hash == PathTop(h, nodes + cache, i, v, levels)
      ensures AsMap(us) == PathUpdates(h, nodes + cache, i, v, levels)
      ensures Distinct(us) && UpTo(us, i)
    {
      hide PathSoFar, PathTop, PathUpdates, AsMap, Pow2;
      ghost var view := nodes + cache;
      var nodeIndex: nat := i;
      hash := v;
      us := [Update(i, v)];
      PathStart(h, view, i, v, levels);
      for k := 0 to levels
        invariant PathSoFar(h, view, i, v, levels, nodeIndex, hash, levels - k, us)
      {
        NotAtRoot(h, view, i, v, levels, nodeIndex, hash, levels - k, us);
        PathPush(h, view, i, v, levels, nodeIndex, hash, levels - k, us);
        var sibling;
        if nodeIndex % 2 == 0 {
          sibling := GetNode(nodeIndex - 1);
          hash := h.node(sibling, hash);
        } else {
          sibling := GetNode(nodeIndex + 1);
          hash := h.node(hash, sibling);
        }
        nodeIndex := (nodeIndex - 1) / 2;
        us := us + [Update(nodeIndex, hash)];
      }
      PathEnd(h, view, i, v, levels, nodeIndex, hash, us);
      PathWrites(h, view, i, v, levels, nodeIndex, hash, us);
    }

    /** Adds the writes for one row of a sub-tree, `subIndex` being the last node of the row above. */
    method RowUpdates(ghost i: nat, ghost row: nat, nodeIndex: nat, span: nat, sub: seq<Fr>, subIndex: nat,
                      ghost us0: seq<Update>, us: seq<Update>)
      returns (us': seq<Update>, subIndex': nat)
      requires nodeIndex == Leftmost(i, row) && span == Pow2(row)
      requires subIndex == Pow2(row) - 2 && Pow2(row + 1) - 2 < |sub| && row > 0
      requires GraftSoFar(i, sub, subIndex, us0, us)
      ensures subIndex' == Pow2(row + 1) - 2
      ensures GraftSoFar(i, sub, subIndex', us0, us')
    {
      hide GraftSoFar, Leftmost, Graft, AsMap;
      us', subIndex' := us, subIndex;
      for j := nodeIndex to nodeIndex + span
        invariant subIndex' == span - 2 + (j - nodeIndex) < |sub|
        invariant GraftSoFar(i, sub, subIndex', us0, us')
      {
        subIndex' := subIndex' + 1;
        GraftRow(i, row, j - nodeIndex);
        GraftPush(i, sub, subIndex' - 1, us0, us');
        us' := us' + [Update(j, sub[subIndex'])];
      }
    }

    /** Adds the writes for the nodes of a sub-tree below its root, row by row from the top. */
    method GraftUpdates(i: nat, height: nat, sub: seq<Fr>, us0: seq<Update>) returns (us: seq<Update>)
      requires |sub| == Pow2(height + 1) - 1
      requires Distinct(us0) && UpTo(us0, i)
      ensures AsMap(us) == AsMap(us0) + GraftMap(i, sub, |sub|)
      ensures Distinct(us)
    {
      us := us0;
      var nodeIndex, span, subIndex := i, 1, 0;
      assert AsMap(us0) + map[] == AsMap(us0);
      Pow2Monotone(1, height + 1);
      for row := 1 to height + 1
        invariant nodeIndex == Leftmost(i, row - 1) && span == Pow2(row - 1)
        invariant subIndex == Pow2(row) - 2 < |sub|
        invariant GraftSoFar(i, sub, subIndex, us0, us)
      {
        nodeIndex := nodeIndex * 2 + 1;
        span := span * 2;
        Pow2Monotone(row + 1, height + 1);
        us, subIndex := RowUpdates(i, row, nodeIndex, span, sub, subIndex, us0, us);
      }
    }

    /** Hooks the upper `rows` rows of a complete sub-tree over `chunk` into the tree at node `i`, below its root. */
    method HookSubTree(i: nat, levels: nat, height: nat, rows: nat, chunk: seq<Fr>, updateTree: bool) returns (hash: Fr)
      requires Deep(i, levels) && |chunk| <= Pow2(height) && rows <= height
      modifies `nodes, `cache
      ensures var view, sub := old(nodes) + old(cache), UpperRows(h, height, rows, chunk);
              && hash == PathTop(h, view, i, sub[0], levels)
              && nodes == (if updateTree then old(nodes) + Writes(h, view, i, levels, sub) else old(nodes))
              && cache == (if updateTree then old(cache) else old(cache) + Writes(h, view, i, levels, sub))
    {
      var subTree := MakeCompleteTree(h, height, chunk);
      Pow2Monotone(rows + 1, height + 1);
      var sub := subTree[..Pow2(rows + 1) - 1];
      assert sub == subTree[..][..Pow2(rows + 1) - 1];
      var us;
      hash, us := HashPath(i, sub[0], levels);
      us := GraftUpdates(i, rows, sub, us);
      JoinAll(us, updateTree);
    }

    /** Nothing is cached, or exactly what a dry run of `ls` would have left. */
    ghost predicate CacheIsFor(ls: seq<Fr>)
      reads this
    {
      cache == map[] || cache == DryRun(h, nodes, treeHeight, subTreeHeight, count, ls).nodes
    }

    /** Adds sub-tree number `k`. */
    method AppendOne(k: nat, chunk: seq<Fr>, updateTree: bool) returns (hash: Fr)
      requires |chunk| <= Pow2(subTreeHeight)
      modifies `nodes, `cache
      ensures var step := Step(h, old(nodes) + old(cache), treeHeight, subTreeHeight, k, chunk);
              && hash == step.hash
              && nodes == (if updateTree then old(nodes) + step.nodes else old(nodes))
              && cache == (if updateTree then old(cache) else old(cache) + step.nodes)
    {
      AllRows(h, subTreeHeight, chunk);
      hash := HookSubTree(SubTreeNode(treeHeight, k), treeHeight, subTreeHeight, subTreeHeight, chunk, updateTree);
    }

    /** Adds each sub-tree in turn, to the nodes or to the cache. */
    method AppendBatches(ls: seq<Fr>, updateTree: bool) returns (hash: Fr)
      requires IsWhole(|ls|, subTreeHeight)
      modifies `nodes, `cache
      ensures updateTree ==> cache == old(cache)
      ensures updateTree ==>
        Appended(nodes, hash) == Append(h, map[], old(nodes), cache, treeHeight, subTreeHeight, count, ls, 0)
      ensures !updateTree ==> nodes == old(nodes)
      ensures !updateTree ==>
        Appended(cache, hash) == Append(h, nodes, old(cache), map[], treeHeight, subTreeHeight, count, ls, 0)
    {
      hide Step, SubTree, Append;
      hash := 0;
      var rest, added: nat := ls, 0;
      ghost var left: nat := Batches(|ls|, subTreeHeight);
      ghost var under: Nodes := if updateTree then map[] else nodes;
      ghost var over: Nodes := if updateTree then cache else map[];
      ghost var start := if updateTree then nodes else cache;
      ghost var t := start;
      WholeBatch(|ls|, subTreeHeight);
      while rest != []
        invariant nodes == if updateTree then t else old(nodes)
        invariant cache == if updateTree then old(cache) else t
        invariant |rest| == Offset(left, subTreeHeight)
        invariant BatchSoFar(h, under, start, over, treeHeight, subTreeHeight, count, ls, t, added, rest, hash)
        decreases left
      {
        assert nodes + cache == under + t + over;
        BatchPush(h, under, start, over, treeHeight, subTreeHeight, count, ls, t, added, rest, hash, nodes + cache);
        var chunk := rest[..Pow2(subTreeHeight)];
        t := t + Step(h, nodes + cache, treeHeight, subTreeHeight, count + added, chunk).nodes;
        hash := AppendOne(count + added, chunk, updateTree);
        rest, added, left := rest[Pow2(subTreeHeight)..], added + 1, left - 1;
      }
      BatchDone(h, under, start, over, treeHeight, subTreeHeight, count, ls, t, added, hash);
    }

    /** Appends sub-trees, or works out the root that appending them would give. */
    method AppendSubTrees(ls: seq<Fr>, updateTree: bool) returns (r: Result<(Fr, nat)>)
      modifies this
      ensures !IsWhole(|ls|, subTreeHeight) ==> r == Err(IncorrectBatchSize) && unchanged(this)
      ensures ls == [] ==> r == Ok((root, Offset(count, subTreeHeight))) && unchanged(this)
      ensures ls != [] && IsWhole(|ls|, subTreeHeight) && old(count) > Pow2(treeHeight) ==> r == Err(TreeIsFull) && unchanged(this)
      ensures ls != [] && IsWhole(|ls|, subTreeHeight) && old(count) <= Pow2(treeHeight) && updateTree ==>
        Committed(ls) && r == Ok((root, Offset(count, subTreeHeight)))
      ensures ls != [] && IsWhole(|ls|, subTreeHeight) && old(count) <= Pow2(treeHeight) && !updateTree ==>
        var a := Append(h, nodes, old(cache), map[], treeHeight, subTreeHeight, count, ls, 0);
        && r == Ok((a.hash, Offset(count, subTreeHeight)))
        && cache == a.nodes && unchanged(`nodes, `count, `root, `leaves)
    {
      if !IsWhole(|ls|, subTreeHeight) {
        return Err(IncorrectBatchSize);
      }
      if ls == [] {
        return Ok((root, Offset(count, subTreeHeight)));
      }
      if count > Pow2(treeHeight) {
        return Err(TreeIsFull);
      }
      var hash := AppendBatches(ls, updateTree);
      if updateTree {
        leaves := Splice(leaves, Offset(count, subTreeHeight), ls);
        count, root := count + Batches(|ls|, subTreeHeight), hash;
        FlushCache();
      }
      r := Ok((hash, Offset(count, subTreeHeight)));
    }

    /** The state after committing `ls`, whatever was cached before. */
    twostate predicate Committed(ls: seq<Fr>)
      reads this
    {
      var a := Append(h, map[], old(nodes), old(cache), treeHeight, subTreeHeight, old(count), ls, 0);
      && nodes == a.nodes + old(cache) && cache == map[]
      && count == old(count) + Batches(|ls|, subTreeHeight) && root == a.hash
      && leaves == Splice(old(leaves), Offset(old(count), subTreeHeight), ls)
    }

    /**
     A commit within capacity, with nothing cached or after a dry run of the same leaves, builds
     the from-scratch tree over the old leaves with the new ones appended.
     */
    twostate lemma CommitKeepsSound(ls: seq<Fr>)
      requires Committed(ls) && old(Sound()) && old(CacheIsFor(ls))
      requires ls != [] && IsWhole(|ls|, subTreeHeight)
      requires count <= Pow2(treeHeight)
      ensures Valid()
      ensures Appended(nodes, root) == AppendPlain(h, old(nodes), treeHeight, subTreeHeight, old(count), ls)
    {
      hide Append, Splice, SoundTree, Batches, IsWhole, Pow2;
      var n := Batches(|ls|, subTreeHeight);
      WholeBatch(|ls|, subTreeHeight);
      assert n > 0;
      CommitSound(h, treeHeight, subTreeHeight, old(nodes), old(cache), old(count), n, old(root), old(leaves), ls);
    }

    /** A committed append within capacity, nothing being cached. */
    method CommitSubTrees(ls: seq<Fr>) returns (r: Result<Fr>)
      requires Valid() && count + Batches(|ls|, subTreeHeight) <= Pow2(treeHeight)
      modifies this
      ensures Valid()
      ensures r == if !IsWhole(|ls|, subTreeHeight) then Err(IncorrectBatchSize) else Ok(root)
      ensures r.Err? || ls == [] ==> unchanged(this)
      ensures r.Ok? && ls != [] ==>
        && Appended(nodes, root) == AppendPlain(h, old(nodes), treeHeight, subTreeHeight, old(count), ls)
        && count == old(count) + Batches(|ls|, subTreeHeight)
        && leaves == Splice(old(leaves), Offset(old(count), subTreeHeight), ls)
    {
      hide Represents, Splice, NodeVal, Append, SoundTree;
      SlotInRange(h, treeHeight, subTreeHeight, nodes, count, root, leaves);
      var appended :- AppendSubTrees(ls, true);
      if ls != [] {
        CommitKeepsSound(ls);
      }
      r := Ok(appended.0);
    }

    /** Inserts one leaf at the start of the next sub-tree's run, whatever the sub-tree size. */
    method InsertLeaf(leaf: Fr, updateTree: bool) returns (hash: Fr)
      modifies this
      ensures var k := Offset(old(count), subTreeHeight);
              var step := Step(h, old(nodes) + old(cache), treeHeight + subTreeHeight, 0, k, [leaf]);
              && hash == step.hash
              && (updateTree ==>
                    && nodes == old(nodes) + step.nodes + old(cache) && cache == map[]
                    && count == old(count) + 1 && root == hash && leaves == Splice(old(leaves), k, [leaf]))
              && (!updateTree ==> cache == old(cache) + step.nodes && unchanged(`nodes, `count, `root, `leaves))
      ensures old(Valid()) && updateTree && old(count) < Pow2(treeHeight) ==> Valid()
    {
      hide Splice, Represents, NodeVal, Step, SoundTree;
      ghost var k := Offset(count, subTreeHeight);
      var us;
      hash, us := HashPath(SubTreeNode(treeHeight + subTreeHeight, Offset(count, subTreeHeight)), leaf, treeHeight + subTreeHeight);
      LeafStep(h, nodes + cache, treeHeight + subTreeHeight, k, leaf);
      JoinAll(us, updateTree);
      if updateTree {
        LeafInsertSound(h, treeHeight, subTreeHeight, old(nodes), count, root, leaves, leaf);
        ghost var w := Step(h, old(nodes), treeHeight + subTreeHeight, 0, k, [leaf]).nodes;
        assert old(nodes) + map[] == old(nodes);
        assert old(nodes) + w + map[] == old(nodes) + w;
        leaves := Splice(leaves, k, [leaf]);
        count, root := count + 1, hash;
        FlushCache();
      }
    }

    /**
     Replaces one leaf, or one whole sub-tree. The new root is stored even when `updateTree` is
     false, and the index of a sub-tree is checked only against the number of leaves. With leaves
     for part of a sub-tree the loop over the rows runs past the end of the small tree; with leaves
     for several it stops short of the bottom, so that the path is right and the lowest rows stay.
     */
    method UpdateSubTree(index: nat, ls: seq<Fr>, updateTree: bool) returns (r: Result<Fr>)
      modifies this
      ensures NextPowerOfTwo(|ls|, 1) != |ls| ==> r == Err(IncorrectBatchSize) && unchanged(this)
      ensures NextPowerOfTwo(|ls|, 1) == |ls| && index >= Pow2(treeHeight + subTreeHeight) ==> r == Err(InvalidIndex) && unchanged(this)
      ensures NextPowerOfTwo(|ls|, 1) == |ls| && index < Pow2(treeHeight + subTreeHeight) ==>
        (r.Ok? <==> |ls| == 1 || Pow2(subTreeHeight) <= |ls| <= Pow2(treeHeight + subTreeHeight))
        && (r.Err? ==> r.error == Panic && unchanged(this))
      ensures r.Ok? ==>
        var height := ILog2(|ls|);
        var rows := if |ls| == 1 then 0 else subTreeHeight;
        && rows <= height <= treeHeight + subTreeHeight
        && var step := UpperStep(h, old(nodes) + old(cache), treeHeight + subTreeHeight - height, height, rows, index, ls);
        && r == Ok(step.hash) && root == step.hash && count == old(count)
        && nodes == (if updateTree then old(nodes) + step.nodes + old(cache) else old(nodes))
        && cache == (if updateTree then map[] else old(cache) + step.nodes)
        && leaves == Splice(old(leaves), Offset(index, height), ls)
      ensures r.Ok? && (|ls| == 1 || |ls| == Pow2(subTreeHeight)) ==>
        var height := ILog2(|ls|);
        var step := Step(h, old(nodes) + old(cache), treeHeight + subTreeHeight - height, height, index, ls);
        && r == Ok(step.hash)
        && nodes == (if updateTree then old(nodes) + step.nodes + old(cache) else old(nodes))
        && (old(Valid()) && updateTree && Offset(index, height) + |ls| <= Offset(count, subTreeHeight) ==> Valid())
    {
      hide Splice, Represents, NodeVal, Writes, PathTop, SubTree, SoundTree, UpperRows;
      if NextPowerOfTwo(|ls|, 1) != |ls| {
        return Err(IncorrectBatchSize);
      }
      if index >= Pow2(treeHeight + subTreeHeight) {
        return Err(InvalidIndex);
      }
      PowersOfTwo(|ls|, subTreeHeight, treeHeight + subTreeHeight);
      var height := ILog2(|ls|);
      if (|ls| != 1 && |ls| < Pow2(subTreeHeight)) || height > treeHeight + subTreeHeight {
        return Err(Panic);
      }
      var levels := if height == subTreeHeight then treeHeight else treeHeight + subTreeHeight - height;
      var rows := if |ls| == 1 then 0 else subTreeHeight;
      var hash := HookSubTree(SubTreeNode(levels, index), levels, height, rows, ls, updateTree);
      if updateTree {
        FlushCache();
      }
      if rows == height {
        AllRows(h, height, ls);
      }
      if old(Valid()) && updateTree && rows == height && Offset(index, height) + |ls| <= Offset(count, subTreeHeight) {
        SubTreeUpdateSound(h, treeHeight, subTreeHeight, old(nodes), count, old(root), leaves, levels, height, index, ls);
        ghost var w := Step(h, old(nodes), levels, height, index, ls).nodes;
        assert old(nodes) + map[] == old(nodes);
        assert old(nodes) + w + map[] == old(nodes) + w;
      }
      leaves := Splice(leaves, Offset(index, height), ls);
      root := hash;
      r := Ok(hash);
    }

    /** Replaces one leaf that is below the count. */
    method ReplaceLeaf(id: nat, value: Fr)
      requires Valid() && id < Offset(count, subTreeHeight)
      modifies this
      ensures Valid() && count == old(count)
      ensures leaves == Splice(old(leaves), id, [value])
      ensures Appended(nodes, root) ==
        var step := Step(h, old(nodes), treeHeight + subTreeHeight, 0, id, [value]);
        Appended(old(nodes) + step.nodes, step.hash)
    {
      hide Represents, Splice, NodeVal, Step, UpperStep, SoundTree, Offset, ILog2, NextPowerOfTwo, Pow2;
      OneLeaf(id, value);
      SlotInRange(h, treeHeight, subTreeHeight, nodes, count, root, leaves);
      OffsetMonotone(count, Pow2(treeHeight), subTreeHeight);
      OffsetFull(treeHeight, subTreeHeight);
      Pow2Monotone(subTreeHeight, treeHeight + subTreeHeight);
      ghost var w := Step(h, nodes, treeHeight + subTreeHeight, 0, id, [value]).nodes;
      assert nodes + map[] == nodes;
      assert nodes + w + map[] == nodes + w;
      var r := UpdateSubTree(id, [value], true);
    }

    /** The siblings of node `i`, from its row up. */
    method SiblingsOf(i: nat, height: nat) returns (path: seq<PathElement>)
      requires Deep(i, height)
      ensures path == SiblingPath(nodes + cache, i, height)
    {
      path := [];
      var nodeIndex: nat := i;
      for k := 0 to height
        invariant Deep(nodeIndex, height - k)
        invariant path + SiblingPath(nodes + cache, nodeIndex, height - k) == SiblingPath(nodes + cache, i, height)
      {
        var value;
        ghost var done, node := path, nodeIndex;
        if nodeIndex % 2 == 0 {
          value := GetNode(nodeIndex - 1);
          path := path + [PathElement(HashWithThisNodeOnLeft, value)];
        } else {
          value := GetNode(nodeIndex + 1);
          path := path + [PathElement(HashWithThisNodeOnRight, value)];
        }
        nodeIndex := (nodeIndex - 1) / 2;
        SiblingPush(nodes + cache, node, height - k, done, path[|path| - 1]);
      }
    }

    /** The proof that leaf `leafIndex` has the value it has. */
    method GetMembershipProof(leafIndex: nat) returns (r: Result<MembershipProof>)
      ensures leafIndex >= Pow2(treeHeight + subTreeHeight) <==> r == Err(InvalidProof)
      ensures r.Err? ==> r.error == InvalidProof
      ensures r.Ok? ==>
        var i := SubTreeNode(treeHeight + subTreeHeight, leafIndex);
        r.value == MembershipProof(Get(nodes + cache, i), SiblingPath(nodes + cache, i, treeHeight + subTreeHeight), leafIndex)
      ensures Valid() && r.Ok? ==>
        r.value.nodeValue == LeafOrZero(leaves, leafIndex) && ProofVerifies(h, r.value, root)
    {
      var height := treeHeight + subTreeHeight;
      var nodeIndex := SubTreeNode(height, leafIndex);
      if nodeIndex > Pow2(height + 1) - 2 {
        return Err(InvalidProof);
      }
      var path := SiblingsOf(nodeIndex, height);
      var value := GetNode(nodeIndex);
      r := Ok(MembershipProof(value, path, leafIndex));
      if Valid() {
        assert nodes + cache == nodes;
        StoredProofVerifies(h, nodes, height, leaves, height, leafIndex);
        ConsistentIsRepresents(h, nodes, height, leaves);
        assert HoldsLeaf(nodes, height, leaves, leafIndex);
      }
    }

    /** The stored nodes with this value, of which a lookup finds one, are all leaves, and there is one. */
    ghost predicate FoundAsLeaf(value: Fr)
      reads this
    {
      var first := SubTreeNode(treeHeight + subTreeHeight, 0);
      && (exists i :: i in nodes && nodes[i] == value)
      && forall i :: i in nodes && nodes[i] == value ==> first <= i < first + Pow2(treeHeight + subTreeHeight)
    }

    /**
     The proof for a leaf that is looked up by its value. Any stored node with the value may be found,
     and the lookup fails when it is not a leaf.
     */
    method GetMembershipProofOf(value: Fr) returns (r: Result<MembershipProof>)
      ensures value == 0 || (forall i :: i in nodes ==> nodes[i] != value) ==> r == Err(ItemNotFound)
      ensures value != 0 && FoundAsLeaf(value) ==> r.Ok?
      ensures r.Ok? ==>
        var full := treeHeight + subTreeHeight;
        && r.value.leafIndex < Pow2(full) && r.value.nodeValue == value
        && Get(nodes, SubTreeNode(full, r.value.leafIndex)) == value
        && r.value.siblingPath == SiblingPath(nodes + cache, SubTreeNode(full, r.value.leafIndex), full)
      ensures Valid() && r.Ok? ==>
        value == LeafOrZero(leaves, r.value.leafIndex) && ProofVerifies(h, r.value, root)
    {
      hide SiblingPath, NodeVal, ProofVerifies;
      if value == 0 {
        return Err(ItemNotFound);
      }
      var found := set i | i in nodes && nodes[i] == value;
      if found == {} {
        assert forall i :: i in nodes && nodes[i] == value ==> i in found;
        return Err(ItemNotFound);
      }
      var nodeIndex :| nodeIndex in found;
      var full := treeHeight + subTreeHeight;
      if nodeIndex < Pow2(full) - 1 || nodeIndex > Pow2(full + 1) - 2 {
        return Err(InvalidProof);
      }
      var k: nat := nodeIndex - Pow2(full) + 1;
      var proof := GetMembershipProof(k);
      assert proof.Ok?;
      r := Ok(MembershipProof(value, proof.value.siblingPath, k));
      if Valid() {
        assert nodes + cache == nodes;
      }
    }

    /**
     Inserts one sub-tree and returns what the circuit needs to verify it: the proof that the
     slot was empty, cut from the proof of its first leaf.
     */
    method InsertForCircuit(ls: seq<Fr>) returns (r: Result<CircuitInsertionInfo>)
      requires Valid()
      modifies this
      ensures |ls| != Pow2(subTreeHeight) ==> r == Err(IncorrectBatchSize)
      ensures |ls| == Pow2(subTreeHeight) && old(count) == Pow2(treeHeight) ==> r == Err(InvalidProof)
      ensures |ls| == Pow2(subTreeHeight) && old(count) < Pow2(treeHeight) ==> r.Ok?
      ensures r.Err? ==> unchanged(this)
      ensures r.Ok? ==>
        && Valid()
        && Appended(nodes, root) == AppendPlain(h, old(nodes), treeHeight, subTreeHeight, old(count), ls)
        && count == old(count) + 1 && leaves == Splice(old(leaves), Offset(old(count), subTreeHeight), ls)
      ensures r.Ok? ==>
        && r.value.oldRoot == old(root) && r.value.newRoot == root
        && r.value.leaves == ls && r.value.proof.leafIndex == old(count)
        && InsertionVerifies(h, treeHeight, subTreeHeight, r.value)
    {
      hide Represents, Splice, NodeVal, Append, ProofVerifies, SoundTree, Pow2, IsWhole, Batches, Offset;
      if |ls| != Pow2(subTreeHeight) {
        return Err(IncorrectBatchSize);
      }
      ghost var t, wasCount, wasLeaves := nodes, count, leaves;
      var oldRoot, index := root, count;
      SlotInRange(h, treeHeight, subTreeHeight, nodes, count, root, leaves);
      var proof :- GetMembershipProof(Offset(index, subTreeHeight));
      var emptyProof := MembershipProof(0, proof.siblingPath[subTreeHeight..], index);
      assert nodes + cache == nodes;
      DropSubTreePath(nodes, treeHeight, subTreeHeight, count);
      OneBatch(subTreeHeight);
      var appended := AppendSubTrees(ls, true);
      assert appended.Ok?;
      CommitKeepsSound(ls);
      InsertionIsVerified(h, treeHeight, subTreeHeight, t, wasCount, oldRoot, wasLeaves, ls);
      r := Ok(CircuitInsertionInfo(oldRoot, appended.value.0, emptyProof, Offset(index, subTreeHeight) + |ls|, ls));
    }

    /** Inserts sub-trees one after the other; a failed insertion is unwrapped, which panics. */
    method BatchInsertWithCircuitInfo(ls: seq<Fr>) returns (r: Result<seq<CircuitInsertionInfo>>)
      requires Valid()
      modifies this
      ensures Valid()
      ensures !IsWhole(|ls|, subTreeHeight) ==> r == Err(IncorrectBatchSize) && unchanged(this)
      ensures IsWhole(|ls|, subTreeHeight) ==>
        (r.Ok? <==> old(count) + Batches(|ls|, subTreeHeight) <= Pow2(treeHeight)) && (r.Err? ==> r.error == Panic)
      ensures r.Ok? ==>
        && InsertionChain(h, treeHeight, subTreeHeight, old(root), r.value, root)
        && LeavesOf(r.value) == ls
        && forall i :: 0 <= i < |r.value| ==> |r.value[i].leaves| == Pow2(subTreeHeight)
      ensures r.Ok? && ls != [] ==>
        && Appended(nodes, root) == AppendPlain(h, old(nodes), treeHeight, subTreeHeight, old(count), ls)
        && count == old(count) + Batches(|ls|, subTreeHeight)
        && leaves == Splice(old(leaves), Offset(old(count), subTreeHeight), ls)
      ensures r.Ok? && ls == [] ==> nodes == old(nodes) && count == old(count) && root == old(root) && leaves == old(leaves)
    {
      hide Represents, Splice, Append, InsertionVerifies, SoundTree, InBatch, InsertionChain;
      if !IsWhole(|ls|, subTreeHeight) {
        return Err(IncorrectBatchSize);
      }
      WholeBatch(|ls|, subTreeHeight);
      var infos: seq<CircuitInsertionInfo>, rest := [], ls;
      ghost var added: nat := 0;
      ghost var left: nat := Batches(|ls|, subTreeHeight);
      ghost var start := Snapshot(nodes, count, root, leaves);
      BatchStart(h, treeHeight, subTreeHeight, start, ls, left);
      while rest != []
        invariant Valid()
        invariant added + left == Batches(|ls|, subTreeHeight)
        invariant |rest| == Offset(left, subTreeHeight) && count == old(count) + added
        invariant forall i :: 0 <= i < |infos| ==> |infos[i].leaves| == Pow2(subTreeHeight)
        invariant InBatch(h, treeHeight, subTreeHeight, start, ls, infos, added, left, rest, Snapshot(nodes, count, root, leaves))
        decreases left
      {
        ghost var before := Snapshot(nodes, count, root, leaves);
        SlotInRange(h, treeHeight, subTreeHeight, nodes, count, root, leaves);
        var chunk := rest[..Pow2(subTreeHeight)];
        var inserted := InsertForCircuit(chunk);
        if inserted.Err? {
          return Err(Panic);
        }
        BatchAdvance(h, treeHeight, subTreeHeight, start, ls, infos, added, left, rest, before,
                     inserted.value, Snapshot(nodes, count, root, leaves));
        rest, infos := rest[Pow2(subTreeHeight)..], infos + [inserted.value];
        added, left := added + 1, left - 1;
      }
      SlotInRange(h, treeHeight, subTreeHeight, nodes, count, root, leaves);
      BatchFinished(h, treeHeight, subTreeHeight, start, ls, infos, added, left, Snapshot(nodes, count, root, leaves));
      r := Ok(infos);
    }
  }

  lemma SiblingPush(t: Nodes, i: nat, levels: nat, done: seq<PathElement>, e: PathElement)
    requires Deep(i, levels) && levels > 0 && i > 0
    requires e == if i % 2 == 0 then PathElement(HashWithThisNodeOnLeft, Get(t, i - 1))
                  else PathElement(HashWithThisNodeOnRight, Get(t, i + 1))
    ensures done + SiblingPath(t, i, levels) == (done + [e]) + SiblingPath(t, Parent(i), levels - 1)
  {
  }

  lemma {:induction false} ChainPush(h: Hasher, levels: nat, height: nat, first: Fr, infos: seq<CircuitInsertionInfo>,
                                     mid: Fr, info: CircuitInsertionInfo)
    requires InsertionChain(h, levels, height, first, infos, mid)
    requires InsertionVerifies(h, levels, height, info) && info.oldRoot == mid
    ensures InsertionChain(h, levels, height, first, infos + [info], info.newRoot)
    decreases |infos|
  {
    hide InsertionVerifies;
    var more := infos + [info];
    if infos == [] {
      assert more[1..] == [];
      assert InsertionChain(h, levels, height, info.newRoot, [], info.newRoot);
    } else {
      assert more[0] == infos[0] && more[1..] == infos[1..] + [info];
      ChainPush(h, levels, height, infos[0].newRoot, infos[1..], mid, info);
    }
  }

  lemma {:induction false} LeavesPush(infos: seq<CircuitInsertionInfo>, info: CircuitInsertionInfo)
    ensures LeavesOf(infos + [info]) == LeavesOf(infos) + info.leaves
  {
    var more := infos + [info];
    if infos == [] {
      assert more[1..] == [];
    } else {
      assert more[0] == infos[0] && more[1..] == infos[1..] + [info];
      LeavesPush(infos[1..], info);
    }
  }

  datatype Snapshot = Snapshot(nodes: Nodes, count: nat, root: Fr, leaves: seq<Fr>)

  /** A batch started in the state `start` has made `added` insertions, documented by `infos`, and is in the state `now`. */
  ghost predicate InBatch(h: Hasher, levels: nat, height: nat, start: Snapshot, ls: seq<Fr>,
                          infos: seq<CircuitInsertionInfo>, added: nat, left: nat, rest: seq<Fr>, now: Snapshot)
  {
    var done := LeavesOf(infos);
    && done + rest == ls && |done| == Offset(added, height) && |rest| == Offset(left, height)
    && now.count == start.count + added
    && (added == 0 ==> now == start)
    && now.leaves == (if done == [] then start.leaves else Splice(start.leaves, Offset(start.count, height), done))
    && BatchSoFar(h, map[], start.nodes, map[], levels, height, start.count, ls, now.nodes, added, rest, if added == 0 then 0 else now.root)
    && InsertionChain(h, levels, height, start.root, infos, now.root)
  }

  lemma BatchStart(h: Hasher, levels: nat, height: nat, start: Snapshot, ls: seq<Fr>, left: nat)
    requires |ls| == Offset(left, height)
    ensures InBatch(h, levels, height, start, ls, [], 0, left, ls, start)
  {
    hide Append;
    assert [] + ls == ls;
  }

  lemma BatchAdvance(h: Hasher, levels: nat, height: nat, start: Snapshot, ls: seq<Fr>, infos: seq<CircuitInsertionInfo>,
                     added: nat, left: nat, rest: seq<Fr>, now: Snapshot, info: CircuitInsertionInfo, next: Snapshot)
    requires InBatch(h, levels, height, start, ls, infos, added, left, rest, now) && left > 0
    requires Appended(next.nodes, next.root) == AppendPlain(h, now.nodes, levels, height, now.count, rest[..Pow2(height)])
    requires next.count == now.count + 1
    requires next.leaves == Splice(now.leaves, Offset(now.count, height), rest[..Pow2(height)])
    requires InsertionVerifies(h, levels, height, info)
    requires info.oldRoot == now.root && info.newRoot == next.root && info.leaves == rest[..Pow2(height)]
    ensures InBatch(h, levels, height, start, ls, infos + [info], added + 1, left - 1, rest[Pow2(height)..], next)
  {
    hide Splice, Step, InsertionVerifies, InsertionChain, Append;
    var chunk := rest[..Pow2(height)];
    AppendSingle(h, now.nodes, levels, height, now.count, chunk, 0);
    assert map[] + now.nodes + map[] == now.nodes;
    BatchPush(h, map[], start.nodes, map[], levels, height, start.count, ls, now.nodes, added, rest,
              if added == 0 then 0 else now.root, now.nodes);
    ChainPush(h, levels, height, start.root, infos, now.root, info);
    LeavesPush(infos, info);
    SpliceNext(start.leaves, start.count, added, height, LeavesOf(infos), now.leaves, chunk);
  }

  lemma BatchFinished(h: Hasher, levels: nat, height: nat, start: Snapshot, ls: seq<Fr>,
                      infos: seq<CircuitInsertionInfo>, added: nat, left: nat, now: Snapshot)
    requires InBatch(h, levels, height, start, ls, infos, added, left, [], now)
    ensures LeavesOf(infos) == ls && left == 0
    ensures InsertionChain(h, levels, height, start.root, infos, now.root)
    ensures ls != [] ==> Appended(now.nodes, now.root) == AppendPlain(h, start.nodes, levels, height, start.count, ls)
    ensures ls != [] ==> now.leaves == Splice(start.leaves, Offset(start.count, height), ls)
    ensures now.count == start.count + added && (ls == [] ==> now == start)
  {
    hide Splice, InsertionChain;
    assert LeavesOf(infos) + [] == LeavesOf(infos);
    BatchDone(h, map[], start.nodes, map[], levels, height, start.count, ls, now.nodes, added,
              if added == 0 then 0 else now.root);
  }

  lemma SlotInRange(h: Hasher, levels: nat, height: nat, t: Nodes, count: nat, root: Fr, leaves: seq<Fr>)
    requires SoundTree(h, levels, height, t, count, root, leaves)
    ensures Offset(count, height) < Pow2(levels + height) <==> count < Pow2(levels)
    ensures count <= Pow2(levels)
  {
    OffsetMonotone(count, Pow2(levels), height);
    OffsetFull(levels, height);
  }

  /** The emptiness proof of the next slot leads to the old root and, with the new sub-tree, to the new one. */
  lemma InsertionIsVerified(h: Hasher, levels: nat, height: nat, t: Nodes, count: nat, root: Fr, leaves: seq<Fr>, ls: seq<Fr>)
    requires SoundTree(h, levels, height, t, count, root, leaves)
    requires |ls| == Pow2(height) && count < Pow2(levels)
    ensures var path := SiblingPath(t, SubTreeNode(levels, count), levels);
            && ProofVerifies(h, MembershipProof(0, path, count), root)
            && FoldPath(h, TreeRoot(h, height, ls), path) == AppendPlain(h, t, levels, height, count, ls).hash
  {
    hide Represents, ProofVerifies;
    var i := SubTreeNode(levels, count);
    NextSlotIsZero(h, levels, height, t, count, root, leaves);
    StoredProofVerifies(h, t, levels + height, leaves, levels, count);
    FoldOfSiblingPath(h, t, i, TreeRoot(h, height, ls), levels);
    AppendUnfold(h, t, levels, height, count, ls, 0);
    assert ls[..Pow2(height)] == ls && ls[Pow2(height)..] == [];
  }

  // ---------------------------------------------------------------- soundness of single writes

  lemma LeafInsertSound(h: Hasher, levels: nat, height: nat, t: Nodes, count: nat, root: Fr, leaves: seq<Fr>, v: Fr)
    ensures var k := Offset(count, height);
            var step := Step(h, t, levels + height, 0, k, [v]);
            SoundTree(h, levels, height, t, count, root, leaves) && count < Pow2(levels) ==>
              SoundTree(h, levels, height, t + step.nodes, count + 1, step.hash, Splice(leaves, k, [v]))
  {
    if SoundTree(h, levels, height, t, count, root, leaves) && count < Pow2(levels) {
      hide NodeVal;
      OffsetMonotone(count, Pow2(levels), height);
      OffsetFull(levels, height);
      LeafWriteRepresents(h, levels + height, t, leaves, Offset(count, height), v);
    }
  }

  lemma SubTreeUpdateSound(h: Hasher, treeHeight: nat, subTreeHeight: nat, t: Nodes, count: nat, root: Fr, leaves: seq<Fr>,
                           levels: nat, height: nat, index: nat, ls: seq<Fr>)
    requires SoundTree(h, treeHeight, subTreeHeight, t, count, root, leaves)
    requires levels + height == treeHeight + subTreeHeight && |ls| == Pow2(height)
    requires Offset(index, height) + |ls| <= Offset(count, subTreeHeight)
    ensures var step := Step(h, t, levels, height, index, ls);
            SoundTree(h, treeHeight, subTreeHeight, t + step.nodes, count, step.hash, Splice(leaves, Offset(index, height), ls))
  {
    hide NodeVal, Represents, Step, Splice;
    OffsetMonotone(count, Pow2(treeHeight), subTreeHeight);
    OffsetFull(treeHeight, subTreeHeight);
    OffsetFull(levels, height);
    if index >= Pow2(levels) {
      OffsetMonotone(Pow2(levels), index, height);
    }
    StepRepresents(h, t, levels, height, index, ls, leaves);
  }

  lemma StoredProofVerifies(h: Hasher, t: Nodes, height: nat, leaves: seq<Fr>, levels: nat, k: nat)
    requires Represents(h, t, height, leaves) && levels <= height && k < Pow2(levels)
    ensures var i := SubTreeNode(levels, k);
            ProofVerifies(h, MembershipProof(Get(t, i), SiblingPath(t, i, levels), k), TreeRoot(h, height, leaves))
  {
    hide NodeVal, Represents;
    var i := SubTreeNode(levels, k);
    MembershipVerifies(h, t, height, leaves, i, levels);
    forall j | 0 <= j < levels
      ensures SiblingPath(t, i, levels)[j].direction
           == if Shr(k, j) % 2 == 0 then HashWithThisNodeOnRight else HashWithThisNodeOnLeft
    {
      SiblingDirections(t, k, levels, j);
    }
  }
}
