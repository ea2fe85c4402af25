/**
 The indexed Merkle tree: linked records of all values, each hashed into the leaf of its index.
 Values arrive either through `InsertLeaves`, all at once, or through the form that emits circuit
 proofs, one sub-tree at a time. Both end in the one state that the values' indices determine.
 */
module IndexedTrees {
  import opened Field
  import opened Merkle
  import opened Paths
  import opened Grafts
  import opened AppendSpec
  import opened NodeKeys
  import opened TreeHelpers
  import opened LinkedRecords
  import opened IndexedSpec
  import opened MutableTrees
  import opened NullifierProofs
  import opened Results

  /** The nodes form part of a tree, and include the leaves of all records with an index below `n`. */
  ghost predicate StoredBelow(keys: set<nat>, r: Records, full: nat, n: nat) {
    && TreeKeys(keys, full)
    && forall v :: v in r && r[v].id < n ==> SubTreeNode(full, r[v].id) in keys
  }

  lemma AppendKeepsStored(h: Hasher, t: Nodes, levels: nat, height: nat, count: nat, n: nat, ls: seq<Fr>, r: Records)
    requires |ls| == Offset(n, height) && count + n <= Pow2(levels)
    requires StoredBelow(t.Keys, r, levels + height, Offset(count, height))
    ensures var t' := AppendPlain(h, t, levels, height, count, ls).nodes;
            && t'.Keys == t.Keys + AppendKeys(levels, height, count, n)
            && StoredBelow(t'.Keys, r, levels + height, Offset(count + n, height))
  {
    AppendKeysSpec(h, map[], t, map[], levels, height, count, n, ls, 0);
    AppendKeepsTreeKeys(t.Keys, levels, height, count, n);
    forall v | v in r && r[v].id < Offset(count + n, height)
      ensures SubTreeNode(levels + height, r[v].id) in t.Keys + AppendKeys(levels, height, count, n)
    {
      if r[v].id >= Offset(count, height) {
        AppendedLeafIsKey(levels, height, count, n, r[v].id);
      }
    }
  }

  /** What goes into slot `first + j` for `vs[j]`. */
  ghost predicate NewLeafOk(h: Hasher, r: Records, v: Fr, leaf: Fr) {
    leaf == if v == 0 then 0 else if v in r then LeafHash(h, r[v]) else 0
  }

  /** Appending the leaves of a stored batch completes the tree, the older leaves being right already. */
  lemma BatchHolds(h: Hasher, leaves: seq<Fr>, ids: map<Fr, nat>, r: Records, vs: seq<Fr>, first: nat, added: seq<Fr>)
    requires HoldsRecords(h, leaves, r, first) && DistinctIds(r)
    requires Ids(r) == AssignIds(ids, vs, first) && Admissible(ids.Keys, vs)
    requires forall w :: w in ids ==> ids[w] < first
    requires |added| == |vs| && forall j :: 0 <= j < |vs| ==> NewLeafOk(h, r, vs[j], added[j])
    ensures HoldsRecords(h, Splice(leaves, first, added), r, first + |vs|)
  {
    var leaves', total := Splice(leaves, first, added), first + |vs|;
    forall k: nat
      ensures RecordLeaf(h, leaves', r, total, k)
    {
      assert RecordLeaf(h, leaves, r, first, k);
      if first <= k < total {
        SlotOf(h, ids, r, vs, first, k - first);
        assert NewLeafOk(h, r, vs[k - first], added[k - first]);
      }
    }
  }

  /** The tree with the zero record's leaf, which uses up one sub-tree. */
  method TreeOfZero(h: Hasher, treeHeight: nat, subTreeHeight: nat) returns (t: MutableTree)
    requires h.ZeroPreserving()
    ensures fresh(t) && t.Valid() && t.count == 1
    ensures t.h == h && t.treeHeight == treeHeight && t.subTreeHeight == subTreeHeight
    ensures var r: Records, n := map[0 := ZERO_LEAF], Offset(1, subTreeHeight);
            WellLinked(r) && HoldsRecords(h, t.leaves, r, n) && StoredBelow(t.nodes.Keys, r, treeHeight + subTreeHeight, n) && IdsBelow(r, n)
  {
    hide SoundTree, AppendSpec.Step, Splice, LeafHash, WellLinked, HoldsRecords, StoredBelow, IdsBelow, Pow2, Offset;
    var leaf := LeafHash(h, ZERO_LEAF);
    t := new MutableTree(h, treeHeight, subTreeHeight);
    var root := t.InsertLeaf(leaf, true);
    ghost var none: Nodes := map[];
    assert none + none == none;
    FirstState(h, treeHeight, subTreeHeight, t.nodes, t.leaves, leaf);
  }

  class IndexedTree {
    const tree: MutableTree
    var records: Records

    /**
     The state in which the leaves below `n` hold the records with those indices; records with
     later indices are still pending.
     */
    ghost predicate Between(n: nat)
      reads this, tree
    {
      && tree.Valid() && tree.count >= 1 && n == Offset(tree.count, tree.subTreeHeight)
      && WellLinked(records)
      && HoldsRecords(tree.h, tree.leaves, records, n)
      && LeavesStored(n)
    }

    /** The nodes form part of a tree, and include the leaves of all records below `n`. */
    ghost predicate LeavesStored(n: nat)
      reads this, tree
    {
      StoredBelow(tree.nodes.Keys, records, tree.treeHeight + tree.subTreeHeight, n)
    }

    /** The reachable states: no record is pending. */
    ghost predicate Valid()
      reads this, tree
    {
      var n := Offset(tree.count, tree.subTreeHeight);
      Between(n) && IdsBelow(records, n)
    }

    constructor (h: Hasher, treeHeight: nat, subTreeHeight: nat)
      requires h.ZeroPreserving()
      ensures Valid() && fresh(tree)
      ensures records == map[0 := ZERO_LEAF] && tree.count == 1
      ensures tree.h == h && tree.treeHeight == treeHeight && tree.subTreeHeight == subTreeHeight
    {
      hide SoundTree, Splice, LeafHash, WellLinked, HoldsRecords, StoredBelow, IdsBelow, Pow2, Offset;
      var t := TreeOfZero(h, treeHeight, subTreeHeight);
      tree := t;
      records := map[0 := ZERO_LEAF];
    }

    method GetLeaf(v: Fr) returns (r: Option<IndexedLeaf>)
      ensures r == if v in records then Some(records[v]) else None
    {
      if v in records {
        r := Some(records[v]);
      } else {
        r := None;
      }
    }

    method GetLowLeaf(v: Fr) returns (r: Option<IndexedLeaf>)
      ensures r == match LowKey(records, v) case None => None case Some(l) => Some(records[l])
    {
      match LowKey(records, v)
      case None => r := None;
      case Some(l) => r := Some(records[l]);
    }

    /** Stores a record for a new value and links it in; without an index it takes the number of records. */
    method StoreLeaf(v: Fr, index: Option<nat>) returns (r: Result<()>)
      modifies `records
      ensures var i := if index.Some? then index.value else |old(records)|;
              var low := LowKey(old(records), v);
              if v in old(records) || low.None? then r == Err(LeafExists) && records == old(records)
              else if HasId(old(records), i) then r == Err(DuplicateKey) && records == old(records)
              else r == Ok(()) && (WellLinked(old(records)) ==> records == Stored(old(records), v, i, low.value))
    {
      if v in records {
        return Err(LeafExists);
      }
      var low := GetLowLeaf(v);
      if low.None? {
        return Err(LeafExists);
      }
      var i := if index.Some? then index.value else |records|;
      if exists w :: w in records && records[w].id == i {
        assert HasId(records, i);
        return Err(DuplicateKey);
      }
      assert WellLinked(records) ==> LinkOk(records, LowKey(records, v).value);
      records := records[v := IndexedLeaf(v, i, low.value.nextIndex, low.value.nextValue)];
      UpdateLeaf(low.value.value, i, v);
      r := Ok(());
    }

    method UpdateLeaf(v: Fr, nextIndex: nat, nextValue: Fr)
      modifies `records
      ensures records == if v in old(records) then old(records)[v := old(records)[v].(nextIndex := nextIndex, nextValue := nextValue)]
                         else old(records)
    {
      if v in records {
        records := records[v := records[v].(nextIndex := nextIndex, nextValue := nextValue)];
      }
    }

    /** The proof that the low record of `v` is in the tree: for any absent value but zero. */
    method GetNonMembershipProof(v: Fr) returns (r: Result<MembershipProof>)
      requires WellLinked(records)
      ensures r.Ok? <==> v != 0 && v !in records
      ensures r.Err? ==> r.error == LeafExists
      ensures r.Ok? ==>
        && LowKey(records, v).Some?
        && var low := records[LowKey(records, v).value];
           var full := tree.treeHeight + tree.subTreeHeight;
        && low.value < v && (v < low.nextValue || low.nextValue == 0)
        && r.value == MembershipProof(LeafHash(tree.h, low),
                                      SiblingPath(tree.nodes + tree.cache, SubTreeNode(full, low.id), full), low.id)
      ensures r.Ok? && Valid() ==> ProofVerifies(tree.h, r.value, tree.root)
    {
      hide LowKey, IsLow, ProofVerifies, HoldsRecords, WellLinked;
      if v == 0 {
        return Err(LeafExists);
      }
      var existing := GetLeaf(v);
      if existing.Some? {
        return Err(LeafExists);
      }
      LowRecordSkips(records, v);
      var low := GetLowLeaf(v);
      var full := tree.treeHeight + tree.subTreeHeight;
      var leafValue := LeafHash(tree.h, low.value);
      var path := tree.SiblingsOf(SubTreeNode(full, low.value.id), full);
      r := Ok(MembershipProof(leafValue, path, low.value.id));
      if Valid() {
        RecordProofVerifies(low.value.value, Offset(tree.count, tree.subTreeHeight));
        assert tree.nodes + tree.cache == tree.nodes;
      }
    }

    /** The leaf of a record in the tree proves its place under the root. */
    lemma RecordProofVerifies(l: Fr, n: nat)
      requires Between(n) && l in records && records[l].id < n
      ensures var full := tree.treeHeight + tree.subTreeHeight;
              var rec := records[l];
              && rec.id < Pow2(full)
              && ProofVerifies(tree.h,
                               MembershipProof(LeafHash(tree.h, rec), SiblingPath(tree.nodes, SubTreeNode(full, rec.id), full), rec.id),
                               tree.root)
    {
      hide NodeVal, ProofVerifies, WellLinked;
      var full := tree.treeHeight + tree.subTreeHeight;
      var k := records[l].id;
      OffsetMonotone(tree.count, Pow2(tree.treeHeight), tree.subTreeHeight);
      OffsetFull(tree.treeHeight, tree.subTreeHeight);
      StoredProofVerifies(tree.h, tree.nodes, full, tree.leaves, full, k);
      ConsistentIsRepresents(tree.h, tree.nodes, full, tree.leaves);
      assert HoldsLeaf(tree.nodes, full, tree.leaves, k);
      assert RecordLeaf(tree.h, tree.leaves, records, n, k);
      LinkedIsDistinct(records);
      HashAtOf(tree.h, records, l);
    }

    /** Rewrites the leaf of a record that is in the tree. */
    method WriteLeaf(id: nat, value: Fr)
      requires tree.Valid() && TreeKeys(tree.nodes.Keys, tree.treeHeight + tree.subTreeHeight)
      requires id < Offset(tree.count, tree.subTreeHeight)
      requires SubTreeNode(tree.treeHeight + tree.subTreeHeight, id) in tree.nodes
      modifies tree
      ensures tree.Valid() && tree.count == old(tree.count) && tree.nodes.Keys == old(tree.nodes.Keys)
      ensures tree.leaves == Splice(old(tree.leaves), id, [value])
      ensures var full := tree.treeHeight + tree.subTreeHeight;
              tree.root == FoldPath(tree.h, value, SiblingPath(old(tree.nodes), SubTreeNode(full, id), full))
    {
      hide Represents, Splice, NodeVal, Step, SoundTree, SiblingPath, FoldPath;
      ghost var full := tree.treeHeight + tree.subTreeHeight;
      LeafStep(tree.h, tree.nodes, full, id, value);
      LeafStepKeys(tree.h, tree.nodes, full, id, value);
      FoldOfSiblingPath(tree.h, tree.nodes, SubTreeNode(full, id), value, full);
      tree.ReplaceLeaf(id, value);
    }

    /**
     Handles one value of a sub-tree: proves its low record, stores it under its slot, and, when
     the low record is in the tree, refreshes that record's leaf.
     */
    method InsertOne(v: Fr, j: nat, first: nat, ghost done: seq<Fr>) returns (r: Result<LowNullifier>)
      requires Between(first) && IdsBelow(records, first + j)
      requires |done| == j && SlotsMatch(records, done, first)
      modifies this, tree
      ensures v != 0 && v in old(records) ==> r == Err(LeafExists) && unchanged(this) && unchanged(tree)
      ensures v == 0 ==> r.Ok? && unchanged(this) && unchanged(tree)
      ensures v != 0 && v !in old(records) ==>
        && r.Ok?
        && Ids(records) == Ids(old(records))[v := first + j]
      ensures r.Ok? ==>
        && Between(first) && IdsBelow(records, first + j + 1)
        && tree.count == old(tree.count) && tree.nodes.Keys == old(tree.nodes.Keys)
        && ReplayStep(tree.h, tree.treeHeight + tree.subTreeHeight, first,
                      Replayed(old(tree.root), PendingOf(old(records), done)), v, r.value)
           == Some(Replayed(tree.root, PendingOf(records, done + [v])))
      ensures r.Ok? && v == 0 ==>
        r.value == LowNullifier(ZERO_LEAF, MembershipProof(0, EmptyPath(tree.treeHeight + tree.subTreeHeight), 0))
      ensures r.Ok? && v != 0 ==>
        && LowKey(old(records), v).Some? && r.value.leaf == old(records)[LowKey(old(records), v).value]
        && r.value.proof.nodeValue == LeafHash(tree.h, r.value.leaf)
        && |r.value.proof.siblingPath| == tree.treeHeight + tree.subTreeHeight
        && (r.value.leaf.id < first ==> r.value.proof.leafIndex == r.value.leaf.id)
        && (r.value.leaf.id >= first ==>
              r.value.proof.leafIndex == first + j && r.value.proof.siblingPath == EmptyPath(tree.treeHeight + tree.subTreeHeight))
      ensures r.Ok? ==> LowEmitted(tree.h, tree.treeHeight + tree.subTreeHeight, first, j, v, r.value)
    {
      hide WellLinked, HoldsRecords, SoundTree, StoredBelow, Ids, LowKey, LowVerifies, FoldPath, PendingOf, SlotsMatch, EmptyPath;
      var existing := GetLeaf(v);
      if existing.Some? && v != 0 {
        return Err(LeafExists);
      }
      var full := tree.treeHeight + tree.subTreeHeight;
      if v == 0 {
        PendingPad(records, done);
        return Ok(LowNullifier(ZERO_LEAF, MembershipProof(0, EmptyPath(full), 0)));
      }
      LowRecordSkips(records, v);
      var low := GetLowLeaf(v);
      IndicesBounded(records, low.value.value, first + j);
      if low.value.id < first {
        var proof := InsertAboveTreeLeaf(v, j, first, low.value, done);
        r := Ok(LowNullifier(low.value, proof));
      } else {
        StorePending(v, j, first, low.value, done);
        var nodeValue := LeafHash(tree.h, low.value);
        r := Ok(LowNullifier(low.value, MembershipProof(nodeValue, EmptyPath(full), first + j)));
      }
    }

    /** Stores `v` under slot `first + j`, above the low record `low`. */
    method StoreAbove(v: Fr, ghost j: nat, ghost first: nat, index: nat, ghost low: IndexedLeaf)
      requires WellLinked(records) && IdsBelow(records, first + j) && index == first + j
      requires v != 0 && v !in records && LowKey(records, v).Some? && low == records[LowKey(records, v).value]
      modifies `records
      ensures IsLow(old(records), v, low.value) && low.value in old(records)
      ensures WellLinked(records) && records == Stored(old(records), v, index, low.value)
      ensures Ids(records) == Ids(old(records))[v := index] && IdsBelow(records, first + j + 1)
    {
      LowRecordSkips(records, v);
      var stored := StoreLeaf(v, Some(index));
      assert stored.Ok?;
      StoredIsLinked(old(records), v, index, low.value);
      IdsBelowAfterStore(old(records), records, v, index);
    }

    /** The low record is in the tree: its leaf is proved, and then refreshed with its new link. */
    method InsertAboveTreeLeaf(v: Fr, j: nat, first: nat, low: IndexedLeaf, ghost done: seq<Fr>) returns (proof: MembershipProof)
      requires Between(first) && IdsBelow(records, first + j)
      requires |done| == j && SlotsMatch(records, done, first)
      requires v != 0 && v !in records && LowKey(records, v).Some? && low == records[LowKey(records, v).value]
      requires low.id < first
      modifies this, tree
      ensures Ids(records) == Ids(old(records))[v := first + j]
      ensures Between(first) && IdsBelow(records, first + j + 1)
      ensures tree.count == old(tree.count) && tree.nodes.Keys == old(tree.nodes.Keys)
      ensures ReplayStep(tree.h, tree.treeHeight + tree.subTreeHeight, first,
                         Replayed(old(tree.root), PendingOf(old(records), done)), v, LowNullifier(low, proof))
           == Some(Replayed(tree.root, PendingOf(records, done + [v])))
      ensures proof.nodeValue == LeafHash(tree.h, low) && |proof.siblingPath| == tree.treeHeight + tree.subTreeHeight
      ensures proof.leafIndex == low.id
    {
      hide LowKey, WellLinked, HoldsRecords, ProofVerifies, Splice, IdsBelow, Ids, IsLow, SoundTree, StoredBelow,
           FoldPath, Stored, PendingOf, SlotsMatch, LeafHash, TreeKeys, Represents, SiblingPath;
      ghost var was := records;
      ghost var full := tree.treeHeight + tree.subTreeHeight;
      LowRecordSkips(records, v);
      RecordProofVerifies(low.value, first);
      var nonMembership := GetNonMembershipProof(v);
      assert nonMembership.Ok?;
      proof := nonMembership.value;
      assert tree.nodes + tree.cache == tree.nodes;
      StoreAbove(v, j, first, first + j, low);
      StoredStep(was, done, first, v, low.value);
      StoreKeepsPlaces(was, records, v, first + j, low.value, first);
      StoreKeepsStored(tree.nodes.Keys, was, records, full, first, low.value);
      var updated := GetLeaf(low.value);
      var updatedLeaf := LeafHash(tree.h, updated.value);
      StoreKeepsHolding(tree.h, tree.leaves, was, records, first, v, first + j, low.value);
      WriteLeaf(updated.value.id, updatedLeaf);
    }

    /** The low record is itself pending: only the records change. */
    method StorePending(v: Fr, j: nat, first: nat, ghost low: IndexedLeaf, ghost done: seq<Fr>)
      requires Between(first) && IdsBelow(records, first + j)
      requires |done| == j && SlotsMatch(records, done, first)
      requires v != 0 && v !in records && LowKey(records, v).Some? && low == records[LowKey(records, v).value]
      requires low.id >= first
      modifies `records
      ensures Ids(records) == Ids(old(records))[v := first + j]
      ensures Between(first) && IdsBelow(records, first + j + 1)
      ensures Skips(low, v)
      ensures var pending := PendingOf(old(records), done);
              && low.id < first + j && pending[low.id - first] == low
              && PendingOf(records, done + [v])
                 == pending[low.id - first := Relinked(low, v, first + j)] + [NewEntry(low, v, first + j)]
    {
      hide LowKey, WellLinked, HoldsRecords, Splice, Ids, IsLow, PendingOf, SlotsMatch, Stored;
      ghost var was := records;
      LowRecordSkips(records, v);
      StoredStep(was, done, first, v, low.value);
      StoreAbove(v, j, first, first + j, low);
      assert low.value < v by {
        LowIsBelow(was, v, low.value);
      }
      StoreKeepsPlaces(was, records, v, first + j, low.value, first);
      StoreKeepsHolding(tree.h, tree.leaves, was, records, first, v, first + j, low.value);
    }

    /** Handles the values of one sub-tree in turn, stopping at one that is already stored. */
    method InsertEach(vs: seq<Fr>, first: nat) returns (r: Result<seq<LowNullifier>>)
      requires Valid() && first == Offset(tree.count, tree.subTreeHeight)
      modifies this, tree
      ensures r.Ok? <==> Admissible(old(records).Keys, vs)
      ensures r.Err? ==> r.error == LeafExists
      ensures r.Ok? ==>
        && Between(first) && IdsBelow(records, first + |vs|)
        && Ids(records) == AssignIds(Ids(old(records)), vs, first)
        && tree.count == old(tree.count) && tree.nodes.Keys == old(tree.nodes.Keys)
        && |r.value| == |vs| && AllLowEmitted(tree.h, tree.treeHeight + tree.subTreeHeight, first, vs, r.value)
        && Replay(tree.h, tree.treeHeight + tree.subTreeHeight, first, old(tree.root), vs, r.value)
           == Some(Replayed(tree.root, PendingOf(records, vs)))
    {
      hide LowKey, WellLinked, HoldsRecords, ReplayStep, Ids, TreeKeys, SlotsMatch, PendingOf, StoredBelow, SoundTree, AssignIds,
           LowEmitted;
      ghost var full := tree.treeHeight + tree.subTreeHeight;
      var lows := [];
      assert vs[..0] == [];
      NothingAssigned(Ids(records), first);
      for i := 0 to |vs|
        invariant Between(first) && IdsBelow(records, first + i)
        invariant Ids(records) == AssignIds(Ids(old(records)), vs[..i], first)
        invariant tree.count == old(tree.count) && tree.nodes.Keys == old(tree.nodes.Keys)
        invariant |lows| == i && AllLowEmitted(tree.h, full, first, vs, lows)
        invariant Replay(tree.h, full, first, old(tree.root), vs[..i], lows) == Some(Replayed(tree.root, PendingOf(records, vs[..i])))
        invariant forall k :: 0 <= k < i ==> FreshAt(old(records).Keys, vs, k)
      {
        ghost var mid := Replayed(tree.root, PendingOf(records, vs[..i]));
        StoredOrMet(old(records), records, vs, i, first);
        AssignPush(Ids(old(records)), vs, i, first);
        PrefixSlots(old(records), records, vs, i, first);
        assert vs[..i] + [vs[i]] == vs[..i + 1];
        var low := InsertOne(vs[i], i, first, vs[..i]);
        if low.Err? {
          return Err(LeafExists);
        }
        ReplayPush(tree.h, full, first, old(tree.root), vs, i, lows, low.value, mid);
        lows := lows + [low.value];
      }
      assert vs[..|vs|] == vs;
      r := Ok(lows);
    }

    /** Inserts the values of one sub-tree and returns what the circuit needs to verify it. */
    method InsertNullifiersForCircuit(vs: seq<Fr>) returns (r: Result<IMTCircuitInsertionInfo>)
      requires Valid()
      modifies this, tree
      ensures |vs| != Pow2(tree.subTreeHeight) ==> r == Err(IncorrectBatchSize) && unchanged(this) && unchanged(tree)
      ensures |vs| == Pow2(tree.subTreeHeight) ==>
        && (r.Ok? <==> Admissible(old(records).Keys, vs) && old(tree.count) < Pow2(tree.treeHeight))
        && (r.Err? ==> r.error == if Admissible(old(records).Keys, vs) then InvalidProof else LeafExists)
      ensures r.Ok? ==>
        && Valid()
        && Ids(records) == AssignIds(Ids(old(records)), vs, Offset(old(tree.count), tree.subTreeHeight))
        && tree.count == old(tree.count) + 1
        && tree.nodes.Keys == old(tree.nodes.Keys) + AppendKeys(tree.treeHeight, tree.subTreeHeight, old(tree.count), 1)
      ensures r.Ok? ==>
        && r.value.oldRoot == old(tree.root) && r.value.circuitInfo.newRoot == tree.root
        && NullifiersVerify(tree.h, tree.treeHeight, tree.subTreeHeight, vs, r.value)
        && Emitted(tree.h, tree.treeHeight + tree.subTreeHeight, |vs|, r.value)
    {
      hide WellLinked, HoldsRecords, TreeKeys, Replay, InsertionVerifies, StoredBelow, Splice, AppendPlain, Ids,
           Admissible, AssignIds, AppendKeys, SoundTree, IdsBelow, AllLowEmitted, EntriesBelow, Emitted;
      if |vs| != Pow2(tree.subTreeHeight) {
        return Err(IncorrectBatchSize);
      }
      var oldRoot, first := tree.root, Offset(tree.count, tree.subTreeHeight);
      var lows :- InsertEach(vs, first);
      var pending, newLeaves := PendingEntries(vs, first, old(records));
      ghost var t, leaves := tree.nodes, tree.leaves;
      assert |vs| == Offset(1, tree.subTreeHeight);
      SlotInRange(tree.h, tree.treeHeight, tree.subTreeHeight, tree.nodes, tree.count, tree.root, tree.leaves);
      var circuitInfo :- tree.InsertForCircuit(newLeaves);
      AppendKeepsStored(tree.h, t, tree.treeHeight, tree.subTreeHeight, old(tree.count), 1, newLeaves, records);
      OldIdsBelow(old(records), first);
      LinkedIsDistinct(records);
      BatchHolds(tree.h, leaves, Ids(old(records)), records, vs, first, newLeaves);
      OffsetAdd(old(tree.count), 1, tree.subTreeHeight);
      ghost var info := IMTCircuitInsertionInfo(oldRoot, circuitInfo, first, lows, pending);
      SubTreeIsEmitted(tree.h, tree.treeHeight, tree.subTreeHeight, vs, info);
      r := Ok(IMTCircuitInsertionInfo(oldRoot, circuitInfo, first, lows, pending));
    }

    /** Reads back the records just stored and hashes them into leaves. */
    method PendingEntries(vs: seq<Fr>, ghost first: nat, ghost was: Records) returns (pending: seq<IndexedLeaf>, newLeaves: seq<Fr>)
      requires WellLinked(records) && Ids(records) == AssignIds(Ids(was), vs, first)
      requires Admissible(was.Keys, vs) && IdsBelow(was, first)
      requires IdsBelow(records, first + |vs|)
      ensures pending == PendingOf(records, vs) && |newLeaves| == |vs|
      ensures EntriesBelow(pending, first + |vs|)
      ensures forall j :: 0 <= j < |vs| ==> newLeaves[j] == EntryLeaf(tree.h, pending[j])
      ensures forall j :: 0 <= j < |vs| ==> NewLeafOk(tree.h, records, vs[j], newLeaves[j])
    {
      pending, newLeaves := [], [];
      for j := 0 to |vs|
        invariant |pending| == |newLeaves| == j
        invariant EntriesOk(tree.h, records, vs, pending, newLeaves)
      {
        hide WellLinked, AssignIds, EntryOk, LeafHash, Ids, Admissible, IdsBelow, EntriesOk;
        EntryIsRight(tree.h, was, records, vs, first, j);
        if vs[j] == 0 {
          EntriesPush(tree.h, records, vs, pending, newLeaves, ZERO_LEAF, 0);
          pending, newLeaves := pending + [ZERO_LEAF], newLeaves + [0];
        } else {
          var entry := GetLeaf(vs[j]);
          EntriesPush(tree.h, records, vs, pending, newLeaves, entry.value, LeafHash(tree.h, entry.value));
          pending, newLeaves := pending + [entry.value], newLeaves + [LeafHash(tree.h, entry.value)];
        }
      }
      PendingIsBelow(records, vs, first + |vs|);
    }

    /**
     Inserts values eight at a time, each chunk with its circuit proofs. The chunks are of eight
     whatever the size of a sub-tree, so that only sub-trees of eight take more than one.
     */
    method BatchInsertNullifiersWithCircuitInfo(vs: seq<Fr>) returns (r: Result<seq<IMTCircuitInsertionInfo>>)
      requires Valid()
      modifies this, tree
      ensures r.Ok? <==>
        && ChunksFit(|vs|, tree.subTreeHeight) && Admissible(old(records).Keys, vs)
        && (vs == [] || old(tree.count) + Batches(|vs|, tree.subTreeHeight) <= Pow2(tree.treeHeight))
      ensures r.Ok? ==>
        && Valid()
        && Ids(records) == AssignIds(Ids(old(records)), vs, Offset(old(tree.count), tree.subTreeHeight))
        && tree.count == old(tree.count) + Batches(|vs|, tree.subTreeHeight)
        && tree.nodes.Keys == old(tree.nodes.Keys)
             + AppendKeys(tree.treeHeight, tree.subTreeHeight, old(tree.count), Batches(|vs|, tree.subTreeHeight))
        && NullifierChain(tree.h, tree.treeHeight, tree.subTreeHeight, old(tree.root), vs, r.value, tree.root)
      ensures r.Ok? ==> forall i :: 0 <= i < |r.value| ==>
                          Emitted(tree.h, tree.treeHeight + tree.subTreeHeight, Pow2(tree.subTreeHeight), r.value[i])
    {
      hide WellLinked, HoldsRecords, StoredBelow, NullifiersVerify, Ids, Admissible, InNullifierBatch,
           NullifierChain, AppendKeys, AssignIds, Offset, Pow2, ChunksFit, Batches, Emitted;
      ghost var height := tree.subTreeHeight;
      ghost var start := IndexedState(records, tree.count, tree.nodes.Keys, tree.root);
      NullifierBatchStart(tree.h, tree.treeHeight, height, start, vs);
      if vs == [] {
        NullifierBatchDone(tree.h, tree.treeHeight, height, start, vs, [], 0, start);
        return Ok([]);
      }
      var infos, rest := [], vs;
      ghost var added: nat := 0;
      while rest != []
        invariant Valid() && Taken(vs, rest, added, height)
        invariant tree.count == old(tree.count) + added && (added > 0 ==> tree.count <= Pow2(tree.treeHeight))
        invariant InNullifierBatch(tree.h, tree.treeHeight, height, start, vs, infos, added,
                                   IndexedState(records, tree.count, tree.nodes.Keys, tree.root))
        invariant forall i :: 0 <= i < |infos| ==> Emitted(tree.h, tree.treeHeight + height, Pow2(height), infos[i])
        decreases |rest|
      {
        var chunk := if |rest| < 8 then rest else rest[..8];
        ghost var mid := IndexedState(records, tree.count, tree.nodes.Keys, tree.root);
        ChunkTaken(vs, rest, added, height, chunk);
        NullifierBatchChunk(tree.h, tree.treeHeight, height, start, vs, infos, added, mid, chunk);
        var info := InsertNullifiersForCircuit(chunk);
        if info.Err? {
          return Err(info.error);
        }
        NullifierBatchAdvance(tree.h, tree.treeHeight, height, start, vs, infos, added, mid, chunk, info.value,
                              IndexedState(records, tree.count, tree.nodes.Keys, tree.root));
        rest, added, infos := rest[|chunk|..], added + 1, infos + [info.value];
      }
      AllTakenFits(vs, added, height);
      NullifierBatchDone(tree.h, tree.treeHeight, height, start, vs, infos, added,
                         IndexedState(records, tree.count, tree.nodes.Keys, tree.root));
      r := Ok(infos);
    }

    /** The low values of a batch, sorted and without repetitions. */
    method CollectLows(vs: seq<Fr>) returns (lows: seq<Fr>)
      ensures Ascending(lows)
      ensures IsLowSet(records, vs, Members(lows))
    {
      hide LowKey, IsLow;
      lows := [];
      NoLows(records, vs);
      for i := 0 to |vs|
        invariant Ascending(lows) && IsLowSet(records, vs[..i], Members(lows))
      {
        LowSetPush(records, vs, i, Members(lows));
        match LowKey(records, vs[i])
        case None =>
        case Some(l) =>
          lows := SortedInsert(lows, l);
      }
      assert vs[..|vs|] == vs;
    }

    /** Stores the nonzero values one after the other; a repeated value stops it, leaving what is stored. */
    method StoreEach(vs: seq<Fr>, first: nat) returns (r: Result<()>)
      requires WellLinked(records) && IdsBelow(records, first)
      requires forall i :: 0 <= i < |vs| && vs[i] != 0 ==> vs[i] !in records
      modifies `records
      ensures WellLinked(records)
      ensures r.Ok? <==> Admissible(old(records).Keys, vs)
      ensures r.Ok? ==> Ids(records) == AssignIds(Ids(old(records)), vs, first)
      ensures r.Err? ==> r.error == LeafExists && SomePrefixStored(old(records), records, vs, first)
    {
      hide LowKey, WellLinked, Ids;
      assert vs[..0] == [];
      for i := 0 to |vs|
        invariant WellLinked(records) && IdsBelow(records, first + i)
        invariant PrefixStored(old(records), records, vs, first, i)
        invariant forall k :: 0 <= k < i ==> FreshAt(old(records).Keys, vs, k)
      {
        StoredOrMet(old(records), records, vs, i, first);
        AssignPush(Ids(old(records)), vs, i, first);
        if vs[i] != 0 {
          if vs[i] in records {
            assert !FreshAt(old(records).Keys, vs, i);
            return Err(LeafExists);
          }
          LowRecordSkips(records, vs[i]);
          StoreAbove(vs[i], i, first, first + i, records[LowKey(records, vs[i]).value]);
        }
      }
      assert vs[..|vs|] == vs;
      r := Ok(());
    }

    /** Refuses a batch with a value already stored; otherwise finds the low records, and stores the values. */
    method StoreBatch(vs: seq<Fr>, first: nat) returns (r: Result<seq<Fr>>)
      requires WellLinked(records) && IdsBelow(records, first)
      modifies `records
      ensures WellLinked(records)
      ensures r.Ok? <==> Admissible(old(records).Keys, vs)
      ensures r.Ok? ==>
        && Ids(records) == AssignIds(Ids(old(records)), vs, first)
        && Ascending(r.value) && IsLowSet(old(records), vs, Members(r.value))
      ensures r.Err? ==> r.error == LeafExists
      ensures SomePrefixStored(old(records), records, vs, first)
    {
      hide WellLinked, Ids, Admissible, IsLowSet, SomePrefixStored, IdsBelow, AssignIds;
      NothingStored(records, vs, first);
      for i := 0 to |vs|
        invariant forall k :: 0 <= k < i && vs[k] != 0 ==> vs[k] !in records
        invariant unchanged(this)
      {
        if vs[i] in records && vs[i] != 0 {
          StoredIsNotAdmissible(records, vs, i);
          return Err(LeafExists);
        }
      }
      var lows := CollectLows(vs);
      ghost var was := records;
      var stored := StoreEach(vs, first);
      if stored.Err? {
        return Err(stored.error);
      }
      LinkedIsDistinct(was);
      AllStored(was, records, vs, first);
      r := Ok(lows);
    }

    /** The leaves of a stored batch. */
    method BatchLeaves(vs: seq<Fr>) returns (leaves: seq<Fr>)
      requires WellLinked(records) && forall i :: 0 <= i < |vs| ==> vs[i] in records
      ensures |leaves| == |vs| && forall j :: 0 <= j < |vs| ==> NewLeafOk(tree.h, records, vs[j], leaves[j])
    {
      hide WellLinked, NewLeafOk, LeafHash;
      leaves := [];
      for j := 0 to |vs|
        invariant |leaves| == j && forall k :: 0 <= k < j ==> NewLeafOk(tree.h, records, vs[k], leaves[k])
      {
        RecordKey(records, vs[j]);
        StoredLeafIsRight(tree.h, records, vs[j]);
        var entry := GetLeaf(vs[j]);
        if entry.value.value != 0 {
          leaves := leaves + [LeafHash(tree.h, entry.value)];
        } else {
          leaves := leaves + [0];
        }
      }
    }

    /** Rewrites the leaves of the low records with their new links. */
    method RefreshLows(lows: seq<Fr>, ghost was: Records, ghost first: nat) returns (root: Fr)
      requires tree.Valid()
      requires RepairReady(tree.h, tree.leaves, tree.nodes.Keys, was, records, lows, first,
                           Offset(tree.count, tree.subTreeHeight), tree.treeHeight + tree.subTreeHeight)
      modifies tree
      ensures tree.Valid() && tree.count == old(tree.count) && tree.nodes.Keys == old(tree.nodes.Keys)
      ensures HoldsRecords(tree.h, tree.leaves, records, Offset(tree.count, tree.subTreeHeight))
      ensures root == if lows == [] then 0 else tree.root
    {
      hide WellLinked, MixedLeaves, TreeKeys, Splice;
      LinkedIsDistinct(was);
      LinkedIsDistinct(records);
      root := 0;
      ghost var total := Offset(tree.count, tree.subTreeHeight);
      assert lows[0..] == lows;
      for k := 0 to |lows|
        invariant tree.Valid() && tree.count == old(tree.count) && tree.nodes.Keys == old(tree.nodes.Keys)
        invariant MixedLeaves(tree.h, tree.leaves, was, records, total, Members(lows[k..]))
        invariant root == if k == 0 then 0 else tree.root
      {
        MembersTail(lows, k);
        RepairOne(tree.h, tree.leaves, was, records, total, Members(lows[k..]), lows[k]);
        var rec := GetLeaf(lows[k]);
        var leafValue := LeafHash(tree.h, rec.value);
        StoredKeysOk(tree.nodes.Keys, was, tree.treeHeight + tree.subTreeHeight, first, lows[k]);
        WriteLeaf(rec.value.id, leafValue);
        root := tree.root;
      }
      assert Members(lows[|lows|..]) == {};
      RepairDone(tree.h, tree.leaves, was, records, total);
    }

    /**
     Inserts a whole batch at once: all records first, then all new leaves, then the leaves of the
     low records. A batch of pads only returns zero, whatever the root.
     */
    method InsertLeaves(vs: seq<Fr>) returns (r: Result<Fr>)
      requires Valid()
      requires tree.count + Batches(|vs|, tree.subTreeHeight) <= Pow2(tree.treeHeight)
      modifies this, tree
      ensures vs == [] ==> r == Ok(tree.root) && unchanged(this) && unchanged(tree)
      ensures vs != [] ==> (r.Ok? <==> Admissible(old(records).Keys, vs) && IsWhole(|vs|, tree.subTreeHeight))
      ensures r.Err? ==>
        && r.error == (if Admissible(old(records).Keys, vs) then IncorrectBatchSize else LeafExists)
        && unchanged(tree) && SomePrefixStored(old(records), records, vs, Offset(tree.count, tree.subTreeHeight))
      ensures vs != [] && r.Ok? ==>
        && Valid()
        && Ids(records) == AssignIds(Ids(old(records)), vs, Offset(old(tree.count), tree.subTreeHeight))
        && tree.count == old(tree.count) + Batches(|vs|, tree.subTreeHeight)
        && tree.nodes.Keys == old(tree.nodes.Keys)
             + AppendKeys(tree.treeHeight, tree.subTreeHeight, old(tree.count), Batches(|vs|, tree.subTreeHeight))
        && r.value == (if exists v :: v in vs && v != 0 then tree.root else 0)
    {
      hide WellLinked, HoldsRecords, StoredBelow, Ids, Admissible, Splice, AppendPlain, MixedLeaves,
           IsLowSet, TreeKeys, SomePrefixStored, IdsBelow, RepairReady,
           Offset, Batches, IsWhole, AssignIds, AppendKeys, NewLeafOk, SoundTree;
      if vs == [] {
        return Ok(tree.root);
      }
      var first := Offset(tree.count, tree.subTreeHeight);
      ghost var was, t, leaves := records, tree.nodes, tree.leaves;
      var lows :- StoreBatch(vs, first);
      LinkedIsDistinct(was);
      AllStored(was, records, vs, first);
      var newLeaves := BatchLeaves(vs);
      var appended := tree.CommitSubTrees(newLeaves);
      if appended.Err? {
        return Err(appended.error);
      }
      WholeBatch(|vs|, tree.subTreeHeight);
      ghost var n := Batches(|vs|, tree.subTreeHeight);
      StoredBelowNow(t.Keys, was, records, vs, first, tree.treeHeight + tree.subTreeHeight);
      AppendKeepsStored(tree.h, t, tree.treeHeight, tree.subTreeHeight, old(tree.count), n, newLeaves, was);
      AppendKeepsStored(tree.h, t, tree.treeHeight, tree.subTreeHeight, old(tree.count), n, newLeaves, records);
      OffsetAdd(old(tree.count), n, tree.subTreeHeight);
      ReadyToRepair(tree.h, leaves, tree.nodes.Keys, was, records, vs, lows, first, Offset(tree.count, tree.subTreeHeight),
                    tree.treeHeight + tree.subTreeHeight, newLeaves);
      IdsBelowAfterAssign(was, records, vs, first);
      var root := RefreshLows(lows, was, first);
      r := Ok(root);
    }

  }

  /** The records after the first `k` values of a batch have been stored. */
  ghost predicate PrefixStored(was: Records, now: Records, vs: seq<Fr>, first: nat, k: int) {
    0 <= k <= |vs| && Ids(now) == AssignIds(Ids(was), vs[..k], first)
  }

  ghost predicate SomePrefixStored(was: Records, now: Records, vs: seq<Fr>, first: nat) {
    exists k :: PrefixStored(was, now, vs, first, k)
  }

  ghost function Members(s: seq<Fr>): set<Fr> {
    set v | v in s
  }

  function SortedInsert(s: seq<Fr>, v: Fr): (r: seq<Fr>)
    ensures Ascending(s) ==> Ascending(r)
    ensures Members(r) == Members(s) + {v}
  {
    if s == [] then [v]
    else if v < s[0] then [v] + s
    else if v == s[0] then s
    else
      var rest := SortedInsert(s[1..], v);
      InsertedHead(s, v, rest);
      [s[0]] + rest
  }

  lemma InsertedHead(s: seq<Fr>, v: Fr, rest: seq<Fr>)
    requires s != [] && s[0] < v && Members(rest) == Members(s[1..]) + {v}
    ensures Members([s[0]] + rest) == Members(s) + {v}
    ensures Ascending(s) && Ascending(rest) ==> Ascending([s[0]] + rest)
  {
    assert s == [s[0]] + s[1..];
    forall x
      ensures x in [s[0]] + rest <==> x in s || x == v
    {
      assert x in rest <==> x in Members(rest);
      assert x in s[1..] <==> x in Members(s[1..]);
    }
    if Ascending(s) && Ascending(rest) {
      forall i | 0 <= i < |rest|
        ensures s[0] < rest[i]
      {
        assert rest[i] in Members(rest);
      }
    }
  }

  lemma MembersTail(s: seq<Fr>, k: nat)
    requires Ascending(s) && k < |s|
    ensures Members(s[k + 1..]) == Members(s[k..]) - {s[k]} && s[k] in Members(s[k..]) && s[k] in s
  {
  }

  lemma NoLows(r: Records, vs: seq<Fr>)
    ensures vs[..0] == [] && IsLowSet(r, [], Members([]))
  {
  }

  lemma LowSetPush(r: Records, vs: seq<Fr>, i: nat, lows: set<Fr>)
    requires i < |vs| && IsLowSet(r, vs[..i], lows)
    ensures IsLowSet(r, vs[..i + 1], match LowKey(r, vs[i]) case None => lows case Some(l) => lows + {l})
  {
    assert vs[..i + 1] == vs[..i] + [vs[i]];
  }

  lemma StoredLeafIsRight(h: Hasher, r: Records, v: Fr)
    requires v in r
    ensures NewLeafOk(h, r, v, if v != 0 then LeafHash(h, r[v]) else 0)
  {
  }

  lemma NothingStored(r: Records, vs: seq<Fr>, first: nat)
    ensures SomePrefixStored(r, r, vs, first)
  {
    assert vs[..0] == [];
    assert PrefixStored(r, r, vs, first, 0);
  }

  lemma StoredIsNotAdmissible(r: Records, vs: seq<Fr>, i: nat)
    requires i < |vs| && vs[i] in r && vs[i] != 0
    ensures !Admissible(r.Keys, vs)
  {
    assert !FreshAt(r.Keys, vs, i);
  }

  /** Once a batch is stored, all its values have records, pads having the zero record. */
  lemma AllStored(was: Records, now: Records, vs: seq<Fr>, first: nat)
    requires Ids(now) == AssignIds(Ids(was), vs, first) && 0 in was
    ensures forall i :: 0 <= i < |vs| ==> vs[i] in now
    ensures SomePrefixStored(was, now, vs, first)
  {
    assert vs[..|vs|] == vs;
    assert PrefixStored(was, now, vs, first, |vs|);
    forall i | 0 <= i < |vs|
      ensures vs[i] in now
    {
      AssignedKeys(Ids(was), vs, first, vs[i]);
      assert vs[i] in Ids(now);
    }
  }

  lemma RecordsKeepIds(was: Records, now: Records, vs: seq<Fr>, first: nat)
    requires Ids(now) == AssignIds(Ids(was), vs, first) && Admissible(was.Keys, vs) && 0 in was
    ensures forall w :: w in was ==> w in now && now[w].id == was[w].id
  {
    forall w | w in was
      ensures w in now && now[w].id == was[w].id
    {
      AssignedOld(Ids(was), vs, first, w);
      assert Ids(now)[w] == Ids(was)[w];
    }
  }

  /** A batch has a low value to refresh exactly when it has a value that is no pad. */
  lemma SomeLow(r: Records, vs: seq<Fr>, lows: seq<Fr>)
    requires WellLinked(r) && IsLowSet(r, vs, Members(lows))
    ensures lows == [] <==> !exists v :: v in vs && v != 0
    ensures forall l :: l in lows ==> l in r
  {
    hide WellLinked;
    forall l | l in lows
      ensures l in r && exists v :: v in vs && v != 0
    {
      assert l in Members(lows);
      var v :| v in vs && IsLow(r, v, l);
      assert v in vs && v != 0;
    }
    if lows != [] {
      assert lows[0] in lows;
    }
    if v :| v in vs && v != 0 {
      LowRecordSkips(r, v);
      var l := LowKey(r, v).value;
      assert IsLow(r, v, l);
      assert l in Members(lows);
    }
  }

  /** A batch has been appended below `total`, and the leaves of the low records wait to be refreshed. */
  ghost predicate RepairReady(h: Hasher, leaves: seq<Fr>, keys: set<nat>, was: Records, now: Records, lows: seq<Fr>,
                              first: nat, total: nat, full: nat)
  {
    && WellLinked(was) && WellLinked(now) && IdsBelow(was, first) && first <= total
    && StoredBelow(keys, was, full, first)
    && (forall w :: w in was ==> w in now && now[w].id == was[w].id)
    && Ascending(lows) && (forall l :: l in lows ==> l in was)
    && MixedLeaves(h, leaves, was, now, total, Members(lows))
  }

  /** The records below the old end are the old ones. */
  lemma StoredBelowNow(keys: set<nat>, was: Records, now: Records, vs: seq<Fr>, first: nat, full: nat)
    requires StoredBelow(keys, was, full, first) && Ids(now) == AssignIds(Ids(was), vs, first)
    ensures StoredBelow(keys, now, full, first)
  {
    hide TreeKeys;
    forall v | v in now && now[v].id < first
      ensures SubTreeNode(full, now[v].id) in keys
    {
      assert Ids(now)[v] == now[v].id;
      var j := AssignedFrom(Ids(was), vs, first, v);
      assert v in was && was[v].id == now[v].id;
    }
  }

  lemma StoredBelowLess(keys: set<nat>, r: Records, full: nat, n: nat, m: nat)
    requires StoredBelow(keys, r, full, n) && m <= n
    ensures StoredBelow(keys, r, full, m)
  {
  }

  lemma ReadyToRepair(h: Hasher, leaves: seq<Fr>, keys: set<nat>, was: Records, now: Records, vs: seq<Fr>, lows: seq<Fr>,
                      first: nat, total: nat, full: nat, added: seq<Fr>)
    requires HoldsRecords(h, leaves, was, first) && StoredBelow(keys, was, full, total) && total == first + |vs|
    requires WellLinked(was) && WellLinked(now) && Ids(now) == AssignIds(Ids(was), vs, first)
    requires Admissible(was.Keys, vs) && Ascending(lows) && IsLowSet(was, vs, Members(lows)) && IdsBelow(was, first)
    requires |added| == |vs| && forall j :: 0 <= j < |vs| ==> NewLeafOk(h, now, vs[j], added[j])
    ensures RepairReady(h, Splice(leaves, first, added), keys, was, now, lows, first, total, full)
    ensures lows == [] <==> !exists v :: v in vs && v != 0
  {
    hide HoldsRecords, WellLinked, Admissible, IsLowSet, MixedLeaves, Ids, Splice;
    forall j | 0 <= j < |vs|
      ensures added[j] == if vs[j] == 0 || vs[j] !in now then 0 else LeafHash(h, now[vs[j]])
    {
      assert NewLeafOk(h, now, vs[j], added[j]);
    }
    LinkedIsDistinct(was);
    RepairStart(h, leaves, was, now, vs, Members(lows), first, added);
    RecordsKeepIds(was, now, vs, first);
    SomeLow(was, vs, lows);
    StoredBelowLess(keys, was, full, total, first);
  }

  lemma StoredKeysOk(keys: set<nat>, r: Records, full: nat, first: nat, l: Fr)
    requires StoredBelow(keys, r, full, first) && l in r && r[l].id < first
    ensures TreeKeys(keys, full) && SubTreeNode(full, r[l].id) in keys
  {
  }

  lemma AdmissibleHead(keys: set<Fr>, vs: seq<Fr>, a: seq<Fr>)
    requires a <= vs
    ensures Admissible(keys, vs) ==> Admissible(keys, a)
  {
    if Admissible(keys, vs) {
      AdmissiblePrefix(keys, vs, |a|);
      assert vs[..|a|] == a;
    }
  }

  /** A batch is admissible when its first part is, and its second part is once the first is stored. */
  lemma AdmissibleSplit(was: Records, now: Records, a: seq<Fr>, b: seq<Fr>, first: nat)
    requires Ids(now) == AssignIds(Ids(was), a, first)
    ensures Admissible(was.Keys, a + b) <==> Admissible(was.Keys, a) && Admissible(now.Keys, b)
  {
    if Admissible(was.Keys, a + b) {
      AdmissiblePrefix(was.Keys, a + b, |a|);
      assert (a + b)[..|a|] == a;
    }
    forall i | 0 <= i < |b|
      ensures FreshAt(was.Keys, a + b, |a| + i) <==> FreshAt(now.Keys, b, i)
    {
      AssignedKeys(Ids(was), a, first, b[i]);
      assert b[i] in now <==> b[i] in Ids(now);
      assert (a + b)[..|a| + i] == a + b[..i];
    }
    if Admissible(was.Keys, a) && Admissible(now.Keys, b) {
      forall i | 0 <= i < |a + b|
        ensures FreshAt(was.Keys, a + b, i)
      {
        if i < |a| {
          assert FreshAt(was.Keys, a, i);
          assert (a + b)[..i] == a[..i];
        } else {
          assert FreshAt(now.Keys, b, i - |a|);
        }
      }
    }
    if Admissible(was.Keys, a + b) {
      forall i | 0 <= i < |b|
        ensures FreshAt(now.Keys, b, i)
      {
        assert FreshAt(was.Keys, a + b, |a| + i);
      }
    }
  }

  ghost predicate EntryOk(h: Hasher, r: Records, v: Fr, entry: IndexedLeaf, leaf: Fr) {
    && entry == (if v != 0 && v in r then r[v] else ZERO_LEAF)
    && leaf == EntryLeaf(h, entry)
    && NewLeafOk(h, r, v, leaf)
  }

  /** The entries read back so far. */
  ghost predicate EntriesOk(h: Hasher, r: Records, vs: seq<Fr>, pending: seq<IndexedLeaf>, newLeaves: seq<Fr>) {
    && |pending| == |newLeaves| <= |vs|
    && forall k :: 0 <= k < |pending| ==> EntryOk(h, r, vs[k], pending[k], newLeaves[k])
  }

  lemma EntriesPush(h: Hasher, r: Records, vs: seq<Fr>, pending: seq<IndexedLeaf>, newLeaves: seq<Fr>, e: IndexedLeaf, leaf: Fr)
    requires EntriesOk(h, r, vs, pending, newLeaves) && |pending| < |vs|
    requires EntryOk(h, r, vs[|pending|], e, leaf)
    ensures EntriesOk(h, r, vs, pending + [e], newLeaves + [leaf])
  {
    hide EntryOk;
  }

  datatype IndexedState = IndexedState(records: Records, count: nat, keys: set<nat>, root: Fr)

  /** Every chunk of eight, and the last, shorter one, is exactly one sub-tree. */
  predicate ChunksFit(len: nat, height: nat) {
    len == 0 || (height == 3 && len % 8 == 0) || (len < 8 && len == Pow2(height))
  }

  /** The first `added` sub-trees have been taken from the values, and `rest` is left. */
  ghost predicate Taken(vs: seq<Fr>, rest: seq<Fr>, added: nat, height: nat) {
    && Offset(added, height) <= |vs| && rest == vs[Offset(added, height)..]
    && (added > 0 ==> height == 3 || (rest == [] && added == 1 && |vs| < 8))
  }

  lemma {:induction false} OffsetOfEights(n: nat)
    ensures Offset(n, 3) == 8 * n
  {
    assert Pow2(3) == 8;
    if n > 0 {
      OffsetOfEights(n - 1);
    }
  }

  lemma {:induction false} EightsAreWhole(n: nat)
    ensures IsWhole(8 * n, 3)
  {
    assert Pow2(3) == 8;
    hide Pow2;
    if n > 0 {
      EightsAreWhole(n - 1);
      assert 8 * n - 8 == 8 * (n - 1);
    }
  }

  lemma ChunksAreWhole(len: nat, height: nat)
    requires ChunksFit(len, height)
    ensures IsWhole(len, height)
  {
    NothingIsWhole(height);
    if len != 0 {
      if height == 3 && len % 8 == 0 {
        EightsAreWhole(len / 8);
      } else {
        OneBatch(height);
      }
    }
  }

  /** The next chunk is where the sub-trees taken so far end. */
  lemma ChunkTaken(vs: seq<Fr>, rest: seq<Fr>, added: nat, height: nat, chunk: seq<Fr>)
    requires Taken(vs, rest, added, height) && rest != [] && chunk == if |rest| < 8 then rest else rest[..8]
    ensures Offset(added, height) + |chunk| <= |vs| && chunk == vs[Offset(added, height)..Offset(added, height) + |chunk|]
    ensures ChunksFit(|vs|, height) ==> |chunk| == Pow2(height) && added < Batches(|vs|, height)
    ensures |chunk| == Pow2(height) ==> Taken(vs, rest[|chunk|..], added + 1, height)
  {
    hide Batches, IsWhole, Offset, Pow2;
    if ChunksFit(|vs|, height) {
      ChunkFits(|vs|, added, height, |chunk|);
    }
    if |chunk| == Pow2(height) {
      OneMoreTaken(added, height);
      if |chunk| == 8 {
        OnlyEight(height);
      }
    }
  }

  /** A next chunk of another size means that the chunks do not fit. */
  lemma ChunkFits(len: nat, added: nat, height: nat, size: nat)
    requires ChunksFit(len, height) && Offset(added, height) < len
    requires added > 0 ==> height == 3
    requires size == if len - Offset(added, height) < 8 then len - Offset(added, height) else 8
    ensures size == Pow2(height) && added < Batches(len, height)
  {
    ChunksAreWhole(len, height);
    WholeBatch(len, height);
    OffsetOfEights(added);
    assert Pow2(3) == 8;
    if added >= Batches(len, height) {
      OffsetMonotone(Batches(len, height), added, height);
    }
    hide Batches, IsWhole, Offset, Pow2;
  }

  lemma OneMoreTaken(added: nat, height: nat)
    ensures Offset(added + 1, height) == Offset(added, height) + Pow2(height)
    ensures added == 0 ==> Offset(added, height) == 0
  {
  }

  lemma OnlyEight(height: nat)
    requires Pow2(height) == 8
    ensures height == 3
  {
    assert Pow2(3) == 8;
    PowersOrdered(height, 3);
  }

  lemma AllTakenFits(vs: seq<Fr>, added: nat, height: nat)
    requires Taken(vs, [], added, height) && vs != []
    ensures ChunksFit(|vs|, height)
  {
    if height == 3 {
      OffsetOfEights(added);
      MultipleOfEight(|vs|, added);
    } else {
      assert added == 1;
      assert Offset(1, height) == Pow2(height);
    }
  }

  /** A batch started in the state `start` has inserted `added` sub-trees of `vs` and is in the state `now`. */
  ghost predicate InNullifierBatch(h: Hasher, levels: nat, height: nat, start: IndexedState, vs: seq<Fr>,
                                   infos: seq<IMTCircuitInsertionInfo>, added: nat, now: IndexedState)
  {
    var k := Offset(added, height);
    && k <= |vs|
    && Admissible(start.records.Keys, vs[..k])
    && now.count == start.count + added
    && Ids(now.records) == AssignIds(Ids(start.records), vs[..k], Offset(start.count, height))
    && now.keys == start.keys + AppendKeys(levels, height, start.count, added)
    && NullifierChain(h, levels, height, start.root, vs[..k], infos, now.root)
  }

  lemma NullifierBatchStart(h: Hasher, levels: nat, height: nat, start: IndexedState, vs: seq<Fr>)
    ensures InNullifierBatch(h, levels, height, start, vs, [], 0, start)
    ensures Taken(vs, vs, 0, height)
  {
    assert vs[..0] == [] && vs[0..] == vs;
  }

  /** The next chunk must be admissible now if the whole batch was at the start. */
  lemma NullifierBatchChunk(h: Hasher, levels: nat, height: nat, start: IndexedState, vs: seq<Fr>, infos: seq<IMTCircuitInsertionInfo>,
                            added: nat, mid: IndexedState, chunk: seq<Fr>)
    requires InNullifierBatch(h, levels, height, start, vs, infos, added, mid)
    requires Offset(added, height) + |chunk| <= |vs| && chunk == vs[Offset(added, height)..Offset(added, height) + |chunk|]
    ensures Admissible(start.records.Keys, vs) ==> Admissible(mid.records.Keys, chunk)
    ensures Admissible(mid.records.Keys, chunk) ==> Admissible(start.records.Keys, vs[..Offset(added, height) + |chunk|])
  {
    hide Admissible, NullifierChain;
    var k := Offset(added, height);
    assert vs[..k] + chunk == vs[..k + |chunk|];
    AdmissibleSplit(start.records, mid.records, vs[..k], chunk, Offset(start.count, height));
    AdmissibleHead(start.records.Keys, vs, vs[..k + |chunk|]);
  }

  lemma NullifierBatchAdvance(h: Hasher, levels: nat, height: nat, start: IndexedState, vs: seq<Fr>, infos: seq<IMTCircuitInsertionInfo>,
                              added: nat, mid: IndexedState, chunk: seq<Fr>, info: IMTCircuitInsertionInfo, now: IndexedState)
    requires InNullifierBatch(h, levels, height, start, vs, infos, added, mid) && |chunk| == Pow2(height)
    requires Offset(added, height) + |chunk| <= |vs| && chunk == vs[Offset(added, height)..Offset(added, height) + |chunk|]
    requires Admissible(start.records.Keys, vs[..Offset(added, height) + |chunk|])
    requires Ids(now.records) == AssignIds(Ids(mid.records), chunk, Offset(mid.count, height))
    requires NullifiersVerify(h, levels, height, chunk, info)
    requires now.count == mid.count + 1 && now.keys == mid.keys + AppendKeys(levels, height, mid.count, 1)
    requires info.oldRoot == mid.root && info.circuitInfo.newRoot == now.root
    ensures InNullifierBatch(h, levels, height, start, vs, infos + [info], added + 1, now)
  {
    hide Admissible, NullifierChain, NullifiersVerify, AppendKeys, AssignIds, Ids, Offset, Pow2;
    var k := Offset(added, height);
    OneMoreTaken(added, height);
    var before := vs[..k];
    assert |before| == k && before + chunk == vs[..k + |chunk|];
    OffsetAdd(start.count, added, height);
    AssignSplit(Ids(start.records), before, chunk, Offset(start.count, height));
    AppendKeysSplit(levels, height, start.count, added, 1);
    NullifierChainPush(h, levels, height, start.root, before, infos, chunk, info, now.root);
    NullifierBatchIs(h, levels, height, start, vs, infos + [info], added + 1, now, before + chunk);
  }

  lemma NullifierBatchIs(h: Hasher, levels: nat, height: nat, start: IndexedState, vs: seq<Fr>, infos: seq<IMTCircuitInsertionInfo>,
                         added: nat, now: IndexedState, done: seq<Fr>)
    requires Offset(added, height) <= |vs| && done == vs[..Offset(added, height)] && Admissible(start.records.Keys, done)
    requires now.count == start.count + added && now.keys == start.keys + AppendKeys(levels, height, start.count, added)
    requires Ids(now.records) == AssignIds(Ids(start.records), done, Offset(start.count, height))
    requires NullifierChain(h, levels, height, start.root, done, infos, now.root)
    ensures InNullifierBatch(h, levels, height, start, vs, infos, added, now)
  {
    hide Admissible, NullifierChain, AppendKeys, AssignIds, Ids, Offset, Pow2;
  }

  lemma NullifierBatchDone(h: Hasher, levels: nat, height: nat, start: IndexedState, vs: seq<Fr>, infos: seq<IMTCircuitInsertionInfo>,
                           added: nat, now: IndexedState)
    requires InNullifierBatch(h, levels, height, start, vs, infos, added, now) && vs[Offset(added, height)..] == []
    ensures added == Batches(|vs|, height)
    ensures vs == [] ==> ChunksFit(|vs|, height)
    ensures Admissible(start.records.Keys, vs)
    ensures Ids(now.records) == AssignIds(Ids(start.records), vs, Offset(start.count, height))
    ensures now.keys == start.keys + AppendKeys(levels, height, start.count, added) && now.count == start.count + added
    ensures NullifierChain(h, levels, height, start.root, vs, infos, now.root)
  {
    hide Admissible, NullifierChain, AppendKeys, AssignIds, Ids;
    OffsetBatches(added, height);
    assert vs[..Offset(added, height)] == vs;
  }

  lemma {:induction false} OffsetBatches(n: nat, height: nat)
    ensures Batches(Offset(n, height), height) == n && IsWhole(Offset(n, height), height)
  {
    if n > 0 {
      OffsetBatches(n - 1, height);
    }
  }

  lemma MultipleOfEight(n: nat, a: nat)
    requires n == 8 * a
    ensures n % 8 == 0 && n / 8 == a
  {
  }

  lemma EntryIsRight(h: Hasher, was: Records, now: Records, vs: seq<Fr>, first: nat, j: nat)
    requires WellLinked(now) && Ids(now) == AssignIds(Ids(was), vs, first)
    requires Admissible(was.Keys, vs) && IdsBelow(was, first) && j < |vs|
    ensures vs[j] == 0 ==> EntryOk(h, now, 0, ZERO_LEAF, 0)
    ensures vs[j] != 0 ==> vs[j] in now && EntryOk(h, now, vs[j], now[vs[j]], LeafHash(h, now[vs[j]]))
  {
    hide WellLinked, AssignIds;
    LinkedIsDistinct(now);
    OldIdsBelow(was, first);
    SlotOf(h, Ids(was), now, vs, first, j);
    if vs[j] != 0 {
      RecordKey(now, vs[j]);
    }
  }

  lemma OldIdsBelow(r: Records, n: nat)
    requires IdsBelow(r, n)
    ensures forall w :: w in Ids(r) ==> Ids(r)[w] < n
    ensures Ids(r).Keys == r.Keys
  {
  }

  lemma PrefixSlots(was: Records, now: Records, vs: seq<Fr>, i: nat, first: nat)
    requires i <= |vs| && IdsBelow(was, first) && Ids(now) == AssignIds(Ids(was), vs[..i], first)
    requires forall k :: 0 <= k < i ==> FreshAt(was.Keys, vs, k)
    ensures SlotsMatch(now, vs[..i], first)
  {
    forall k | 0 <= k < i
      ensures FreshAt(was.Keys, vs[..i], k)
    {
      assert FreshAt(was.Keys, vs, k);
      assert vs[..i][..k] == vs[..k];
    }
    SlotsOf(was, now, vs[..i], first);
  }

  /** A value is stored exactly when it was before or was met earlier in the batch. */
  lemma StoredOrMet(was: Records, now: Records, vs: seq<Fr>, i: nat, first: nat)
    requires i < |vs| && Ids(now) == AssignIds(Ids(was), vs[..i], first)
    ensures vs[i] != 0 ==> (vs[i] !in now <==> FreshAt(was.Keys, vs, i))
  {
    AssignedKeys(Ids(was), vs[..i], first, vs[i]);
    assert vs[i] in now <==> vs[i] in Ids(now);
  }

  lemma LowIsBelow(r: Records, v: Fr, l: Fr)
    requires IsLow(r, v, l)
    ensures l < v
  {
  }

  /** Storing a pending record moves no record that is in the tree. */
  lemma StoreKeepsPlaces(r: Records, r': Records, v: Fr, index: nat, l: Fr, first: nat)
    requires l in r && v !in r && r' == Stored(r, v, index, l) && index >= first
    ensures l in r' && r'[l] == r[l].(nextIndex := index, nextValue := v)
    ensures forall w :: w in r' && r'[w].id < first ==> w in r && r[w].id == r'[w].id
  {
  }

  /** The leaves below `first` are stored for the new records as they were for the old. */
  lemma StoreKeepsStored(keys: set<nat>, r: Records, r': Records, full: nat, first: nat, l: Fr)
    requires StoredBelow(keys, r, full, first)
    requires forall w :: w in r' && r'[w].id < first ==> w in r && r[w].id == r'[w].id
    ensures StoredBelow(keys, r', full, first)
    ensures TreeKeys(keys, full) && (l in r' && r'[l].id < first ==> SubTreeNode(full, r'[l].id) in keys)
  {
    hide TreeKeys;
  }

  lemma StoreKeepsHolding(h: Hasher, leaves: seq<Fr>, r: Records, r': Records, first: nat, v: Fr, index: nat, l: Fr)
    requires WellLinked(r) && WellLinked(r') && l in r && v !in r && r' == Stored(r, v, index, l) && index >= first
    requires HoldsRecords(h, leaves, r, first)
    ensures r[l].id < first ==> HoldsRecords(h, Splice(leaves, r[l].id, [LeafHash(h, r'[l])]), r', first)
    ensures r[l].id >= first ==> HoldsRecords(h, leaves, r', first)
  {
    hide WellLinked;
    LinkedIsDistinct(r);
    LinkedIsDistinct(r');
    StoreChangesLow(h, leaves, r, first, v, index, l);
  }

  lemma FirstLeafHolds(h: Hasher, leaves: seq<Fr>, n: nat)
    requires leaves == Splice([], 0, [LeafHash(h, ZERO_LEAF)]) && n > 0
    ensures HoldsRecords(h, leaves, map[0 := ZERO_LEAF], n)
  {
    var r: Records := map[0 := ZERO_LEAF];
    HashAtOf(h, r, 0);
    forall k: nat
      ensures RecordLeaf(h, leaves, r, n, k)
    {
    }
  }

  /** After its first leaf the tree holds the zero record. */
  lemma FirstState(h: Hasher, levels: nat, height: nat, t: Nodes, leaves: seq<Fr>, leaf: Fr)
    requires leaf == LeafHash(h, ZERO_LEAF) && leaves == Splice([], Offset(0, height), [leaf])
    requires t == AppendSpec.Step(h, map[], levels + height, 0, Offset(0, height), [leaf]).nodes
    ensures var r: Records, n := map[0 := ZERO_LEAF], Offset(1, height);
            WellLinked(r) && HoldsRecords(h, leaves, r, n) && StoredBelow(t.Keys, r, levels + height, n) && IdsBelow(r, n)
    ensures 0 < Pow2(levels) && Offset(0, height) == 0
  {
    hide NodeVal, AppendSpec.Step;
    OnlyZeroIsLinked();
    FirstLeafHolds(h, leaves, Pow2(height));
    FirstLeafKeys(h, levels + height, leaf);
    assert Offset(1, height) == Pow2(height);
  }

  lemma FirstLeafKeys(h: Hasher, full: nat, leaf: Fr)
    ensures var keys := Step(h, map[], full, 0, 0, [leaf]).nodes.Keys;
            TreeKeys(keys, full) && SubTreeNode(full, 0) in keys
  {
    var i := SubTreeNode(full, 0);
    StepKeys(h, map[], full, 0, 0, [leaf]);
    WriteIsClosed({}, i, full, 1);
    assert {} + WriteKeys(i, full, 1) == WriteKeys(i, full, 1);
    PathStartsAt(i, full);
    forall j | j in WriteKeys(i, full, 1)
      ensures j < Pow2(full + 1) - 1
    {
      WriteInRange(i, full, 0, j);
    }
  }
}
