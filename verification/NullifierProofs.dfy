/**
 What accompanies a sub-tree of nullifiers, and what a verifier makes of it. The verifier sees the
 values, the low record of each, and the records that enter the tree. It keeps the root it has
 reached and the records still pending, and links every new record in itself.
 */
module NullifierProofs {
  import opened Field
  import opened Merkle
  import opened Paths
  import opened LinkedRecords
  import opened IndexedSpec
  import opened MutableTrees

  datatype LowNullifier = LowNullifier(leaf: IndexedLeaf, proof: MembershipProof)

  datatype IMTCircuitInsertionInfo = IMTCircuitInsertionInfo(
    oldRoot: Fr, circuitInfo: CircuitInsertionInfo, firstIndex: nat,
    lowNullifiers: seq<LowNullifier>, pendingInserts: seq<IndexedLeaf>)

  /** Where the verifier stands: the root, and the records of the sub-tree as they are linked by now. */
  datatype Replayed = Replayed(root: Fr, pending: seq<IndexedLeaf>)

  /** The record `low` leaves no room for `v`. */
  predicate Skips(low: IndexedLeaf, v: Fr) {
    low.value < v && (v < low.nextValue || low.nextValue == 0)
  }

  /** The new record takes over the low record's link, and the low record links to it. */
  function NewEntry(low: IndexedLeaf, v: Fr, index: nat): IndexedLeaf {
    IndexedLeaf(v, index, low.nextIndex, low.nextValue)
  }

  function Relinked(low: IndexedLeaf, v: Fr, index: nat): IndexedLeaf {
    low.(nextIndex := index, nextValue := v)
  }

  /** The low record's leaf lies under the root, in the place of its index. */
  ghost predicate LowVerifies(h: Hasher, full: nat, low: LowNullifier, root: Fr) {
    && |low.proof.siblingPath| == full && low.proof.leafIndex == low.leaf.id
    && low.proof.nodeValue == LeafHash(h, low.leaf) && ProofVerifies(h, low.proof, root)
  }

  /**
   One value. Its low record must skip over it. A low record in the tree is proved and its leaf
   rewritten, which gives the next root; a pending one must be the pending record of its slot.
   */
  ghost function ReplayStep(h: Hasher, full: nat, first: nat, at: Replayed, v: Fr, low: LowNullifier): Option<Replayed> {
    var index := first + |at.pending|;
    if v == 0 then Some(Replayed(at.root, at.pending + [ZERO_LEAF]))
    else if !Skips(low.leaf, v) then None
    else if low.leaf.id < first then
      (if LowVerifies(h, full, low, at.root) then
         Some(Replayed(FoldPath(h, LeafHash(h, Relinked(low.leaf, v, index)), low.proof.siblingPath),
                       at.pending + [NewEntry(low.leaf, v, index)]))
       else None)
    else if low.leaf.id < index && at.pending[low.leaf.id - first] == low.leaf then
      Some(Replayed(at.root, at.pending[low.leaf.id - first := Relinked(low.leaf, v, index)] + [NewEntry(low.leaf, v, index)]))
    else None
  }

  /** Where a verifier gets to from `root` by replaying the proofs for `vs`, if they all check. */
  ghost function Replay(h: Hasher, full: nat, first: nat, root: Fr, vs: seq<Fr>, lows: seq<LowNullifier>): Option<Replayed>
    requires |vs| == |lows|
  {
    if vs == [] then Some(Replayed(root, [])) else
    var n := |vs| - 1;
    match Replay(h, full, first, root, vs[..n], lows[..n])
    case None => None
    case Some(mid) => ReplayStep(h, full, first, mid, vs[n], lows[n])
  }

  lemma ReplayPush(h: Hasher, full: nat, first: nat, root: Fr, vs: seq<Fr>, i: nat, lows: seq<LowNullifier>, low: LowNullifier, mid: Replayed)
    requires i < |vs| && |lows| == i && Replay(h, full, first, root, vs[..i], lows) == Some(mid)
    ensures Replay(h, full, first, root, vs[..i + 1], lows + [low]) == ReplayStep(h, full, first, mid, vs[i], low)
  {
    assert vs[..i + 1][..i] == vs[..i];
    assert (lows + [low])[..i] == lows;
  }

  /** A replay leaves one record for each value: the value's own, in the value's slot, or the pad's. */
  lemma {:induction false} ReplayValues(h: Hasher, full: nat, first: nat, root: Fr, vs: seq<Fr>, lows: seq<LowNullifier>)
    requires |vs| == |lows| && Replay(h, full, first, root, vs, lows).Some?
    ensures var pending := Replay(h, full, first, root, vs, lows).value.pending;
            && |pending| == |vs|
            && forall k :: 0 <= k < |vs| ==>
                 && pending[k].value == vs[k]
                 && (vs[k] != 0 ==> pending[k].id == first + k)
                 && (vs[k] == 0 && first > 0 ==> pending[k] == ZERO_LEAF)
  {
    if vs != [] {
      var n := |vs| - 1;
      ReplayValues(h, full, first, root, vs[..n], lows[..n]);
      hide LowVerifies, FoldPath, LeafHash;
      var mid := Replay(h, full, first, root, vs[..n], lows[..n]).value;
      assert Replay(h, full, first, root, vs, lows) == ReplayStep(h, full, first, mid, vs[n], lows[n]);
    }
  }

  /** The leaf of a record that enters the tree; a pad leaves its leaf empty. */
  function EntryLeaf(h: Hasher, entry: IndexedLeaf): Fr {
    if entry.value == 0 then 0 else LeafHash(h, entry)
  }

  /**
   One sub-tree verifies: every low record checks in turn, the records named are those the replay
   leaves pending, and their leaves fill the empty slot.
   */
  ghost predicate NullifiersVerify(h: Hasher, levels: nat, height: nat, vs: seq<Fr>, info: IMTCircuitInsertionInfo) {
    && |info.lowNullifiers| == |info.pendingInserts| == |info.circuitInfo.leaves| == |vs|
    && info.firstIndex == Offset(info.circuitInfo.proof.leafIndex, height)
    && Replay(h, levels + height, info.firstIndex, info.oldRoot, vs, info.lowNullifiers)
       == Some(Replayed(info.circuitInfo.oldRoot, info.pendingInserts))
    && InsertionVerifies(h, levels, height, info.circuitInfo)
    && forall j :: 0 <= j < |vs| ==> info.circuitInfo.leaves[j] == EntryLeaf(h, info.pendingInserts[j])
  }

  /** Consecutive sub-trees of values: each starts from the root the one before it left. */
  ghost predicate NullifierChain(h: Hasher, levels: nat, height: nat, first: Fr, vs: seq<Fr>, infos: seq<IMTCircuitInsertionInfo>, last: Fr)
    decreases |infos|
  {
    if infos == [] then vs == [] && first == last else
    var n := |infos| - 1;
    && |vs| >= Pow2(height)
    && NullifiersVerify(h, levels, height, vs[|vs| - Pow2(height)..], infos[n])
    && infos[n].circuitInfo.newRoot == last
    && NullifierChain(h, levels, height, first, vs[..|vs| - Pow2(height)], infos[..n], infos[n].oldRoot)
  }

  lemma NullifierChainPush(h: Hasher, levels: nat, height: nat, first: Fr, vs: seq<Fr>, infos: seq<IMTCircuitInsertionInfo>,
                           chunk: seq<Fr>, info: IMTCircuitInsertionInfo, last: Fr)
    requires NullifierChain(h, levels, height, first, vs, infos, info.oldRoot)
    requires |chunk| == Pow2(height) && NullifiersVerify(h, levels, height, chunk, info) && info.circuitInfo.newRoot == last
    ensures NullifierChain(h, levels, height, first, vs + chunk, infos + [info], last)
  {
    hide NullifiersVerify;
    assert (vs + chunk)[|vs|..] == chunk && (vs + chunk)[..|vs|] == vs;
    assert (infos + [info])[..|infos|] == infos;
  }

  // ---------------------------------------------------------------- the form of what is emitted

  /** The path that goes with a low record which has none: all siblings zero. */
  function EmptyPath(n: nat): (path: seq<PathElement>)
    ensures |path| == n && forall k :: 0 <= k < n ==> path[k] == PathElement(HashWithThisNodeOnLeft, 0)
  {
    seq(n, _ => PathElement(HashWithThisNodeOnLeft, 0))
  }

  /** All indices named are below `n`. */
  ghost predicate IndicesBelow(low: LowNullifier, n: nat) {
    low.leaf.id < n && low.leaf.nextIndex < n && low.proof.leafIndex < n
  }

  /**
   What goes with the value of slot `first + j`, in all three cases: a pad comes with the zero record, a low record of
   the tree with its place, and a pending one with the new slot and an empty path.
   */
  ghost predicate LowEmitted(h: Hasher, full: nat, first: nat, j: nat, v: Fr, low: LowNullifier) {
    if v == 0 then low == LowNullifier(ZERO_LEAF, MembershipProof(0, EmptyPath(full), 0)) else
    && low.proof.nodeValue == LeafHash(h, low.leaf) && |low.proof.siblingPath| == full
    && IndicesBelow(low, first + j + 1)
    && (low.leaf.id < first ==> low.proof.leafIndex == low.leaf.id)
    && (low.leaf.id >= first ==> low.proof.leafIndex == first + j && low.proof.siblingPath == EmptyPath(full))
  }

  ghost predicate AllLowEmitted(h: Hasher, full: nat, first: nat, vs: seq<Fr>, lows: seq<LowNullifier>)
    requires |lows| <= |vs|
  {
    forall j: nat :: j < |lows| ==> LowEmitted(h, full, first, j, vs[j], lows[j])
  }

  ghost predicate EntriesBelow(entries: seq<IndexedLeaf>, n: nat) {
    forall j :: 0 <= j < |entries| ==> entries[j].id < n && entries[j].nextIndex < n
  }

  /**
   The data of one sub-tree of `width` values have the lengths by which a verifier cuts them up, all indices
   lie below the end of the sub-tree, and each low record is as it should be for the value of its slot.
   */
  ghost predicate Emitted(h: Hasher, full: nat, width: nat, info: IMTCircuitInsertionInfo) {
    && |info.lowNullifiers| == |info.pendingInserts| == |info.circuitInfo.leaves| == width
    && EntriesBelow(info.pendingInserts, info.firstIndex + width)
    && forall j: nat :: j < width ==> LowEmitted(h, full, info.firstIndex, j, info.pendingInserts[j].value, info.lowNullifiers[j])
  }

  /** The three cases for the value of slot `first + j`. */
  lemma LowOfSlot(h: Hasher, full: nat, width: nat, info: IMTCircuitInsertionInfo, j: nat)
    requires Emitted(h, full, width, info) && j < width
    ensures var v, low, first := info.pendingInserts[j].value, info.lowNullifiers[j], info.firstIndex;
            && |low.proof.siblingPath| == full
            && low.leaf.id < first + width && low.leaf.nextIndex < first + width && low.proof.leafIndex < first + width
            && (v == 0 ==> low.leaf == ZERO_LEAF && low.proof.nodeValue == 0 && low.proof.leafIndex == 0)
            && (v != 0 ==> low.proof.nodeValue == LeafHash(h, low.leaf))
            && (v != 0 && low.leaf.id < first ==> low.proof.leafIndex == low.leaf.id)
            && (v != 0 && low.leaf.id >= first ==> low.proof.leafIndex == first + j)
            && (v == 0 || low.leaf.id >= first ==>
                  forall k :: 0 <= k < full ==> low.proof.siblingPath[k] == PathElement(HashWithThisNodeOnLeft, 0))
  {
    assert LowEmitted(h, full, info.firstIndex, j, info.pendingInserts[j].value, info.lowNullifiers[j]);
  }

  lemma SubTreeIsEmitted(h: Hasher, levels: nat, height: nat, vs: seq<Fr>, info: IMTCircuitInsertionInfo)
    requires NullifiersVerify(h, levels, height, vs, info)
    requires AllLowEmitted(h, levels + height, info.firstIndex, vs, info.lowNullifiers)
    requires EntriesBelow(info.pendingInserts, info.firstIndex + |vs|)
    ensures Emitted(h, levels + height, |vs|, info)
  {
    hide Replay, InsertionVerifies, LowEmitted;
    ReplayValues(h, levels + height, info.firstIndex, info.oldRoot, vs, info.lowNullifiers);
  }

  lemma IndicesBounded(r: Records, l: Fr, n: nat)
    requires WellLinked(r) && IdsBelow(r, n) && l in r
    ensures r[l].id < n && r[l].nextIndex < n
  {
    assert LinkOk(r, l);
  }

  // ---------------------------------------------------------------- the pending records of a stored batch

  /** The records of the values `done`, each in the slot of its value, pads as the zero record. */
  function PendingOf(r: Records, done: seq<Fr>): (p: seq<IndexedLeaf>)
    ensures |p| == |done|
  {
    seq(|done|, k requires 0 <= k < |done| => if done[k] != 0 && done[k] in r then r[done[k]] else ZERO_LEAF)
  }

  lemma PendingIsBelow(r: Records, done: seq<Fr>, n: nat)
    requires WellLinked(r) && IdsBelow(r, n)
    ensures EntriesBelow(PendingOf(r, done), n)
  {
    forall k | 0 <= k < |done|
      ensures PendingOf(r, done)[k].id < n && PendingOf(r, done)[k].nextIndex < n
    {
      IndicesBounded(r, 0, n);
      if done[k] in r {
        IndicesBounded(r, done[k], n);
      }
    }
  }

  /** The records from `first` on are those of the values `done`, each at its place. */
  ghost predicate SlotsMatch(r: Records, done: seq<Fr>, first: nat) {
    && (forall k :: 0 <= k < |done| && done[k] != 0 ==> done[k] in r && r[done[k]].id == first + k)
    && forall w :: w in r && r[w].id >= first ==> r[w].id < first + |done| && w != 0 && done[r[w].id - first] == w
  }

  lemma SlotsOf(was: Records, now: Records, done: seq<Fr>, first: nat)
    requires IdsBelow(was, first) && Admissible(was.Keys, done) && Ids(now) == AssignIds(Ids(was), done, first)
    ensures SlotsMatch(now, done, first)
  {
    forall k | 0 <= k < |done| && done[k] != 0
      ensures done[k] in now && now[done[k]].id == first + k
    {
      AssignedAt(Ids(was), done, first, k);
      assert done[k] in Ids(now);
    }
    forall w | w in now && now[w].id >= first
      ensures now[w].id < first + |done| && w != 0 && done[now[w].id - first] == w
    {
      assert Ids(now)[w] == now[w].id;
      var j := AssignedFrom(Ids(was), done, first, w);
    }
  }

  /** Storing one more value above a record of the tree, or above a pending one, is the verifier's step. */
  lemma PendingStep(r: Records, done: seq<Fr>, first: nat, v: Fr, l: Fr)
    requires forall k :: 0 <= k < |done| && done[k] != 0 ==> done[k] in r && r[done[k]].id == first + k
    requires v !in r && v != 0 && l in r && r[l].value == l
    requires r[l].id >= first ==> r[l].id < first + |done| && l != 0 && done[r[l].id - first] == l
    ensures var index, low, pending := first + |done|, r[l], PendingOf(r, done);
            var pending' := PendingOf(Stored(r, v, index, l), done + [v]);
            && (low.id < first ==> pending' == pending + [NewEntry(low, v, index)])
            && (low.id >= first ==>
                  && low.id < index && pending[low.id - first] == low
                  && pending' == pending[low.id - first := Relinked(low, v, index)] + [NewEntry(low, v, index)])
  {
  }

  lemma StoredStep(r: Records, done: seq<Fr>, first: nat, v: Fr, l: Fr)
    requires SlotsMatch(r, done, first) && v !in r && v != 0 && l in r && r[l].value == l
    ensures var index, low, pending := first + |done|, r[l], PendingOf(r, done);
            var pending' := PendingOf(Stored(r, v, index, l), done + [v]);
            && (low.id < first ==> pending' == pending + [NewEntry(low, v, index)])
            && (low.id >= first ==>
                  && low.id < index && pending[low.id - first] == low
                  && pending' == pending[low.id - first := Relinked(low, v, index)] + [NewEntry(low, v, index)])
  {
    hide PendingOf, Stored;
    PendingStep(r, done, first, v, l);
  }

  lemma PendingPad(r: Records, done: seq<Fr>)
    ensures PendingOf(r, done + [0]) == PendingOf(r, done) + [ZERO_LEAF]
  {
  }
}
