/**
 What a verified chain of nullifier insertions proves, whoever made it. If it starts from the root
 of an indexed tree and no two of the values hashed collide, every nonzero value in it is new, and
 it ends at the root of the tree with these values stored.
 */
module NullifierSoundness {
  import opened Field
  import opened Merkle
  import opened Paths
  import opened AppendSpec
  import opened TreeHelpers
  import opened LinkedRecords
  import opened IndexedSpec
  import opened MutableTrees
  import opened NullifierProofs
  import opened HashBinding

  /** The pairs and triples that have been hashed, by the tree and by the verifier. */
  datatype Hashed = Hashed(nodes: Pairs, leaves: set<(Fr, Fr, Fr)>)

  function Triple(rec: IndexedLeaf): (Fr, Fr, Fr) {
    (rec.value, FromInt(rec.nextIndex), rec.nextValue)
  }

  function TripleHash(h: Hasher, p: (Fr, Fr, Fr)): Fr {
    h.leaf(p.0, p.1, p.2)
  }

  /** Among what has been hashed nothing collides, and no leaf looks empty. */
  ghost predicate CollisionFree(h: Hasher, u: Hashed) {
    && h.ZeroPreserving() && (0, 0) in u.nodes && NoCollision(h, u.nodes)
    && (forall p, q :: p in u.leaves && q in u.leaves && TripleHash(h, p) == TripleHash(h, q) ==> p == q)
    && forall p :: p in u.leaves ==> TripleHash(h, p) != 0
  }

  // ---------------------------------------------------------------- what the verifier hashes

  /** For a low record in the tree: its leaf before and after, each carried up the path. */
  ghost predicate StepWithin(h: Hasher, u: Hashed, first: nat, j: nat, v: Fr, low: LowNullifier) {
    v != 0 && low.leaf.id < first ==>
      var linked := Relinked(low.leaf, v, first + j);
      && Triple(low.leaf) in u.leaves && Triple(linked) in u.leaves
      && FoldWithin(h, u.nodes, LeafHash(h, low.leaf), low.proof.siblingPath)
      && FoldWithin(h, u.nodes, LeafHash(h, linked), low.proof.siblingPath)
  }

  ghost predicate StepsWithin(h: Hasher, u: Hashed, first: nat, vs: seq<Fr>, lows: seq<LowNullifier>)
    requires |vs| == |lows|
  {
    forall j :: 0 <= j < |vs| ==> StepWithin(h, u, first, j, vs[j], lows[j])
  }

  /** The links of the low records are given as field elements. */
  ghost predicate FieldLinks(lows: seq<LowNullifier>) {
    forall j :: 0 <= j < |lows| ==> lows[j].leaf.nextIndex < MODULUS
  }

  ghost predicate EntriesWithin(u: Hashed, entries: seq<IndexedLeaf>) {
    forall j :: 0 <= j < |entries| && entries[j].value != 0 ==> Triple(entries[j]) in u.leaves
  }

  /** All that is hashed to verify one sub-tree: its low records, its own leaves and nodes, and the path of its slot. */
  ghost predicate InfoWithin(h: Hasher, u: Hashed, height: nat, vs: seq<Fr>, info: IMTCircuitInsertionInfo) {
    var c := info.circuitInfo;
    && |vs| == |info.lowNullifiers| && StepsWithin(h, u, info.firstIndex, vs, info.lowNullifiers)
    && FieldLinks(info.lowNullifiers)
    && EntriesWithin(u, info.pendingInserts)
    && TreeWithin(h, u.nodes, height, c.leaves)
    && FoldWithin(h, u.nodes, 0, c.proof.siblingPath)
    && FoldWithin(h, u.nodes, TreeRoot(h, height, c.leaves), c.proof.siblingPath)
  }

  ghost predicate ChainWithin(h: Hasher, u: Hashed, height: nat, vs: seq<Fr>, infos: seq<IMTCircuitInsertionInfo>)
    decreases |infos|
  {
    infos == [] || (
      && |vs| >= Pow2(height)
      && InfoWithin(h, u, height, vs[|vs| - Pow2(height)..], infos[|infos| - 1])
      && ChainWithin(h, u, height, vs[..|vs| - Pow2(height)], infos[..|infos| - 1]))
  }

  // ---------------------------------------------------------------- the state of a tree

  ghost predicate LeafIs(h: Hasher, leaves: seq<Fr>, r: Records, k: nat) {
    LeafOrZero(leaves, k) == HashAt(h, r, k)
  }

  ghost predicate RecordWithin(u: Hashed, r: Records, w: Fr)
    requires w in r
  {
    Triple(r[w]) in u.leaves
  }

  /** A tree over the records `r`, all of whose nodes and leaves are among what has been hashed. */
  ghost predicate TreeState(h: Hasher, u: Hashed, full: nat, leaves: seq<Fr>, r: Records) {
    && WellLinked(r) && IdsBelow(r, Pow2(full))
    && |leaves| <= Pow2(full) && TreeWithin(h, u.nodes, full, leaves)
    && (forall k: nat :: LeafIs(h, leaves, r, k))
    && forall w :: w in r ==> RecordWithin(u, r, w)
  }

  // ---------------------------------------------------------------- the leaves a replay goes through

  function StepLeaves(h: Hasher, first: nat, j: nat, leaves: seq<Fr>, v: Fr, low: LowNullifier): seq<Fr> {
    if v != 0 && low.leaf.id < first then Splice(leaves, low.leaf.id, [LeafHash(h, Relinked(low.leaf, v, first + j))]) else leaves
  }

  function ReplayLeaves(h: Hasher, first: nat, leaves: seq<Fr>, vs: seq<Fr>, lows: seq<LowNullifier>): seq<Fr>
    requires |vs| == |lows|
  {
    if vs == [] then leaves else
    var n := |vs| - 1;
    StepLeaves(h, first, n, ReplayLeaves(h, first, leaves, vs[..n], lows[..n]), vs[n], lows[n])
  }

  /** The leaves are bound by the root `root`. */
  ghost predicate Rooted(h: Hasher, u: Hashed, full: nat, leaves: seq<Fr>, root: Fr) {
    && |leaves| <= Pow2(full) && TreeWithin(h, u.nodes, full, leaves)
    && root == TreeRoot(h, full, leaves)
  }

  ghost predicate SameGaps(a: seq<Fr>, b: seq<Fr>) {
    forall k: nat :: LeafOrZero(a, k) == 0 <==> LeafOrZero(b, k) == 0
  }

  /** A low record that verifies is in the tree, and rewriting it neither fills nor empties a leaf. */
  lemma StepBinds(h: Hasher, u: Hashed, full: nat, first: nat, at: Replayed, v: Fr, low: LowNullifier, leaves: seq<Fr>)
    requires CollisionFree(h, u) && Rooted(h, u, full, leaves, at.root)
    requires ReplayStep(h, full, first, at, v, low).Some? && StepWithin(h, u, first, |at.pending|, v, low)
    ensures var leaves' := StepLeaves(h, first, |at.pending|, leaves, v, low);
            && Rooted(h, u, full, leaves', ReplayStep(h, full, first, at, v, low).value.root)
            && SameGaps(leaves, leaves')
    ensures v != 0 && low.leaf.id < first ==> low.leaf.id < Pow2(full) && LeafOrZero(leaves, low.leaf.id) == LeafHash(h, low.leaf)
  {
    hide TreeWithin, NodeVal, FoldPath, FoldWithin, Directed, NoCollision, Pow2;
    if v != 0 && low.leaf.id < first {
      var linked := Relinked(low.leaf, v, first + |at.pending|);
      LeafBinds(h, u.nodes, full, leaves, low.leaf.id, LeafHash(h, low.leaf), LeafHash(h, linked), low.proof.siblingPath);
      assert TripleHash(h, Triple(low.leaf)) != 0 && TripleHash(h, Triple(linked)) != 0;
    }
  }

  lemma StepsPrefix(h: Hasher, u: Hashed, first: nat, vs: seq<Fr>, lows: seq<LowNullifier>, n: nat)
    requires |vs| == |lows| && n <= |vs| && StepsWithin(h, u, first, vs, lows)
    ensures StepsWithin(h, u, first, vs[..n], lows[..n])
  {
    hide StepWithin;
    forall j | 0 <= j < n
      ensures StepWithin(h, u, first, j, vs[..n][j], lows[..n][j])
    {
      assert StepWithin(h, u, first, j, vs[j], lows[j]);
    }
  }

  lemma {:induction false} ReplayBinds(h: Hasher, u: Hashed, full: nat, first: nat, root: Fr, vs: seq<Fr>,
                                       lows: seq<LowNullifier>, leaves: seq<Fr>)
    requires CollisionFree(h, u) && Rooted(h, u, full, leaves, root)
    requires |vs| == |lows| && Replay(h, full, first, root, vs, lows).Some? && StepsWithin(h, u, first, vs, lows)
    ensures var leaves' := ReplayLeaves(h, first, leaves, vs, lows);
            && Rooted(h, u, full, leaves', Replay(h, full, first, root, vs, lows).value.root)
            && SameGaps(leaves, leaves')
  {
    hide CollisionFree, Rooted, StepWithin, ReplayStep, StepLeaves;
    if vs != [] {
      var n := |vs| - 1;
      StepsPrefix(h, u, first, vs, lows, n);
      ReplayBinds(h, u, full, first, root, vs[..n], lows[..n], leaves);
      ReplayValues(h, full, first, root, vs[..n], lows[..n]);
      var mid := Replay(h, full, first, root, vs[..n], lows[..n]).value;
      assert StepWithin(h, u, first, n, vs[n], lows[n]);
      StepBinds(h, u, full, first, mid, vs[n], lows[n], ReplayLeaves(h, first, leaves, vs[..n], lows[..n]));
    }
  }

  // ---------------------------------------------------------------- the records a replay goes through

  /**
   In the middle of a sub-tree with the slots first .. first+n-1: the values `done` have records,
   in their slots, and the leaves outside the slots hold the hashes of all other records.
   */
  ghost predicate MidState(h: Hasher, u: Hashed, full: nat, first: nat, n: nat, leaves: seq<Fr>, r: Records, done: seq<Fr>) {
    && WellLinked(r) && IdsBelow(r, Pow2(full))
    && 0 < first && |done| <= n && first + n <= Pow2(full)
    && DoneSlots(r, first, n, done)
    && OuterLeaves(h, leaves, r, first, n) && OuterWithin(u, r, first, n)
  }

  ghost predicate DoneSlots(r: Records, first: nat, n: nat, done: seq<Fr>) {
    && (forall k :: 0 <= k < |done| && done[k] != 0 ==> done[k] in r && r[done[k]].id == first + k)
    && forall w :: w in r && first <= r[w].id < first + n ==>
         r[w].id < first + |done| && w != 0 && done[r[w].id - first] == w
  }

  lemma LeafIsRecord(h: Hasher, u: Hashed, r: Records, id: nat, low: IndexedLeaf)
    requires CollisionFree(h, u) && WellLinked(r) && IdsBelow(r, MODULUS)
    requires HashAt(h, r, id) == LeafHash(h, low) && Triple(low) in u.leaves && low.nextIndex < MODULUS && low.id == id
    requires forall w :: w in r && r[w].id == id ==> RecordWithin(u, r, w)
    ensures low.value in r && r[low.value] == low
  {
    hide NoCollision;
    assert TripleHash(h, Triple(low)) != 0;
    assert HasId(r, id);
    var w :| w in r && r[w].id == id;
    LinkedIsDistinct(r);
    HashAtOf(h, r, w);
    assert RecordWithin(u, r, w);
    assert TripleHash(h, Triple(r[w])) == TripleHash(h, Triple(low));
    assert Triple(r[w]) == Triple(low);
    assert LinkOk(r, w);
    LinkTarget(r, w);
    hide CollisionFree, WellLinked, HashAt;
    SmallIndex(r[w].nextIndex, low.nextIndex);
  }

  lemma SmallIndex(a: nat, b: nat)
    requires a < MODULUS && b < MODULUS && FromInt(a) == FromInt(b)
    ensures a == b
  {
  }

  /** A stored record that skips over a value is the low record of that value, which is not stored. */
  lemma SkippedIsAbsent(r: Records, l: Fr, v: Fr)
    requires WellLinked(r) && l in r && Skips(r[l], v)
    ensures v !in r && IsLow(r, v, l)
  {
    assert LinkOk(r, l);
    LinkSkips(r.Keys, l, r[l].nextValue, v);
  }

  lemma LinkSkips(keys: set<Fr>, l: Fr, next: Fr, v: Fr)
    requires l in keys && IsNext(keys, l, next) && l < v && (v < next || next == 0)
    ensures v !in keys && forall k :: k in keys && k < v ==> k <= l
  {
  }

  /** The low record that verifies is the one the records hold. */
  lemma LowIsStored(h: Hasher, u: Hashed, full: nat, first: nat, n: nat, leaves: seq<Fr>, r: Records, done: seq<Fr>,
                    v: Fr, low: LowNullifier)
    requires CollisionFree(h, u) && Pow2(full) <= MODULUS && MidState(h, u, full, first, n, leaves, r, done) && |done| < n
    requires v != 0 && low.leaf.nextIndex < MODULUS && StepWithin(h, u, first, |done|, v, low)
    requires low.leaf.id < first ==> LeafOrZero(leaves, low.leaf.id) == LeafHash(h, low.leaf)
    requires low.leaf.id >= first ==> low.leaf.id < first + |done| && PendingOf(r, done)[low.leaf.id - first] == low.leaf
    ensures var l := low.leaf.value;
            && l in r && r[l] == low.leaf
            && (low.leaf.id >= first ==> l != 0 && done[low.leaf.id - first] == l)
  {
    var id := low.leaf.id;
    MidParts(h, u, full, first, n, leaves, r, done);
    hide MidState, CollisionFree, WellLinked, HashAt, LeafHash, FoldWithin;
    if id < first {
      assert LeafIs(h, leaves, r, id);
      SmallerIds(r, Pow2(full), MODULUS);
      hide LeafIs, IdsBelow, Pow2, DoneSlots, Triple;
      LeafIsRecord(h, u, r, id, low.leaf);
    } else {
      PendingIsRecord(r, first, n, done, low.leaf);
    }
  }

  lemma SmallerIds(r: Records, n: nat, m: nat)
    requires IdsBelow(r, n) && n <= m
    ensures IdsBelow(r, m)
  {
  }

  /** What is pending in a slot is the record of the slot's value; the slot of a pad has an index no record names. */
  lemma PendingIsRecord(r: Records, first: nat, n: nat, done: seq<Fr>, low: IndexedLeaf)
    requires WellLinked(r) && DoneSlots(r, first, n, done) && 0 < first
    requires first <= low.id < first + |done| && PendingOf(r, done)[low.id - first] == low
    ensures low.value in r && r[low.value] == low && low.value != 0 && done[low.id - first] == low.value
  {
    hide WellLinked;
    var w := done[low.id - first];
    assert w != 0 && w in r;
    RecordKey(r, w);
  }

  /** The leaves outside the slots. */
  ghost predicate OuterLeaves(h: Hasher, leaves: seq<Fr>, r: Records, first: nat, n: nat) {
    forall k: nat :: !(first <= k < first + n) ==> LeafIs(h, leaves, r, k)
  }

  ghost predicate OuterWithin(u: Hashed, r: Records, first: nat, n: nat) {
    forall w :: w in r && !(first <= r[w].id < first + n) ==> RecordWithin(u, r, w)
  }

  /** The leaf of the record `l` is rewritten, if it lies outside the slots. */
  ghost function LinkedLeaves(h: Hasher, leaves: seq<Fr>, r: Records, first: nat, n: nat, l: Fr, linked: IndexedLeaf): seq<Fr>
    requires l in r
  {
    if first <= r[l].id < first + n then leaves else Splice(leaves, r[l].id, [LeafHash(h, linked)])
  }

  lemma StoredRecords(full: nat, first: nat, n: nat, r: Records, done: seq<Fr>, v: Fr, l: Fr, index: nat)
    requires WellLinked(r) && IdsBelow(r, Pow2(full)) && DoneSlots(r, first, n, done)
    requires |done| < n && index == first + |done| && first + n <= Pow2(full)
    requires v != 0 && v !in r && l in r && IsLow(r, v, l)
    ensures WellLinked(Stored(r, v, index, l)) && Ids(Stored(r, v, index, l)) == Ids(r)[v := index]
    ensures IdsBelow(Stored(r, v, index, l), Pow2(full))
    ensures DoneSlots(Stored(r, v, index, l), first, n, done + [v])
  {
    hide WellLinked, IdsBelow, Ids, Stored, IsLow, Pow2, DistinctIds, LinkOk;
    FreeSlot(r, first, n, done);
    StoredIsLinked(r, v, index, l);
    StoredSlots(r, first, n, done, v, l);
    StoredIdsBelow(r, full, v, index, l);
    hide *;
  }

  lemma StoredOuter(h: Hasher, u: Hashed, first: nat, n: nat, leaves: seq<Fr>, r: Records, v: Fr, l: Fr, index: nat)
    requires WellLinked(r) && v !in r && l in r && WellLinked(Stored(r, v, index, l))
    requires OuterLeaves(h, leaves, r, first, n) && OuterWithin(u, r, first, n) && first <= index < first + n
    requires Triple(Relinked(r[l], v, index)) in u.leaves || first <= r[l].id < first + n
    ensures OuterLeaves(h, LinkedLeaves(h, leaves, r, first, n, l, Relinked(r[l], v, index)), Stored(r, v, index, l), first, n)
    ensures OuterWithin(u, Stored(r, v, index, l), first, n)
  {
    LinkedIsDistinct(r);
    LinkedIsDistinct(Stored(r, v, index, l));
    StoredLeaves(h, leaves, r, first, n, v, index, l);
    StoredTriples(u, r, first, n, v, index, l);
    hide *;
  }

  lemma StoredState(h: Hasher, u: Hashed, full: nat, first: nat, n: nat, leaves: seq<Fr>, r: Records, done: seq<Fr>,
                    v: Fr, l: Fr, index: nat, r': Records, leaves': seq<Fr>)
    requires MidState(h, u, full, first, n, leaves, r, done) && |done| < n && index == first + |done|
    requires v != 0 && v !in r && l in r && IsLow(r, v, l)
    requires Triple(Relinked(r[l], v, index)) in u.leaves || first <= r[l].id < first + n
    requires r' == Stored(r, v, index, l)
    requires leaves' == LinkedLeaves(h, leaves, r, first, n, l, Relinked(r[l], v, index))
    ensures MidState(h, u, full, first, n, leaves', r', done + [v]) && Ids(r') == Ids(r)[v := index]
  {
    hide *;
    MidParts(h, u, full, first, n, leaves, r, done);
    StoredRecords(full, first, n, r, done, v, l, index);
    StoredOuter(h, u, first, n, leaves, r, v, l, index);
    MidParts(h, u, full, first, n, leaves', r', done + [v]);
  }

  lemma MidParts(h: Hasher, u: Hashed, full: nat, first: nat, n: nat, leaves: seq<Fr>, r: Records, done: seq<Fr>)
    ensures MidState(h, u, full, first, n, leaves, r, done) <==>
              && WellLinked(r) && IdsBelow(r, Pow2(full))
              && 0 < first && |done| <= n && first + n <= Pow2(full)
              && DoneSlots(r, first, n, done)
              && OuterLeaves(h, leaves, r, first, n) && OuterWithin(u, r, first, n)
  {
    hide WellLinked, IdsBelow, DoneSlots, OuterLeaves, OuterWithin;
  }

  lemma StoredIdsBelow(r: Records, full: nat, v: Fr, index: nat, l: Fr)
    requires IdsBelow(r, Pow2(full)) && index < Pow2(full) && v !in r && l in r
    ensures IdsBelow(Stored(r, v, index, l), Pow2(full))
  {
  }

  lemma StoredLeaves(h: Hasher, leaves: seq<Fr>, r: Records, first: nat, n: nat, v: Fr, index: nat, l: Fr)
    requires v !in r && l in r && first <= index < first + n && OuterLeaves(h, leaves, r, first, n)
    requires DistinctIds(r) && DistinctIds(Stored(r, v, index, l))
    ensures OuterLeaves(h, LinkedLeaves(h, leaves, r, first, n, l, Relinked(r[l], v, index)), Stored(r, v, index, l), first, n)
  {
    var r' := Stored(r, v, index, l);
    assert r'[l] == Relinked(r[l], v, index);
    var leaves' := LinkedLeaves(h, leaves, r, first, n, l, r'[l]);
    hide DistinctIds, HashAt, Stored, LeafHash;
    forall k: nat | !(first <= k < first + n)
      ensures LeafIs(h, leaves', r', k)
    {
      assert LeafIs(h, leaves, r, k);
      StoreKeepsHash(h, r, v, index, l, k);
    }
  }

  lemma StoredTriples(u: Hashed, r: Records, first: nat, n: nat, v: Fr, index: nat, l: Fr)
    requires v !in r && l in r && first <= index < first + n && OuterWithin(u, r, first, n)
    requires Triple(Relinked(r[l], v, index)) in u.leaves || first <= r[l].id < first + n
    ensures OuterWithin(u, Stored(r, v, index, l), first, n)
  {
    var r' := Stored(r, v, index, l);
    forall w | w in r' && !(first <= r'[w].id < first + n)
      ensures RecordWithin(u, r', w)
    {
      if w != l {
        assert RecordWithin(u, r, w);
      }
    }
  }

  lemma FreeSlot(r: Records, first: nat, n: nat, done: seq<Fr>)
    requires DoneSlots(r, first, n, done) && |done| < n
    ensures forall w :: w in r ==> r[w].id != first + |done|
  {
  }

  lemma StoredSlots(r: Records, first: nat, n: nat, done: seq<Fr>, v: Fr, l: Fr)
    requires DoneSlots(r, first, n, done) && |done| < n && v != 0 && v !in r && l in r
    ensures DoneSlots(Stored(r, v, first + |done|, l), first, n, done + [v])
  {
  }

  lemma PaddedSlots(h: Hasher, u: Hashed, full: nat, first: nat, n: nat, leaves: seq<Fr>, r: Records, done: seq<Fr>)
    requires MidState(h, u, full, first, n, leaves, r, done) && |done| < n
    ensures MidState(h, u, full, first, n, leaves, r, done + [0])
  {
    hide WellLinked, LeafIs, RecordWithin;
  }

  /** One verified step stores one value, which was not stored. */
  lemma StepStores(h: Hasher, u: Hashed, full: nat, first: nat, n: nat, at: Replayed, v: Fr, low: LowNullifier,
                   leaves: seq<Fr>, r: Records, done: seq<Fr>) returns (r': Records)
    requires CollisionFree(h, u) && Pow2(full) <= MODULUS && Rooted(h, u, full, leaves, at.root)
    requires MidState(h, u, full, first, n, leaves, r, done) && |done| < n && at.pending == PendingOf(r, done)
    requires ReplayStep(h, full, first, at, v, low).Some?
    requires StepWithin(h, u, first, |done|, v, low) && low.leaf.nextIndex < MODULUS
    ensures v != 0 ==> v !in r
    ensures Ids(r') == if v == 0 then Ids(r) else Ids(r)[v := first + |done|]
    ensures MidState(h, u, full, first, n, StepLeaves(h, first, |done|, leaves, v, low), r', done + [v])
    ensures ReplayStep(h, full, first, at, v, low).value.pending == PendingOf(r', done + [v])
  {
    hide CollisionFree, Rooted, WellLinked, PendingOf, Ids, FoldPath, LowVerifies, IsLow, HashAt, FoldWithin;
    if v == 0 {
      r' := r;
      PendingPad(r, done);
      PaddedSlots(h, u, full, first, n, leaves, r, done);
    } else {
      var l, index := low.leaf.value, first + |done|;
      StepBinds(h, u, full, first, at, v, low, leaves);
      LowIsStored(h, u, full, first, n, leaves, r, done, v, low);
      SkippedIsAbsent(r, l, v);
      r' := Stored(r, v, index, l);
      PendingStep(r, done, first, v, l);
      StoredState(h, u, full, first, n, leaves, r, done, v, l, index, r', StepLeaves(h, first, |done|, leaves, v, low));
    }
  }

  /** A verified replay stores all its values in turn: each is new when its turn comes. */
  lemma {:induction false} ReplayStores(h: Hasher, u: Hashed, full: nat, first: nat, n: nat, root: Fr, vs: seq<Fr>,
                                        lows: seq<LowNullifier>, leaves: seq<Fr>, r: Records) returns (r': Records)
    requires CollisionFree(h, u) && Pow2(full) <= MODULUS && Rooted(h, u, full, leaves, root)
    requires MidState(h, u, full, first, n, leaves, r, []) && |vs| <= n
    requires |vs| == |lows| && Replay(h, full, first, root, vs, lows).Some?
    requires StepsWithin(h, u, first, vs, lows) && FieldLinks(lows)
    ensures Admissible(r.Keys, vs) && Ids(r') == AssignIds(Ids(r), vs, first)
    ensures MidState(h, u, full, first, n, ReplayLeaves(h, first, leaves, vs, lows), r', vs)
    ensures Replay(h, full, first, root, vs, lows).value.pending == PendingOf(r', vs)
  {
    hide CollisionFree, Rooted, MidState, ReplayStep, StepLeaves, StepWithin, PendingOf, Ids;
    if vs == [] {
      r' := r;
      assert PendingOf(r, []) == [];
    } else {
      var k := |vs| - 1;
      var init := vs[..k];
      StepsPrefix(h, u, first, vs, lows, k);
      var mid := ReplayStores(h, u, full, first, n, root, init, lows[..k], leaves, r);
      ReplayBinds(h, u, full, first, root, init, lows[..k], leaves);
      assert StepWithin(h, u, first, k, vs[k], lows[k]);
      r' := StepStores(h, u, full, first, n, Replay(h, full, first, root, init, lows[..k]).value, vs[k], lows[k],
                       ReplayLeaves(h, first, leaves, init, lows[..k]), mid, init);
      assert init + [vs[k]] == vs;
      NewIsFresh(r, mid, vs, first);
    }
  }

  lemma NewIsFresh(r: Records, mid: Records, vs: seq<Fr>, first: nat)
    requires vs != [] && Admissible(r.Keys, vs[..|vs| - 1]) && Ids(mid) == AssignIds(Ids(r), vs[..|vs| - 1], first)
    requires vs[|vs| - 1] != 0 ==> vs[|vs| - 1] !in mid
    ensures Admissible(r.Keys, vs)
  {
    var k := |vs| - 1;
    AssignedKeys(Ids(r), vs[..k], first, vs[k]);
    assert vs[k] in Ids(mid) <==> vs[k] in mid;
    forall i | 0 <= i < |vs|
      ensures FreshAt(r.Keys, vs, i)
    {
      if i < k {
        assert FreshAt(r.Keys, vs[..k], i);
        assert vs[..k][..i] == vs[..i];
      }
    }
  }

  // ---------------------------------------------------------------- whole sub-trees

  /** Every record has a leaf that is not empty. */
  lemma EmptyLeafHasNoRecord(h: Hasher, u: Hashed, full: nat, leaves: seq<Fr>, r: Records, w: Fr)
    requires CollisionFree(h, u) && TreeState(h, u, full, leaves, r) && w in r
    ensures LeafOrZero(leaves, r[w].id) != 0
  {
    LinkedIsDistinct(r);
    assert RecordWithin(u, r, w) && LeafIs(h, leaves, r, r[w].id);
    hide NoCollision, WellLinked, TreeWithin, DistinctIds, HashAt;
    HashAtOf(h, r, w);
    assert TripleHash(h, Triple(r[w])) != 0;
  }

  /** Before a sub-tree whose slots are empty nothing is done yet. */
  lemma EmptySlotsStart(h: Hasher, u: Hashed, full: nat, first: nat, n: nat, leaves: seq<Fr>, r: Records)
    requires CollisionFree(h, u) && TreeState(h, u, full, leaves, r) && 0 < n && first + n <= Pow2(full)
    requires forall k: nat :: first <= k < first + n ==> LeafOrZero(leaves, k) == 0
    ensures MidState(h, u, full, first, n, leaves, r, [])
  {
    forall w | w in r
      ensures !(first <= r[w].id < first + n)
    {
      EmptyLeafHasNoRecord(h, u, full, leaves, r, w);
    }
    assert 0 in r && r[0].id == 0;
    StateParts(h, u, full, leaves, r, first, n);
    assert DoneSlots(r, first, n, []);
    MidParts(h, u, full, first, n, leaves, r, []);
    hide *;
  }

  lemma StateParts(h: Hasher, u: Hashed, full: nat, leaves: seq<Fr>, r: Records, first: nat, n: nat)
    requires TreeState(h, u, full, leaves, r)
    ensures WellLinked(r) && IdsBelow(r, Pow2(full)) && OuterLeaves(h, leaves, r, first, n) && OuterWithin(u, r, first, n)
  {
    hide WellLinked, IdsBelow, LeafIs, RecordWithin, TreeWithin;
  }

  lemma DoneSlot(r: Records, first: nat, n: nat, vs: seq<Fr>, j: nat)
    requires DoneSlots(r, first, n, vs) && |vs| == n && j < n
    ensures vs[j] != 0 ==> vs[j] in r && r[vs[j]].id == first + j && PendingOf(r, vs)[j] == r[vs[j]]
    ensures vs[j] == 0 ==> PendingOf(r, vs)[j] == ZERO_LEAF && !HasId(r, first + j)
  {
  }

  /** Slot `first + j` holds the record of its value, or stays empty for a pad. */
  lemma SlotLeaf(h: Hasher, r: Records, first: nat, n: nat, vs: seq<Fr>, j: nat)
    requires WellLinked(r) && DoneSlots(r, first, n, vs) && |vs| == n && j < n
    ensures HashAt(h, r, first + j) == EntryLeaf(h, PendingOf(r, vs)[j])
  {
    hide WellLinked, DistinctIds, DoneSlots, PendingOf, LeafHash;
    LinkedIsDistinct(r);
    DoneSlot(r, first, n, vs, j);
    if vs[j] != 0 {
      RecordKey(r, vs[j]);
      HashAtOf(h, r, vs[j]);
      hide HasId, HashAt;
    }
  }

  lemma FilledState(h: Hasher, u: Hashed, full: nat, first: nat, n: nat, leaves: seq<Fr>, r: Records, vs: seq<Fr>, chunk: seq<Fr>)
    requires MidState(h, u, full, first, n, leaves, r, vs) && |vs| == |chunk| == n
    requires forall j :: 0 <= j < n ==> chunk[j] == EntryLeaf(h, PendingOf(r, vs)[j])
    requires EntriesWithin(u, PendingOf(r, vs))
    requires |Splice(leaves, first, chunk)| <= Pow2(full) && TreeWithin(h, u.nodes, full, Splice(leaves, first, chunk))
    ensures TreeState(h, u, full, Splice(leaves, first, chunk), r)
  {
    hide WellLinked, TreeWithin, EntryLeaf, Triple, HashAt, Pow2;
    var leaves' := Splice(leaves, first, chunk);
    forall k: nat
      ensures LeafIs(h, leaves', r, k)
    {
      if first <= k < first + n {
        SlotLeaf(h, r, first, n, vs, k - first);
      } else {
        assert LeafIs(h, leaves, r, k);
      }
    }
    forall w | w in r
      ensures RecordWithin(u, r, w)
    {
      if first <= r[w].id < first + n {
        var j := r[w].id - first;
        RecordKey(r, w);
        assert PendingOf(r, vs)[j] == r[w];
      }
    }
  }

  /** What the proofs of a sub-tree bind: the leaves before it, those with its low records relinked, and those with it filled in. */
  lemma SubTreeBinds(h: Hasher, u: Hashed, levels: nat, height: nat, vs: seq<Fr>, info: IMTCircuitInsertionInfo, leaves: seq<Fr>)
    requires CollisionFree(h, u) && Rooted(h, u, levels + height, leaves, info.oldRoot)
    requires |vs| == Pow2(height) && NullifiersVerify(h, levels, height, vs, info) && InfoWithin(h, u, height, vs, info)
    ensures var first := info.firstIndex;
            var mid := ReplayLeaves(h, first, leaves, vs, info.lowNullifiers);
            && first + |vs| <= Pow2(levels + height)
            && (forall k: nat :: first <= k < first + |vs| ==> LeafOrZero(leaves, k) == 0)
            && Rooted(h, u, levels + height, Splice(mid, first, info.circuitInfo.leaves), info.circuitInfo.newRoot)
  {
    var full, first, c, lows := levels + height, info.firstIndex, info.circuitInfo, info.lowNullifiers;
    assert ProofVerifies(h, c.proof, c.oldRoot);
    hide Replay, ReplayLeaves, StepsWithin, TreeWithin, FoldPath, FoldWithin, CollisionFree, Directed, Splice, TreeRoot;
    var mid := ReplayLeaves(h, first, leaves, vs, lows);
    ReplayBinds(h, u, full, first, info.oldRoot, vs, lows, leaves);
    SlotOfMid(h, u, levels, height, mid, c);
    LeafInTree(levels, height, c.proof.leafIndex, Pow2(height) - 1);
    SameGapsAt(leaves, mid, first, |vs|);
    hide *;
  }

  lemma SameGapsAt(a: seq<Fr>, b: seq<Fr>, first: nat, n: nat)
    requires SameGaps(a, b) && forall k: nat :: first <= k < first + n ==> LeafOrZero(b, k) == 0
    ensures forall k: nat :: first <= k < first + n ==> LeafOrZero(a, k) == 0
  {
  }

  lemma SlotOfMid(h: Hasher, u: Hashed, levels: nat, height: nat, mid: seq<Fr>, c: CircuitInsertionInfo)
    requires CollisionFree(h, u) && Rooted(h, u, levels + height, mid, c.oldRoot)
    requires InsertionVerifies(h, levels, height, c) && |c.leaves| == Pow2(height)
    requires TreeWithin(h, u.nodes, height, c.leaves) && FoldWithin(h, u.nodes, 0, c.proof.siblingPath)
    requires FoldWithin(h, u.nodes, TreeRoot(h, height, c.leaves), c.proof.siblingPath)
    ensures var first := Offset(c.proof.leafIndex, height);
            && (forall k: nat :: first <= k < first + Pow2(height) ==> LeafOrZero(mid, k) == 0)
            && Rooted(h, u, levels + height, Splice(mid, first, c.leaves), c.newRoot)
  {
    hide TreeWithin, FoldPath, FoldWithin, Directed, Splice, TreeRoot, NoCollision, TripleHash;
    SlotBinds(h, u.nodes, levels, height, mid, c.proof.leafIndex, c.leaves, c.proof.siblingPath);
  }

  /** A sub-tree that verifies stores new values only, and leads to the root of the tree with them. */
  lemma SubTreeStores(h: Hasher, u: Hashed, levels: nat, height: nat, vs: seq<Fr>, info: IMTCircuitInsertionInfo,
                      leaves: seq<Fr>, r: Records) returns (leaves': seq<Fr>, r': Records)
    requires CollisionFree(h, u) && Pow2(levels + height) <= MODULUS
    requires TreeState(h, u, levels + height, leaves, r) && info.oldRoot == TreeRoot(h, levels + height, leaves)
    requires |vs| == Pow2(height) && NullifiersVerify(h, levels, height, vs, info) && InfoWithin(h, u, height, vs, info)
    ensures Admissible(r.Keys, vs) && Ids(r') == AssignIds(Ids(r), vs, info.firstIndex)
    ensures TreeState(h, u, levels + height, leaves', r') && info.circuitInfo.newRoot == TreeRoot(h, levels + height, leaves')
  {
    var full, first, c, lows := levels + height, info.firstIndex, info.circuitInfo, info.lowNullifiers;
    hide CollisionFree, StepsWithin, FieldLinks, EntriesWithin, Replay, MidState, Admissible, WellLinked, IdsBelow,
         AssignIds, TreeWithin, ReplayLeaves, EntryLeaf, PendingOf, Ids, FoldPath, FoldWithin, InsertionVerifies,
         TreeRoot, Splice, Offset, Pow2, LeafIs, RecordWithin;
    SubTreeBinds(h, u, levels, height, vs, info, leaves);
    leaves' := Splice(ReplayLeaves(h, first, leaves, vs, lows), first, c.leaves);
    EmptySlotsStart(h, u, full, first, |vs|, leaves, r);
    r' := ReplayStores(h, u, full, first, |vs|, info.oldRoot, vs, lows, leaves, r);
    FilledState(h, u, full, first, |vs|, ReplayLeaves(h, first, leaves, vs, lows), r', vs, c.leaves);
  }

  // ---------------------------------------------------------------- chains

  /** The indices after a chain of sub-trees, each filling the slots it names. */
  ghost function ChainIds(ids: map<Fr, nat>, vs: seq<Fr>, infos: seq<IMTCircuitInsertionInfo>, height: nat): map<Fr, nat>
    requires |vs| == Offset(|infos|, height)
    decreases |infos|
  {
    if infos == [] then ids else
    var k := |vs| - Pow2(height);
    AssignIds(ChainIds(ids, vs[..k], infos[..|infos| - 1], height), vs[k..], infos[|infos| - 1].firstIndex)
  }

  lemma ChainIdsStep(ids: map<Fr, nat>, vs: seq<Fr>, infos: seq<IMTCircuitInsertionInfo>, height: nat)
    requires |vs| == Offset(|infos|, height) && infos != []
    ensures var n, k := |infos| - 1, |vs| - Pow2(height);
            && k == Offset(n, height) && vs[..k] + vs[k..] == vs
            && ChainIds(ids, vs, infos, height)
               == AssignIds(ChainIds(ids, vs[..k], infos[..n], height), vs[k..], infos[n].firstIndex)
  {
  }

  lemma ConsecutiveStep(ids: map<Fr, nat>, vs: seq<Fr>, k: nat, info: IMTCircuitInsertionInfo, first: nat)
    requires k <= |vs| && info.firstIndex == first + k
    ensures AssignIds(AssignIds(ids, vs[..k], first), vs[k..], info.firstIndex) == AssignIds(ids, vs, first)
  {
    AssignSplit(ids, vs[..k], vs[k..], first);
    assert vs[..k] + vs[k..] == vs;
  }

  /** Filling the slots in turn is what storing the whole batch at once does. */
  lemma {:induction false} ConsecutiveIds(ids: map<Fr, nat>, vs: seq<Fr>, infos: seq<IMTCircuitInsertionInfo>, height: nat, first: nat)
    requires |vs| == Offset(|infos|, height)
    requires forall i :: 0 <= i < |infos| ==> infos[i].firstIndex == first + Offset(i, height)
    ensures ChainIds(ids, vs, infos, height) == AssignIds(ids, vs, first)
    decreases |infos|
  {
    if infos != [] {
      var n, k := |infos| - 1, |vs| - Pow2(height);
      ChainIdsStep(ids, vs, infos, height);
      assert infos[n].firstIndex == first + Offset(n, height);
      ConsecutiveIds(ids, vs[..k], infos[..n], height, first);
      ConsecutiveStep(ids, vs, k, infos[n], first);
      hide *;
    }
  }

  /**
   Soundness: if a chain verifies from the root of an indexed tree, no nullifier in it was in the
   tree or occurs twice, and its last root is that of the tree with all of them stored.
   */
  lemma {:induction false} ChainStores(h: Hasher, u: Hashed, levels: nat, height: nat, first: Fr, vs: seq<Fr>,
                                       infos: seq<IMTCircuitInsertionInfo>, last: Fr, leaves: seq<Fr>, r: Records)
    returns (leaves': seq<Fr>, r': Records)
    requires CollisionFree(h, u) && Pow2(levels + height) <= MODULUS
    requires TreeState(h, u, levels + height, leaves, r) && first == TreeRoot(h, levels + height, leaves)
    requires NullifierChain(h, levels, height, first, vs, infos, last) && ChainWithin(h, u, height, vs, infos)
    ensures Admissible(r.Keys, vs)
    ensures |vs| == Offset(|infos|, height) && Ids(r') == ChainIds(Ids(r), vs, infos, height)
    ensures TreeState(h, u, levels + height, leaves', r') && last == TreeRoot(h, levels + height, leaves')
    decreases |infos|
  {
    hide CollisionFree, TreeState, InfoWithin, NullifiersVerify, Admissible, AssignIds, TreeRoot, Ids, Pow2;
    if infos == [] {
      leaves', r' := leaves, r;
      NothingIsAdmissible(r.Keys);
    } else {
      var n, k := |infos| - 1, |vs| - Pow2(height);
      var info := infos[n];
      var leaves1, r1 := ChainStores(h, u, levels, height, first, vs[..k], infos[..n], info.oldRoot, leaves, r);
      leaves', r' := SubTreeStores(h, u, levels, height, vs[k..], info, leaves1, r1);
      ChainIsAdmissible(r, r1, vs[..k], vs[k..], infos[..n], height);
      assert vs[..k] + vs[k..] == vs;
    }
  }

  /** The values with an index after a chain had one before it or occur in it. */
  lemma {:induction false} ChainKeys(ids: map<Fr, nat>, vs: seq<Fr>, infos: seq<IMTCircuitInsertionInfo>, height: nat, v: Fr)
    requires |vs| == Offset(|infos|, height)
    ensures v in ChainIds(ids, vs, infos, height) <==> v in ids || (v != 0 && v in vs)
    decreases |infos|
  {
    if infos != [] {
      var k := |vs| - Pow2(height);
      ChainKeys(ids, vs[..k], infos[..|infos| - 1], height, v);
      AssignedKeys(ChainIds(ids, vs[..k], infos[..|infos| - 1], height), vs[k..], infos[|infos| - 1].firstIndex, v);
      assert vs[..k] + vs[k..] == vs;
    }
  }

  lemma ChainIsAdmissible(r: Records, r1: Records, a: seq<Fr>, b: seq<Fr>, infos: seq<IMTCircuitInsertionInfo>, height: nat)
    requires |a| == Offset(|infos|, height) && Ids(r1) == ChainIds(Ids(r), a, infos, height)
    requires Admissible(r.Keys, a) && Admissible(r1.Keys, b)
    ensures Admissible(r.Keys, a + b)
  {
    hide ChainIds;
    forall i | 0 <= i < |a + b|
      ensures FreshAt(r.Keys, a + b, i)
    {
      if i < |a| {
        assert FreshAt(r.Keys, a, i);
        assert (a + b)[..i] == a[..i];
      } else {
        var j := i - |a|;
        assert FreshAt(r1.Keys, b, j);
        ChainKeys(Ids(r), a, infos, height, b[j]);
        assert b[j] in r1 <==> b[j] in Ids(r1);
        assert (a + b)[..i] == a + b[..j];
      }
    }
  }

  /** An indexed tree as its owner keeps it is such a state, if what it has hashed is counted in. */
  lemma HeldIsState(h: Hasher, u: Hashed, full: nat, leaves: seq<Fr>, r: Records, n: nat)
    requires WellLinked(r) && HoldsRecords(h, leaves, r, n) && IdsBelow(r, n) && n <= Pow2(full)
    requires |leaves| <= Pow2(full) && TreeWithin(h, u.nodes, full, leaves) && forall w :: w in r ==> RecordWithin(u, r, w)
    ensures TreeState(h, u, full, leaves, r)
  {
    hide WellLinked, TreeWithin, RecordWithin, HoldsRecords, LeafIs;
    HeldLeaves(h, leaves, r, n);
    assert IdsBelow(r, Pow2(full));
  }

  /** Two trees over the same records have the same root. */
  lemma SameRecordsSameRoot(h: Hasher, full: nat, a: seq<Fr>, b: seq<Fr>, r: Records)
    requires (forall k: nat :: LeafIs(h, a, r, k)) && forall k: nat :: LeafIs(h, b, r, k)
    ensures TreeRoot(h, full, a) == TreeRoot(h, full, b)
  {
    forall k: nat
      ensures LeafOrZero(a, k) == LeafOrZero(b, k)
    {
      assert LeafIs(h, a, r, k) && LeafIs(h, b, r, k);
    }
    Pow2Monotone(1, full + 1);
    NodeValExtensional(h, full, a, b, 0);
  }

  /**
   Whatever a prover supplies for the next slots, a chain that verifies ends at the very root that
   a node computes which stores the same values in its own tree.
   */
  lemma OnlyOneRoot(h: Hasher, u: Hashed, levels: nat, height: nat, first: Fr, vs: seq<Fr>, infos: seq<IMTCircuitInsertionInfo>,
                    last: Fr, leaves: seq<Fr>, r: Records, slot: nat, now: Records, nowLeaves: seq<Fr>, n: nat)
    requires CollisionFree(h, u) && Pow2(levels + height) <= MODULUS
    requires TreeState(h, u, levels + height, leaves, r) && first == TreeRoot(h, levels + height, leaves)
    requires NullifierChain(h, levels, height, first, vs, infos, last) && ChainWithin(h, u, height, vs, infos)
    requires forall i :: 0 <= i < |infos| ==> infos[i].firstIndex == slot + Offset(i, height)
    requires WellLinked(now) && Ids(now) == AssignIds(Ids(r), vs, slot)
    requires HoldsRecords(h, nowLeaves, now, n) && IdsBelow(now, n)
    ensures Admissible(r.Keys, vs) && last == TreeRoot(h, levels + height, nowLeaves)
  {
    hide CollisionFree, WellLinked, NullifierChain, ChainWithin, Admissible, AssignIds, TreeRoot, Ids, LeafIs, RecordWithin,
         TreeWithin, IdsBelow, Offset, HoldsRecords, ChainIds;
    var leaves', r' := ChainStores(h, u, levels, height, first, vs, infos, last, leaves, r);
    ConsecutiveIds(Ids(r), vs, infos, height, slot);
    LinksAreCanonical(r', now);
    HeldLeaves(h, nowLeaves, now, n);
    SameRecordsSameRoot(h, levels + height, leaves', nowLeaves, now);
  }

  lemma HeldLeaves(h: Hasher, leaves: seq<Fr>, r: Records, n: nat)
    requires HoldsRecords(h, leaves, r, n) && IdsBelow(r, n)
    ensures forall k: nat :: LeafIs(h, leaves, r, k)
  {
    forall k: nat
      ensures LeafIs(h, leaves, r, k)
    {
      assert RecordLeaf(h, leaves, r, n, k);
      assert k >= n ==> !HasId(r, k);
    }
  }
}
