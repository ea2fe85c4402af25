/**
 A block, as its proposer builds it and as every follower replays it. The proposer inserts
 sub-tree by sub-tree while it gathers circuit proofs; a follower appends everything at once.
 Starting from equal trees they end with equal trees.
 */
module Agreement {
  import opened Field
  import opened Merkle
  import opened AppendSpec
  import opened NodeKeys
  import opened LinkedRecords
  import opened IndexedSpec
  import opened MutableTrees
  import opened IndexedTrees
  import opened NullifierProofs
  import opened Results

  /** The public inputs a proof is made for: four commitments and four nullifiers each. */
  datatype PublicInputs = PublicInputs(fee: Fr, roots: seq<Fr>, commitments: seq<Fr>, nullifiers: seq<Fr>, secrets: seq<Fr>)

  datatype ClientTransaction =
    ClientTransaction(fee: Fr, historicRoots: seq<Fr>, commitments: seq<Fr>, nullifiers: seq<Fr>, secrets: seq<Fr>)

  datatype OnChainTransaction = OnChainTransaction(fee: Fr, commitments: seq<Fr>, nullifiers: seq<Fr>, publicData: seq<Fr>)

  function InputsOf(tx: ClientTransaction): PublicInputs {
    PublicInputs(tx.fee, tx.historicRoots, tx.commitments, tx.nullifiers, tx.secrets)
  }

  function DepositOnChain(pi: PublicInputs): OnChainTransaction {
    OnChainTransaction(pi.fee, pi.commitments, pi.nullifiers, pi.secrets)
  }

  function ClientOnChain(tx: ClientTransaction): OnChainTransaction {
    OnChainTransaction(tx.fee, tx.commitments, tx.nullifiers, tx.secrets)
  }

  function Map<A, B>(f: A -> B, s: seq<A>): (r: seq<B>)
    ensures |r| == |s| && forall i :: 0 <= i < |s| ==> r[i] == f(s[i])
  {
    seq(|s|, i requires 0 <= i < |s| => f(s[i]))
  }

  /** The inputs proved for a block: deposits first, then client transactions. */
  function ProvedInputs(deposits: seq<PublicInputs>, clients: seq<ClientTransaction>): seq<PublicInputs> {
    deposits + Map(InputsOf, clients)
  }

  /** The transactions published in a block. */
  function BlockTransactions(deposits: seq<PublicInputs>, clients: seq<ClientTransaction>): seq<OnChainTransaction> {
    Map(DepositOnChain, deposits) + Map(ClientOnChain, clients)
  }

  function ProvedCommitments(pis: seq<PublicInputs>): seq<Fr> {
    if pis == [] then [] else pis[0].commitments + ProvedCommitments(pis[1..])
  }

  function ProvedNullifiers(pis: seq<PublicInputs>): seq<Fr> {
    if pis == [] then [] else pis[0].nullifiers + ProvedNullifiers(pis[1..])
  }

  function BlockCommitments(txs: seq<OnChainTransaction>): seq<Fr> {
    if txs == [] then [] else txs[0].commitments + BlockCommitments(txs[1..])
  }

  function BlockNullifiers(txs: seq<OnChainTransaction>): seq<Fr> {
    if txs == [] then [] else txs[0].nullifiers + BlockNullifiers(txs[1..])
  }

  lemma {:induction false} SameFlattening(pis: seq<PublicInputs>, txs: seq<OnChainTransaction>)
    requires |pis| == |txs|
    requires forall i :: 0 <= i < |pis| ==> pis[i].commitments == txs[i].commitments && pis[i].nullifiers == txs[i].nullifiers
    ensures ProvedCommitments(pis) == BlockCommitments(txs) && ProvedNullifiers(pis) == BlockNullifiers(txs)
  {
    if pis != [] {
      SameFlattening(pis[1..], txs[1..]);
    }
  }

  /** A follower flattens the block's transactions into the very sequences the proposer proved. */
  lemma BlockCarriesProvedValues(deposits: seq<PublicInputs>, clients: seq<ClientTransaction>)
    ensures BlockCommitments(BlockTransactions(deposits, clients)) == ProvedCommitments(ProvedInputs(deposits, clients))
    ensures BlockNullifiers(BlockTransactions(deposits, clients)) == ProvedNullifiers(ProvedInputs(deposits, clients))
  {
    SameFlattening(ProvedInputs(deposits, clients), BlockTransactions(deposits, clients));
  }

  /** Four values from each of an even number of transactions make whole sub-trees of eight. */
  lemma {:induction false} FourEach(pis: seq<PublicInputs>)
    requires forall i :: 0 <= i < |pis| ==> |pis[i].commitments| == 4 && |pis[i].nullifiers| == 4
    ensures |ProvedCommitments(pis)| == |ProvedNullifiers(pis)| == 4 * |pis|
  {
    if pis != [] {
      FourEach(pis[1..]);
    }
  }

  // ---------------------------------------------------------------- equal indices, equal trees

  /**
   The indices of the values determine an indexed tree: records, stored nodes and root. This is
   why two algorithms that assign the same indices cannot end in different states.
   */
  lemma IndicesDetermineTree(h: Hasher, full: nat, n: nat, a: Records, b: Records, s: Nodes, t: Nodes,
                             leavesA: seq<Fr>, leavesB: seq<Fr>)
    requires WellLinked(a) && WellLinked(b) && Ids(a) == Ids(b)
    requires HoldsRecords(h, leavesA, a, n) && HoldsRecords(h, leavesB, b, n)
    requires Represents(h, s, full, leavesA) && Represents(h, t, full, leavesB)
    requires s.Keys == t.Keys && TreeKeys(s.Keys, full)
    ensures a == b && s == t
    ensures TreeRoot(h, full, leavesA) == TreeRoot(h, full, leavesB) == TreeRoot(h, full, RecordLeaves(h, a, n))
  {
    hide WellLinked, Represents, TreeKeys, NodeVal;
    LinksAreCanonical(a, b);
    RecordsFixRoot(h, full, leavesA, a, n);
    RecordsFixRoot(h, full, leavesB, b, n);
    forall k: nat
      ensures LeafOrZero(leavesA, k) == LeafOrZero(leavesB, k)
    {
      assert RecordLeaf(h, leavesA, a, n, k) && RecordLeaf(h, leavesB, b, n, k);
    }
    SameTree(h, full, s, t, leavesA, leavesB);
  }

  ghost predicate SameIndexed(p: IndexedTree, f: IndexedTree)
    reads p, p.tree, f, f.tree
  {
    && p.tree.h == f.tree.h && p.tree.treeHeight == f.tree.treeHeight && p.tree.subTreeHeight == f.tree.subTreeHeight
    && p.records == f.records
    && p.tree.nodes == f.tree.nodes && p.tree.count == f.tree.count && p.tree.root == f.tree.root
  }

  lemma ValidTreesAgree(p: IndexedTree, f: IndexedTree)
    requires p.Valid() && f.Valid()
    requires p.tree.h == f.tree.h && p.tree.treeHeight == f.tree.treeHeight && p.tree.subTreeHeight == f.tree.subTreeHeight
    requires p.tree.count == f.tree.count && Ids(p.records) == Ids(f.records) && p.tree.nodes.Keys == f.tree.nodes.Keys
    ensures SameIndexed(p, f)
  {
    hide WellLinked, HoldsRecords, Represents, TreeKeys, NodeVal, Ids;
    IndicesDetermineTree(p.tree.h, p.tree.treeHeight + p.tree.subTreeHeight, Offset(p.tree.count, p.tree.subTreeHeight),
                         p.records, f.records, p.tree.nodes, f.tree.nodes, p.tree.leaves, f.tree.leaves);
  }

  /**
   The proposer's eight-at-a-time insertion with proofs and the follower's one-shot insertion
   of the same nullifiers leave the same records, nodes, count and root.
   */
  method NullifiersBothWays(p: IndexedTree, f: IndexedTree, vs: seq<Fr>)
    returns (infos: Result<seq<IMTCircuitInsertionInfo>>, followed: Result<Fr>)
    requires p.Valid() && f.Valid() && SameIndexed(p, f) && p.tree.subTreeHeight == 3
    requires p != f && p.tree != f.tree
    requires |vs| % 8 == 0 && p.tree.count + |vs| / 8 <= Pow2(p.tree.treeHeight)
    modifies p, p.tree, f, f.tree
    ensures infos.Ok? <==> Admissible(old(p.records).Keys, vs)
    ensures followed.Ok? <==> infos.Ok?
    ensures infos.Ok? ==> p.Valid() && f.Valid() && SameIndexed(p, f)
    ensures infos.Ok? ==> NullifierChain(p.tree.h, p.tree.treeHeight, 3, old(p.tree.root), vs, infos.value, p.tree.root)
  {
    hide WellLinked, HoldsRecords, Represents, TreeKeys, NodeVal, NullifierChain, Admissible, StoredBelow,
         SoundTree, AppendKeys, AssignIds;
    BatchesOfEight(|vs|);
    infos := p.BatchInsertNullifiersWithCircuitInfo(vs);
    followed := f.InsertLeaves(vs);
    if infos.Ok? {
      NothingAssigned(Ids(old(p.records)), Offset(old(p.tree.count), 3));
      NothingAppended(p.tree.treeHeight, old(p.tree.count));
      ValidTreesAgree(p, f);
    } else if vs == [] {
      NothingIsAdmissible(old(p.records).Keys);
    }
  }

  lemma {:induction false} BatchesOfEight(n: nat)
    ensures Batches(n, 3) == n / 8 && (IsWhole(n, 3) <==> n % 8 == 0)
  {
    assert Pow2(3) == 8;
    if n >= 8 {
      BatchesOfEight(n - 8);
    }
  }

  lemma NothingAppended(levels: nat, count: nat)
    ensures AppendKeys(levels, 3, count, 0) == {}
  {
  }

  // ---------------------------------------------------------------- the commitment tree

  ghost predicate SameTrees(p: MutableTree, f: MutableTree)
    reads p, f
  {
    && p.h == f.h && p.treeHeight == f.treeHeight && p.subTreeHeight == f.subTreeHeight
    && p.nodes == f.nodes && p.count == f.count && p.root == f.root
  }

  /** The proposer's insertion with proofs and the follower's single append leave the same tree. */
  method CommitmentsBothWays(p: MutableTree, f: MutableTree, ls: seq<Fr>)
    returns (infos: Result<seq<CircuitInsertionInfo>>, followed: Result<(Fr, nat)>)
    requires p.Valid() && f.Valid() && SameTrees(p, f) && p != f
    requires IsWhole(|ls|, p.subTreeHeight) && p.count + Batches(|ls|, p.subTreeHeight) <= Pow2(p.treeHeight)
    modifies p, f
    ensures infos.Ok? && followed.Ok?
    ensures p.Valid() && f.Valid() && SameTrees(p, f)
    ensures followed.value.0 == p.root && followed.value.1 == Offset(p.count, p.subTreeHeight)
    ensures InsertionChain(p.h, p.treeHeight, p.subTreeHeight, old(p.root), infos.value, p.root)
  {
    hide Represents, NodeVal, Append, SoundTree, InsertionChain, Splice;
    NothingIsWhole(p.subTreeHeight);
    infos := p.BatchInsertWithCircuitInfo(ls);
    assert infos.Ok?;
    SlotInRange(f.h, f.treeHeight, f.subTreeHeight, f.nodes, f.count, f.root, f.leaves);
    followed := f.AppendSubTrees(ls, true);
    if ls != [] {
      f.CommitKeepsSound(ls);
    }
  }

  // ---------------------------------------------------------------- whole blocks

  /** Every transaction carries four commitments and four nullifiers. */
  ghost predicate FourValued(pis: seq<PublicInputs>) {
    forall i :: 0 <= i < |pis| ==> |pis[i].commitments| == 4 && |pis[i].nullifiers| == 4
  }

  /**
   A block is proved by one node and replayed by another that starts from equal trees: the roots
   agree whenever the nullifiers are fresh, and otherwise both refuse.
   */
  method ProveAndFollow(pc: MutableTree, pn: IndexedTree, fc: MutableTree, fn: IndexedTree,
                        deposits: seq<PublicInputs>, clients: seq<ClientTransaction>)
    returns (proved: bool, commitmentsRoot: Fr, nullifiersRoot: Fr)
    requires pc.Valid() && fc.Valid() && SameTrees(pc, fc) && pc.subTreeHeight == 3
    requires pn.Valid() && fn.Valid() && SameIndexed(pn, fn) && pn.tree.subTreeHeight == 3
    requires pc != fc && pn != fn && pn.tree != fn.tree && {pc, fc} !! {pn.tree, fn.tree}
    requires FourValued(ProvedInputs(deposits, clients)) && (|deposits| + |clients|) % 2 == 0
    requires pc.count + (|deposits| + |clients|) / 2 <= Pow2(pc.treeHeight)
    requires pn.tree.count + (|deposits| + |clients|) / 2 <= Pow2(pn.tree.treeHeight)
    modifies pc, fc, pn, pn.tree, fn, fn.tree
    ensures SameTrees(pc, fc) && pc.Valid() && fc.Valid()
    ensures proved <==> Admissible(old(pn.records).Keys, ProvedNullifiers(ProvedInputs(deposits, clients)))
    ensures proved ==> SameIndexed(pn, fn) && pn.Valid() && fn.Valid()
    ensures commitmentsRoot == fc.root && nullifiersRoot == pn.tree.root
  {
    hide WellLinked, HoldsRecords, Represents, TreeKeys, NodeVal, NullifierChain, InsertionChain, Admissible, StoredBelow, SoundTree,
         SameTrees, SameIndexed;
    var inputs, block := ProvedInputs(deposits, clients), BlockTransactions(deposits, clients);
    BlockCarriesProvedValues(deposits, clients);
    FourEach(inputs);
    HalfAsManyBatches(|inputs|);
    var cs, ns := ProvedCommitments(inputs), ProvedNullifiers(inputs);
    assert cs == BlockCommitments(block) && ns == BlockNullifiers(block);
    var commitmentInfos, appended := CommitmentsBothWays(pc, fc, cs);
    var nullifierInfos, inserted := NullifiersBothWays(pn, fn, ns);
    proved := nullifierInfos.Ok?;
    commitmentsRoot, nullifiersRoot := pc.root, pn.tree.root;
    assert pc.root == fc.root by {
      SameRoots(pc, fc);
    }
  }

  lemma SameRoots(p: MutableTree, f: MutableTree)
    requires SameTrees(p, f)
    ensures p.root == f.root && p.h == f.h && p.treeHeight == f.treeHeight && p.subTreeHeight == f.subTreeHeight
  {
  }

  lemma HalfAsManyBatches(n: nat)
    requires n % 2 == 0
    ensures (4 * n) % 8 == 0 && (4 * n) / 8 == n / 2
    ensures IsWhole(4 * n, 3) && Batches(4 * n, 3) == n / 2
  {
    BatchesOfEight(4 * n);
  }
}
