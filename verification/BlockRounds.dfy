/**
 One block through two nodes: its proposer prepares it, and then both its proposer and a follower
 take it from the event. The proposer's trees have the contents already.
 */
module BlockRounds {
  import opened Field
  import opened Merkle
  import opened AppendSpec
  import opened NodeKeys
  import opened LinkedRecords
  import opened IndexedSpec
  import opened MutableTrees
  import opened IndexedTrees
  import opened Agreement
  import opened RollupChecks
  import opened BlockProofs
  import opened BlockEvents
  import Results

  /** Two proposers with equal trees, histories and positions. */
  ghost predicate InStep(p: ProposerNode, f: ProposerNode)
    reads p, p.commitments, p.nullifiers, p.nullifiers.tree, p.historic, f, f.commitments, f.nullifiers, f.nullifiers.tree, f.historic
  {
    && p.Valid() && f.Valid()
    && SameTrees(p.commitments, f.commitments) && SameIndexed(p.nullifiers, f.nullifiers)
    && p.expected == f.expected && p.log == f.log
  }

  /** No part of one node is a part of the other. */
  ghost predicate Apart(p: ProposerNode, f: ProposerNode) {
    && p != f && p.nullifiers != f.nullifiers
    && p.commitments != f.commitments && p.commitments != f.nullifiers.tree && p.commitments != f.historic
    && p.nullifiers.tree != f.commitments && p.nullifiers.tree != f.nullifiers.tree && p.nullifiers.tree != f.historic
    && p.historic != f.commitments && p.historic != f.nullifiers.tree && p.historic != f.historic
  }

  /** There is a stored block for each number below `n`, and for no other. */
  ghost predicate StoredUpTo(stored: map<nat, StoredBlock>, n: nat) {
    |stored| == n && forall k :: k in stored ==> k < n
  }

  lemma StoredNext(stored: map<nat, StoredBlock>, n: nat, b: StoredBlock)
    requires StoredUpTo(stored, n)
    ensures n !in stored && StoredUpTo(stored[n := b], n + 1)
  {
    assert stored[n := b].Keys == stored.Keys + {n};
    assert |stored.Keys| == |stored| && |stored[n := b].Keys| == |stored[n := b]|;
  }

  /** Storing a block over one that is there adds no number. */
  lemma StoredAgain(stored: map<nat, StoredBlock>, n: nat, b: StoredBlock)
    requires StoredUpTo(stored, n) && b.number in stored
    ensures StoredUpTo(StoreBlock(stored, b), n)
  {
    assert StoreBlock(stored, b).Keys == stored.Keys;
    assert |stored.Keys| == |stored| && |StoreBlock(stored, b).Keys| == |StoreBlock(stored, b)|;
  }

  /** The blocks stored are those passed, and nothing is left of a dry run. */
  ghost predicate Settled(n: ProposerNode)
    reads n, n.historic
  {
    StoredUpTo(n.stored, n.expected) && n.historic.cache == map[]
  }

  /** The block that is published for what was proved. */
  function BlockOf(roots: Roots, deposits: seq<PublicInputs>, clients: seq<ClientTransaction>): Block {
    Block(roots.commitments, BlockTransactions(deposits, clients))
  }

  /** A node prepares a block and stores it under the next number. */
  method Propose(lib: Library, p: ProposerNode, deposits: seq<PublicInputs>, clients: seq<ClientTransaction>)
    returns (r: Results.Result<(Prepared, Roots)>, ghost w: Emissions)
    requires ReadsBack(lib) && p.Valid() && Settled(p) && CircuitTrees(lib.g.h, p.commitments, p.nullifiers, p.historic)
    requires AllShaped(ProvedInputs(deposits, clients)) && (|deposits| + |clients|) % 4 == 0 && |deposits| + |clients| > 0
    modifies p`stored, p.commitments, p.nullifiers, p.nullifiers.tree, p.historic
    ensures var pis := ProvedInputs(deposits, clients);
            && (r.Ok? ==> old(BlockFits(p.commitments, p.nullifiers, p.historic, pis)))
            && (old(BlockFits(p.commitments, p.nullifiers, p.historic, pis) && AllFound(p.historic, pis)) ==> r.Ok?)
    ensures r.Err? ==> unchanged(p.historic`nodes, p.historic`count)
    ensures r.Ok? ==>
      && p.Valid() && CircuitTrees(lib.g.h, p.commitments, p.nullifiers, p.historic)
      && CommitmentsIn(p.commitments, ProvedCommitments(ProvedInputs(deposits, clients)))
      && NullifiersIn(p.nullifiers, ProvedNullifiers(ProvedInputs(deposits, clients)))
      && p.historic.CacheIsFor([r.value.1.commitments])
      && unchanged(p.historic`nodes, p.historic`count, p.historic`root, p.historic`leaves)
    ensures r.Ok? ==>
      && StoredUpTo(p.stored, p.expected + 1)
      && p.stored == old(p.stored)[p.expected := StoredBlock(p.expected, ProvedCommitments(ProvedInputs(deposits, clients)), p.us)]
      && r.value.1 == Roots(p.commitments.root, p.nullifiers.tree.root,
                            TreeRoot(lib.g.h, HISTORY, Splice(p.historic.leaves, p.historic.count, [p.commitments.root])))
      && PreparedFrom(lib, ProvedInputs(deposits, clients), w, old(RootsNow(p.commitments, p.nullifiers, p.historic)), r.value.1, r.value.0)
  {
    hide SoundTree, WellLinked, HoldsRecords, StoredBelow, Ids, Splice, AppendPlain, AppendKeys, AssignIds, RootsOf, NodeVal, Offset, Batches,
         Pow2, DryRun, ReadsBack, PreparedFrom, CommitmentsIn, NullifiersIn, BlockFits, AllFound, Shaped;
    assert LeafOrZero(p.historic.leaves, 0) == 0;
    r, w := PrepareStateTransition(lib, p.commitments, p.nullifiers, p.historic, deposits, clients);
    if r.Ok? {
      BlockCarriesProvedValues(deposits, clients);
      var number := |p.stored|;
      StoredNext(p.stored, number, StoredBlock(number, BlockCommitments(BlockTransactions(deposits, clients)), p.us));
      p.stored := p.stored[number := StoredBlock(number, BlockCommitments(BlockTransactions(deposits, clients)), p.us)];
    }
  }

  /** Whether a proposer leaves its trees alone when its own block comes back to it. */
  ghost predicate Skips(p: ProposerNode, contractBlocks: nat)
    reads p, p.commitments
  {
    (p.synchronised || contractBlocks == 1) && p.commitments.root != 0
  }

  /** What a node must meet to take the next block. */
  ghost predicate Ready(n: ProposerNode, e: BlockEvent)
    reads n, n.commitments, n.nullifiers, n.nullifiers.tree, n.historic
  {
    && n.Valid() && n.Position().Judge(n.digest, e) == Next
    && n.RoomFor(BlockCommitments(e.block.transactions), BlockNullifiers(e.block.transactions))
    && n.historic.count < Pow2(n.historic.treeHeight) && n.historic.CacheIsFor([e.block.commitmentsRoot])
  }

  /** The proposer's side of its own event. */
  method TakeOwn(p: ProposerNode, e: BlockEvent, contractBlocks: nat) returns (r: Outcome)
    requires Ready(p, e) && e.sender == p.us
    requires IsWhole(|BlockCommitments(e.block.transactions)|, p.commitments.subTreeHeight)
    modifies p, p.commitments, p.nullifiers, p.nullifiers.tree, p.historic
    ensures old(Skips(p, contractBlocks)) ==>
      && r == BlockEvents.Ok && p.Valid() && unchanged(p.commitments) && unchanged(p.nullifiers) && unchanged(p.nullifiers.tree)
      && p.expected == old(p.expected) + 1 && p.log == old(p.log) + [e.block]
      && p.historic.root == TreeRoot(p.historic.h, p.historic.treeHeight, p.historic.leaves) && p.historic.cache == map[]
      && p.stored == StoreBlock(old(p.stored), Pending(e)) && (p.synchronised <==> contractBlocks == e.number + 1)
    ensures !old(Skips(p, contractBlocks)) ==>
      p.commitments.count == old(p.commitments.count) + Batches(|BlockCommitments(e.block.transactions)|, p.commitments.subTreeHeight)
  {
    hide SoundTree, WellLinked, HoldsRecords, StoredBelow, Ids, Admissible, Splice, AppendPlain, AppendKeys, AssignIds, RootsOf, NodeVal,
         Offset, Batches, IsWhole, Pow2, DryRun, StoreBlock;
    ghost var taken;
    r, taken := p.ProcessProposeBlock(e, contractBlocks);
  }

  /** The follower's side. */
  method TakeFrom(f: ProposerNode, e: BlockEvent, contractBlocks: nat) returns (r: Outcome)
    requires Ready(f, e) && e.sender != f.us && BlockCommitments(e.block.transactions) != []
    requires f.TreesTake(BlockCommitments(e.block.transactions), BlockNullifiers(e.block.transactions))
    modifies f, f.commitments, f.nullifiers, f.nullifiers.tree, f.historic
    ensures r == BlockEvents.Ok && f.Valid() && f.expected == old(f.expected) + 1 && f.log == old(f.log) + [e.block]
    ensures CommitmentsIn(f.commitments, BlockCommitments(e.block.transactions))
    ensures NullifiersIn(f.nullifiers, BlockNullifiers(e.block.transactions))
    ensures f.historic.root == TreeRoot(f.historic.h, f.historic.treeHeight, f.historic.leaves) && f.historic.cache == map[]
    ensures f.stored == StoreBlock(old(f.stored), Pending(e)) && (f.synchronised <==> contractBlocks == e.number + 1)
  {
    hide SoundTree, WellLinked, HoldsRecords, StoredBelow, Ids, Admissible, Splice, AppendPlain, AppendKeys, AssignIds, RootsOf, NodeVal,
         Offset, Batches, IsWhole, Pow2, DryRun, StoreBlock;
    ghost var taken;
    r, taken := f.ProcessProposeBlock(e, contractBlocks);
  }

  /** Trees that have taken the same contents in the same state are equal. */
  lemma SameContents(p: ProposerNode, f: ProposerNode, nodes: Nodes, count: nat, cs: seq<Fr>,
                     ids: map<Fr, nat>, imtCount: nat, keys: set<nat>, ns: seq<Fr>)
    requires p.commitments.h == f.commitments.h && p.commitments.treeHeight == f.commitments.treeHeight
    requires p.commitments.subTreeHeight == f.commitments.subTreeHeight && p.nullifiers.tree.h == f.nullifiers.tree.h
    requires p.nullifiers.tree.treeHeight == f.nullifiers.tree.treeHeight
    requires p.nullifiers.tree.subTreeHeight == f.nullifiers.tree.subTreeHeight
    requires Took(p.commitments, nodes, count, cs) && Took(f.commitments, nodes, count, cs)
    requires TookNullifiers(p.nullifiers, ids, imtCount, keys, ns) && TookNullifiers(f.nullifiers, ids, imtCount, keys, ns)
    requires p.nullifiers.Valid() && f.nullifiers.Valid()
    ensures SameTrees(p.commitments, f.commitments) && SameIndexed(p.nullifiers, f.nullifiers)
  {
    hide SoundTree, WellLinked, HoldsRecords, StoredBelow, Ids, AppendPlain, AppendKeys, AssignIds, NodeVal, Offset, Batches, Splice;
    ValidTreesAgree(p.nullifiers, f.nullifiers);
  }

  /** The historic roots after a block are those before with its commitment root behind them. */
  lemma HistoryAfter(n: ProposerNode, log: seq<Block>, b: Block, leaves: seq<Fr>, count: nat)
    requires n.HistoryValid() && n.log == log + [b] && leaves == [0] + RootsOf(log) && count == 1 + |log|
    ensures n.historic.leaves == Splice(leaves, count, [b.commitmentsRoot])
  {
    hide SoundTree, Splice;
    SpliceAtEnd(leaves, [b.commitmentsRoot]);
    assert RootsOf(log + [b]) == RootsOf(log) + [b.commitmentsRoot];
  }

  /** A block that fits one node fits another in step with it. */
  lemma FitsBoth(p: ProposerNode, f: ProposerNode, pis: seq<PublicInputs>)
    requires InStep(p, f) && BlockFits(p.commitments, p.nullifiers, p.historic, pis)
    ensures BlockFits(f.commitments, f.nullifiers, f.historic, pis) && p.historic.count < Pow2(HISTORY)
  {
    hide SoundTree, Admissible, ProvedNullifiers, RootsOf, Pow2;
  }

  /** A block that fits the trees is taken. */
  lemma FollowerIsReady(f: ProposerNode, e: BlockEvent, pis: seq<PublicInputs>, h: Hasher)
    requires f.Valid() && Settled(f) && BlockFits(f.commitments, f.nullifiers, f.historic, pis)
    requires CircuitTrees(h, f.commitments, f.nullifiers, f.historic)
    requires AllShaped(pis) && |pis| % 2 == 0 && |pis| > 0 && e.number == f.expected
    requires BlockCommitments(e.block.transactions) == ProvedCommitments(pis)
    requires BlockNullifiers(e.block.transactions) == ProvedNullifiers(pis)
    ensures Ready(f, e) && BlockCommitments(e.block.transactions) != []
    ensures f.TreesTake(BlockCommitments(e.block.transactions), BlockNullifiers(e.block.transactions))
  {
    hide SoundTree, WellLinked, HoldsRecords, StoredBelow, Ids, Admissible, ProvedCommitments, ProvedNullifiers, RootsOf, NodeVal, Pow2,
         DryRun, BlockCommitments, BlockNullifiers;
    hide Batches, IsWhole, Offset;
    HalvesAreWhole(pis);
  }

  lemma ProposerIsReady(p: ProposerNode, e: BlockEvent, pis: seq<PublicInputs>)
    requires p.Valid() && AllShaped(pis) && |pis| % 2 == 0 && |pis| > 0
    requires p.commitments.treeHeight == p.nullifiers.tree.treeHeight == LEVELS
    requires p.commitments.subTreeHeight == p.nullifiers.tree.subTreeHeight == SUB_TREE
    requires p.commitments.count + |pis| / 2 <= Pow2(LEVELS) && p.nullifiers.tree.count + |pis| / 2 <= Pow2(LEVELS)
    requires p.historic.count < Pow2(p.historic.treeHeight) && p.historic.CacheIsFor([e.block.commitmentsRoot])
    requires BlockCommitments(e.block.transactions) == ProvedCommitments(pis)
    requires BlockNullifiers(e.block.transactions) == ProvedNullifiers(pis)
    requires e.number == p.expected && e.sender == p.us && p.expected in p.stored
    requires p.stored[p.expected] == StoredBlock(p.expected, ProvedCommitments(pis), p.us)
    ensures Ready(p, e) && IsWhole(|BlockCommitments(e.block.transactions)|, p.commitments.subTreeHeight)
    ensures Batches(|BlockCommitments(e.block.transactions)|, p.commitments.subTreeHeight) > 0
  {
    hide SoundTree, WellLinked, HoldsRecords, StoredBelow, Ids, ProvedCommitments, ProvedNullifiers, RootsOf, NodeVal, Pow2, DryRun,
         BlockCommitments, BlockNullifiers;
    hide Batches, IsWhole, Offset;
    HalvesAreWhole(pis);
  }

  /** There is room for the block's contents once more. */
  ghost predicate RoomTwice(p: ProposerNode, pis: seq<PublicInputs>)
    reads p, p.commitments, p.nullifiers, p.nullifiers.tree
  {
    p.commitments.count + |pis| <= Pow2(LEVELS) && p.nullifiers.tree.count + |pis| <= Pow2(LEVELS)
  }

  /** The follower has taken the block of the event; the proposer has its contents, but has not passed it. */
  ghost predicate Ahead(p: ProposerNode, f: ProposerNode, e: BlockEvent, roots: Roots)
    reads p, p.commitments, p.nullifiers, p.nullifiers.tree, f, f.commitments, f.nullifiers, f.nullifiers.tree, f.historic
  {
    && f.Valid() && Settled(f) && f.expected == p.expected + 1 && f.log == p.log + [e.block]
    && SameTrees(p.commitments, f.commitments) && SameIndexed(p.nullifiers, f.nullifiers)
    && RootsNow(f.commitments, f.nullifiers, f.historic) == roots
  }

  /** The proposer's state when its event is on the way. */
  ghost predicate Waiting(lib: Library, p: ProposerNode, pis: seq<PublicInputs>, roots: Roots, leaves: seq<Fr>)
    reads p, p.commitments, p.nullifiers, p.nullifiers.tree, p.historic
  {
    && p.Valid() && CircuitTrees(lib.g.h, p.commitments, p.nullifiers, p.historic)
    && StoredUpTo(p.stored, p.expected + 1)
    && p.expected in p.stored && p.stored[p.expected] == StoredBlock(p.expected, ProvedCommitments(pis), p.us)
    && p.historic.count < Pow2(HISTORY) && p.historic.CacheIsFor([roots.commitments]) && p.historic.leaves == leaves
    && roots == Roots(p.commitments.root, p.nullifiers.tree.root,
                      TreeRoot(lib.g.h, HISTORY, Splice(leaves, p.historic.count, [p.commitments.root])))
  }

  lemma WaitingIsValid(lib: Library, p: ProposerNode, pis: seq<PublicInputs>, roots: Roots, leaves: seq<Fr>)
    requires Waiting(lib, p, pis, roots, leaves)
    ensures p.Valid() && p.historic.leaves == leaves && p.commitments.root == roots.commitments
    ensures p.commitments.subTreeHeight == p.nullifiers.tree.subTreeHeight == SUB_TREE
  {
    hide SoundTree, RootsOf;
  }

  lemma AheadBy(lib: Library, p: ProposerNode, f: ProposerNode, e: BlockEvent, pis: seq<PublicInputs>, roots: Roots, leaves: seq<Fr>)
    requires Waiting(lib, p, pis, roots, leaves) && e.block.commitmentsRoot == roots.commitments && p.HistoryValid()
    requires SameTrees(p.commitments, f.commitments) && SameIndexed(p.nullifiers, f.nullifiers)
    requires f.Valid() && f.HistoryValid() && Settled(f) && f.expected == p.expected + 1 && f.log == p.log + [e.block]
    requires f.historic.h == lib.g.h && f.historic.treeHeight == HISTORY
    requires f.historic.root == TreeRoot(f.historic.h, f.historic.treeHeight, f.historic.leaves)
    ensures Ahead(p, f, e, roots)
  {
    hide SoundTree, WellLinked, HoldsRecords, StoredBelow, Ids, NodeVal, Offset, Splice, Pow2, ProvedCommitments, SameTrees,
         SameIndexed, RootsOf;
    HistoryAfter(f, p.log, e.block, p.historic.leaves, p.historic.count);
    TreesOf(p, f);
  }

  lemma TreesOf(p: ProposerNode, f: ProposerNode)
    requires SameTrees(p.commitments, f.commitments) && SameIndexed(p.nullifiers, f.nullifiers)
    ensures p.commitments.root == f.commitments.root && p.nullifiers.tree.root == f.nullifiers.tree.root
    ensures p.commitments.count == f.commitments.count
  {
  }

  /** A node prepares a block, and another one takes it from the event. */
  method ProposeToFollower(lib: Library, p: ProposerNode, f: ProposerNode, deposits: seq<PublicInputs>, clients: seq<ClientTransaction>,
                           atF: nat)
    returns (r: Results.Result<(Prepared, Roots)>, other: Outcome, ghost w: Emissions)
    requires ReadsBack(lib) && InStep(p, f) && Apart(p, f) && Settled(p) && Settled(f) && p.us != f.us
    requires CircuitTrees(lib.g.h, p.commitments, p.nullifiers, p.historic)
    requires CircuitTrees(lib.g.h, f.commitments, f.nullifiers, f.historic)
    requires AllShaped(ProvedInputs(deposits, clients)) && (|deposits| + |clients|) % 4 == 0 && |deposits| + |clients| > 0
    modifies p`stored, p.commitments, p.nullifiers, p.nullifiers.tree, p.historic
    modifies f, f.commitments, f.nullifiers, f.nullifiers.tree, f.historic
    ensures var pis := ProvedInputs(deposits, clients);
            && (r.Ok? ==> old(BlockFits(p.commitments, p.nullifiers, p.historic, pis)))
            && (old(BlockFits(p.commitments, p.nullifiers, p.historic, pis) && AllFound(p.historic, pis)) ==> r.Ok?)
    ensures r.Err? ==> unchanged(p.historic`nodes, p.historic`count)
    ensures r.Ok? ==>
      PreparedFrom(lib, ProvedInputs(deposits, clients), w, old(RootsNow(p.commitments, p.nullifiers, p.historic)), r.value.1, r.value.0)
    ensures r.Ok? ==>
      && other == BlockEvents.Ok && (f.synchronised <==> atF == f.expected)
      && Waiting(lib, p, ProvedInputs(deposits, clients), r.value.1, old(p.historic.leaves))
      && Ahead(p, f, BlockEvent(p.expected, BlockOf(r.value.1, deposits, clients), p.us), r.value.1)
    ensures r.Ok? ==>
      && CommitmentsIn(p.commitments, ProvedCommitments(ProvedInputs(deposits, clients)))
      && NullifiersIn(p.nullifiers, ProvedNullifiers(ProvedInputs(deposits, clients)))
  {
    hide SoundTree, WellLinked, HoldsRecords, StoredBelow, Ids, Admissible, Splice, AppendPlain, AppendKeys, AssignIds, RootsOf, NodeVal,
         Offset, Batches, IsWhole, Pow2, DryRun, ReadsBack, PreparedFrom, AllFound, Shaped, ProvedCommitments, ProvedNullifiers,
         SameTrees, SameIndexed, BlockCommitments, BlockNullifiers, BlockTransactions, Ahead, InStep, CircuitTrees, BlockFits, Waiting,
         Settled, Took, TookNullifiers, StoredUpTo;
    other := BlockEvents.Ok;
    ghost var pis := ProvedInputs(deposits, clients);
    ghost var nodes, count := p.commitments.nodes, p.commitments.count;
    ghost var ids, imtCount, keys := Ids(p.nullifiers.records), p.nullifiers.tree.count, p.nullifiers.tree.nodes.Keys;
    ghost var history := p.historic.leaves;
    StartTogether(p, f);
    if BlockFits(p.commitments, p.nullifiers, p.historic, pis) {
      FitsBoth(p, f, pis);
    }
    r, w := Propose(lib, p, deposits, clients);
    if r.Ok? {
      BlockCarriesProvedValues(deposits, clients);
      var e := BlockEvent(p.expected, BlockOf(r.value.1, deposits, clients), p.us);
      IsWaiting(lib, p, pis, r.value.1);
      EvenInputs(deposits, clients);
      other := Deliver(lib, p, f, e, pis, r.value.1, nodes, count, ids, imtCount, keys, history, atF);
    }
  }

  /** The event of a prepared block at a follower that was in step with the proposer. */
  method Deliver(lib: Library, ghost p: ProposerNode, f: ProposerNode, e: BlockEvent, ghost pis: seq<PublicInputs>, ghost roots: Roots,
                 ghost nodes: Nodes, ghost count: nat, ghost ids: map<Fr, nat>, ghost imtCount: nat, ghost keys: set<nat>,
                 ghost history: seq<Fr>, atF: nat)
    returns (other: Outcome)
    requires Apart(p, f) && Waiting(lib, p, pis, roots, history) && p.us != f.us && e.sender == p.us && e.number == p.expected
    requires Took(p.commitments, nodes, count, ProvedCommitments(pis))
    requires TookNullifiers(p.nullifiers, ids, imtCount, keys, ProvedNullifiers(pis))
    requires f.Valid() && Settled(f) && CircuitTrees(lib.g.h, f.commitments, f.nullifiers, f.historic)
    requires BlockFits(f.commitments, f.nullifiers, f.historic, pis) && f.expected == p.expected && f.log == p.log
    requires f.commitments.nodes == nodes && f.commitments.count == count
    requires Ids(f.nullifiers.records) == ids && f.nullifiers.tree.count == imtCount && f.nullifiers.tree.nodes.Keys == keys
    requires AllShaped(pis) && |pis| % 2 == 0 && |pis| > 0 && e.block.commitmentsRoot == roots.commitments
    requires BlockCommitments(e.block.transactions) == ProvedCommitments(pis)
    requires BlockNullifiers(e.block.transactions) == ProvedNullifiers(pis)
    modifies f, f.commitments, f.nullifiers, f.nullifiers.tree, f.historic
    ensures other == BlockEvents.Ok && Ahead(p, f, e, roots) && (f.synchronised <==> atF == f.expected)
  {
    hide SoundTree, WellLinked, HoldsRecords, StoredBelow, Ids, Admissible, Splice, AppendPlain, AppendKeys, AssignIds, RootsOf, NodeVal,
         Offset, Batches, IsWhole, Pow2, DryRun, Shaped, ProvedCommitments, ProvedNullifiers, SameTrees, SameIndexed, BlockCommitments,
         BlockNullifiers, Ahead;
    FollowerIsReady(f, e, pis, lib.g.h);
    ghost var stored := f.stored;
    StoredNext(stored, f.expected, Pending(e));
    other := TakeFrom(f, e, atF);
    assert f.stored == stored[e.number := Pending(e)];
    SameContents(p, f, nodes, count, ProvedCommitments(pis), ids, imtCount, keys, ProvedNullifiers(pis));
    AheadBy(lib, p, f, e, pis, roots, history);
  }

  lemma IsWaiting(lib: Library, p: ProposerNode, pis: seq<PublicInputs>, roots: Roots)
    requires p.Valid() && CircuitTrees(lib.g.h, p.commitments, p.nullifiers, p.historic) && p.historic.count < Pow2(HISTORY)
    requires p.historic.CacheIsFor([roots.commitments]) && StoredUpTo(p.stored, p.expected + 1)
    requires p.expected in p.stored && p.stored[p.expected] == StoredBlock(p.expected, ProvedCommitments(pis), p.us)
    requires roots == Roots(p.commitments.root, p.nullifiers.tree.root,
                            TreeRoot(lib.g.h, HISTORY, Splice(p.historic.leaves, p.historic.count, [p.commitments.root])))
    ensures Waiting(lib, p, pis, roots, p.historic.leaves)
  {
    hide SoundTree, WellLinked, HoldsRecords, StoredBelow, RootsOf, StoredUpTo, DryRun, NodeVal, TreeRoot, Splice, Pow2, ProvedCommitments,
         CircuitTrees;
  }

  lemma EvenInputs(deposits: seq<PublicInputs>, clients: seq<ClientTransaction>)
    requires (|deposits| + |clients|) % 4 == 0
    ensures var n := |ProvedInputs(deposits, clients)|;
            n % 2 == 0 && n == |deposits| + |clients| && 2 * (n / 2) == n
  {
  }

  lemma RoomArithmetic(count: nat, before: nat, half: nat, all: nat, limit: nat)
    requires before + half <= all && count + 2 * all <= limit
    ensures count + before + 2 * half <= limit
  {
  }

  lemma StartTogether(p: ProposerNode, f: ProposerNode)
    requires InStep(p, f)
    ensures p.commitments.nodes == f.commitments.nodes && p.commitments.count == f.commitments.count
    ensures p.nullifiers.records == f.nullifiers.records && p.nullifiers.tree.nodes == f.nullifiers.tree.nodes
    ensures p.nullifiers.tree.count == f.nullifiers.tree.count && p.expected == f.expected && p.log == f.log
    ensures p.commitments.h == f.commitments.h && p.nullifiers.tree.h == f.nullifiers.tree.h && p.Valid() && f.Valid()
  {
    hide SoundTree, RootsOf;
  }

  /**
   A block through both nodes. Whatever the follower's state of synchronisation, it takes the block and ends with the
   three roots that were proved and published. The proposer leaves its trees alone and is in step with it again if
   it counts as synchronised and its commitment root is not zero; otherwise it appends its own block a second time.
   */
  method ProposeAndFollow(lib: Library, p: ProposerNode, f: ProposerNode, deposits: seq<PublicInputs>, clients: seq<ClientTransaction>,
                          atP: nat, atF: nat)
    returns (r: Results.Result<(Prepared, Roots)>, own: Outcome, other: Outcome, ghost w: Emissions)
    requires ReadsBack(lib) && InStep(p, f) && Apart(p, f) && Settled(p) && Settled(f) && p.us != f.us
    requires CircuitTrees(lib.g.h, p.commitments, p.nullifiers, p.historic)
    requires CircuitTrees(lib.g.h, f.commitments, f.nullifiers, f.historic)
    requires AllShaped(ProvedInputs(deposits, clients)) && (|deposits| + |clients|) % 4 == 0 && |deposits| + |clients| > 0
    requires RoomTwice(p, ProvedInputs(deposits, clients))
    modifies p, p.commitments, p.nullifiers, p.nullifiers.tree, p.historic
    modifies f, f.commitments, f.nullifiers, f.nullifiers.tree, f.historic
    ensures var pis := ProvedInputs(deposits, clients);
            && (r.Ok? ==> old(BlockFits(p.commitments, p.nullifiers, p.historic, pis)))
            && (old(BlockFits(p.commitments, p.nullifiers, p.historic, pis) && AllFound(p.historic, pis)) ==> r.Ok?)
    ensures r.Err? ==> unchanged(p.historic`nodes, p.historic`count)
    ensures r.Ok? ==>
      PreparedFrom(lib, ProvedInputs(deposits, clients), w, old(RootsNow(p.commitments, p.nullifiers, p.historic)), r.value.1, r.value.0)
    ensures r.Ok? ==>
      other == BlockEvents.Ok && f.Valid() && RootsNow(f.commitments, f.nullifiers, f.historic) == r.value.1
    ensures r.Ok? && (old(p.synchronised) || atP == 1) && r.value.1.commitments != 0 ==>
      && own == BlockEvents.Ok && InStep(p, f) && p.historic.leaves == f.historic.leaves && Settled(p) && Settled(f)
      && RootsNow(p.commitments, p.nullifiers, p.historic) == r.value.1
      && (p.synchronised <==> atP == p.expected) && (f.synchronised <==> atF == f.expected)
      && p.expected == old(p.expected) + 1 && p.log == old(p.log) + [BlockOf(r.value.1, deposits, clients)]
      && CommitmentsIn(p.commitments, ProvedCommitments(ProvedInputs(deposits, clients)))
      && NullifiersIn(p.nullifiers, ProvedNullifiers(ProvedInputs(deposits, clients)))
    ensures r.Ok? && !((old(p.synchronised) || atP == 1) && r.value.1.commitments != 0) ==> !SameTrees(p.commitments, f.commitments)
  {
    hide SoundTree, WellLinked, HoldsRecords, StoredBelow, Ids, Admissible, Splice, AppendPlain, AppendKeys, AssignIds, RootsOf, NodeVal,
         Offset, Batches, IsWhole, Pow2, DryRun, ReadsBack, PreparedFrom, AllFound, Shaped, ProvedCommitments, ProvedNullifiers,
         SameTrees, SameIndexed, BlockCommitments, BlockNullifiers, BlockTransactions, Ahead, Waiting, InStep, CircuitTrees, BlockFits,
         Settled, Ready, Took, TookNullifiers, Skips, RootsNow;
    own := BlockEvents.Ok;
    ghost var pis := ProvedInputs(deposits, clients);
    r, other, w := ProposeToFollower(lib, p, f, deposits, clients, atF);
    if r.Ok? {
      var e := BlockEvent(p.expected, BlockOf(r.value.1, deposits, clients), p.us);
      BlockCarriesProvedValues(deposits, clients);
      WaitingIsValid(lib, p, pis, r.value.1, old(p.historic.leaves));
      RoomOnce(p, pis);
      SkipsIf(p, atP);
      AheadMeans(p, f, e, r.value.1);
      own := OwnEvent(lib, p, f, e, ProvedInputs(deposits, clients), r.value.1, old(p.historic.leaves), atP);
    }
  }

  /** After the block's contents have come in there is room for them once more. */
  twostate lemma RoomOnce(p: ProposerNode, new pis: seq<PublicInputs>)
    requires old(RoomTwice(p, pis)) && AllShaped(pis) && |pis| % 2 == 0
    requires p.commitments.subTreeHeight == p.nullifiers.tree.subTreeHeight == SUB_TREE
    requires CommitmentsIn(p.commitments, ProvedCommitments(pis)) && NullifiersIn(p.nullifiers, ProvedNullifiers(pis))
    ensures p.commitments.count + |pis| / 2 <= Pow2(LEVELS) && p.nullifiers.tree.count + |pis| / 2 <= Pow2(LEVELS)
  {
    hide Shaped, ProvedCommitments, ProvedNullifiers, Pow2, Batches, IsWhole, Ids, AppendPlain, AppendKeys, AssignIds, Splice, Offset;
    HalvesAreWhole(pis);
  }

  lemma SkipsIf(p: ProposerNode, contractBlocks: nat)
    ensures Skips(p, contractBlocks) <==> (p.synchronised || contractBlocks == 1) && p.commitments.root != 0
  {
  }

  lemma AheadMeans(p: ProposerNode, f: ProposerNode, e: BlockEvent, roots: Roots)
    requires Ahead(p, f, e, roots)
    ensures f.Valid() && Settled(f) && RootsNow(f.commitments, f.nullifiers, f.historic) == roots
  {
    hide SoundTree, RootsOf, SameTrees, SameIndexed;
  }

  /** The proposer's own event, when the follower has taken the block already. */
  method OwnEvent(lib: Library, p: ProposerNode, f: ProposerNode, e: BlockEvent, ghost pis: seq<PublicInputs>, ghost roots: Roots,
                  ghost leaves: seq<Fr>, at: nat)
    returns (own: Outcome)
    requires Apart(p, f) && Waiting(lib, p, pis, roots, leaves) && Ahead(p, f, e, roots)
    requires AllShaped(pis) && |pis| % 2 == 0 && |pis| > 0 && e.block.commitmentsRoot == roots.commitments
    requires p.commitments.count + |pis| / 2 <= Pow2(LEVELS) && p.nullifiers.tree.count + |pis| / 2 <= Pow2(LEVELS)
    requires BlockCommitments(e.block.transactions) == ProvedCommitments(pis)
    requires BlockNullifiers(e.block.transactions) == ProvedNullifiers(pis)
    requires e.number == p.expected && e.sender == p.us
    modifies p, p.commitments, p.nullifiers, p.nullifiers.tree, p.historic
    ensures old(Skips(p, at)) ==>
      && own == BlockEvents.Ok && InStep(p, f) && p.historic.leaves == f.historic.leaves
      && RootsNow(p.commitments, p.nullifiers, p.historic) == roots
      && unchanged(p.commitments) && unchanged(p.nullifiers) && unchanged(p.nullifiers.tree)
      && Settled(p) && (p.synchronised <==> at == p.expected) && p.expected == old(p.expected) + 1 && p.log == old(p.log) + [e.block]
    ensures !old(Skips(p, at)) ==> !SameTrees(p.commitments, f.commitments)
  {
    hide SoundTree, WellLinked, HoldsRecords, StoredBelow, Ids, Splice, RootsOf, NodeVal, Offset, Batches, IsWhole, Pow2, DryRun, Shaped,
         ProvedCommitments, ProvedNullifiers, SameIndexed, BlockCommitments, BlockNullifiers;
    ProposerIsReady(p, e, pis);
    ghost var log, count := p.log, p.historic.count;
    StoredAgain(p.stored, p.expected + 1, Pending(e));
    own := TakeOwn(p, e, at);
    if old(Skips(p, at)) {
      HistoryAfter(p, log, e.block, leaves, count);
    }
  }

  // ---------------------------------------------------------------- runs of blocks

  /** A block that one of two nodes proposes. */
  datatype Proposal = Proposal(byFirst: bool, deposits: seq<PublicInputs>, clients: seq<ClientTransaction>)

  function Inputs(x: Proposal): seq<PublicInputs> {
    ProvedInputs(x.deposits, x.clients)
  }

  ghost predicate Proposable(x: Proposal) {
    AllShaped(Inputs(x)) && (|x.deposits| + |x.clients|) % 4 == 0 && |x.deposits| + |x.clients| > 0
  }

  /** All nullifiers of a run, in order. */
  ghost function RunNullifiers(run: seq<Proposal>): seq<Fr> {
    if run == [] then [] else RunNullifiers(run[..|run| - 1]) + ProvedNullifiers(Inputs(run[|run| - 1]))
  }

  /** The sub-trees that a run fills. */
  ghost function RunBatches(run: seq<Proposal>): nat {
    if run == [] then 0 else RunBatches(run[..|run| - 1]) + |Inputs(run[|run| - 1])| / 2
  }

  /** Two nodes that can go on proposing to each other. */
  ghost predicate Together(h: Hasher, p: ProposerNode, f: ProposerNode)
    reads p, p.commitments, p.nullifiers, p.nullifiers.tree, p.historic, f, f.commitments, f.nullifiers, f.nullifiers.tree, f.historic
  {
    && InStep(p, f) && Apart(p, f) && Settled(p) && Settled(f) && p.us != f.us && p.synchronised && f.synchronised
    && CircuitTrees(h, p.commitments, p.nullifiers, p.historic) && CircuitTrees(h, f.commitments, f.nullifiers, f.historic)
  }

  lemma TogetherIsMutual(h: Hasher, p: ProposerNode, f: ProposerNode)
    requires Together(h, p, f)
    ensures Together(h, f, p)
    ensures p.nullifiers.records == f.nullifiers.records && p.nullifiers.tree.count == f.nullifiers.tree.count
    ensures p.commitments.count == f.commitments.count && p.expected == f.expected
  {
    hide SoundTree, WellLinked, HoldsRecords, StoredBelow, RootsOf, StoredUpTo;
  }

  twostate lemma FoundKept(historic: MutableTree, new pis: seq<PublicInputs>)
    requires unchanged(historic`nodes)
    ensures AllFound(historic, pis) ==> old(AllFound(historic, pis))
  {
    forall i, x | AllFound(historic, pis) && 0 <= i < |pis| && x in pis[i].roots
      ensures x == 0 || old(historic.FoundAsLeaf(x))
    {
      assert x == 0 || historic.FoundAsLeaf(x);
    }
  }

  /** One block, delivered to both nodes before the next one is proposed. */
  method FirstProposes(lib: Library, p: ProposerNode, f: ProposerNode, deposits: seq<PublicInputs>, clients: seq<ClientTransaction>)
    returns (ok: bool)
    requires ReadsBack(lib) && Together(lib.g.h, p, f) && RoomTwice(p, ProvedInputs(deposits, clients))
    requires AllShaped(ProvedInputs(deposits, clients)) && (|deposits| + |clients|) % 4 == 0 && |deposits| + |clients| > 0
    modifies p, p.commitments, p.nullifiers, p.nullifiers.tree, p.historic
    modifies f, f.commitments, f.nullifiers, f.nullifiers.tree, f.historic
    ensures ok ==>
      && Together(lib.g.h, p, f) && p.expected == old(p.expected) + 1
      && Admissible(old(p.nullifiers.records).Keys, ProvedNullifiers(ProvedInputs(deposits, clients)))
      && NullifiersIn(p.nullifiers, ProvedNullifiers(ProvedInputs(deposits, clients)))
      && p.commitments.count == old(p.commitments.count) + (|deposits| + |clients|) / 2
      && p.nullifiers.tree.count == old(p.nullifiers.tree.count) + (|deposits| + |clients|) / 2
    ensures !ok ==>
      || !Admissible(old(p.nullifiers.records).Keys, ProvedNullifiers(ProvedInputs(deposits, clients)))
      || p.historic.count >= Pow2(HISTORY) || !AllFound(p.historic, ProvedInputs(deposits, clients)) || f.commitments.root == 0
  {
    hide SoundTree, WellLinked, HoldsRecords, StoredBelow, Ids, Admissible, Splice, AppendPlain, AppendKeys, AssignIds, RootsOf, NodeVal,
         Offset, Batches, IsWhole, Pow2, DryRun, ReadsBack, PreparedFrom, AllFound, Shaped, ProvedCommitments, ProvedNullifiers, StoredUpTo;
    var r, own, other; ghost var w;
    HalvesAreWhole(ProvedInputs(deposits, clients));
    r, own, other, w := ProposeAndFollow(lib, p, f, deposits, clients, p.expected + 1, f.expected + 1);
    if r.Err? {
      FoundKept(p.historic, ProvedInputs(deposits, clients));
    }
    ok := r.Ok? && r.value.1.commitments != 0;
  }

  /** There is no room for another historic root, a root cannot be looked up, or the commitment root has come out as zero. */
  ghost predicate HindersBlock(proposer: ProposerNode, follower: ProposerNode, pis: seq<PublicInputs>)
    reads proposer, proposer.historic, follower, follower.commitments
  {
    proposer.historic.count >= Pow2(HISTORY) || !AllFound(proposer.historic, pis) || follower.commitments.root == 0
  }

  /** Whichever of the two proposes. */
  method EitherProposes(lib: Library, p: ProposerNode, f: ProposerNode, x: Proposal) returns (ok: bool)
    requires ReadsBack(lib) && Together(lib.g.h, p, f) && RoomTwice(p, Inputs(x)) && Proposable(x)
    modifies p, p.commitments, p.nullifiers, p.nullifiers.tree, p.historic
    modifies f, f.commitments, f.nullifiers, f.nullifiers.tree, f.historic
    ensures ok ==>
      && Together(lib.g.h, p, f) && p.expected == old(p.expected) + 1
      && Admissible(old(p.nullifiers.records).Keys, ProvedNullifiers(Inputs(x)))
      && NullifiersIn(p.nullifiers, ProvedNullifiers(Inputs(x)))
      && Ids(p.nullifiers.records)
         == AssignIds(Ids(old(p.nullifiers.records)), ProvedNullifiers(Inputs(x)), Offset(old(p.nullifiers.tree.count), SUB_TREE))
      && p.commitments.count == old(p.commitments.count) + |Inputs(x)| / 2
      && p.nullifiers.tree.count == old(p.nullifiers.tree.count) + |Inputs(x)| / 2
    ensures !ok ==>
      || !Admissible(old(p.nullifiers.records).Keys, ProvedNullifiers(Inputs(x)))
      || HindersBlock(if x.byFirst then p else f, if x.byFirst then f else p, Inputs(x))
  {
    hide SoundTree, WellLinked, HoldsRecords, StoredBelow, Ids, Admissible, AppendKeys, AssignIds, Offset, Batches, Pow2, ReadsBack, Shaped,
         ProvedNullifiers, InStep, Settled, RootsOf;
    TogetherIsMutual(lib.g.h, p, f);
    if x.byFirst {
      ok := FirstProposes(lib, p, f, x.deposits, x.clients);
    } else {
      SameKeys(p, f);
      ok := FirstProposes(lib, f, p, x.deposits, x.clients);
      if ok {
        TogetherIsMutual(lib.g.h, f, p);
        SameKeys(f, p);
      }
    }
  }

  lemma SameKeys(p: ProposerNode, f: ProposerNode)
    requires InStep(p, f)
    ensures p.nullifiers.tree.nodes.Keys == f.nullifiers.tree.nodes.Keys
    ensures p.nullifiers.tree.treeHeight == f.nullifiers.tree.treeHeight
    ensures p.nullifiers.tree.subTreeHeight == f.nullifiers.tree.subTreeHeight
  {
    hide SoundTree, WellLinked, HoldsRecords, StoredBelow, RootsOf;
  }

  /** The state of a run after `done` blocks, in terms of the records before it and now. */
  ghost predicate RunSoFar(was: Records, count: nat, run: seq<Proposal>, done: nat, now: Records)
    requires done <= |run|
  {
    var ns := RunNullifiers(run[..done]);
    && Admissible(was.Keys, ns) && Ids(now) == AssignIds(Ids(was), ns, Offset(count, SUB_TREE))
    && |ns| == Offset(RunBatches(run[..done]), SUB_TREE)
  }

  lemma RunStarts(was: Records, count: nat, run: seq<Proposal>)
    ensures RunSoFar(was, count, run, 0, was) && RunBatches(run[..0]) == 0
  {
    assert run[..0] == [];
    NothingIsAdmissible(was.Keys);
    NothingAssigned(Ids(was), Offset(count, SUB_TREE));
  }

  lemma RunNext(run: seq<Proposal>, done: nat)
    requires done < |run|
    ensures RunNullifiers(run[..done + 1]) == RunNullifiers(run[..done]) + ProvedNullifiers(Inputs(run[done]))
    ensures RunBatches(run[..done + 1]) == RunBatches(run[..done]) + |Inputs(run[done])| / 2
  {
    assert run[..done + 1][..done] == run[..done];
  }

  lemma {:induction false} RunBatchesGrow(run: seq<Proposal>, n: nat)
    requires n <= |run|
    ensures RunBatches(run[..n]) <= RunBatches(run)
  {
    if n < |run| {
      var init := run[..|run| - 1];
      RunBatchesGrow(init, n);
      assert init[..n] == run[..n];
    } else {
      assert run[..n] == run;
    }
  }

  /** One more block of the run. */
  lemma RunGrows(was: Records, count: nat, run: seq<Proposal>, done: nat, now: Records, next: Records)
    requires done < |run| && RunSoFar(was, count, run, done, now) && Proposable(run[done])
    requires Admissible(now.Keys, ProvedNullifiers(Inputs(run[done])))
    requires Ids(next) == AssignIds(Ids(now), ProvedNullifiers(Inputs(run[done])), Offset(count + RunBatches(run[..done]), SUB_TREE))
    ensures RunSoFar(was, count, run, done + 1, next)
  {
    hide Admissible, AssignIds, Ids, ProvedNullifiers, RunNullifiers, RunBatches, Shaped, Offset;
    var a, b, first := RunNullifiers(run[..done]), ProvedNullifiers(Inputs(run[done])), Offset(count, SUB_TREE);
    RunNext(run, done);
    EvenInputs(run[done].deposits, run[done].clients);
    HalvesAreWhole(Inputs(run[done]));
    AdmissibleSplit(was, now, a, b, first);
    AssignSplit(Ids(was), a, b, first);
    OffsetAdd(count, RunBatches(run[..done]), SUB_TREE);
    OffsetAdd(RunBatches(run[..done]), |Inputs(run[done])| / 2, SUB_TREE);
    WholeBatch(|b|, SUB_TREE);
  }

  /** A nullifier spent already is refused, and only then. */
  lemma RunAdmits(was: Records, count: nat, run: seq<Proposal>, done: nat, now: Records)
    requires done < |run| && RunSoFar(was, count, run, done, now)
    ensures Admissible(was.Keys, RunNullifiers(run[..done + 1])) <==> Admissible(now.Keys, ProvedNullifiers(Inputs(run[done])))
  {
    hide Admissible, AssignIds, Ids, ProvedNullifiers, RunNullifiers, RunBatches, Offset;
    RunNext(run, done);
    AdmissibleSplit(was, now, RunNullifiers(run[..done]), ProvedNullifiers(Inputs(run[done])), Offset(count, SUB_TREE));
  }

  lemma RoomForNext(p: ProposerNode, run: seq<Proposal>, done: nat, count: nat, comms: nat)
    requires done < |run| && Proposable(run[done])
    requires p.nullifiers.tree.count == count + RunBatches(run[..done]) && p.commitments.count == comms + RunBatches(run[..done])
    requires comms + 2 * RunBatches(run) <= Pow2(LEVELS) && count + 2 * RunBatches(run) <= Pow2(LEVELS)
    ensures RoomTwice(p, Inputs(run[done]))
  {
    hide RunBatches, RunNullifiers, ProvedNullifiers, Proposable, Inputs, RoomTwice, Pow2;
    var pis := Inputs(run[done]);
    RunNext(run, done);
    RunBatchesGrow(run, done + 1);
    EvenRun(run[done]);
    RoomArithmetic(count, RunBatches(run[..done]), |pis| / 2, RunBatches(run), Pow2(LEVELS));
    RoomArithmetic(comms, RunBatches(run[..done]), |pis| / 2, RunBatches(run), Pow2(LEVELS));
    IsRoomTwice(p, pis, |pis| / 2);
  }

  lemma EvenRun(x: Proposal)
    requires Proposable(x)
    ensures |Inputs(x)| == 2 * (|Inputs(x)| / 2)
  {
    hide Shaped;
    EvenInputs(x.deposits, x.clients);
  }

  lemma IsRoomTwice(p: ProposerNode, pis: seq<PublicInputs>, half: nat)
    requires |pis| == 2 * half && p.commitments.count + 2 * half <= Pow2(LEVELS) && p.nullifiers.tree.count + 2 * half <= Pow2(LEVELS)
    ensures RoomTwice(p, pis)
  {
    hide Pow2;
  }

  lemma RunEnds(was: Records, count: nat, run: seq<Proposal>, now: Records)
    requires RunSoFar(was, count, run, |run|, now)
    ensures Admissible(was.Keys, RunNullifiers(run)) && Ids(now) == AssignIds(Ids(was), RunNullifiers(run), Offset(count, SUB_TREE))
  {
    assert run[..|run|] == run;
    hide Admissible, AssignIds, Ids, RunNullifiers;
  }

  lemma TogetherMeans(h: Hasher, p: ProposerNode, f: ProposerNode)
    requires Together(h, p, f)
    ensures InStep(p, f) && p.historic.leaves == f.historic.leaves
  {
    hide SoundTree, WellLinked, HoldsRecords, StoredBelow, RootsOf, StoredUpTo;
  }

  /**
   Any run of blocks which either of two nodes proposes, each delivered before the next: as long as all are accepted,
   the nodes agree on trees, history and position after every block, and no nullifier is spent twice in the run or was
   spent before it. A run stops at the first block that spends a nullifier again, names a root that cannot be
   looked up, leaves the commitment root zero, or comes when the history is full.
   */
  method Rounds(lib: Library, p: ProposerNode, f: ProposerNode, run: seq<Proposal>) returns (done: nat)
    requires ReadsBack(lib) && Together(lib.g.h, p, f) && forall i :: 0 <= i < |run| ==> Proposable(run[i])
    requires p.commitments.count + 2 * RunBatches(run) <= Pow2(LEVELS) && p.nullifiers.tree.count + 2 * RunBatches(run) <= Pow2(LEVELS)
    modifies p, p.commitments, p.nullifiers, p.nullifiers.tree, p.historic
    modifies f, f.commitments, f.nullifiers, f.nullifiers.tree, f.historic
    ensures done <= |run|
    ensures done < |run| ==>
      || !Admissible(old(p.nullifiers.records).Keys, RunNullifiers(run[..done + 1]))
      || HindersBlock(if run[done].byFirst then p else f, if run[done].byFirst then f else p, Inputs(run[done]))
    ensures done == |run| ==>
      && InStep(p, f) && p.historic.leaves == f.historic.leaves && p.expected == old(p.expected) + |run|
      && Admissible(old(p.nullifiers.records).Keys, RunNullifiers(run))
      && Ids(p.nullifiers.records)
         == AssignIds(Ids(old(p.nullifiers.records)), RunNullifiers(run), Offset(old(p.nullifiers.tree.count), SUB_TREE))
  {
    hide *;
    ghost var was, count, comms, start := p.nullifiers.records, p.nullifiers.tree.count, p.commitments.count, p.expected;
    done := 0;
    RunStarts(was, count, run);
    while done < |run|
      invariant done <= |run| && Together(lib.g.h, p, f) && p.expected == start + done
      invariant RunSoFar(was, count, run, done, p.nullifiers.records)
      invariant p.nullifiers.tree.count == count + RunBatches(run[..done]) && p.commitments.count == comms + RunBatches(run[..done])
    {
      RoomForNext(p, run, done, count, comms);
      RunNext(run, done);
      ghost var now := p.nullifiers.records;
      RunAdmits(was, count, run, done, now);
      var ok := EitherProposes(lib, p, f, run[done]);
      if !ok {
        return;
      }
      RunGrows(was, count, run, done, now, p.nullifiers.records);
      done := done + 1;
    }
    RunEnds(was, count, run, p.nullifiers.records);
    TogetherMeans(lib.g.h, p, f);
  }
}
