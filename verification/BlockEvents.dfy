/**
 What a node does with the stream of block events: which it applies, in which order, and what
 its trees then hold. Client and proposer decide alike; what they apply differs.
 */
module BlockEvents {
  import opened Field
  import opened Merkle
  import opened AppendSpec
  import opened NodeKeys
  import opened LinkedRecords
  import opened IndexedSpec
  import opened MutableTrees
  import opened IndexedTrees
  import opened Agreement

  type Address = nat

  datatype Block = Block(commitmentsRoot: Fr, transactions: seq<OnChainTransaction>)

  /** A BlockProposed event with the block of its transaction and that transaction's signer. */
  datatype BlockEvent = BlockEvent(number: nat, block: Block, sender: Address)

  datatype StoredBlock = StoredBlock(number: nat, commitments: seq<Fr>, proposer: Address)

  datatype EventError = MissingBlocks(expected: nat) | BlockHashError(stored: Fr, pending: Fr) | IOError

  datatype Outcome = Ok | Err(error: EventError)

  /** The hash of a stored block, over its commitments and its proposer. */
  type Digest = (seq<Fr>, Address) -> Fr

  function Pending(e: BlockEvent): StoredBlock {
    StoredBlock(e.number, BlockCommitments(e.block.transactions), e.sender)
  }

  function HashOf(digest: Digest, b: StoredBlock): Fr {
    digest(b.commitments, b.proposer)
  }

  /** A block that is there keeps its proposer; only its commitments are replaced. */
  function StoreBlock(stored: map<nat, StoredBlock>, b: StoredBlock): map<nat, StoredBlock> {
    stored[b.number := if b.number in stored then stored[b.number].(commitments := b.commitments) else b]
  }

  // ---------------------------------------------------------------- the position in the stream

  datatype Verdict = Missing | Seen | Mismatch | Next

  /** The next block expected, the stored blocks, and the blocks applied so far. */
  datatype Cursor = Cursor(expected: nat, stored: map<nat, StoredBlock>, log: seq<Block>) {
    function Judge(digest: Digest, e: BlockEvent): Verdict {
      if expected < e.number then Missing
      else if expected > e.number then Seen
      else if expected in stored && HashOf(digest, stored[expected]) != HashOf(digest, Pending(e)) then Mismatch
      else Next
    }

    /** `taken` says whether the trees take the block's contents; the block is passed in either case. */
    function Advance(digest: Digest, e: BlockEvent, taken: bool): Cursor {
      match Judge(digest, e)
      case Missing => this
      case Seen => this
      case Mismatch => this.(stored := stored - {expected})
      case Next =>
        if taken then Cursor(expected + 1, StoreBlock(stored, Pending(e)), log + [e.block])
        else this.(expected := expected + 1)
    }
  }

  /** An event that is passed, and whether the trees take it. */
  datatype Passing = Passing(event: BlockEvent, taken: bool)

  /**
   What happens to a node: an event comes, or the stored blocks change for another reason, as when
   the node stores a block of its own that it proposes. Then they may become any blocks whatever.
   */
  datatype Arrival = Delivered(passing: Passing) | Restocked(stored: map<nat, StoredBlock>)

  function Run(digest: Digest, c: Cursor, arrivals: seq<Arrival>): Cursor {
    if arrivals == [] then c else
    var n := |arrivals| - 1;
    var now := Run(digest, c, arrivals[..n]);
    match arrivals[n]
    case Delivered(p) => now.Advance(digest, p.event, p.taken)
    case Restocked(stored) => now.(stored := stored)
  }

  /** The events of a run that are passed, in order. */
  function Passed(digest: Digest, c: Cursor, arrivals: seq<Arrival>): seq<Passing> {
    if arrivals == [] then [] else
    var n := |arrivals| - 1;
    var before := Passed(digest, c, arrivals[..n]);
    match arrivals[n]
    case Delivered(p) => if Run(digest, c, arrivals[..n]).Judge(digest, p.event) == Next then before + [p] else before
    case Restocked(_) => before
  }

  function TakenBlocks(passed: seq<Passing>): seq<Block> {
    if passed == [] then [] else
    var n := |passed| - 1;
    if passed[n].taken then TakenBlocks(passed[..n]) + [passed[n].event.block] else TakenBlocks(passed[..n])
  }

  /**
   In any stream, duplicates, gaps, reordering and mismatches included, the blocks passed have the
   numbers from the start on, each once and in order, and the log grows by those that are taken.
   */
  lemma {:induction false} PassedInOrder(digest: Digest, c: Cursor, arrivals: seq<Arrival>)
    ensures var passed, end := Passed(digest, c, arrivals), Run(digest, c, arrivals);
            && end.expected == c.expected + |passed|
            && (forall i :: 0 <= i < |passed| ==> passed[i].event.number == c.expected + i)
            && end.log == c.log + TakenBlocks(passed)
  {
    if arrivals != [] {
      var n := |arrivals| - 1;
      PassedInOrder(digest, c, arrivals[..n]);
      var before := Passed(digest, c, arrivals[..n]);
      if arrivals[n].Delivered? {
        assert (before + [arrivals[n].passing])[..|before|] == before;
      }
    }
  }

  ghost predicate AllTaken(passed: seq<Passing>) {
    forall i :: 0 <= i < |passed| ==> passed[i].taken
  }

  lemma {:induction false} TakenCount(passed: seq<Passing>)
    ensures |TakenBlocks(passed)| <= |passed|
    ensures |TakenBlocks(passed)| == |passed| <==> AllTaken(passed)
    ensures AllTaken(passed) ==> forall i :: 0 <= i < |passed| ==> TakenBlocks(passed)[i] == passed[i].event.block
  {
    if passed != [] {
      var n := |passed| - 1;
      TakenCount(passed[..n]);
      assert AllTaken(passed) <==> AllTaken(passed[..n]) && passed[n].taken by {
        assert passed == passed[..n] + [passed[n]];
      }
    }
  }

  ghost predicate OfChain(chain: seq<Block>, e: BlockEvent) {
    e.number < |chain| && e.block == chain[e.number]
  }

  /** Every event carries the block which the chain has at its number. */
  ghost predicate FromChain(chain: seq<Block>, arrivals: seq<Arrival>) {
    forall i :: 0 <= i < |arrivals| && arrivals[i].Delivered? ==> OfChain(chain, arrivals[i].passing.event)
  }

  ghost predicate AllOfChain(chain: seq<Block>, passed: seq<Passing>) {
    forall i :: 0 <= i < |passed| ==> OfChain(chain, passed[i].event)
  }

  /** No block passed yet; what is stored from before is arbitrary. */
  ghost predicate AtStart(c: Cursor) {
    c.expected == 0 && c.log == []
  }

  lemma {:induction false} PassedOfChain(digest: Digest, c: Cursor, arrivals: seq<Arrival>, chain: seq<Block>)
    requires FromChain(chain, arrivals)
    ensures AllOfChain(chain, Passed(digest, c, arrivals))
  {
    if arrivals != [] {
      var n := |arrivals| - 1;
      PassedOfChain(digest, c, arrivals[..n], chain);
    }
  }

  lemma TakenIsChainPrefix(passed: seq<Passing>, chain: seq<Block>)
    requires AllOfChain(chain, passed) && forall i :: 0 <= i < |passed| ==> passed[i].event.number == i
    ensures |passed| <= |chain|
    ensures TakenBlocks(passed) == chain[..|passed|] <==> AllTaken(passed)
  {
    TakenCount(passed);
    if passed != [] {
      assert OfChain(chain, passed[|passed| - 1].event);
    }
  }

  // ---------------------------------------------------------------- which chains are taken

  ghost function NullifiersOf(chain: seq<Block>): seq<Fr> {
    if chain == [] then [] else NullifiersOf(chain[..|chain| - 1]) + BlockNullifiers(chain[|chain| - 1].transactions)
  }

  /** Commitments and nullifiers come in whole sub-trees of eight. */
  ghost predicate Whole(b: Block) {
    IsWhole(|BlockCommitments(b.transactions)|, 3) && IsWhole(|BlockNullifiers(b.transactions)|, 3)
  }

  ghost predicate AllWhole(chain: seq<Block>) {
    forall i :: 0 <= i < |chain| ==> Whole(chain[i])
  }

  /** The chains a proposer can follow: whole blocks, and no nullifier but zero twice in all of them. */
  ghost predicate ChainTakes(chain: seq<Block>) {
    AllWhole(chain) && Admissible({0}, NullifiersOf(chain))
  }

  lemma {:induction false} NullifiersSplit(a: seq<Block>, b: seq<Block>)
    ensures NullifiersOf(a + b) == NullifiersOf(a) + NullifiersOf(b)
  {
    if b == [] {
      assert a + b == a;
    } else {
      assert (a + b)[..|a + b| - 1] == a + b[..|b| - 1];
      NullifiersSplit(a, b[..|b| - 1]);
    }
  }

  /** What holds of a chain holds of its beginnings. */
  lemma ChainTakesPrefix(chain: seq<Block>, n: nat)
    requires ChainTakes(chain) && n <= |chain|
    ensures ChainTakes(chain[..n])
  {
    NullifiersSplit(chain[..n], chain[n..]);
    assert chain[..n] + chain[n..] == chain;
    AdmissibleHead({0}, NullifiersOf(chain), NullifiersOf(chain[..n]));
  }

  /** A block with a nullifier of an earlier block, or with one twice, ends what can be followed. */
  lemma RepeatedNullifierEndsChain(chain: seq<Block>, i: nat, j: nat, v: Fr)
    requires i < j < |chain| && v != 0
    requires v in BlockNullifiers(chain[i].transactions) && v in BlockNullifiers(chain[j].transactions)
    ensures !ChainTakes(chain[..j + 1])
  {
    var a, b := chain[..i + 1], chain[i + 1..j + 1];
    NullifiersSplit(a, b);
    assert a + b == chain[..j + 1] && b[|b| - 1] == chain[j] && a[|a| - 1] == chain[i];
    var x, y := NullifiersOf(a), NullifiersOf(b);
    assert v in x && v in y;
    MetTwice(x, y, v);
  }

  lemma MetTwice(x: seq<Fr>, y: seq<Fr>, v: Fr)
    requires v in x && v in y && v != 0
    ensures !Admissible({0}, x + y)
  {
    var m :| 0 <= m < |x| && x[m] == v;
    var k :| 0 <= k < |y| && y[k] == v;
    assert (x + y)[..|x| + k][m] == v;
    assert !FreshAt({0}, x + y, |x| + k);
  }

  /** As long as all went well so far, a block is taken exactly if the chain up to it is one that can be followed. */
  ghost predicate JudgedByChain(chain: seq<Block>, passed: seq<Passing>) {
    |passed| <= |chain|
    && forall i :: 0 <= i < |passed| && AllTaken(passed[..i]) ==> (passed[i].taken <==> ChainTakes(chain[..i + 1]))
  }

  lemma {:induction false} AllTakenIffChainTakes(chain: seq<Block>, passed: seq<Passing>)
    requires JudgedByChain(chain, passed)
    ensures AllTaken(passed) <==> ChainTakes(chain[..|passed|])
  {
    hide ChainTakes;
    if passed == [] {
      assert chain[..0] == [];
      EmptyChainTakes();
    } else {
      var n := |passed| - 1;
      var init := passed[..n];
      assert JudgedByChain(chain, init) by {
        forall i | 0 <= i < n && AllTaken(init[..i])
          ensures init[i].taken <==> ChainTakes(chain[..i + 1])
        {
          assert init[..i] == passed[..i];
        }
      }
      AllTakenIffChainTakes(chain, init);
      assert AllTaken(passed) <==> AllTaken(init) && passed[n].taken by {
        assert passed == init + [passed[n]];
      }
      if ChainTakes(chain[..|passed|]) {
        ChainTakesPrefix(chain[..|passed|], n);
        assert chain[..|passed|][..n] == chain[..n];
      }
    }
  }

  lemma EmptyChainTakes()
    ensures ChainTakes([])
  {
  }

  /**
   For any stream of events of one chain, whatever was and gets stored: the log is the blocks 0 to
   expected - 1, each once and in order, if and only if these blocks are whole and repeat no nullifier.
   */
  lemma LogIsChainPrefix(digest: Digest, c: Cursor, arrivals: seq<Arrival>, chain: seq<Block>)
    requires AtStart(c) && FromChain(chain, arrivals)
    ensures var end, passed := Run(digest, c, arrivals), Passed(digest, c, arrivals);
            && end.expected == |passed| <= |chain|
            && (end.log == chain[..end.expected] <==> AllTaken(passed))
            && (JudgedByChain(chain, passed) ==> (end.log == chain[..end.expected] <==> ChainTakes(chain[..end.expected])))
  {
    hide ChainTakes;
    var passed := Passed(digest, c, arrivals);
    PassedInOrder(digest, c, arrivals);
    PassedOfChain(digest, c, arrivals, chain);
    TakenIsChainPrefix(passed, chain);
    assert c.log + TakenBlocks(passed) == TakenBlocks(passed);
    if JudgedByChain(chain, passed) {
      AllTakenIffChainTakes(chain, passed);
    }
  }

  /**
   Nodes that have passed equally many blocks of a chain that can be followed, each from its own
   stream and with its own stored blocks, have applied the same.
   */
  lemma StreamsAgree(digest: Digest, c: Cursor, a: seq<Arrival>, d: Cursor, b: seq<Arrival>, chain: seq<Block>)
    requires AtStart(c) && AtStart(d) && FromChain(chain, a) && FromChain(chain, b)
    requires JudgedByChain(chain, Passed(digest, c, a)) && JudgedByChain(chain, Passed(digest, d, b))
    requires Run(digest, c, a).expected == Run(digest, d, b).expected
    requires Run(digest, c, a).expected <= |chain| && ChainTakes(chain[..Run(digest, c, a).expected])
    ensures Run(digest, c, a).log == Run(digest, d, b).log
  {
    hide ChainTakes;
    LogIsChainPrefix(digest, c, a, chain);
    LogIsChainPrefix(digest, d, b, chain);
  }

  /** A block that the trees refuse is passed and never applied, even when its event comes again. */
  lemma RefusedBlockIsLost(digest: Digest, c: Cursor, e: BlockEvent)
    requires c.Judge(digest, e) == Next
    ensures var once := c.Advance(digest, e, false);
            once.log == c.log && once.Judge(digest, e) == Seen && once.Advance(digest, e, true) == once
  {
  }

  /** A mismatch costs one delivery: it drops the stored block, so that the next event with that number passes. */
  lemma MismatchPassesNextTime(digest: Digest, c: Cursor, e: BlockEvent, f: BlockEvent, taken: bool)
    requires c.Judge(digest, e) == Mismatch && f.number == e.number
    ensures var again := c.Advance(digest, e, taken);
            again.expected == c.expected && again.log == c.log && again.Judge(digest, f) == Next
  {
  }

  /** Blocks are stored only at numbers already passed. */
  ghost predicate StoredBehind(c: Cursor) {
    forall n :: n in c.stored ==> n < c.expected
  }

  /** A node that stores blocks only here meets no mismatch: it moves on exactly when the expected number comes. */
  lemma {:induction false} NoMismatchFromFresh(digest: Digest, c: Cursor, arrivals: seq<Arrival>, e: BlockEvent)
    requires StoredBehind(c) && forall i :: 0 <= i < |arrivals| ==> arrivals[i].Delivered?
    ensures StoredBehind(Run(digest, c, arrivals))
    ensures var now := Run(digest, c, arrivals); now.Judge(digest, e) == Next <==> e.number == now.expected
  {
    if arrivals != [] {
      NoMismatchFromFresh(digest, c, arrivals[..|arrivals| - 1], arrivals[|arrivals| - 1].passing.event);
    }
  }

  /** No two blocks that differ in commitments or proposer have the same hash. */
  ghost predicate Separates(digest: Digest) {
    forall cs: seq<Fr>, a: Address, ds: seq<Fr>, b: Address :: digest(cs, a) == digest(ds, b) ==> cs == ds && a == b
  }

  /**
   A block stored at the expected number lets an event with that number pass if and only if the event has
   its commitments and comes from its proposer.
   */
  lemma StoredBlockDecides(digest: Digest, c: Cursor, e: BlockEvent)
    requires Separates(digest) && e.number == c.expected && c.expected in c.stored
    ensures c.Judge(digest, e) == Next <==>
              c.stored[c.expected].commitments == BlockCommitments(e.block.transactions) && c.stored[c.expected].proposer == e.sender
  {
  }

  /**
   A block that is taken is stored with its number, its commitments and its sender, provided that the block
   stored there before, if any, was stored under that number.
   */
  lemma TakenBlockIsStored(digest: Digest, c: Cursor, e: BlockEvent)
    requires Separates(digest) && c.Judge(digest, e) == Next
    requires e.number in c.stored ==> c.stored[e.number].number == e.number
    ensures var now := c.Advance(digest, e, true);
            && now.stored.Keys == c.stored.Keys + {e.number}
            && now.stored[e.number] == StoredBlock(e.number, BlockCommitments(e.block.transactions), e.sender)
            && forall n :: n in c.stored && n != e.number ==> now.stored[n] == c.stored[n]
  {
  }

  // ---------------------------------------------------------------- what a client keeps of its own commitments

  datatype Status = PendingCreation | Unspent | PendingSpend | Spent

  datatype CommitmentEntry = CommitmentEntry(nullifier: Fr, status: Status)

  function MarkUnspent(db: map<Fr, CommitmentEntry>, commitments: seq<Fr>): map<Fr, CommitmentEntry> {
    map k | k in db :: if k in commitments then db[k].(status := Unspent) else db[k]
  }

  function MarkSpent(db: map<Fr, CommitmentEntry>, nullifiers: seq<Fr>): map<Fr, CommitmentEntry> {
    map k | k in db :: if db[k].nullifier in nullifiers then db[k].(status := Spent) else db[k]
  }

  /**
   The two updates run side by side, and may meet in a different order at each entry: what an entry
   becomes is what one order or the other makes of it.
   */
  ghost predicate MarkedInSomeOrder(db: map<Fr, CommitmentEntry>, commitments: seq<Fr>, nullifiers: seq<Fr>, now: map<Fr, CommitmentEntry>) {
    && now.Keys == db.Keys
    && forall k :: k in db ==>
         || now[k] == MarkSpent(MarkUnspent(db, commitments), nullifiers)[k]
         || now[k] == MarkUnspent(MarkSpent(db, nullifiers), commitments)[k]
  }

  /** All ways to interleave them agree if and only if the block does not both create and spend a commitment of the client. */
  lemma MarksCommute(db: map<Fr, CommitmentEntry>, commitments: seq<Fr>, nullifiers: seq<Fr>)
    ensures (forall x, y :: MarkedInSomeOrder(db, commitments, nullifiers, x) && MarkedInSomeOrder(db, commitments, nullifiers, y) ==> x == y)
            <==> forall k :: k in db && k in commitments ==> db[k].nullifier !in nullifiers
  {
    var x := MarkSpent(MarkUnspent(db, commitments), nullifiers);
    var y := MarkUnspent(MarkSpent(db, nullifiers), commitments);
    assert MarkedInSomeOrder(db, commitments, nullifiers, x) && MarkedInSomeOrder(db, commitments, nullifiers, y);
    if k :| k in db && k in commitments && db[k].nullifier in nullifiers {
      assert x[k].status == Spent && y[k].status == Unspent;
    } else {
      forall k | k in db
        ensures x[k] == y[k]
      {
      }
      forall z | MarkedInSomeOrder(db, commitments, nullifiers, z)
        ensures z == x
      {
      }
    }
  }

  function UnspentEntry(k: Fr, e: CommitmentEntry, commitments: seq<Fr>): CommitmentEntry {
    if k in commitments then e.(status := Unspent) else e
  }

  function SpentEntry(e: CommitmentEntry, nullifiers: seq<Fr>): CommitmentEntry {
    if e.nullifier in nullifiers then e.(status := Spent) else e
  }

  /** An entry after the updates that have reached it. */
  ghost predicate PartlyMarked(k: Fr, e: CommitmentEntry, commitments: seq<Fr>, nullifiers: seq<Fr>,
                               unspentToDo: bool, spentToDo: bool, now: CommitmentEntry)
  {
    var u, s := UnspentEntry(k, e, commitments), SpentEntry(e, nullifiers);
    if unspentToDo && spentToDo then now == e
    else if unspentToDo then now == s
    else if spentToDo then now == u
    else now == SpentEntry(u, nullifiers) || now == UnspentEntry(k, s, commitments)
  }

  /**
   What comes of the updates in either order, entry by entry: created ones end as unspent and spent ones as
   spent; one that is both ends as one of the two, and all others stay as they are.
   */
  lemma MarkedMeans(db: map<Fr, CommitmentEntry>, commitments: seq<Fr>, nullifiers: seq<Fr>, now: map<Fr, CommitmentEntry>)
    ensures MarkedInSomeOrder(db, commitments, nullifiers, now) <==>
              && now.Keys == db.Keys
              && forall k :: k in db ==>
                   && now[k].nullifier == db[k].nullifier
                   && (k in commitments && db[k].nullifier !in nullifiers ==> now[k].status == Unspent)
                   && (k !in commitments && db[k].nullifier in nullifiers ==> now[k].status == Spent)
                   && (k in commitments && db[k].nullifier in nullifiers ==> now[k].status == Unspent || now[k].status == Spent)
                   && (k !in commitments && db[k].nullifier !in nullifiers ==> now[k].status == db[k].status)
  {
  }

  /** Each update goes through the entries in its own order, the one running between the steps of the other. */
  method MarkBoth(db: map<Fr, CommitmentEntry>, commitments: seq<Fr>, nullifiers: seq<Fr>) returns (now: map<Fr, CommitmentEntry>)
    ensures MarkedInSomeOrder(db, commitments, nullifiers, now)
  {
    now := db;
    var unspent, spent := db.Keys, db.Keys;
    while unspent != {} || spent != {}
      invariant unspent <= db.Keys && spent <= db.Keys && now.Keys == db.Keys
      invariant forall k :: k in db ==> PartlyMarked(k, db[k], commitments, nullifiers, k in unspent, k in spent, now[k])
      decreases |unspent| + |spent|
    {
      var first := true;
      if unspent == {} {
        first := false;
      } else if spent != {} {
        if * {
          first := false;
        }
      }
      if first {
        var k :| k in unspent;
        now, unspent := now[k := UnspentEntry(k, now[k], commitments)], unspent - {k};
      } else {
        var k :| k in spent;
        now, spent := now[k := SpentEntry(now[k], nullifiers)], spent - {k};
      }
    }
    forall k | k in db
      ensures now[k] == MarkSpent(MarkUnspent(db, commitments), nullifiers)[k] || now[k] == MarkUnspent(MarkSpent(db, nullifiers), commitments)[k]
    {
      assert PartlyMarked(k, db[k], commitments, nullifiers, false, false, now[k]);
    }
  }

  // ---------------------------------------------------------------- the client

  ghost function CommitmentsOf(log: seq<Block>): seq<Fr> {
    if log == [] then [] else CommitmentsOf(log[..|log| - 1]) + BlockCommitments(log[|log| - 1].transactions)
  }

  lemma SpliceAtEnd(leaves: seq<Fr>, more: seq<Fr>)
    ensures Splice(leaves, |leaves|, more) == leaves + more
  {
    var x, y := Splice(leaves, |leaves|, more), leaves + more;
    forall k: nat | k < |y|
      ensures x[k] == y[k]
    {
      assert LeafOrZero(x, k) == if |leaves| <= k then more[k - |leaves|] else leaves[k];
    }
  }

  class ClientNode {
    const digest: Digest
    const tree: MutableTree
    var expected: nat
    var stored: map<nat, StoredBlock>
    var commitments: map<Fr, CommitmentEntry>
    /** The blocks applied so far. */
    ghost var log: seq<Block>

    ghost function Position(): Cursor
      reads this
    {
      Cursor(expected, stored, log)
    }

    /** The tree holds the commitments of the applied blocks, in order, and nothing else. */
    ghost predicate Valid()
      reads this, tree
    {
      && tree.Valid()
      && tree.leaves == CommitmentsOf(log)
      && |tree.leaves| == Offset(tree.count, tree.subTreeHeight)
    }

    constructor (digest: Digest, h: Hasher)
      requires h.ZeroPreserving()
      ensures Valid() && fresh(tree) && Position() == Cursor(0, map[], [])
      ensures tree.treeHeight == 29 && tree.subTreeHeight == 3 && tree.count == 0 && this.digest == digest
    {
      this.digest := digest;
      tree := new MutableTree(h, 29, 3);
      expected, stored, commitments, log := 0, map[], map[], [];
    }

    /** Appends the block's commitments and marks the client's own ones. */
    method ApplyContents(cs: seq<Fr>, ns: seq<Fr>) returns (ok: bool)
      requires tree.Valid() && |tree.leaves| == Offset(tree.count, tree.subTreeHeight)
      requires tree.count + Batches(|cs|, tree.subTreeHeight) <= Pow2(tree.treeHeight)
      modifies `commitments, tree
      ensures tree.Valid() && |tree.leaves| == Offset(tree.count, tree.subTreeHeight)
      ensures ok <==> IsWhole(|cs|, tree.subTreeHeight)
      ensures !ok ==> unchanged(tree) && commitments == old(commitments)
      ensures ok ==>
                && tree.leaves == old(tree.leaves) + cs
                && tree.count == old(tree.count) + Batches(|cs|, tree.subTreeHeight)
                && MarkedInSomeOrder(old(commitments), cs, ns, commitments)
    {
      hide Represents, NodeVal, Append, SoundTree, Splice, MarkSpent, MarkUnspent, MarkedInSomeOrder;
      ghost var leaves, count := tree.leaves, tree.count;
      NothingIsWhole(tree.subTreeHeight);
      var appended := tree.CommitSubTrees(cs);
      if appended.Err? {
        return false;
      }
      commitments := MarkBoth(commitments, cs, ns);
      SpliceAtEnd(leaves, cs);
      assert leaves + [] == leaves;
      WholeBatch(|cs|, tree.subTreeHeight);
      OffsetAdd(count, Batches(|cs|, tree.subTreeHeight), tree.subTreeHeight);
      ok := true;
    }

    /** One BlockProposed event; `taken` tells whether the tree takes the commitments. */
    method ProcessProposeBlock(e: BlockEvent) returns (r: Outcome, ghost taken: bool)
      requires Valid()
      requires Position().Judge(digest, e) == Next ==>
                 tree.count + Batches(|BlockCommitments(e.block.transactions)|, tree.subTreeHeight) <= Pow2(tree.treeHeight)
      modifies this, tree
      ensures Valid()
      ensures Position() == old(Position()).Advance(digest, e, taken)
      ensures taken <==> IsWhole(|BlockCommitments(e.block.transactions)|, tree.subTreeHeight)
      ensures match old(Position()).Judge(digest, e)
              case Missing => r == Err(MissingBlocks(old(expected)))
              case Seen => r == Ok
              case Mismatch => r == Err(BlockHashError(HashOf(digest, old(stored)[old(expected)]), HashOf(digest, Pending(e))))
              case Next => r == if taken then Ok else Err(IOError)
      ensures old(Position()).Judge(digest, e) != Next || !taken ==> unchanged(tree) && commitments == old(commitments)
      ensures old(Position()).Judge(digest, e) == Next && taken ==>
                var cs, ns := BlockCommitments(e.block.transactions), BlockNullifiers(e.block.transactions);
                && tree.count == old(tree.count) + Batches(|cs|, tree.subTreeHeight)
                && commitments.Keys == old(commitments).Keys
                && forall k :: k in old(commitments) ==>
                     var was, now := old(commitments)[k], commitments[k];
                     && now.nullifier == was.nullifier
                     && (k in cs && was.nullifier !in ns ==> now.status == Unspent)
                     && (k !in cs && was.nullifier in ns ==> now.status == Spent)
                     && (k in cs && was.nullifier in ns ==> now.status == Unspent || now.status == Spent)
                     && (k !in cs && was.nullifier !in ns ==> now.status == was.status)
    {
      hide SoundTree, MarkedInSomeOrder, StoreBlock, HashOf, Offset;
      var cs, ns := BlockCommitments(e.block.transactions), BlockNullifiers(e.block.transactions);
      taken := IsWhole(|cs|, tree.subTreeHeight);
      if expected < e.number {
        return Err(MissingBlocks(expected)), taken;
      }
      if expected > e.number {
        return Ok, taken;
      }
      if expected in stored {
        var existing, pending := HashOf(digest, stored[expected]), HashOf(digest, Pending(e));
        if existing != pending {
          stored := stored - {expected};
          return Err(BlockHashError(existing, pending)), taken;
        }
      }
      ghost var c := Position();
      assert c.Judge(digest, e) == Next;
      expected := expected + 1;
      ghost var entries := commitments;
      var ok := ApplyContents(cs, ns);
      if !ok {
        return Err(IOError), taken;
      }
      MarkedMeans(entries, cs, ns, commitments);
      stored := StoreBlock(stored, Pending(e));
      log := log + [e.block];
      assert log[..|log| - 1] == old(log);
      r := Ok;
    }
  }

  // ---------------------------------------------------------------- a client's run

  /** The sub-trees that the commitments of a chain fill. */
  ghost function CommitmentBatches(chain: seq<Block>): nat {
    if chain == [] then 0 else
    CommitmentBatches(chain[..|chain| - 1]) + Batches(|BlockCommitments(chain[|chain| - 1].transactions)|, 3)
  }

  ghost predicate WholeCommitments(b: Block) {
    IsWhole(|BlockCommitments(b.transactions)|, 3)
  }

  ghost predicate AllWholeCommitments(chain: seq<Block>) {
    forall i :: 0 <= i < |chain| ==> WholeCommitments(chain[i])
  }

  lemma {:induction false} BatchesGrow(chain: seq<Block>, n: nat)
    requires n <= |chain|
    ensures CommitmentBatches(chain[..n]) <= CommitmentBatches(chain)
  {
    if n < |chain| {
      var init := chain[..|chain| - 1];
      BatchesGrow(init, n);
      assert init[..n] == chain[..n];
    } else {
      assert chain[..n] == chain;
    }
  }

  /** The step from `n` to `n + 1` blocks of a chain. */
  lemma OneMoreBlock(chain: seq<Block>, n: nat)
    requires n < |chain|
    ensures chain[..n + 1] == chain[..n] + [chain[n]] && chain[..n + 1][..n] == chain[..n]
    ensures CommitmentBatches(chain[..n + 1]) == CommitmentBatches(chain[..n]) + Batches(|BlockCommitments(chain[n].transactions)|, 3)
    ensures CommitmentBatches(chain[..n + 1]) <= CommitmentBatches(chain)
    ensures CommitmentsOf(chain[..n + 1]) == CommitmentsOf(chain[..n]) + BlockCommitments(chain[n].transactions)
    ensures AllWholeCommitments(chain[..n + 1]) <==> AllWholeCommitments(chain[..n]) && WholeCommitments(chain[n])
  {
    hide BlockCommitments, Batches, WholeCommitments;
    BatchesGrow(chain, n + 1);
    var front := chain[..n + 1];
    assert front[..n] == chain[..n] && front[n] == chain[n];
    assert front == chain[..n] + [chain[n]];
  }

  /**
   A client fed any stream of events of a chain, whatever it had stored, holds the commitments of the
   blocks it applied and the root of exactly these. It has applied the blocks 0 to expected - 1, in order
   and each once, if and only if the commitments of all these blocks are whole sub-trees.
   */
  method FollowChain(node: ClientNode, events: seq<BlockEvent>, ghost chain: seq<Block>)
    requires node.Valid() && AtStart(node.Position()) && node.tree.count == 0 && node.tree.subTreeHeight == 3
    requires CommitmentBatches(chain) <= Pow2(node.tree.treeHeight)
    requires forall i :: 0 <= i < |events| ==> OfChain(chain, events[i])
    modifies node, node.tree
    ensures node.Valid() && node.expected <= |chain|
    ensures node.tree.root == TreeRoot(node.tree.h, node.tree.treeHeight + 3, CommitmentsOf(node.log))
    ensures node.log == chain[..node.expected] <==> AllWholeCommitments(chain[..node.expected])
    ensures AllWholeCommitments(chain[..node.expected]) ==> node.tree.leaves == CommitmentsOf(chain[..node.expected])
  {
    hide CommitmentsOf, WholeCommitments, Batches, Offset, CommitmentBatches, Represents, NodeVal, IsWhole;
    for i := 0 to |events|
      invariant node.Valid() && node.expected <= |chain| && |node.log| <= node.expected
      invariant node.log == chain[..node.expected] <==> AllWholeCommitments(chain[..node.expected])
      invariant |node.log| == node.expected ==> AllWholeCommitments(chain[..node.expected])
      invariant node.tree.count <= CommitmentBatches(chain[..node.expected])
    {
      var e := events[i];
      ghost var n, log := node.expected, node.log;
      assert OfChain(chain, e);
      if node.Position().Judge(node.digest, e) == Next {
        OneMoreBlock(chain, n);
        TakenCommitments(e.block);
      }
      var r; ghost var taken;
      r, taken := node.ProcessProposeBlock(e);
      if node.expected > n {
        LogGrows(chain, n, log, node.log, taken);
      }
    }
  }

  lemma TakenCommitments(b: Block)
    ensures WholeCommitments(b) <==> IsWhole(|BlockCommitments(b.transactions)|, 3)
  {
  }

  /** A log follows the chain for one block more exactly if it did before and the block is taken. */
  lemma LogGrows(chain: seq<Block>, n: nat, log: seq<Block>, log': seq<Block>, taken: bool)
    requires n < |chain| && |log| <= n && log' == (if taken then log + [chain[n]] else log)
    ensures log' == chain[..n + 1] <==> log == chain[..n] && taken
    ensures |log'| <= n + 1 && (|log'| == n + 1 ==> taken && |log| == n)
  {
    assert chain[..n + 1] == chain[..n] + [chain[n]];
    if log' == chain[..n + 1] {
      assert taken;
      assert log == log'[..n] == chain[..n];
    }
  }

  // ---------------------------------------------------------------- the proposer

  ghost function RootsOf(log: seq<Block>): (r: seq<Fr>)
    ensures |r| == |log|
  {
    seq(|log|, i requires 0 <= i < |log| => log[i].commitmentsRoot)
  }

  lemma GenesisHistory()
    ensures IsWhole(1, 0) && Batches(1, 0) == 1 && 1 <= Pow2(32)
    ensures Splice([], Offset(0, 0), [0]) == [0] + RootsOf([])
  {
    assert Pow2(0) == 1;
    hide Pow2;
    SpliceAtEnd([], [0]);
  }

  /** The historic roots' tree with its first leaf, zero. */
  method NewHistory(h: Hasher) returns (t: MutableTree)
    requires h.ZeroPreserving()
    ensures fresh(t) && t.Valid() && t.h == h && t.treeHeight == 32 && t.subTreeHeight == 0
    ensures t.leaves == [0] + RootsOf([]) && t.count == 1
  {
    hide SoundTree, Splice, RootsOf, IsWhole, Batches, Offset, Pow2, Append;
    GenesisHistory();
    t := new MutableTree(h, 32, 0);
    var zero := t.CommitSubTrees([0]);
  }

  class ProposerNode {
    const digest: Digest
    const us: Address
    const commitments: MutableTree
    const nullifiers: IndexedTree
    const historic: MutableTree
    var expected: nat
    var synchronised: bool
    var stored: map<nat, StoredBlock>
    ghost var log: seq<Block>

    ghost function Position(): Cursor
      reads this
    {
      Cursor(expected, stored, log)
    }

    ghost predicate Separate()
      reads this, nullifiers
    {
      commitments != historic && commitments != nullifiers.tree && historic != nullifiers.tree
    }

    /** The historic roots' tree holds zero and then the roots of the applied blocks, in order. */
    ghost predicate HistoryValid()
      reads this, historic
    {
      && historic.Sound() && historic.subTreeHeight == 0
      && historic.leaves == [0] + RootsOf(log)
      && historic.count == 1 + |log|
    }

    ghost predicate Valid()
      reads this, commitments, nullifiers, nullifiers.tree, historic
    {
      Separate() && commitments.Valid() && nullifiers.Valid() && HistoryValid()
    }

    /** No block passed, and three trees with nothing but their zeros; what is stored is arbitrary. */
    ghost predicate StartsFresh()
      reads this, commitments, nullifiers, nullifiers.tree, historic
    {
      && Valid() && AtStart(Position()) && historic.cache == map[]
      && commitments.leaves == [] && commitments.count == 0 && commitments.subTreeHeight == 3
      && nullifiers.records == map[0 := ZERO_LEAF] && nullifiers.tree.count == 1 && nullifiers.tree.subTreeHeight == 3
    }

    constructor (digest: Digest, us: Address, h: Hasher)
      requires h.ZeroPreserving()
      ensures StartsFresh() && Position() == Cursor(0, map[], []) && !synchronised && this.digest == digest && this.us == us
      ensures fresh(commitments) && fresh(nullifiers) && fresh(nullifiers.tree) && fresh(historic)
      ensures commitments.treeHeight == nullifiers.tree.treeHeight == 29 && historic.treeHeight == 32
    {
      this.digest := digest;
      this.us := us;
      hide SoundTree, RootsOf, Pow2, Offset, WellLinked, HoldsRecords;
      commitments := new MutableTree(h, 29, 3);
      nullifiers := new IndexedTree(h, 29, 3);
      var history := NewHistory(h);
      historic := history;
      expected, synchronised, stored, log := 0, false, map[], [];
    }
  
    /** Whether the trees are updated from the block: not for an own block that was applied when it was proposed. */
    ghost predicate Updates(e: BlockEvent, contractBlocks: nat)
      reads `synchronised, commitments
    {
      e.sender != us || !(synchronised || contractBlocks == 1) || commitments.root == 0
    }

    ghost predicate TreesTake(cs: seq<Fr>, ns: seq<Fr>)
      reads commitments, nullifiers, nullifiers.tree
    {
      && IsWhole(|cs|, commitments.subTreeHeight)
      && (ns == [] || (IsWhole(|ns|, nullifiers.tree.subTreeHeight) && Admissible(nullifiers.records.Keys, ns)))
    }

    ghost predicate RoomFor(cs: seq<Fr>, ns: seq<Fr>)
      reads commitments, nullifiers, nullifiers.tree
    {
      && commitments.count + Batches(|cs|, commitments.subTreeHeight) <= Pow2(commitments.treeHeight)
      && nullifiers.tree.count + Batches(|ns|, nullifiers.tree.subTreeHeight) <= Pow2(nullifiers.tree.treeHeight)
    }

    twostate predicate CommitmentsAdded(cs: seq<Fr>)
      reads commitments
    {
      && commitments.count == old(commitments.count) + Batches(|cs|, commitments.subTreeHeight)
      && commitments.leaves == (if cs == [] then old(commitments.leaves)
                                else Splice(old(commitments.leaves), Offset(old(commitments.count), commitments.subTreeHeight), cs))
      && (if cs == [] then unchanged(commitments)
          else Appended(commitments.nodes, commitments.root)
               == AppendPlain(commitments.h, old(commitments.nodes), commitments.treeHeight, commitments.subTreeHeight,
                              old(commitments.count), cs))
    }

    twostate predicate NullifiersAdded(ns: seq<Fr>)
      reads nullifiers, nullifiers.tree
    {
      && nullifiers.tree.count == old(nullifiers.tree.count) + Batches(|ns|, nullifiers.tree.subTreeHeight)
      && Ids(nullifiers.records) == AssignIds(Ids(old(nullifiers.records)), ns,
                                              Offset(old(nullifiers.tree.count), nullifiers.tree.subTreeHeight))
      && nullifiers.tree.nodes.Keys == old(nullifiers.tree.nodes.Keys)
           + AppendKeys(nullifiers.tree.treeHeight, nullifiers.tree.subTreeHeight, old(nullifiers.tree.count),
                        Batches(|ns|, nullifiers.tree.subTreeHeight))
    }

    /**
     Appends the commitments, then inserts the nullifiers; stops at the first refusal. Commitments of
     a block whose nullifiers are refused have been appended by then, and stay.
     */
    method UpdateTrees(cs: seq<Fr>, ns: seq<Fr>) returns (ok: bool)
      requires Separate() && commitments.Valid() && nullifiers.Valid() && RoomFor(cs, ns)
      modifies commitments, nullifiers, nullifiers.tree
      ensures ok <==> old(TreesTake(cs, ns))
      ensures ok ==> nullifiers.Valid()
      ensures commitments.Valid()
      ensures IsWhole(|cs|, commitments.subTreeHeight) ==> CommitmentsAdded(cs)
      ensures ok ==> NullifiersAdded(ns)
      ensures !IsWhole(|cs|, commitments.subTreeHeight) ==>
                unchanged(commitments) && unchanged(nullifiers) && unchanged(nullifiers.tree)
    {
      hide SoundTree, WellLinked, HoldsRecords, StoredBelow, Ids, Admissible, Splice, AppendPlain, AssignIds,
           AppendKeys, Offset, Batches, IsWhole, Pow2;
      NothingIsWhole(commitments.subTreeHeight);
      NothingIsWhole(nullifiers.tree.subTreeHeight);
      NothingAssigned(Ids(nullifiers.records), Offset(nullifiers.tree.count, nullifiers.tree.subTreeHeight));
      NothingAdded(nullifiers.tree.treeHeight, nullifiers.tree.subTreeHeight, nullifiers.tree.count);
      var appended := commitments.CommitSubTrees(cs);
      if appended.Err? {
        return false;
      }
      var inserted := nullifiers.InsertLeaves(ns);
      ok := inserted.Ok?;
    }

    static lemma NothingAdded(levels: nat, height: nat, count: nat)
      ensures AppendKeys(levels, height, count, Batches(0, height)) == {}
    {
    }

    /** The commit may find the dry run of this very root in the cache. */
    method AppendHistoricRoot(b: Block)
      requires HistoryValid() && historic.CacheIsFor([b.commitmentsRoot]) && historic.count < Pow2(historic.treeHeight)
      modifies historic, `log
      ensures HistoryValid() && historic.cache == map[] && log == old(log) + [b]
      ensures historic.root == TreeRoot(historic.h, historic.treeHeight, [0] + RootsOf(log))
    {
      hide Append, Splice, NodeVal, Represents, DryRun, RootsOf, Pow2;
      ghost var leaves := historic.leaves;
      OneRoot(leaves, historic.count, b.commitmentsRoot, historic.treeHeight);
      NextRoot(log, b);
      var r := historic.AppendSubTrees([b.commitmentsRoot], true);
      historic.CommitKeepsSound([b.commitmentsRoot]);
      log := log + [b];
      assert historic.treeHeight + 0 == historic.treeHeight;
    }

    static lemma OneRoot(leaves: seq<Fr>, count: nat, root: Fr, height: nat)
      requires |leaves| == count
      ensures IsWhole(1, 0) && Batches(1, 0) == 1
      ensures Splice(leaves, Offset(count, 0), [root]) == leaves + [root]
    {
      assert Pow2(0) == 1;
      OffsetIsProduct(count, 0);
      SpliceAtEnd(leaves, [root]);
    }

    static lemma NextRoot(log: seq<Block>, b: Block)
      ensures [0] + RootsOf(log + [b]) == ([0] + RootsOf(log)) + [b.commitmentsRoot]
    {
    }
  
    /** The contents of the block have gone into the two trees, as far as it updates and these take them. */
    twostate predicate Added(b: Block, updates: bool, taken: bool)
      reads commitments, nullifiers, nullifiers.tree
    {
      var cs, ns := BlockCommitments(b.transactions), BlockNullifiers(b.transactions);
      && (updates && IsWhole(|cs|, commitments.subTreeHeight) ==> CommitmentsAdded(cs))
      && (updates && !IsWhole(|cs|, commitments.subTreeHeight) ==> unchanged(commitments))
      && (updates && taken ==> NullifiersAdded(ns))
    }

    /** What follows once the event is known to be the next one. */
    method ApplyBlock(e: BlockEvent, contractBlocks: nat) returns (ok: bool)
      requires Valid() && RoomFor(BlockCommitments(e.block.transactions), BlockNullifiers(e.block.transactions))
      requires historic.count < Pow2(historic.treeHeight) && historic.CacheIsFor([e.block.commitmentsRoot])
      modifies `synchronised, `stored, `log, commitments, nullifiers, nullifiers.tree, historic
      ensures ok <==> !old(Updates(e, contractBlocks))
                         || old(TreesTake(BlockCommitments(e.block.transactions), BlockNullifiers(e.block.transactions)))
      ensures ok ==>
                && Valid() && stored == StoreBlock(old(stored), Pending(e)) && log == old(log) + [e.block]
                && (synchronised <==> contractBlocks == e.number + 1)
                && historic.root == TreeRoot(historic.h, historic.treeHeight, [0] + RootsOf(log))
      ensures !ok ==> unchanged(historic, `stored, `log)
      ensures ok ==> historic.cache == map[]
      ensures Added(e.block, old(Updates(e, contractBlocks)), ok)
      ensures !old(Updates(e, contractBlocks)) ==> unchanged(commitments) && unchanged(nullifiers) && unchanged(nullifiers.tree)
    {
      hide SoundTree, WellLinked, HoldsRecords, StoredBelow, Ids, Admissible, Splice, AssignIds, StoreBlock,
           RootsOf, NodeVal, Offset, Batches, IsWhole, Pow2, DryRun, AppendPlain, AppendKeys;
      if contractBlocks == 1 {
        synchronised := true;
      }
      if us != e.sender || !synchronised || commitments.root == 0 {
        ok := UpdateTrees(BlockCommitments(e.block.transactions), BlockNullifiers(e.block.transactions));
        if !ok {
          return;
        }
      }
      AppendHistoricRoot(e.block);
      synchronised := contractBlocks == e.number + 1;
      stored := StoreBlock(stored, Pending(e));
      ok := true;
    }

    /** One BlockProposed event, while the contract counts `contractBlocks` blocks; `taken` tells whether the trees take it. */
    method ProcessProposeBlock(e: BlockEvent, contractBlocks: nat) returns (r: Outcome, ghost taken: bool)
      requires Position().Judge(digest, e) == Next ==>
                 && Valid() && RoomFor(BlockCommitments(e.block.transactions), BlockNullifiers(e.block.transactions))
                 && historic.count < Pow2(historic.treeHeight) && historic.CacheIsFor([e.block.commitmentsRoot])
      modifies this, commitments, nullifiers, nullifiers.tree, historic
      ensures Position() == old(Position()).Advance(digest, e, taken)
      ensures taken <==> !old(Updates(e, contractBlocks))
                         || old(TreesTake(BlockCommitments(e.block.transactions), BlockNullifiers(e.block.transactions)))
      ensures old(Position()).Judge(digest, e) == Next ==> Added(e.block, old(Updates(e, contractBlocks)), taken)
      ensures old(Position()).Judge(digest, e) == Next && taken ==> historic.cache == map[]
      ensures match old(Position()).Judge(digest, e)
              case Missing => r == Err(MissingBlocks(old(expected))) && !synchronised
              case Seen => r == Ok && synchronised == old(synchronised)
              case Mismatch =>
                r == Err(BlockHashError(HashOf(digest, old(stored)[old(expected)]), HashOf(digest, Pending(e)))) && !synchronised
              case Next => r == (if taken then Ok else Err(IOError)) && (taken ==> (synchronised <==> contractBlocks == e.number + 1))
      ensures old(Position()).Judge(digest, e) != Next ==>
                unchanged(commitments) && unchanged(nullifiers) && unchanged(nullifiers.tree) && unchanged(historic)
      ensures old(Position()).Judge(digest, e) == Next && !taken ==> unchanged(historic)
      ensures old(Position()).Judge(digest, e) == Next && taken ==> Valid()
      ensures old(Position()).Judge(digest, e) == Next && taken ==>
                historic.root == TreeRoot(historic.h, historic.treeHeight, [0] + RootsOf(log))
      ensures old(Position()).Judge(digest, e) == Next && !old(Updates(e, contractBlocks)) ==>
                unchanged(commitments) && unchanged(nullifiers) && unchanged(nullifiers.tree)
    {
      hide SoundTree, WellLinked, HoldsRecords, StoredBelow, Ids, Admissible, Splice, AssignIds, StoreBlock,
           RootsOf, NodeVal, Offset, Batches, IsWhole, Pow2, DryRun, TreesTake, AppendPlain, AppendKeys;
      taken := !Updates(e, contractBlocks) || TreesTake(BlockCommitments(e.block.transactions), BlockNullifiers(e.block.transactions));
      if expected < e.number {
        synchronised := false;
        return Err(MissingBlocks(expected)), taken;
      }
      if expected > e.number {
        return Ok, taken;
      }
      if expected in stored {
        var existing, pending := HashOf(digest, stored[expected]), HashOf(digest, Pending(e));
        if existing != pending {
          stored := stored - {expected};
          synchronised := false;
          return Err(BlockHashError(existing, pending)), taken;
        }
      }
      ghost var c := Position();
      assert c.Judge(digest, e) == Next;
      expected := expected + 1;
      var ok := ApplyBlock(e, contractBlocks);
      if ok {
        assert Position() == Cursor(c.expected + 1, StoreBlock(c.stored, Pending(e)), c.log + [e.block]);
      } else {
        assert Position() == c.(expected := c.expected + 1);
      }
      r := if ok then Ok else Err(IOError);
    }
  }

  // ---------------------------------------------------------------- a proposer's run

  /** The sub-trees that the nullifiers of a chain fill. */
  ghost function NullifierBatches(chain: seq<Block>): nat {
    if chain == [] then 0 else
    NullifierBatches(chain[..|chain| - 1]) + Batches(|BlockNullifiers(chain[|chain| - 1].transactions)|, 3)
  }

  lemma {:induction false} NullifierBatchesGrow(chain: seq<Block>, n: nat)
    requires n <= |chain|
    ensures NullifierBatches(chain[..n]) <= NullifierBatches(chain)
  {
    if n < |chain| {
      var init := chain[..|chain| - 1];
      NullifierBatchesGrow(init, n);
      assert init[..n] == chain[..n];
    } else {
      assert chain[..n] == chain;
    }
  }

  /** Whole blocks fill their sub-trees. */
  lemma {:induction false} WholeChainFills(chain: seq<Block>)
    requires AllWhole(chain)
    ensures |CommitmentsOf(chain)| == Offset(CommitmentBatches(chain), 3)
    ensures |NullifiersOf(chain)| == Offset(NullifierBatches(chain), 3)
  {
    if chain != [] {
      var init, b := chain[..|chain| - 1], chain[|chain| - 1];
      WholeChainFills(init);
      assert Whole(b);
      hide Batches, Offset, IsWhole;
      WholeBatch(|BlockCommitments(b.transactions)|, 3);
      WholeBatch(|BlockNullifiers(b.transactions)|, 3);
      OffsetAdd(CommitmentBatches(init), Batches(|BlockCommitments(b.transactions)|, 3), 3);
      OffsetAdd(NullifierBatches(init), Batches(|BlockNullifiers(b.transactions)|, 3), 3);
    }
  }

  /** What the trees of a proposer hold that has followed a chain. */
  datatype Held = Held(commitments: seq<Fr>, commitmentCount: nat, ids: map<Fr, nat>, nullifierCount: nat)

  ghost function HeldAfter(chain: seq<Block>): Held {
    Held(CommitmentsOf(chain), CommitmentBatches(chain), AssignIds(map[0 := 0], NullifiersOf(chain), 8), 1 + NullifierBatches(chain))
  }

  /** The effect of one whole block on what is held. */
  lemma HeldNext(chain: seq<Block>, n: nat)
    requires n < |chain| && ChainTakes(chain[..n])
    ensures var cs, ns := BlockCommitments(chain[n].transactions), BlockNullifiers(chain[n].transactions);
            var held := HeldAfter(chain[..n]);
            && |held.commitments| == Offset(held.commitmentCount, 3)
            && HeldAfter(chain[..n + 1])
               == Held(held.commitments + cs, held.commitmentCount + Batches(|cs|, 3),
                       AssignIds(held.ids, ns, Offset(held.nullifierCount, 3)), held.nullifierCount + Batches(|ns|, 3))
  {
    assert chain[..n + 1][..n] == chain[..n];
    WholeChainFills(chain[..n]);
    hide ChainTakes, CommitmentBatches, NullifierBatches, CommitmentsOf, NullifiersOf, Batches;
    OneMoreBlock(chain, n);
    NullifiersNext(chain, n);
    var all := NullifiersOf(chain[..n]);
    SlotAfterZero(NullifierBatches(chain[..n]));
    AssignSplit(map[0 := 0], all, BlockNullifiers(chain[n].transactions), 8);
  }

  lemma NullifiersNext(chain: seq<Block>, n: nat)
    requires n < |chain|
    ensures NullifiersOf(chain[..n + 1]) == NullifiersOf(chain[..n]) + BlockNullifiers(chain[n].transactions)
    ensures NullifierBatches(chain[..n + 1]) == NullifierBatches(chain[..n]) + Batches(|BlockNullifiers(chain[n].transactions)|, 3)
    ensures NullifierBatches(chain[..n + 1]) <= NullifierBatches(chain)
  {
    NullifierBatchesGrow(chain, n + 1);
    assert chain[..n + 1][..n] == chain[..n];
  }

  lemma SlotAfterZero(k: nat)
    ensures Offset(1 + k, 3) == 8 + Offset(k, 3)
  {
    OffsetAdd(1, k, 3);
    assert Pow2(3) == 8 && Offset(1, 3) == 8;
  }

  /** The next block is taken by the trees exactly if the chain with it can still be followed. */
  lemma TakenByChain(chain: seq<Block>, n: nat, r: Records)
    requires n < |chain| && ChainTakes(chain[..n]) && Ids(r) == HeldAfter(chain[..n]).ids
    ensures ChainTakes(chain[..n + 1]) <==> Whole(chain[n]) && Admissible(r.Keys, BlockNullifiers(chain[n].transactions))
  {
    hide Admissible, Whole, AssignIds;
    var zero: Records := map[0 := ZERO_LEAF];
    OnlyZeroIsLinked();
    NullifiersNext(chain, n);
    assert zero.Keys == {0};
    AdmissibleSplit(zero, r, NullifiersOf(chain[..n]), BlockNullifiers(chain[n].transactions), 8);
    assert chain[..n + 1] == chain[..n] + [chain[n]];
    hide NullifiersOf;
    assert AllWhole(chain[..n + 1]) <==> Whole(chain[n]) by {
      assert chain[..n + 1][n] == chain[n];
    }
  }

  lemma TreesTakeWhole(keys: set<Fr>, b: Block)
    ensures var cs, ns := BlockCommitments(b.transactions), BlockNullifiers(b.transactions);
            Whole(b) && Admissible(keys, ns) <==> IsWhole(|cs|, 3) && (ns == [] || (IsWhole(|ns|, 3) && Admissible(keys, ns)))
  {
    NothingIsWhole(3);
    NothingIsAdmissible(keys);
  }

  /** What there must be room for. */
  lemma RoomForOne(chain: seq<Block>, n: nat)
    requires n < |chain|
    ensures var cs, ns := BlockCommitments(chain[n].transactions), BlockNullifiers(chain[n].transactions);
            && CommitmentBatches(chain[..n]) + Batches(|cs|, 3) <= CommitmentBatches(chain)
            && NullifierBatches(chain[..n]) + Batches(|ns|, 3) <= NullifierBatches(chain)
  {
    OneMoreBlock(chain, n);
    NullifiersNext(chain, n);
  }

  /** A BlockProposed event while the contract counts `contractBlocks` blocks, or a change of what is stored. */
  datatype Input = Delivery(event: BlockEvent, contractBlocks: nat) | Stocking(stored: map<nat, StoredBlock>)

  /**
   An event of the chain, at a time when the contract counts at least `tip` blocks. The node's own
   blocks, if there are any, are among the first `tip`: it proposed them before it lost its trees.
   */
  ghost predicate Arrives(chain: seq<Block>, us: Address, tip: nat, input: Input) {
    input.Delivery? ==>
      && OfChain(chain, input.event) && input.contractBlocks >= tip
      && (input.event.sender == us ==> input.event.number < tip)
  }

  /** Until it has passed the first `tip` blocks the node does not count as synchronised. */
  ghost predicate BehindUntil(node: ProposerNode, tip: nat)
    reads node
  {
    node.synchronised ==> node.expected >= tip
  }

  lemma EmptyRoot(h: Hasher, height: nat)
    requires h.ZeroPreserving()
    ensures TreeRoot(h, height, []) == 0
  {
    EmptyRepresentsNothing(h, height);
    assert NodeIs(h, map[], height, [], 0);
  }

  /** The next block of the chain updates the trees, whoever proposed it. */
  lemma NextUpdates(node: ProposerNode, chain: seq<Block>, tip: nat, e: BlockEvent, contractBlocks: nat)
    requires CaughtUp(node, chain, node.expected) && BehindUntil(node, tip)
    requires Arrives(chain, node.us, tip, Delivery(e, contractBlocks)) && e.number == node.expected
    ensures node.Updates(e, contractBlocks)
  {
    hide ChainTakes, NodeVal, Represents, Pow2, WellLinked, HoldsRecords, StoredBelow, RootsOf, HeldAfter;
    if e.sender == node.us && contractBlocks == 1 {
      assert chain[..0] == [];
      NothingHeld();
      EmptyRoot(node.commitments.h, node.commitments.treeHeight + node.commitments.subTreeHeight);
    }
  }

  lemma NothingHeld()
    ensures HeldAfter([]).commitments == []
  {
  }

  /** There is room for the whole chain in all three trees. */
  ghost predicate RoomForChain(chain: seq<Block>, node: ProposerNode) {
    && CommitmentBatches(chain) <= Pow2(node.commitments.treeHeight)
    && 1 + NullifierBatches(chain) <= Pow2(node.nullifiers.tree.treeHeight)
    && |chain| < Pow2(node.historic.treeHeight)
  }

  /** The node has applied the first `n` blocks, and its trees hold just what these call for. */
  ghost predicate CaughtUp(node: ProposerNode, chain: seq<Block>, n: nat)
    reads node, node.commitments, node.nullifiers, node.nullifiers.tree, node.historic
  {
    && node.Valid() && node.historic.cache == map[]
    && node.commitments.subTreeHeight == 3 && node.nullifiers.tree.subTreeHeight == 3
    && node.expected == n <= |chain| && node.log == chain[..n] && ChainTakes(chain[..n])
    && Held(node.commitments.leaves, node.commitments.count, Ids(node.nullifiers.records), node.nullifiers.tree.count) == HeldAfter(chain[..n])
  }

  /** The block before `n` was refused: it is passed but not applied, and only its commitments have come into a tree. */
  ghost predicate Stuck(node: ProposerNode, chain: seq<Block>, n: nat)
    reads node, node.commitments, node.historic
  {
    && node.expected == n && 0 < n <= |chain|
    && node.log == chain[..n - 1] && ChainTakes(chain[..n - 1]) && !ChainTakes(chain[..n])
    && node.historic.leaves == [0] + RootsOf(chain[..n - 1])
    && node.commitments.leaves == CommitmentsOf(chain[..if WholeCommitments(chain[n - 1]) then n else n - 1])
  }

  /** The next block has room, and is taken exactly if the chain with it can be followed. */
  lemma NextIsReady(node: ProposerNode, chain: seq<Block>, n: nat)
    requires CaughtUp(node, chain, n) && RoomForChain(chain, node) && n < |chain|
    ensures var cs, ns := BlockCommitments(chain[n].transactions), BlockNullifiers(chain[n].transactions);
            node.RoomFor(cs, ns) && (node.TreesTake(cs, ns) <==> ChainTakes(chain[..n + 1]))
    ensures node.historic.count < Pow2(node.historic.treeHeight) && node.historic.CacheIsFor([chain[n].commitmentsRoot])
  {
    hide SoundTree, WellLinked, HoldsRecords, StoredBelow, Ids, Admissible, ChainTakes,
         RootsOf, NodeVal, Offset, Batches, IsWhole, Pow2, DryRun, CommitmentBatches, NullifierBatches, CommitmentsOf, NullifiersOf;
    RoomForOne(chain, n);
    TakenByChain(chain, n, node.nullifiers.records);
    TreesTakeWhole(node.nullifiers.records.Keys, chain[n]);
  }

  /** What the trees hold with the next block added. */
  lemma NextIsHeld(node: ProposerNode, chain: seq<Block>, n: nat)
    requires CaughtUp(node, chain, n) && n < |chain|
    ensures var cs, ns := BlockCommitments(chain[n].transactions), BlockNullifiers(chain[n].transactions);
            var c, t := node.commitments, node.nullifiers.tree;
            && Splice(c.leaves, Offset(c.count, 3), cs) == c.leaves + cs
            && HeldAfter(chain[..n + 1])
               == Held(c.leaves + cs, c.count + Batches(|cs|, 3),
                       AssignIds(Ids(node.nullifiers.records), ns, Offset(t.count, 3)), t.count + Batches(|ns|, 3))
    ensures chain[..n + 1] == chain[..n] + [chain[n]] && chain[..n + 1][..n] == chain[..n]
    ensures CommitmentsOf(chain[..n + 1]) == CommitmentsOf(chain[..n]) + BlockCommitments(chain[n].transactions)
    ensures CommitmentsOf(chain[..n]) == node.commitments.leaves
  {
    hide SoundTree, WellLinked, HoldsRecords, StoredBelow, Ids, Admissible, Splice, AssignIds, ChainTakes,
         RootsOf, NodeVal, Offset, Batches, CommitmentBatches, NullifierBatches, CommitmentsOf, NullifiersOf;
    HeldNext(chain, n);
    OneMoreBlock(chain, n);
    SpliceAtEnd(node.commitments.leaves, BlockCommitments(chain[n].transactions));
  }

  /** One input: the node stays caught up, or the block just passed is the first that the chain cannot be followed with. */
  method FollowOne(node: ProposerNode, input: Input, ghost chain: seq<Block>, ghost tip: nat) returns (refused: bool)
    requires CaughtUp(node, chain, node.expected) && BehindUntil(node, tip) && RoomForChain(chain, node)
    requires Arrives(chain, node.us, tip, input)
    modifies node, node.commitments, node.nullifiers, node.nullifiers.tree, node.historic
    ensures !refused ==> CaughtUp(node, chain, node.expected) && BehindUntil(node, tip)
    ensures refused ==> Stuck(node, chain, node.expected)
  {
    hide SoundTree, WellLinked, HoldsRecords, StoredBelow, Ids, Admissible, Splice, AssignIds, StoreBlock, ChainTakes,
         RootsOf, NodeVal, Offset, Batches, IsWhole, Pow2, DryRun, HeldAfter, CommitmentsOf, RoomForChain;
    match input
    case Stocking(stored) =>
      node.stored := stored;
      refused := false;
    case Delivery(e, contractBlocks) =>
      ghost var n := node.expected;
      ghost var next := node.Position().Judge(node.digest, e) == Next;
      if next {
        NextIsReady(node, chain, n);
        NextIsHeld(node, chain, n);
        NextUpdates(node, chain, tip, e, contractBlocks);
      }
      var r; ghost var taken;
      r, taken := node.ProcessProposeBlock(e, contractBlocks);
      refused := r == Err(IOError);
  }

  /**
   A proposer that starts with empty trees when the contract counts `tip` blocks, any of which may be its own,
   and then follows the blocks of others, from any stream of the chain's events, with duplicates, gaps,
   reordering and mismatches, and whatever else gets stored in between, until a block is refused. If none is,
   historic roots, commitments and nullifiers are those of the blocks 0 to expected - 1.
   A block is refused exactly if the chain cannot be followed with it.
   */
  method FollowBlocks(node: ProposerNode, inputs: seq<Input>, ghost chain: seq<Block>, ghost tip: nat) returns (refused: bool)
    requires node.StartsFresh() && RoomForChain(chain, node) && (node.synchronised ==> tip == 0)
    requires forall i :: 0 <= i < |inputs| ==> Arrives(chain, node.us, tip, inputs[i])
    modifies node, node.commitments, node.nullifiers, node.nullifiers.tree, node.historic
    ensures node.expected <= |chain|
    ensures refused <==> !ChainTakes(chain[..node.expected])
    ensures !refused ==>
      && CaughtUp(node, chain, node.expected)
      && node.historic.leaves == [0] + RootsOf(chain[..node.expected])
      && node.commitments.leaves == CommitmentsOf(chain[..node.expected])
      && Ids(node.nullifiers.records) == AssignIds(map[0 := 0], NullifiersOf(chain[..node.expected]), 8)
    ensures refused ==> Stuck(node, chain, node.expected)
  {
    hide ChainTakes, CommitmentsOf, NullifiersOf, RootsOf, AssignIds, Ids, CommitmentBatches, NullifierBatches, CaughtUp, Stuck;
    StartIsCaughtUp(node, chain);
    refused := false;
    for i := 0 to |inputs|
      invariant CaughtUp(node, chain, node.expected) && BehindUntil(node, tip)
    {
      refused := FollowOne(node, inputs[i], chain, tip);
      if refused {
        StuckMeans(node, chain, node.expected);
        return;
      }
    }
    CaughtUpMeans(node, chain, node.expected);
  }

  lemma CaughtUpMeans(node: ProposerNode, chain: seq<Block>, n: nat)
    requires CaughtUp(node, chain, n)
    ensures n <= |chain| && ChainTakes(chain[..n])
    ensures node.historic.leaves == [0] + RootsOf(chain[..n])
    ensures node.commitments.leaves == CommitmentsOf(chain[..n])
    ensures Ids(node.nullifiers.records) == AssignIds(map[0 := 0], NullifiersOf(chain[..n]), 8)
  {
    hide ChainTakes, CommitmentsOf, NullifiersOf, RootsOf, AssignIds, Ids, CommitmentBatches, NullifierBatches;
  }

  lemma StuckMeans(node: ProposerNode, chain: seq<Block>, n: nat)
    requires Stuck(node, chain, n)
    ensures n <= |chain| && !ChainTakes(chain[..n])
  {
    hide ChainTakes, CommitmentsOf, RootsOf;
  }

  lemma StartIsCaughtUp(node: ProposerNode, chain: seq<Block>)
    requires node.StartsFresh()
    ensures CaughtUp(node, chain, 0)
  {
    assert chain[..0] == [];
    EmptyChainTakes();
    OnlyZeroIsLinked();
  }

  /**
   A block with a nullifier that the node holds already is refused for good: its number is passed, its
   commitments stay in the tree, and when its event comes again nothing happens.
   */
  method SpentNullifierIsFinal(node: ProposerNode, e: BlockEvent, v: Fr, contractBlocks: nat) returns (first: Outcome, again: Outcome)
    requires node.Valid() && node.Position().Judge(node.digest, e) == Next && e.sender != node.us
    requires node.commitments.subTreeHeight == 3 && node.nullifiers.tree.subTreeHeight == 3 && Whole(e.block)
    requires node.RoomFor(BlockCommitments(e.block.transactions), BlockNullifiers(e.block.transactions))
    requires node.historic.count < Pow2(node.historic.treeHeight) && node.historic.CacheIsFor([e.block.commitmentsRoot])
    requires v != 0 && v in node.nullifiers.records && v in BlockNullifiers(e.block.transactions)
    modifies node, node.commitments, node.nullifiers, node.nullifiers.tree, node.historic
    ensures first == Err(IOError) && again == Ok
    ensures node.expected == old(node.expected) + 1 && node.log == old(node.log) && node.historic.leaves == old(node.historic.leaves)
    ensures var cs := BlockCommitments(e.block.transactions);
            node.commitments.leaves == if cs == [] then old(node.commitments.leaves)
                                       else Splice(old(node.commitments.leaves), Offset(old(node.commitments.count), 3), cs)
  {
    hide SoundTree, WellLinked, HoldsRecords, StoredBelow, Ids, Splice, AssignIds, StoreBlock, RootsOf, NodeVal, Offset, Batches,
         IsWhole, Pow2, DryRun;
    ghost var ns := BlockNullifiers(e.block.transactions);
    ghost var i :| 0 <= i < |ns| && ns[i] == v;
    StoredIsNotAdmissible(node.nullifiers.records, ns, i);
    ghost var taken;
    first, taken := node.ProcessProposeBlock(e, contractBlocks);
    again, taken := node.ProcessProposeBlock(e, contractBlocks);
  }
}
