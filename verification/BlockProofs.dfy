/**
 A block's proof, from what the proposer emits to what the contract checks: the vectors handed to
 the proving library, the circuits over them, and the hash, fees and roots that the block publishes.
 */
module BlockProofs {
  import opened Field
  import opened Merkle
  import opened Paths
  import opened AppendSpec
  import opened NodeKeys
  import opened LinkedRecords
  import opened IndexedSpec
  import opened MutableTrees
  import opened IndexedTrees
  import opened NullifierProofs
  import opened RollupChecks
  import opened Agreement
  import opened Results

  // ---------------------------------------------------------------- the transactions on chain

  /** A transaction in the contract's form: words of 256 bits, four of them public data. */
  datatype ChainTransaction = ChainTransaction(fee: nat, commitments: seq<nat>, nullifiers: seq<nat>, publicData: seq<nat>)

  /** The fifth secret is the top bit of the fourth word. What does not fit into a word panics. */
  function Publish(tx: OnChainTransaction): Option<ChainTransaction>
    requires |tx.publicData| == 5
  {
    var s := tx.publicData;
    var last: nat := s[3] + s[4] * TOP_BIT;
    if last >= 2 * TOP_BIT then None else Some(ChainTransaction(tx.fee, tx.commitments, tx.nullifiers, [s[0], s[1], s[2], last]))
  }

  /** The conversion of a word refuses what lies above the modulus; the modulus itself becomes zero. */
  predicate Convertible(s: seq<nat>) {
    forall i :: 0 <= i < |s| ==> s[i] <= MODULUS
  }

  function Converted(s: seq<nat>): (r: seq<Fr>)
    ensures |r| == |s| && forall i :: 0 <= i < |s| ==> r[i] == s[i] % MODULUS
  {
    seq(|s|, i requires 0 <= i < |s| => FromInt(s[i]))
  }

  /** Of the last word the top bit is split off, and the rest is reduced. */
  function FromChain(c: ChainTransaction): Option<OnChainTransaction>
    requires |c.publicData| == 4
  {
    var w := c.publicData;
    if !Convertible([c.fee] + c.commitments + c.nullifiers + w[..3]) then None else
    var top, rest := w[3] / TOP_BIT, w[3] % TOP_BIT;
    Some(OnChainTransaction(FromInt(c.fee), Converted(c.commitments), Converted(c.nullifiers),
                            Converted(w[..3]) + [FromInt(rest), FromInt(top)]))
  }

  /** What can be published is read back as it was, and it can be published exactly if the fifth secret is a bit. */
  lemma PublishRoundTrip(tx: OnChainTransaction)
    requires |tx.publicData| == 5
    ensures Publish(tx).Some? <==> tx.publicData[4] <= 1
    ensures Publish(tx).Some? ==> |Publish(tx).value.publicData| == 4 && FromChain(Publish(tx).value) == Some(tx)
  {
    var s := tx.publicData;
    if Publish(tx).Some? {
      SplitTopBit(s[3], s[4]);
      var c := Publish(tx).value;
      assert c.publicData[..3] == [s[0], s[1], s[2]];
      InFieldStays(tx.commitments);
      InFieldStays(tx.nullifiers);
      InFieldStays(s[..3]);
      assert s[..3] == c.publicData[..3] && s == s[..3] + [s[3], s[4]];
      hide Converted;
    }
  }

  lemma InFieldStays(s: seq<Fr>)
    ensures Convertible(s) && Converted(s) == s
  {
  }

  /**
   Words that can be read are those of the transaction read exactly if no converted word is the modulus itself and the
   last word without its top bit is a field element; others are read as if they were those.
   */
  lemma ReadIsPublished(c: ChainTransaction)
    requires |c.publicData| == 4 && FromChain(c).Some? && c.publicData[3] < 2 * TOP_BIT
    ensures var tx := FromChain(c).value;
            && |tx.publicData| == 5
            && (Publish(tx) == Some(c) <==>
                  MODULUS !in [c.fee] + c.commitments + c.nullifiers + c.publicData[..3] && c.publicData[3] % TOP_BIT < MODULUS)
  {
    var tx, w := FromChain(c).value, c.publicData;
    var words := [c.fee] + c.commitments + c.nullifiers + w[..3];
    var top, rest := w[3] / TOP_BIT, w[3] % TOP_BIT;
    assert top <= 1 && w[3] == rest + top * TOP_BIT;
    ReadStays([c.fee]);
    ReadStays(c.commitments);
    ReadStays(c.nullifiers);
    ReadStays(w[..3]);
    WordsOf([c.fee], c.commitments, c.nullifiers, w[..3]);
    assert Publish(tx).Some?;
    var p := Publish(tx).value;
    assert p.publicData == Converted(w[..3]) + [FromInt(rest) + top * TOP_BIT];
    assert w == w[..3] + [w[3]];
    assert p.publicData == w <==> Converted(w[..3]) == w[..3] && FromInt(rest) == rest by {
      assert p.publicData[..3] == Converted(w[..3]);
    }
    assert Converted([c.fee]) == [FromInt(c.fee)];
    assert [FromInt(c.fee)] == [c.fee] <==> FromInt(c.fee) == c.fee by {
      assert [FromInt(c.fee)][0] == FromInt(c.fee) && [c.fee][0] == c.fee;
    }
    hide Converted, Convertible;
  }

  lemma WordsOf(a: seq<nat>, b: seq<nat>, c: seq<nat>, d: seq<nat>)
    requires Convertible(a + b + c + d)
    ensures Convertible(a) && Convertible(b) && Convertible(c) && Convertible(d)
    ensures MODULUS in a + b + c + d <==> MODULUS in a || MODULUS in b || MODULUS in c || MODULUS in d
  {
    var s := a + b + c + d;
    forall i | 0 <= i < |a|
      ensures a[i] <= MODULUS
    {
      assert s[i] == a[i];
    }
    forall i | 0 <= i < |b|
      ensures b[i] <= MODULUS
    {
      assert s[|a| + i] == b[i];
    }
    forall i | 0 <= i < |c|
      ensures c[i] <= MODULUS
    {
      assert s[|a| + |b| + i] == c[i];
    }
    forall i | 0 <= i < |d|
      ensures d[i] <= MODULUS
    {
      assert s[|a| + |b| + |c| + i] == d[i];
    }
  }

  lemma ReadStays(s: seq<nat>)
    ensures Convertible(s) ==> (Converted(s) == s <==> MODULUS !in s)
  {
    if Convertible(s) && MODULUS in s {
      var i :| 0 <= i < |s| && s[i] == MODULUS;
      assert Converted(s)[i] == 0;
    }
  }

  lemma SplitTopBit(low: Fr, top: Fr)
    requires top <= 1
    ensures (low + top * TOP_BIT) / TOP_BIT == top && (low + top * TOP_BIT) % TOP_BIT == low
  {
  }

  /** The contract's hash of one transaction, over twelve words. */
  function ContractHash(sha12: seq<nat> -> Fr, c: ChainTransaction): Fr
    requires |c.commitments| == |c.nullifiers| == |c.publicData| == 4
  {
    sha12([c.commitments[0], c.commitments[1], c.commitments[2], c.commitments[3],
           c.nullifiers[0], c.nullifiers[1], c.nullifiers[2], c.nullifiers[3],
           c.publicData[0], c.publicData[1], c.publicData[2], c.publicData[3]])
  }

  // ---------------------------------------------------------------- the public inputs of the circuits

  ghost predicate Shaped(pi: PublicInputs) {
    |pi.roots| == |pi.commitments| == |pi.nullifiers| == 4 && |pi.secrets| == 5
  }

  ghost predicate AllShaped(pis: seq<PublicInputs>) {
    forall i :: 0 <= i < |pis| ==> Shaped(pis[i])
  }

  /** The vector of a transaction's public inputs. */
  function InputVector(pi: PublicInputs): seq<Fr> {
    [pi.fee] + pi.roots + pi.commitments + pi.nullifiers + pi.secrets
  }

  lemma VectorParts(pi: PublicInputs)
    requires Shaped(pi)
    ensures var v := InputVector(pi);
            && |v| == TX && v[0] == pi.fee && v[1..5] == pi.roots && v[5..9] == pi.commitments && v[9..13] == pi.nullifiers
            && v[13..18] == pi.secrets
  {
  }

  /** The transaction that is published for some public inputs. */
  ghost predicate PublishedFor(pi: PublicInputs, c: ChainTransaction) {
    && |c.commitments| == |c.nullifiers| == |c.publicData| == 4
    && c.fee == pi.fee && c.commitments == pi.commitments && c.nullifiers == pi.nullifiers
    && |pi.secrets| == 5 && c.publicData[..3] == pi.secrets[..3] && c.publicData[3] == pi.secrets[3] + pi.secrets[4] * TOP_BIT
    && pi.secrets[4] <= 1
  }

  /** What the circuit hashes of the public inputs is what the contract hashes of the published transaction. */
  lemma CircuitHashIsContracts(g: Gadgets, pi: PublicInputs, c: ChainTransaction)
    requires Shaped(pi) && PublishedFor(pi, c)
    ensures |InputVector(pi)| == TX && TxSha(g, InputVector(pi)) == ContractHash(g.sha12, c)
  {
    VectorParts(pi);
    var v, s := InputVector(pi), pi.secrets;
    assert v[13] == s[0] && v[14] == s[1] && v[15] == s[2] && v[16] == s[3] && v[17] == s[4] by {
      assert v[13..18][0] == v[13] && v[13..18][1] == v[14] && v[13..18][2] == v[15] && v[13..18][3] == v[16] && v[13..18][4] == v[17];
    }
    assert c.publicData[..3][0] == c.publicData[0] && c.publicData[..3][1] == c.publicData[1] && c.publicData[..3][2] == c.publicData[2];
    var words: seq<nat> := v[5..16] + [if v[17] == 1 then v[16] + TOP_BIT else v[16]];
    assert words == [c.commitments[0], c.commitments[1], c.commitments[2], c.commitments[3],
                     c.nullifiers[0], c.nullifiers[1], c.nullifiers[2], c.nullifiers[3],
                     c.publicData[0], c.publicData[1], c.publicData[2], c.publicData[3]] by {
      assert v[5..16][..4] == v[5..9] && v[5..16][4..8] == v[9..13];
    }
  }

  ghost predicate AllPublished(txs: seq<OnChainTransaction>, block: seq<ChainTransaction>) {
    |txs| == |block| && forall i :: 0 <= i < |txs| ==> |txs[i].publicData| == 5 && Publish(txs[i]) == Some(block[i])
  }

  ghost predicate FourEach(block: seq<ChainTransaction>) {
    forall i :: 0 <= i < |block| ==> |block[i].commitments| == |block[i].nullifiers| == |block[i].publicData| == 4
  }

  ghost function ContractHashes(sha12: seq<nat> -> Fr, block: seq<ChainTransaction>): (r: seq<Fr>)
    requires FourEach(block)
    ensures |r| == |block| && forall i :: 0 <= i < |r| ==> r[i] == ContractHash(sha12, block[i])
  {
    seq(|block|, i requires 0 <= i < |block| => ContractHash(sha12, block[i]))
  }

  ghost function ChainFees(block: seq<ChainTransaction>): nat {
    if block == [] then 0 else ChainFees(block[..|block| - 1]) + block[|block| - 1].fee
  }

  /** The contract hashes each transaction, and then level by level in place. */
  method ContractPublicHash(sha2: (Fr, Fr) -> Fr, sha12: seq<nat> -> Fr, block: seq<ChainTransaction>) returns (hash: Fr)
    requires block != [] && FourEach(block)
    ensures hash == Reduce(sha2, ContractHashes(sha12, block))
  {
    var hashes := new Fr[|block|](_ => 0);
    for i := 0 to |block|
      invariant forall k :: 0 <= k < i ==> hashes[k] == ContractHash(sha12, block[k])
    {
      hashes[i] := ContractHash(sha12, block[i]);
    }
    assert hashes[..] == ContractHashes(sha12, block);
    PublicHash(sha2, hashes);
    hash := hashes[0];
  }

  lemma PublishedInput(pi: PublicInputs, c: ChainTransaction)
    requires Shaped(pi) && Publish(DepositOnChain(pi)) == Some(c)
    ensures PublishedFor(pi, c)
  {
    assert c.publicData[..3] == pi.secrets[..3];
  }

  /** The transaction at a place of the block, deposit or client's, is that of the inputs proved there. */
  lemma BlockPlace(deposits: seq<PublicInputs>, clients: seq<ClientTransaction>, i: nat)
    requires i < |deposits| + |clients|
    ensures |ProvedInputs(deposits, clients)| == |BlockTransactions(deposits, clients)| == |deposits| + |clients|
    ensures BlockTransactions(deposits, clients)[i] == DepositOnChain(ProvedInputs(deposits, clients)[i])
  {
  }

  /** A block's transactions, as published, hash one by one to what the circuits hash of the proved inputs, and carry their fees. */
  lemma BlockHashes(g: Gadgets, deposits: seq<PublicInputs>, clients: seq<ClientTransaction>, block: seq<ChainTransaction>)
    requires AllShaped(ProvedInputs(deposits, clients)) && AllPublished(BlockTransactions(deposits, clients), block)
    ensures var txs := Map(InputVector, ProvedInputs(deposits, clients));
            && FourEach(block) && (forall i :: 0 <= i < |txs| ==> |txs[i]| == TX)
            && Shas(g, txs) == ContractHashes(g.sha12, block)
            && NumberSum(Fees(txs)) == ChainFees(block)
  {
    var pis := ProvedInputs(deposits, clients);
    var txs := Map(InputVector, pis);
    forall i | 0 <= i < |block|
      ensures |txs[i]| == TX && PublishedFor(pis[i], block[i]) && TxSha(g, txs[i]) == ContractHash(g.sha12, block[i])
      ensures txs[i][0] == block[i].fee
    {
      BlockPlace(deposits, clients, i);
      assert Shaped(pis[i]);
      PublishedInput(pis[i], block[i]);
      CircuitHashIsContracts(g, pis[i], block[i]);
    }
    assert |txs| == |block|;
    hide TxSha, ContractHash, InputVector, NumberSum, ChainFees, Publish;
    SameFees(Fees(txs), block);
  }

  lemma {:induction false} SameFees(fees: seq<Fr>, block: seq<ChainTransaction>)
    requires |fees| == |block| && forall i :: 0 <= i < |fees| ==> fees[i] == block[i].fee
    ensures NumberSum(fees) == ChainFees(block)
  {
    if fees != [] {
      SameFees(fees[..|fees| - 1], block[..|block| - 1]);
    }
  }

  // ---------------------------------------------------------------- the proving library

  /** The decoding gadgets with the encodings they undo, and the lengths of the encoded vectors. */
  datatype Library = Library(
    g: Gadgets,
    sizes: Sizes,
    proofVector: MembershipProof -> seq<Fr>,
    insertionVector: CircuitInsertionInfo -> seq<Fr>,
    imtVector: IMTCircuitInsertionInfo -> seq<Fr>)

  const HISTORY := 32

  /** A path of a given length, in a place that is a field element. */
  ghost predicate ProofForm(height: nat, p: MembershipProof) {
    |p.siblingPath| == height && p.leafIndex < MODULUS
  }

  ghost predicate InsertionForm(c: CircuitInsertionInfo) {
    ProofForm(LEVELS, c.proof) && c.leafCount < MODULUS && |c.leaves| == Pow2(SUB_TREE)
  }

  ghost predicate LowForm(low: LowNullifier) {
    ProofForm(LEVELS + SUB_TREE, low.proof) && low.leaf.id < MODULUS && low.leaf.nextIndex < MODULUS
  }

  ghost predicate ImtForm(n: IMTCircuitInsertionInfo) {
    && InsertionForm(n.circuitInfo) && n.firstIndex < MODULUS
    && |n.lowNullifiers| == |n.pendingInserts| == Pow2(SUB_TREE)
    && (forall j :: 0 <= j < |n.lowNullifiers| ==> LowForm(n.lowNullifiers[j]))
    && (forall j :: 0 <= j < |n.pendingInserts| ==> n.pendingInserts[j].id < MODULUS && n.pendingInserts[j].nextIndex < MODULUS)
  }

  /** Data of the fixed lengths are written as vectors of a fixed length, and read back as they were. */
  ghost predicate ReadsBack(lib: Library) {
    && lib.sizes.proof < MODULUS && lib.sizes.commitment < MODULUS && lib.sizes.nullifier < MODULUS
    && (forall p :: ProofForm(HISTORY, p) ==>
          |lib.proofVector(p)| == lib.sizes.proof && lib.g.membershipProof(lib.proofVector(p)) == Some(p.siblingPath))
    && (forall c :: InsertionForm(c) ==>
          |lib.insertionVector(c)| == lib.sizes.commitment && lib.g.insertionInfo(lib.insertionVector(c)) == Some(c))
    && (forall n :: ImtForm(n) ==>
          |lib.imtVector(n)| == lib.sizes.nullifier && lib.g.imtInsertionInfo(lib.imtVector(n)) == Some(n))
  }

  lemma InsertionBounds(h: Hasher, levels: nat, height: nat, c: CircuitInsertionInfo)
    requires InsertionVerifies(h, levels, height, c)
    ensures |c.proof.siblingPath| == levels
    ensures c.proof.leafIndex < Pow2(levels) <= Pow2(levels + height) && c.leafCount <= Pow2(levels + height)
  {
    hide FoldPath, Pow2, Offset;
    OffsetMonotone(c.proof.leafIndex, Pow2(levels), height);
    OffsetFull(levels, height);
    Pow2Monotone(levels, levels + height);
  }

  /** What the trees emit has the lengths that the circuits are built for. */
  lemma InsertionIsFormed(h: Hasher, c: CircuitInsertionInfo)
    requires InsertionVerifies(h, LEVELS, SUB_TREE, c) && |c.leaves| == Pow2(SUB_TREE)
    ensures InsertionForm(c) && c.leafCount <= Pow2(LEVELS + SUB_TREE)
  {
    hide InsertionVerifies, Pow2;
    InsertionBounds(h, LEVELS, SUB_TREE, c);
    TreeOfCircuitsFits();
  }

  lemma ImtIsFormed(h: Hasher, vs: seq<Fr>, n: IMTCircuitInsertionInfo)
    requires NullifiersVerify(h, LEVELS, SUB_TREE, vs, n) && Emitted(h, LEVELS + SUB_TREE, Pow2(SUB_TREE), n)
    ensures ImtForm(n)
  {
    hide Replay, InsertionVerifies, InsertionForm, Emitted, Offset, Pow2;
    EmittedSizes(h, n);
    InsertionIsFormed(h, n.circuitInfo);
    SlotEnds(h, n);
    TreeOfCircuitsFits();
    forall j: nat | j < Pow2(SUB_TREE)
      ensures LowForm(n.lowNullifiers[j]) && n.pendingInserts[j].id < MODULUS && n.pendingInserts[j].nextIndex < MODULUS
    {
      LowOfSlot(h, LEVELS + SUB_TREE, Pow2(SUB_TREE), n, j);
      EntryOfSlot(h, n, j);
    }
  }

  lemma EmittedSizes(h: Hasher, n: IMTCircuitInsertionInfo)
    requires Emitted(h, LEVELS + SUB_TREE, Pow2(SUB_TREE), n)
    ensures |n.lowNullifiers| == |n.pendingInserts| == |n.circuitInfo.leaves| == Pow2(SUB_TREE)
  {
    hide Pow2, LowEmitted;
  }

  lemma EntryOfSlot(h: Hasher, n: IMTCircuitInsertionInfo, j: nat)
    requires Emitted(h, LEVELS + SUB_TREE, Pow2(SUB_TREE), n) && j < Pow2(SUB_TREE)
    ensures var end := n.firstIndex + Pow2(SUB_TREE);
            j < |n.pendingInserts| && n.pendingInserts[j].id < end && n.pendingInserts[j].nextIndex < end
  {
    hide Pow2, LowEmitted;
  }

  /** The slots of a sub-tree end where its leaf count does. */
  lemma SlotEnds(h: Hasher, n: IMTCircuitInsertionInfo)
    requires InsertionVerifies(h, LEVELS, SUB_TREE, n.circuitInfo)
    requires n.firstIndex == Offset(n.circuitInfo.proof.leafIndex, SUB_TREE)
    ensures n.circuitInfo.leafCount == n.firstIndex + Pow2(SUB_TREE)
  {
    hide FoldPath, Pow2, Offset;
  }

  // ---------------------------------------------------------------- the vectors for the base circuits

  /** The membership proof of each root, as a vector with the current root behind it. */
  function ChunksFor(proofs: map<Fr, seq<Fr>>, roots: seq<Fr>): (r: seq<seq<Fr>>)
    requires forall x :: x in roots ==> x in proofs
    ensures |r| == |roots| && forall i :: 0 <= i < |r| ==> r[i] == proofs[roots[i]]
  {
    seq(|roots|, i requires 0 <= i < |roots| => proofs[roots[i]])
  }

  predicate RootsKnown(proofs: map<Fr, seq<Fr>>, pi: PublicInputs) {
    forall x :: x in pi.roots ==> x in proofs
  }

  /** What two transactions bring along. */
  function HalfFor(lib: Library, proofs: map<Fr, seq<Fr>>, a: PublicInputs, b: PublicInputs,
                   c: CircuitInsertionInfo, n: IMTCircuitInsertionInfo): Half
    requires RootsKnown(proofs, a) && RootsKnown(proofs, b)
  {
    Half(a.roots + b.roots, ChunksFor(proofs, a.roots + b.roots), lib.insertionVector(c), lib.imtVector(n))
  }

  /** Every root has a proof of the fixed length, which decodes to a path from the root to the value behind it. */
  ghost predicate RootsProved(lib: Library, proofs: map<Fr, seq<Fr>>, top: Fr) {
    forall x :: x in proofs ==>
      exists p :: ProofForm(HISTORY, p) && FoldPath(lib.g.h, x, p.siblingPath) == top && proofs[x] == lib.proofVector(p) + [top]
  }

  lemma ProvedRoot(lib: Library, proofs: map<Fr, seq<Fr>>, top: Fr, x: Fr)
    requires ReadsBack(lib) && RootsProved(lib, proofs, top) && x in proofs
    ensures |proofs[x]| == lib.sizes.proof + 1 && RootProved(lib.g, x, proofs[x])
  {
    var p :| ProofForm(HISTORY, p) && FoldPath(lib.g.h, x, p.siblingPath) == top && proofs[x] == lib.proofVector(p) + [top];
    assert proofs[x][..lib.sizes.proof] == lib.proofVector(p);
    hide FoldPath;
  }

  lemma HalfReads(lib: Library, proofs: map<Fr, seq<Fr>>, top: Fr, a: PublicInputs, b: PublicInputs,
                  c: CircuitInsertionInfo, n: IMTCircuitInsertionInfo)
    requires ReadsBack(lib) && RootsProved(lib, proofs, top)
    requires RootsKnown(proofs, a) && RootsKnown(proofs, b) && Shaped(a) && Shaped(b) && InsertionForm(c) && ImtForm(n)
    ensures var d := HalfFor(lib, proofs, a, b, c, n);
            && Fits(lib.sizes, d) && HalfReadable(lib.g, Some(d))
            && lib.g.insertionInfo(d.commitment) == Some(c) && lib.g.imtInsertionInfo(d.nullifier) == Some(n)
  {
    hide RootsProved, RootProved, InsertionForm, ProofForm, LowForm, Pow2;
    var d := HalfFor(lib, proofs, a, b, c, n);
    forall j | 0 <= j < ROOTS
      ensures |d.proofs[j]| == lib.sizes.proof + 1 && RootProved(lib.g, d.roots[j], d.proofs[j])
    {
      assert d.roots[j] in proofs;
      ProvedRoot(lib, proofs, top, d.roots[j]);
    }
  }

  /** The vector for four transactions: two halves, each behind its lengths. */
  function QuadVector(lib: Library, a: Half, b: Half): seq<Fr> {
    Headed(lib.sizes, a) + Headed(lib.sizes, b)
  }

  /** The library takes the lengths from the front of each half, and hands the rest to the base circuit. */
  function BaseFor(v: seq<Fr>, txs: seq<seq<Fr>>): Bn254Node
    requires |v| >= 6
  {
    var h := |v| / 2;
    Base(Sizes(v[0], v[1], v[2]), v[3..h] + v[h + 3..], txs)
  }

  lemma BaseOfQuad(lib: Library, a: Half, b: Half, txs: seq<seq<Fr>>)
    requires Fits(lib.sizes, a) && Fits(lib.sizes, b)
    requires lib.sizes.proof < MODULUS && lib.sizes.commitment < MODULUS && lib.sizes.nullifier < MODULUS
    ensures |QuadVector(lib, a, b)| >= 6
    ensures BaseFor(QuadVector(lib, a, b), txs) == Base(lib.sizes, Layout(a) + Layout(b), txs)
  {
    hide Layout, Fits;
    LayoutSize(lib.sizes, a);
    LayoutSize(lib.sizes, b);
    BodiesOf([FromInt(lib.sizes.proof), FromInt(lib.sizes.commitment), FromInt(lib.sizes.nullifier)], Layout(a), Layout(b));
  }

  lemma BodiesOf(head: seq<Fr>, a: seq<Fr>, b: seq<Fr>)
    requires |head| == 3 && |a| == |b|
    ensures var v := (head + a) + (head + b);
            var h := |v| / 2;
            && |v| >= 6 && v[0] == head[0] && v[1] == head[1] && v[2] == head[2]
            && h >= 3 && h + 3 <= |v| && v[3..h] + v[h + 3..] == a + b
  {
    var x, y := head + a, head + b;
    HalvesOf(x, y);
    var v := x + y;
    var h := |v| / 2;
    assert h == |x|;
    assert x[3..] == a && y[3..] == b;
    assert v[3..h] == x[3..] && v[h + 3..] == y[3..];
  }

  /** The base circuit over emitted data can read them, and is about the transactions and insertions they were made for. */
  lemma QuadIsRead(lib: Library, a: Half, b: Half, txs: seq<seq<Fr>>, c: seq<CircuitInsertionInfo>, n: seq<IMTCircuitInsertionInfo>)
    requires ReadsBack(lib) && FourTxs(txs) && |c| == |n| == 2
    requires Fits(lib.sizes, a) && HalfReadable(lib.g, Some(a)) && Fits(lib.sizes, b) && HalfReadable(lib.g, Some(b))
    requires lib.g.insertionInfo(a.commitment) == Some(c[0]) && lib.g.insertionInfo(b.commitment) == Some(c[1])
    requires lib.g.imtInsertionInfo(a.nullifier) == Some(n[0]) && lib.g.imtInsertionInfo(b.nullifier) == Some(n[1])
    ensures |QuadVector(lib, a, b)| >= 6
    ensures var t := BaseFor(QuadVector(lib, a, b), txs);
            LeavesReadableBn(lib.g, t) && PartBn(lib.g, t) == Part(txs, c, n)
  {
    hide HalfReadable, Fits, QuadVector, BaseFor, Read, Layout, FourTxs;
    BaseOfQuad(lib, a, b, txs);
    ExtraReadsBack(lib.sizes, a, b);
    assert c == [c[0], c[1]] && n == [n[0], n[1]];
  }

  // ---------------------------------------------------------------- any tree over them

  /** The base circuits of a tree, in order. */
  function BasesBn(t: Bn254Node): seq<Bn254Node>
    decreases t
  {
    match t
    case Base(_, _, _) => [t]
    case MergeBn(left, right) => BasesGr(left) + BasesGr(right)
  }

  function BasesGr(t: GrumpkinNode): seq<Bn254Node>
    decreases t
  {
    BasesBn(t.left) + BasesBn(t.right)
  }

  ghost predicate AllReadable(g: Gadgets, s: seq<Bn254Node>) {
    forall i :: 0 <= i < |s| ==> LeavesReadableBn(g, s[i])
  }

  ghost function JoinedPart(g: Gadgets, s: seq<Bn254Node>): Part
    requires AllReadable(g, s)
  {
    if s == [] then Part([], [], []) else Join(JoinedPart(g, s[..|s| - 1]), PartBn(g, s[|s| - 1]))
  }

  lemma {:induction false} JoinedConcat(g: Gadgets, a: seq<Bn254Node>, b: seq<Bn254Node>)
    requires AllReadable(g, a) && AllReadable(g, b)
    ensures AllReadable(g, a + b) && JoinedPart(g, a + b) == Join(JoinedPart(g, a), JoinedPart(g, b))
  {
    hide LeavesReadableBn, PartBn, WellFormed, Join;
    if b == [] {
      assert a + b == a;
      JoinNothing(JoinedPart(g, a));
    } else {
      var init, last := b[..|b| - 1], b[|b| - 1];
      assert (a + b)[..|a + b| - 1] == a + init;
      JoinedConcat(g, a, init);
      JoinTwice(JoinedPart(g, a), JoinedPart(g, init), PartBn(g, last));
    }
  }

  lemma JoinNothing(p: Part)
    ensures Join(p, Part([], [], [])) == p
  {
  }

  lemma JoinTwice(p: Part, q: Part, r: Part)
    ensures Join(Join(p, q), r) == Join(p, Join(q, r))
  {
  }

  lemma JoinLast(g: Gadgets, s: seq<Bn254Node>, t: Bn254Node)
    requires AllReadable(g, s) && LeavesReadableBn(g, t)
    ensures AllReadable(g, s + [t]) && JoinedPart(g, s + [t]) == Join(JoinedPart(g, s), PartBn(g, t))
  {
    assert (s + [t])[..|s|] == s;
    hide LeavesReadableBn, PartBn, WellFormed, Join;
  }

  lemma ReadableSplit(g: Gadgets, a: seq<Bn254Node>, b: seq<Bn254Node>)
    requires AllReadable(g, a + b)
    ensures AllReadable(g, a) && AllReadable(g, b)
  {
    forall i | 0 <= i < |a|
      ensures LeavesReadableBn(g, a[i])
    {
      assert (a + b)[i] == a[i];
    }
    forall i | 0 <= i < |b|
      ensures LeavesReadableBn(g, b[i])
    {
      assert (a + b)[|a| + i] == b[i];
    }
  }

  /** A tree is about what its base circuits are about, in order. */
  lemma {:induction false} PartOfBasesBn(g: Gadgets, t: Bn254Node)
    requires AllReadable(g, BasesBn(t))
    ensures LeavesReadableBn(g, t) && PartBn(g, t) == JoinedPart(g, BasesBn(t))
    decreases t
  {
    hide ExtraReadable, FourTxs, WellFormed;
    match t
    case Base(_, _, _) =>
      assert BasesBn(t)[0] == t;
      JoinOne(g, t);
    case MergeBn(left, right) =>
      ReadableSplit(g, BasesGr(left), BasesGr(right));
      PartOfBasesGr(g, left);
      PartOfBasesGr(g, right);
      JoinedConcat(g, BasesGr(left), BasesGr(right));
  }

  lemma JoinOne(g: Gadgets, t: Bn254Node)
    requires LeavesReadableBn(g, t)
    ensures AllReadable(g, [t]) && JoinedPart(g, [t]) == PartBn(g, t)
  {
    assert [t][..0] == [];
    hide LeavesReadableBn, PartBn;
  }

  lemma {:induction false} PartOfBasesGr(g: Gadgets, t: GrumpkinNode)
    requires AllReadable(g, BasesGr(t))
    ensures LeavesReadableGr(g, t) && PartGr(g, t) == JoinedPart(g, BasesGr(t))
    decreases t
  {
    hide ExtraReadable, FourTxs, WellFormed;
    ReadableSplit(g, BasesBn(t.left), BasesBn(t.right));
    PartOfBasesBn(g, t.left);
    PartOfBasesBn(g, t.right);
    JoinedConcat(g, BasesBn(t.left), BasesBn(t.right));
  }

  /** What the trees emitted for some public inputs; `next` is the path of the next place among the historic roots. */
  datatype Emissions = Emissions(
    proofs: map<Fr, seq<Fr>>, commitments: seq<CircuitInsertionInfo>, nullifiers: seq<IMTCircuitInsertionInfo>, next: MembershipProof)

  ghost predicate Formed(lib: Library, pis: seq<PublicInputs>, w: Emissions) {
    && AllShaped(pis) && (forall i :: 0 <= i < |pis| ==> RootsKnown(w.proofs, pis[i]))
    && (forall i :: 0 <= i < |w.commitments| ==> InsertionForm(w.commitments[i]))
    && (forall i :: 0 <= i < |w.nullifiers| ==> ImtForm(w.nullifiers[i]))
  }

  /** The vectors for the base circuits take four transactions and two insertions of each kind at a time. */
  ghost predicate InQuads(lib: Library, pis: seq<PublicInputs>, w: Emissions, extra: seq<seq<Fr>>)
    requires Formed(lib, pis, w)
  {
    && |pis| == 4 * |extra| && |w.commitments| == |w.nullifiers| == 2 * |extra|
    && forall i: nat :: i < |extra| ==> extra[i] == QuadAt(lib, pis, w, i)
  }

  function QuadAt(lib: Library, pis: seq<PublicInputs>, w: Emissions, i: nat): seq<Fr>
    requires 4 * i + 3 < |pis| && 2 * i + 1 < |w.commitments| && |w.nullifiers| == |w.commitments|
    requires forall k :: 0 <= k < |pis| ==> RootsKnown(w.proofs, pis[k])
  {
    QuadVector(lib, HalfFor(lib, w.proofs, pis[4 * i], pis[4 * i + 1], w.commitments[2 * i], w.nullifiers[2 * i]),
               HalfFor(lib, w.proofs, pis[4 * i + 2], pis[4 * i + 3], w.commitments[2 * i + 1], w.nullifiers[2 * i + 1]))
  }

  /** One base circuit over emitted data. */
  lemma QuadAtIsRead(lib: Library, pis: seq<PublicInputs>, w: Emissions, top: Fr, i: nat)
    requires ReadsBack(lib) && Formed(lib, pis, w) && RootsProved(lib, w.proofs, top)
    requires 4 * i + 3 < |pis| && 2 * i + 1 < |w.commitments| && |w.nullifiers| == |w.commitments|
    ensures |QuadAt(lib, pis, w, i)| >= 6
    ensures var t := BaseFor(QuadAt(lib, pis, w, i), Map(InputVector, pis)[4 * i..4 * i + 4]);
            && LeavesReadableBn(lib.g, t)
            && PartBn(lib.g, t)
               == Part(Map(InputVector, pis)[4 * i..4 * i + 4], w.commitments[2 * i..2 * i + 2], w.nullifiers[2 * i..2 * i + 2])
  {
    hide HalfReadable, Fits, QuadVector, BaseFor, HalfFor, ReadsBack, RootsProved, InsertionForm, ImtForm, InputVector, RootsKnown;
    var txs := Map(InputVector, pis)[4 * i..4 * i + 4];
    HalfReads(lib, w.proofs, top, pis[4 * i], pis[4 * i + 1], w.commitments[2 * i], w.nullifiers[2 * i]);
    HalfReads(lib, w.proofs, top, pis[4 * i + 2], pis[4 * i + 3], w.commitments[2 * i + 1], w.nullifiers[2 * i + 1]);
    forall k | 0 <= k < 4
      ensures |txs[k]| == TX
    {
      VectorParts(pis[4 * i + k]);
    }
    QuadIsRead(lib, HalfFor(lib, w.proofs, pis[4 * i], pis[4 * i + 1], w.commitments[2 * i], w.nullifiers[2 * i]),
               HalfFor(lib, w.proofs, pis[4 * i + 2], pis[4 * i + 3], w.commitments[2 * i + 1], w.nullifiers[2 * i + 1]),
               txs, w.commitments[2 * i..2 * i + 2], w.nullifiers[2 * i..2 * i + 2]);
  }

  /** The base circuits are those over the emitted data, one for each four transactions. */
  ghost predicate BasesOver(lib: Library, pis: seq<PublicInputs>, w: Emissions, s: seq<Bn254Node>) {
    && Formed(lib, pis, w) && |pis| == 4 * |s| && |w.commitments| == |w.nullifiers| == 2 * |s|
    && forall i: nat :: i < |s| ==>
         |QuadAt(lib, pis, w, i)| >= 6 && s[i] == BaseFor(QuadAt(lib, pis, w, i), Map(InputVector, pis)[4 * i..4 * i + 4])
  }

  function FirstOf(w: Emissions, n: nat): (r: Emissions)
    requires |w.commitments| == |w.nullifiers| >= n
    ensures r.proofs == w.proofs
  {
    w.(commitments := w.commitments[..n], nullifiers := w.nullifiers[..n])
  }

  lemma BasesOverPrefix(lib: Library, pis: seq<PublicInputs>, w: Emissions, s: seq<Bn254Node>, n: nat)
    requires BasesOver(lib, pis, w, s) && n == |s| - 1
    ensures BasesOver(lib, pis[..4 * n], FirstOf(w, 2 * n), s[..n])
  {
    hide InputVector, RootsKnown, QuadAt, BaseFor, InsertionForm, ImtForm, Shaped;
    forall i: nat | i < n
      ensures QuadAt(lib, pis[..4 * n], FirstOf(w, 2 * n), i) == QuadAt(lib, pis, w, i)
      ensures Map(InputVector, pis[..4 * n])[4 * i..4 * i + 4] == Map(InputVector, pis)[4 * i..4 * i + 4]
    {
      QuadOfPrefix(lib, pis, w, i, n);
    }
  }

  /** Base circuits over all the emitted data are about all the transactions and insertions, in order. */
  lemma {:induction false} QuadsAreRead(lib: Library, pis: seq<PublicInputs>, w: Emissions, top: Fr, s: seq<Bn254Node>)
    requires ReadsBack(lib) && RootsProved(lib, w.proofs, top) && BasesOver(lib, pis, w, s)
    ensures AllReadable(lib.g, s)
    ensures JoinedPart(lib.g, s) == Part(Map(InputVector, pis), w.commitments, w.nullifiers)
    decreases |s|
  {
    hide *;
    if s != [] {
      var n: nat := |s| - 1;
      var t := LastBase(lib, pis, w, top, s, n);
      BasesOverPrefix(lib, pis, w, s, n);
      QuadsAreRead(lib, pis[..4 * n], FirstOf(w, 2 * n), top, s[..n]);
      assert s == s[..n] + [t];
      JoinLast(lib.g, s[..n], t);
      PrefixAndQuad(pis, w, n);
    } else {
      NoBases(lib, pis, w, s);
    }
  }

  lemma NoBases(lib: Library, pis: seq<PublicInputs>, w: Emissions, s: seq<Bn254Node>)
    requires BasesOver(lib, pis, w, s) && s == []
    ensures AllReadable(lib.g, s) && JoinedPart(lib.g, s) == Part(Map(InputVector, pis), w.commitments, w.nullifiers)
  {
    assert Map(InputVector, pis) == [];
  }

  lemma LastBase(lib: Library, pis: seq<PublicInputs>, w: Emissions, top: Fr, s: seq<Bn254Node>, n: nat) returns (t: Bn254Node)
    requires ReadsBack(lib) && RootsProved(lib, w.proofs, top) && BasesOver(lib, pis, w, s) && n == |s| - 1
    ensures t == s[n] && LeavesReadableBn(lib.g, t) && |pis| == 4 * n + 4 && |w.commitments| == |w.nullifiers| == 2 * n + 2
    ensures PartBn(lib.g, t)
         == Part(Map(InputVector, pis)[4 * n..4 * n + 4], w.commitments[2 * n..2 * n + 2], w.nullifiers[2 * n..2 * n + 2])
  {
    hide QuadAt, BaseFor, LeavesReadableBn, PartBn, ReadsBack, RootsProved, InsertionForm, ImtForm, InputVector, RootsKnown;
    QuadAtIsRead(lib, pis, w, top, n);
    t := s[n];
  }

  lemma PrefixAndQuad(pis: seq<PublicInputs>, w: Emissions, n: nat)
    requires |pis| == 4 * n + 4 && |w.commitments| == |w.nullifiers| == 2 * n + 2
    ensures var txs, w' := Map(InputVector, pis), FirstOf(w, 2 * n);
            Join(Part(Map(InputVector, pis[..4 * n]), w'.commitments, w'.nullifiers),
                 Part(txs[4 * n..4 * n + 4], w.commitments[2 * n..2 * n + 2], w.nullifiers[2 * n..2 * n + 2]))
            == Part(txs, w.commitments, w.nullifiers)
  {
    hide InputVector;
    var txs := Map(InputVector, pis);
    assert txs == Map(InputVector, pis[..4 * n]) + txs[4 * n..4 * n + 4];
  }

  lemma QuadOfPrefix(lib: Library, pis: seq<PublicInputs>, w: Emissions, i: nat, n: nat)
    requires i < n && |pis| >= 4 * n && |w.commitments| == |w.nullifiers| >= 2 * n
    requires forall k :: 0 <= k < |pis| ==> RootsKnown(w.proofs, pis[k])
    ensures QuadAt(lib, pis[..4 * n], w.(commitments := w.commitments[..2 * n], nullifiers := w.nullifiers[..2 * n]), i)
         == QuadAt(lib, pis, w, i)
    ensures Map(InputVector, pis[..4 * n])[4 * i..4 * i + 4] == Map(InputVector, pis)[4 * i..4 * i + 4]
  {
    hide InputVector, RootsKnown, QuadVector;
  }

  // ---------------------------------------------------------------- what is handed over for a block

  /** The vectors for the transactions, for the base circuits and for the decider. */
  datatype Prepared = Prepared(specificPi: seq<seq<Fr>>, extraInfo: seq<seq<Fr>>, deciderInfo: seq<Fr>)

  /** The roots of the three trees. */
  datatype Roots = Roots(commitments: Fr, nullifiers: Fr, historic: Fr)

  /** The base circuits take the vectors in order, the decider the rest, behind its length. */
  ghost predicate Assembled(p: Prepared, d: Decider) {
    var s := BasesGr(d.left) + BasesGr(d.right);
    && |s| == |p.extraInfo| && |p.specificPi| == 4 * |s|
    && (forall i: nat :: i < |s| ==> |p.extraInfo[i]| >= 6 && s[i] == BaseFor(p.extraInfo[i], p.specificPi[4 * i..4 * i + 4]))
    && p.deciderInfo != [] && d.proofLength == p.deciderInfo[0] && d.aux == p.deciderInfo[1..]
  }

  /** The vectors are made of what was emitted on the way from the roots `before` to the roots `after`. */
  ghost predicate PreparedFrom(lib: Library, pis: seq<PublicInputs>, w: Emissions, before: Roots, after: Roots, p: Prepared) {
    && Formed(lib, pis, w) && RootsProved(lib, w.proofs, before.historic)
    && InQuads(lib, pis, w, p.extraInfo) && p.specificPi == Map(InputVector, pis)
    && InsertionChain(lib.g.h, LEVELS, SUB_TREE, before.commitments, w.commitments, after.commitments)
    && NullifierChain(lib.g.h, LEVELS, SUB_TREE, before.nullifiers, ProvedNullifiers(pis), w.nullifiers, after.nullifiers)
    && NextPlace(lib, w.next, before, after, p.deciderInfo)
  }

  /** One path leads from zero to the old historic root, and from the new commitment root to the new one. */
  ghost predicate NextPlace(lib: Library, next: MembershipProof, before: Roots, after: Roots, info: seq<Fr>) {
    && ProofForm(HISTORY, next)
    && info == [FromInt(lib.sizes.proof)] + lib.proofVector(next) + [before.historic]
    && FoldPath(lib.g.h, 0, next.siblingPath) == before.historic
    && FoldPath(lib.g.h, after.commitments, next.siblingPath) == after.historic
  }

  /** The complete tree over base circuits, pairing them as they come. */
  function TreeBn(s: seq<Bn254Node>, k: nat): Bn254Node
    requires |s| == Pow2(2 * k)
    decreases k, 0
  {
    if k == 0 then s[0] else
    assert Pow2(2 * k) == 2 * Pow2(2 * (k - 1) + 1);
    var h := |s| / 2;
    MergeBn(TreeGr(s[..h], k - 1), TreeGr(s[h..], k - 1))
  }

  function TreeGr(s: seq<Bn254Node>, k: nat): GrumpkinNode
    requires |s| == Pow2(2 * k + 1)
    decreases k, 1
  {
    assert Pow2(2 * k + 1) == 2 * Pow2(2 * k);
    var h := |s| / 2;
    MergeGr(TreeBn(s[..h], k), TreeBn(s[h..], k))
  }

  lemma {:induction false} TreeBnIsOver(s: seq<Bn254Node>, k: nat)
    requires |s| == Pow2(2 * k) && forall i :: 0 <= i < |s| ==> s[i].Base?
    ensures BalancedBn(TreeBn(s, k), k) && BasesBn(TreeBn(s, k)) == s
    decreases k, 0
  {
    if k == 0 {
      assert s == [s[0]];
    } else {
      assert Pow2(2 * k) == 2 * Pow2(2 * (k - 1) + 1);
      var h := |s| / 2;
      TreeGrIsOver(s[..h], k - 1);
      TreeGrIsOver(s[h..], k - 1);
      assert s == s[..h] + s[h..];
    }
  }

  lemma {:induction false} TreeGrIsOver(s: seq<Bn254Node>, k: nat)
    requires |s| == Pow2(2 * k + 1) && forall i :: 0 <= i < |s| ==> s[i].Base?
    ensures BalancedGr(TreeGr(s, k), k) && BasesGr(TreeGr(s, k)) == s
    decreases k, 1
  {
    assert Pow2(2 * k + 1) == 2 * Pow2(2 * k);
    var h := |s| / 2;
    TreeBnIsOver(s[..h], k);
    TreeBnIsOver(s[h..], k);
    assert s == s[..h] + s[h..];
  }

  /** For 4^(k + 1) vectors there is a decider over a complete tree of circuits. */
  lemma DeciderFor(p: Prepared, k: nat) returns (d: Decider)
    requires |p.extraInfo| == Pow2(2 * k + 2) && |p.specificPi| == 4 * |p.extraInfo| && p.deciderInfo != []
    requires forall i :: 0 <= i < |p.extraInfo| ==> |p.extraInfo[i]| >= 6
    ensures Assembled(p, d) && BalancedGr(d.left, k) && BalancedGr(d.right, k)
  {
    var s := BasesFor(p);
    assert Pow2(2 * k + 2) == 2 * Pow2(2 * k + 1);
    hide *;
    var left, right := HalvesAreTrees(s, k);
    d := Decider(left, right, p.deciderInfo[1..], p.deciderInfo[0]);
    IsAssembled(p, d, s);
  }

  function BasesFor(p: Prepared): (s: seq<Bn254Node>)
    requires |p.specificPi| == 4 * |p.extraInfo| && forall i :: 0 <= i < |p.extraInfo| ==> |p.extraInfo[i]| >= 6
    ensures |s| == |p.extraInfo| && forall i :: 0 <= i < |s| ==> s[i].Base?
    ensures forall i: nat :: i < |s| ==> s[i] == BaseFor(p.extraInfo[i], p.specificPi[4 * i..4 * i + 4])
  {
    seq(|p.extraInfo|, i requires 0 <= i < |p.extraInfo| => BaseFor(p.extraInfo[i], p.specificPi[4 * i..4 * i + 4]))
  }

  lemma HalvesAreTrees(s: seq<Bn254Node>, k: nat) returns (left: GrumpkinNode, right: GrumpkinNode)
    requires |s| == 2 * Pow2(2 * k + 1) && forall i :: 0 <= i < |s| ==> s[i].Base?
    ensures BalancedGr(left, k) && BalancedGr(right, k) && BasesGr(left) + BasesGr(right) == s
  {
    var h := Pow2(2 * k + 1);
    hide Pow2, BalancedGr, BasesGr;
    TreeGrIsOver(s[..h], k);
    TreeGrIsOver(s[h..], k);
    assert s == s[..h] + s[h..];
    left, right := TreeGr(s[..h], k), TreeGr(s[h..], k);
  }

  lemma IsAssembled(p: Prepared, d: Decider, s: seq<Bn254Node>)
    requires |p.specificPi| == 4 * |p.extraInfo| && p.deciderInfo != []
    requires forall i :: 0 <= i < |p.extraInfo| ==> |p.extraInfo[i]| >= 6
    requires s == BasesFor(p) && BasesGr(d.left) + BasesGr(d.right) == s
    requires d.proofLength == p.deciderInfo[0] && d.aux == p.deciderInfo[1..]
    ensures Assembled(p, d)
  {
    hide BasesFor, BasesGr, BaseFor;
  }

  lemma QuadsOver(lib: Library, pis: seq<PublicInputs>, w: Emissions, top: Fr, p: Prepared, d: Decider)
    requires ReadsBack(lib) && Formed(lib, pis, w) && RootsProved(lib, w.proofs, top)
    requires InQuads(lib, pis, w, p.extraInfo) && p.specificPi == Map(InputVector, pis) && Assembled(p, d)
    ensures BasesOver(lib, pis, w, BasesGr(d.left) + BasesGr(d.right))
  {
    hide Formed, ReadsBack, RootsProved, QuadAt, BaseFor, InputVector;
  }

  /** A decider over prepared vectors can read them, and is about the transactions and insertions they were made for. */
  lemma PreparedIsRead(lib: Library, pis: seq<PublicInputs>, w: Emissions, top: Fr, p: Prepared, d: Decider)
    requires ReadsBack(lib) && Formed(lib, pis, w) && RootsProved(lib, w.proofs, top)
    requires InQuads(lib, pis, w, p.extraInfo) && p.specificPi == Map(InputVector, pis) && Assembled(p, d)
    ensures LeavesReadableGr(lib.g, d.left) && LeavesReadableGr(lib.g, d.right)
    ensures Join(PartGr(lib.g, d.left), PartGr(lib.g, d.right)) == Part(Map(InputVector, pis), w.commitments, w.nullifiers)
  {
    hide *;
    var a, b := BasesGr(d.left), BasesGr(d.right);
    QuadsOver(lib, pis, w, top, p, d);
    QuadsAreRead(lib, pis, w, top, a + b);
    ReadableSplit(lib.g, a, b);
    PartOfBasesGr(lib.g, d.left);
    PartOfBasesGr(lib.g, d.right);
    JoinedConcat(lib.g, a, b);
  }

  lemma NextIsRead(lib: Library, w: Emissions, before: Roots, after: Roots, p: Prepared, d: Decider)
    requires ReadsBack(lib) && Assembled(p, d) && NextPlace(lib, w.next, before, after, p.deciderInfo)
    ensures d.proofLength < |d.aux| && d.aux[d.proofLength] == before.historic
    ensures lib.g.membershipProof(d.aux[..d.proofLength]) == Some(w.next.siblingPath)
  {
    hide FoldPath, BaseFor, ProofForm, InsertionForm, ImtForm;
    assert d.aux[..d.proofLength] == lib.proofVector(w.next);
  }

  lemma PreparedIsProved(lib: Library, pis: seq<PublicInputs>, w: Emissions, before: Roots, after: Roots, p: Prepared, d: Decider)
    requires ReadsBack(lib) && PreparedFrom(lib, pis, w, before, after, p) && Assembled(p, d)
    ensures d.proofLength < |d.aux| && OutDecider(lib.g, d).Some?
    ensures var txs, out := Map(InputVector, pis), OutDecider(lib.g, d).value;
            && Readable(lib.g, d) && PartOf(lib.g, d).txs == txs && (forall i :: 0 <= i < |txs| ==> |txs[i]| == TX)
            && (NumberSum(Fees(txs)) < MODULUS ==> out[0] == NumberSum(Fees(txs)))
            && out[2..] == [before.commitments, after.commitments, before.nullifiers, after.nullifiers, before.historic, after.historic]
  {
    hide ReadsBack, Formed, RootsProved, InQuads, Assembled, InsertionChain, NullifierChain, LeavesReadableGr, PartGr, Join, OutDecider,
         FoldPath, WellFormed, NumberSum, Fees, Chained, InputVector, ProofForm;
    PreparedIsRead(lib, pis, w, before.historic, p, d);
    NextIsRead(lib, w, before, after, p, d);
    ChainEnds(lib.g, PartOf(lib.g, d), before.commitments, after.commitments, before.nullifiers, after.nullifiers, ProvedNullifiers(pis));
    BlockProvedIffChained(lib.g, d);
    TxsAreSized(PartOf(lib.g, d));
  }

  lemma TxsAreSized(p: Part)
    requires WellFormed(p)
    ensures forall i :: 0 <= i < |p.txs| ==> |p.txs[i]| == TX
  {
  }

  /**
   Completeness. For the vectors the proposer prepares, any complete tree of circuits over them is satisfied,
   and its public output is what the contract checks the published block against: the roots before and
   after, the hash over all published transactions, and the sum of their fees while that is a field element.
   */
  lemma ProposedBlockIsProved(lib: Library, deposits: seq<PublicInputs>, clients: seq<ClientTransaction>, w: Emissions,
                              before: Roots, after: Roots, p: Prepared, d: Decider, k: nat, block: seq<ChainTransaction>)
    requires ReadsBack(lib) && PreparedFrom(lib, ProvedInputs(deposits, clients), w, before, after, p)
    requires Assembled(p, d) && BalancedGr(d.left, k) && BalancedGr(d.right, k)
    requires AllPublished(BlockTransactions(deposits, clients), block)
    ensures d.proofLength < |d.aux| && OutDecider(lib.g, d).Some? && FourEach(block) && |block| == Pow2(2 * k + 4)
    ensures var out := OutDecider(lib.g, d).value;
            && out[1..] == [Reduce(lib.g.sha2, ContractHashes(lib.g.sha12, block)), before.commitments, after.commitments,
                            before.nullifiers, after.nullifiers, before.historic, after.historic]
            && (ChainFees(block) < MODULUS ==> out[0] == ChainFees(block))
  {
    hide *;
    var pis := ProvedInputs(deposits, clients);
    PreparedIsProved(lib, pis, w, before, after, p, d);
    InputsAreShaped(lib, pis, w, before, after, p);
    BlockHashes(lib.g, deposits, clients, block);
    BlockHash(lib.g, d, k);
    SameSize(pis, deposits, clients, block);
  }

  /** So for each block of 16 * 4^k transactions that is prepared there is a decider for the theorem above. */
  lemma PreparedHasDecider(lib: Library, pis: seq<PublicInputs>, w: Emissions, before: Roots, after: Roots, p: Prepared, k: nat)
    returns (d: Decider)
    requires ReadsBack(lib) && PreparedFrom(lib, pis, w, before, after, p) && |pis| == Pow2(2 * k + 4)
    ensures Assembled(p, d) && BalancedGr(d.left, k) && BalancedGr(d.right, k)
  {
    hide ReadsBack, Formed, RootsProved, InsertionChain, NullifierChain, FoldPath, ProofForm, InputVector, QuadAt;
    assert Pow2(2 * k + 4) == 4 * Pow2(2 * k + 2);
    hide Pow2;
    forall i | 0 <= i < |p.extraInfo|
      ensures |p.extraInfo[i]| >= 6
    {
      QuadAtIsRead(lib, pis, w, before.historic, i);
    }
    d := DeciderFor(p, k);
  }

  lemma InputsAreShaped(lib: Library, pis: seq<PublicInputs>, w: Emissions, before: Roots, after: Roots, p: Prepared)
    requires PreparedFrom(lib, pis, w, before, after, p)
    ensures AllShaped(pis)
  {
  }

  lemma SameSize(pis: seq<PublicInputs>, deposits: seq<PublicInputs>, clients: seq<ClientTransaction>, block: seq<ChainTransaction>)
    requires pis == ProvedInputs(deposits, clients) && AllPublished(BlockTransactions(deposits, clients), block)
    ensures |Map(InputVector, pis)| == |pis| == |block|
  {
    hide InputVector, Publish;
  }

  // ---------------------------------------------------------------- preparing a block

  /** The root of a client's proof among the historic roots; zero is looked up in the first place. */
  method HistoricProof(historic: MutableTree, root: Fr) returns (r: Result<MembershipProof>)
    requires historic.Valid() && historic.treeHeight == HISTORY && historic.subTreeHeight == 0
    requires LeafOrZero(historic.leaves, 0) == 0
    ensures root == 0 || historic.FoundAsLeaf(root) ==> r.Ok?
    ensures r.Ok? ==>
      && ProofForm(HISTORY, r.value) && LeafOrZero(historic.leaves, r.value.leafIndex) == root
      && FoldPath(historic.h, root, r.value.siblingPath) == historic.root
  {
    hide NodeVal, SiblingPath, SoundTree;
    TreeOfCircuitsFits();
    if root == 0 {
      r := historic.GetMembershipProof(0);
    } else {
      r := historic.GetMembershipProofOf(root);
    }
  }

  /** All these are among the historic roots; zero is the first of them. */
  ghost predicate AllHistoric(leaves: seq<Fr>, roots: set<Fr>) {
    forall x :: x in roots ==> exists k: nat :: LeafOrZero(leaves, k) == x
  }

  lemma OneMoreHistoric(leaves: seq<Fr>, roots: set<Fr>, x: Fr, k: nat)
    requires AllHistoric(leaves, roots) && LeafOrZero(leaves, k) == x
    ensures AllHistoric(leaves, roots + {x})
  {
  }

  ghost predicate Extends(proofs: map<Fr, seq<Fr>>, more: map<Fr, seq<Fr>>) {
    forall x :: x in proofs ==> x in more && more[x] == proofs[x]
  }

  lemma ChunksGrow(proofs: map<Fr, seq<Fr>>, more: map<Fr, seq<Fr>>, roots: seq<Fr>)
    requires (forall x :: x in roots ==> x in proofs) && Extends(proofs, more)
    ensures ChunksFor(more, roots) == ChunksFor(proofs, roots)
  {
  }

  lemma {:induction false} ConcatSplit(a: seq<seq<Fr>>, b: seq<seq<Fr>>)
    ensures Concat(a + b) == Concat(a) + Concat(b)
  {
    if a == [] {
      assert a + b == b;
    } else {
      assert (a + b)[1..] == a[1..] + b;
      ConcatSplit(a[1..], b);
    }
  }

  lemma OneMoreChunk(proofs: map<Fr, seq<Fr>>, roots: seq<Fr>, j: nat)
    requires j < |roots| && forall x :: x in roots[..j + 1] ==> x in proofs
    ensures forall x :: x in roots[..j] ==> x in roots[..j + 1]
    ensures Concat(ChunksFor(proofs, roots[..j + 1])) == Concat(ChunksFor(proofs, roots[..j])) + proofs[roots[j]]
  {
    var one := [proofs[roots[j]]];
    assert ChunksFor(proofs, roots[..j + 1]) == ChunksFor(proofs, roots[..j]) + one;
    ConcatSplit(ChunksFor(proofs, roots[..j]), one);
    assert Concat(one) == proofs[roots[j]] + Concat([]);
  }

  lemma RootIsProved(lib: Library, proofs: map<Fr, seq<Fr>>, top: Fr, x: Fr, p: MembershipProof)
    requires RootsProved(lib, proofs, top) && ProofForm(HISTORY, p) && FoldPath(lib.g.h, x, p.siblingPath) == top
    ensures RootsProved(lib, proofs[x := lib.proofVector(p) + [top]], top)
  {
    hide ProofForm, FoldPath;
  }

  /** The proofs of one transaction's roots; each root is looked up once. */
  method ProveRootsOf(lib: Library, historic: MutableTree, roots: seq<Fr>, known: map<Fr, seq<Fr>>, knownLength: nat)
    returns (r: Result<seq<Fr>>, proofs: map<Fr, seq<Fr>>, length: nat)
    requires historic.Valid() && historic.treeHeight == HISTORY && historic.subTreeHeight == 0 && historic.h == lib.g.h
    requires LeafOrZero(historic.leaves, 0) == 0 && RootsProved(lib, known, historic.root)
    requires ReadsBack(lib) && (known != map[] ==> knownLength == lib.sizes.proof) && AllHistoric(historic.leaves, known.Keys)
    ensures (forall x :: x in roots ==> x == 0 || historic.FoundAsLeaf(x)) ==> r.Ok?
    ensures RootsProved(lib, proofs, historic.root) && Extends(known, proofs) && (proofs != map[] ==> length == lib.sizes.proof)
    ensures AllHistoric(historic.leaves, proofs.Keys)
    ensures r.Ok? ==> (forall x :: x in roots ==> x in proofs) && r.value == Concat(ChunksFor(proofs, roots))
  {
    hide NodeVal, SoundTree, FoldPath, RootsProved, ProofForm, Concat, ReadsBack, AllHistoric;
    proofs, length := known, knownLength;
    var m := [];
    NothingToProve();
    for j := 0 to |roots|
      invariant RootsProved(lib, proofs, historic.root) && Extends(known, proofs) && AllHistoric(historic.leaves, proofs.Keys)
      invariant proofs != map[] ==> length == lib.sizes.proof
      invariant (forall x :: x in roots[..j] ==> x in proofs) && m == Concat(ChunksFor(proofs, roots[..j]))
    {
      ghost var was := proofs;
      if roots[j] !in proofs {
        var proof := HistoricProof(historic, roots[j]);
        if proof.Err? {
          return Err(proof.error), proofs, length;
        }
        RootIsProved(lib, proofs, historic.root, roots[j], proof.value);
        ProofLength(lib, proof.value);
        OneMoreHistoric(historic.leaves, proofs.Keys, roots[j], proof.value.leafIndex);
        var vector := lib.proofVector(proof.value);
        length := |vector|;
        proofs := proofs[roots[j] := vector + [historic.root]];
        assert proofs.Keys == was.Keys + {roots[j]};
      }
      assert roots[..j + 1] == roots[..j] + [roots[j]];
      ChunksGrow(was, proofs, roots[..j]);
      OneMoreChunk(proofs, roots, j);
      m := m + proofs[roots[j]];
    }
    assert roots[..|roots|] == roots;
    r := Ok(m);
  }

  lemma ProofLength(lib: Library, p: MembershipProof)
    requires ReadsBack(lib) && ProofForm(HISTORY, p)
    ensures |lib.proofVector(p)| == lib.sizes.proof
  {
  }

  lemma NothingToProve()
    ensures forall proofs: map<Fr, seq<Fr>> :: Concat(ChunksFor(proofs, [])) == []
  {
  }

  /** For each transaction the proofs of its roots, one behind the other. */
  ghost predicate ProofsGathered(proofs: map<Fr, seq<Fr>>, pis: seq<PublicInputs>, gathered: seq<seq<Fr>>) {
    && |gathered| <= |pis|
    && forall i :: 0 <= i < |gathered| ==> RootsKnown(proofs, pis[i]) && gathered[i] == Concat(ChunksFor(proofs, pis[i].roots))
  }

  lemma GatheredGrow(proofs: map<Fr, seq<Fr>>, more: map<Fr, seq<Fr>>, pis: seq<PublicInputs>, gathered: seq<seq<Fr>>)
    requires ProofsGathered(proofs, pis, gathered) && Extends(proofs, more)
    ensures ProofsGathered(more, pis, gathered)
  {
    forall i | 0 <= i < |gathered|
      ensures RootsKnown(more, pis[i]) && gathered[i] == Concat(ChunksFor(more, pis[i].roots))
    {
      ChunksGrow(proofs, more, pis[i].roots);
    }
  }

  ghost predicate AllFound(historic: MutableTree, pis: seq<PublicInputs>)
    reads historic
  {
    forall i, x :: 0 <= i < |pis| && x in pis[i].roots ==> x == 0 || historic.FoundAsLeaf(x)
  }

  method ProveRoots(lib: Library, historic: MutableTree, pis: seq<PublicInputs>)
    returns (r: Result<seq<seq<Fr>>>, proofs: map<Fr, seq<Fr>>, length: nat)
    requires historic.Valid() && historic.treeHeight == HISTORY && historic.subTreeHeight == 0 && historic.h == lib.g.h
    requires LeafOrZero(historic.leaves, 0) == 0 && ReadsBack(lib)
    ensures AllFound(historic, pis) ==> r.Ok?
    ensures RootsProved(lib, proofs, historic.root) && (proofs != map[] ==> length == lib.sizes.proof)
    ensures AllHistoric(historic.leaves, proofs.Keys)
    ensures r.Ok? ==> |r.value| == |pis| && ProofsGathered(proofs, pis, r.value)
  {
    hide NodeVal, SoundTree, FoldPath, ProofForm, ChunksFor, Concat, ReadsBack;
    proofs, length := map[], 0;
    assert AllHistoric(historic.leaves, proofs.Keys);
    hide AllHistoric;
    var gathered := [];
    for i := 0 to |pis|
      invariant RootsProved(lib, proofs, historic.root) && |gathered| == i && ProofsGathered(proofs, pis, gathered)
      invariant (proofs != map[] ==> length == lib.sizes.proof) && AllHistoric(historic.leaves, proofs.Keys)
    {
      ghost var was := proofs;
      var m;
      m, proofs, length := ProveRootsOf(lib, historic, pis[i].roots, proofs, length);
      if m.Err? {
        return Err(m.error), proofs, length;
      }
      GatheredGrow(was, proofs, pis, gathered);
      gathered := gathered + [m.value];
    }
    r := Ok(gathered);
  }

  /** The vector of two transactions is the layout of what they bring along, behind the lengths. */
  lemma HalfVector(lib: Library, proofs: map<Fr, seq<Fr>>, a: PublicInputs, b: PublicInputs,
                   c: CircuitInsertionInfo, n: IMTCircuitInsertionInfo, ma: seq<Fr>, mb: seq<Fr>)
    requires RootsKnown(proofs, a) && RootsKnown(proofs, b)
    requires ma == Concat(ChunksFor(proofs, a.roots)) && mb == Concat(ChunksFor(proofs, b.roots))
    ensures [FromInt(lib.sizes.proof), FromInt(lib.sizes.commitment), FromInt(lib.sizes.nullifier)] + (a.roots + b.roots) + (ma + mb)
            + lib.insertionVector(c) + lib.imtVector(n)
         == Headed(lib.sizes, HalfFor(lib, proofs, a, b, c, n))
  {
    assert ChunksFor(proofs, a.roots + b.roots) == ChunksFor(proofs, a.roots) + ChunksFor(proofs, b.roots);
    ConcatSplit(ChunksFor(proofs, a.roots), ChunksFor(proofs, b.roots));
    FiveParts([FromInt(lib.sizes.proof), FromInt(lib.sizes.commitment), FromInt(lib.sizes.nullifier)], a.roots + b.roots, ma + mb,
              lib.insertionVector(c), lib.imtVector(n));
    hide Concat, ChunksFor;
  }

  lemma FiveParts(a: seq<Fr>, b: seq<Fr>, c: seq<Fr>, d: seq<Fr>, e: seq<Fr>)
    ensures a + b + c + d + e == a + (b + c + d + e)
  {
  }

  /** The vector of two transactions, with one insertion of each kind. */
  method VectorOfTwo(lib: Library, lengths: seq<Fr>, pis: seq<PublicInputs>, gathered: seq<seq<Fr>>, w: Emissions, i: nat)
    returns (v: seq<Fr>)
    requires Formed(lib, pis, w) && ProofsGathered(w.proofs, pis, gathered) && |gathered| == |pis|
    requires lengths == [FromInt(lib.sizes.proof), FromInt(lib.sizes.commitment), FromInt(lib.sizes.nullifier)]
    requires 2 * i + 1 < |pis| && i < |w.commitments| == |w.nullifiers|
    ensures v == Headed(lib.sizes, HalfFor(lib, w.proofs, pis[2 * i], pis[2 * i + 1], w.commitments[i], w.nullifiers[i]))
  {
    hide InsertionForm, ImtForm, Concat, FromInt, Headed, HalfFor, Shaped;
    HalfVector(lib, w.proofs, pis[2 * i], pis[2 * i + 1], w.commitments[i], w.nullifiers[i], gathered[2 * i], gathered[2 * i + 1]);
    v := lengths + (pis[2 * i].roots + pis[2 * i + 1].roots) + (gathered[2 * i] + gathered[2 * i + 1])
         + lib.insertionVector(w.commitments[i]) + lib.imtVector(w.nullifiers[i]);
  }

  lemma VectorLengths(lib: Library, pis: seq<PublicInputs>, w: Emissions, i: nat)
    requires ReadsBack(lib) && Formed(lib, pis, w) && i < |w.commitments| == |w.nullifiers|
    ensures |lib.insertionVector(w.commitments[i])| == lib.sizes.commitment && |lib.imtVector(w.nullifiers[i])| == lib.sizes.nullifier
  {
    hide InsertionForm, ImtForm, Shaped, RootsKnown;
  }

  /** The vector of four transactions. */
  method VectorOfFour(lib: Library, proofLength: nat, pis: seq<PublicInputs>, gathered: seq<seq<Fr>>, w: Emissions, i: nat)
    returns (v: seq<Fr>)
    requires ReadsBack(lib) && Formed(lib, pis, w) && ProofsGathered(w.proofs, pis, gathered) && |gathered| == |pis|
    requires proofLength == lib.sizes.proof && 4 * i + 3 < |pis| && 2 * i + 1 < |w.commitments| == |w.nullifiers|
    ensures Formed(lib, pis, w) && v == QuadAt(lib, pis, w, i)
  {
    hide ReadsBack, ProofsGathered, Headed, HalfFor, InsertionForm, ImtForm, FromInt, QuadVector, RootsKnown, QuadAt;
    VectorLengths(lib, pis, w, 2 * i);
    var c, n := lib.insertionVector(w.commitments[2 * i]), lib.imtVector(w.nullifiers[2 * i]);
    var lengths := [FromInt(proofLength), FromInt(|c|), FromInt(|n|)];
    var first := VectorOfTwo(lib, lengths, pis, gathered, w, 2 * i);
    var second := VectorOfTwo(lib, lengths, pis, gathered, w, 2 * i + 1);
    QuadIs(lib, pis, w, i);
    v := first + second;
  }

  /** The auxiliary vectors: for each four transactions their lengths, roots, proofs and two insertions of each kind. */
  method AuxiliaryVectors(lib: Library, proofLength: nat, pis: seq<PublicInputs>, gathered: seq<seq<Fr>>, w: Emissions)
    returns (extra: seq<seq<Fr>>)
    requires ReadsBack(lib) && Formed(lib, pis, w) && ProofsGathered(w.proofs, pis, gathered) && |gathered| == |pis|
    requires pis != [] ==> proofLength == lib.sizes.proof
    requires |pis| % 4 == 0 && |w.commitments| == |w.nullifiers| && 2 * |w.nullifiers| == |pis|
    ensures InQuads(lib, pis, w, extra)
  {
    hide ReadsBack, ProofsGathered, InsertionForm, ImtForm, QuadAt, Shaped, RootsKnown;
    extra := [];
    for i := 0 to |pis| / 4
      invariant |extra| == i
      invariant forall k: nat :: k < i ==> extra[k] == QuadAt(lib, pis, w, k)
    {
      var v := VectorOfFour(lib, proofLength, pis, gathered, w, i);
      extra := extra + [v];
    }
  }

  lemma QuadIs(lib: Library, pis: seq<PublicInputs>, w: Emissions, i: nat)
    requires Formed(lib, pis, w) && 4 * i + 3 < |pis| && 2 * i + 1 < |w.commitments| == |w.nullifiers|
    ensures RootsKnown(w.proofs, pis[4 * i]) && RootsKnown(w.proofs, pis[4 * i + 1])
    ensures RootsKnown(w.proofs, pis[4 * i + 2]) && RootsKnown(w.proofs, pis[4 * i + 3])
    ensures forall k :: 0 <= k < |pis| ==> RootsKnown(w.proofs, pis[k])
    ensures QuadAt(lib, pis, w, i)
         == Headed(lib.sizes, HalfFor(lib, w.proofs, pis[4 * i], pis[4 * i + 1], w.commitments[2 * i], w.nullifiers[2 * i]))
            + Headed(lib.sizes, HalfFor(lib, w.proofs, pis[4 * i + 2], pis[4 * i + 3], w.commitments[2 * i + 1], w.nullifiers[2 * i + 1]))
  {
    hide InsertionForm, ImtForm, RootsKnown, HalfFor, Headed;
  }

  // ---------------------------------------------------------------- the state transition

  lemma {:induction false} LeavesCount(infos: seq<CircuitInsertionInfo>)
    requires forall i :: 0 <= i < |infos| ==> |infos[i].leaves| == Pow2(SUB_TREE)
    ensures |LeavesOf(infos)| == 8 * |infos|
  {
    assert Pow2(SUB_TREE) == 8;
    hide Pow2;
    if infos != [] {
      LeavesCount(infos[1..]);
    }
  }

  lemma {:induction false} ValuesCount(infos: seq<IMTCircuitInsertionInfo>)
    requires EightEach(infos)
    ensures |AllValues(infos)| == 8 * |infos|
  {
    assert Pow2(SUB_TREE) == 8;
    hide Pow2;
    if infos != [] {
      ValuesCount(infos[..|infos| - 1]);
    }
  }

  lemma {:induction false} ChainVerifies(h: Hasher, first: Fr, infos: seq<CircuitInsertionInfo>, last: Fr)
    requires InsertionChain(h, LEVELS, SUB_TREE, first, infos, last)
    ensures forall i :: 0 <= i < |infos| ==> InsertionVerifies(h, LEVELS, SUB_TREE, infos[i])
    decreases |infos|
  {
    hide InsertionVerifies;
    if infos != [] {
      ChainVerifies(h, infos[0].newRoot, infos[1..], last);
      assert infos == [infos[0]] + infos[1..];
    }
  }

  lemma {:induction false} ImtChainVerifies(h: Hasher, first: Fr, vs: seq<Fr>, infos: seq<IMTCircuitInsertionInfo>, last: Fr)
    returns (chunks: seq<seq<Fr>>)
    requires NullifierChain(h, LEVELS, SUB_TREE, first, vs, infos, last)
    ensures |chunks| == |infos| && forall i :: 0 <= i < |infos| ==> NullifiersVerify(h, LEVELS, SUB_TREE, chunks[i], infos[i])
    decreases |infos|
  {
    hide NullifiersVerify, Pow2;
    if infos == [] {
      chunks := [];
    } else {
      var n := |infos| - 1;
      var k := |vs| - Pow2(SUB_TREE);
      var init := ImtChainVerifies(h, first, vs[..k], infos[..n], infos[n].oldRoot);
      chunks := init + [vs[k..]];
      assert infos == infos[..n] + [infos[n]];
    }
  }

  /** The chains that the trees emit for a block have one insertion for two transactions, each of the fixed form. */
  lemma EmittedIsFormed(h: Hasher, pis: seq<PublicInputs>, first: Fr, c: seq<CircuitInsertionInfo>, last: Fr,
                        firstImt: Fr, n: seq<IMTCircuitInsertionInfo>, lastImt: Fr)
    requires AllShaped(pis)
    requires InsertionChain(h, LEVELS, SUB_TREE, first, c, last) && LeavesOf(c) == ProvedCommitments(pis)
    requires NullifierChain(h, LEVELS, SUB_TREE, firstImt, ProvedNullifiers(pis), n, lastImt)
    requires forall i :: 0 <= i < |c| ==> |c[i].leaves| == Pow2(SUB_TREE)
    requires forall i :: 0 <= i < |n| ==> Emitted(h, LEVELS + SUB_TREE, Pow2(SUB_TREE), n[i])
    ensures 2 * |c| == 2 * |n| == |pis|
    ensures forall i :: 0 <= i < |c| ==> InsertionForm(c[i])
    ensures forall i :: 0 <= i < |n| ==> ImtForm(n[i])
  {
    hide InsertionVerifies, NullifiersVerify, Emitted, Pow2, InsertionForm, ImtForm, InsertionChain, NullifierChain, LeavesOf, AllValues,
         ProvedCommitments, ProvedNullifiers;
    assert FourValued(pis);
    Agreement.FourEach(pis);
    LeavesCount(c);
    ChainValues(h, firstImt, ProvedNullifiers(pis), n, lastImt);
    ValuesCount(n);
    ChainVerifies(h, first, c, last);
    var chunks := ImtChainVerifies(h, firstImt, ProvedNullifiers(pis), n, lastImt);
    forall i | 0 <= i < |c|
      ensures InsertionForm(c[i])
    {
      InsertionIsFormed(h, c[i]);
    }
    forall i | 0 <= i < |n|
      ensures ImtForm(n[i])
    {
      ImtIsFormed(h, chunks[i], n[i]);
    }
  }

  /** A dry run of one root caches what the step writes, and announces the root with it appended. */
  lemma DryRunOfOne(h: Hasher, levels: nat, t: Nodes, count: nat, root: Fr, leaves: seq<Fr>, next: Fr)
    requires SoundTree(h, levels, 0, t, count, root, leaves) && count < Pow2(levels)
    ensures DryRun(h, t, levels, 0, count, [next])
         == Appended(Step(h, t, levels, 0, count, [next]).nodes, TreeRoot(h, levels, Splice(leaves, Offset(count, 0), [next])))
    ensures Offset(count, 0) == count && IsWhole(1, 0)
  {
    hide NodeVal, Represents, Step, Splice;
    assert Pow2(0) == 1;
    OffsetIsProduct(count, 0);
    assert levels + 0 == levels;
    StepRepresents(h, t, levels, 0, count, [next], leaves);
    DryRunSingle(h, t, levels, 0, count, [next]);
  }

  lemma DryRunSingle(h: Hasher, t: Nodes, levels: nat, height: nat, count: nat, chunk: seq<Fr>)
    requires |chunk| == Pow2(height)
    ensures var step := Step(h, t, levels, height, count, chunk);
            DryRun(h, t, levels, height, count, chunk) == Appended(step.nodes, step.hash)
  {
    hide Step;
    var step := Step(h, t, levels, height, count, chunk);
    assert t + map[] + map[] == t && map[] + step.nodes == step.nodes;
    assert chunk[..Pow2(height)] == chunk && chunk[Pow2(height)..] == [];
    assert Append(h, t, step.nodes, map[], levels, height, count + 1, [], step.hash) == Appended(step.nodes, step.hash);
  }

  /** The path of the next place, read through the dry run's cache, serves both historic roots. */
  lemma NextPlaceServes(lib: Library, t: Nodes, cache: Nodes, count: nat, root: Fr, leaves: seq<Fr>, next: Fr, place: MembershipProof)
    requires SoundTree(lib.g.h, HISTORY, 0, t, count, root, leaves) && count < Pow2(HISTORY)
    requires cache == DryRun(lib.g.h, t, HISTORY, 0, count, [next]).nodes
    requires place.leafIndex == count
    requires place.siblingPath == SiblingPath(t + cache, SubTreeNode(HISTORY, count), HISTORY)
    ensures ProofForm(HISTORY, place) && FoldPath(lib.g.h, 0, place.siblingPath) == root
    ensures FoldPath(lib.g.h, next, place.siblingPath) == TreeRoot(lib.g.h, HISTORY, Splice(leaves, count, [next]))
  {
    hide *;
    DryRunOfOne(lib.g.h, HISTORY, t, count, root, leaves, next);
    HistoricRootMoves(lib.g.h, HISTORY, t, count, root, leaves, next);
    PlaceIsFormed(count, place);
  }

  lemma PlaceIsFormed(count: nat, place: MembershipProof)
    requires place.leafIndex == count < Pow2(HISTORY) && |place.siblingPath| == HISTORY
    ensures ProofForm(HISTORY, place)
  {
    TreeOfCircuitsFits();
    assert LEVELS + SUB_TREE == HISTORY;
    hide Pow2;
  }

  /** The three trees of a proposer, with the heights that the circuits are built for. */
  ghost predicate CircuitTrees(h: Hasher, commitments: MutableTree, nullifiers: IndexedTree, historic: MutableTree)
    reads commitments, nullifiers, nullifiers.tree, historic
  {
    && commitments != historic && commitments != nullifiers.tree && historic != nullifiers.tree
    && commitments.Valid() && commitments.h == h && commitments.treeHeight == LEVELS && commitments.subTreeHeight == SUB_TREE
    && nullifiers.Valid() && nullifiers.tree.h == h && nullifiers.tree.treeHeight == LEVELS && nullifiers.tree.subTreeHeight == SUB_TREE
    && historic.Sound() && historic.h == h && historic.treeHeight == HISTORY && historic.subTreeHeight == 0
  }

  function RootsNow(commitments: MutableTree, nullifiers: IndexedTree, historic: MutableTree): Roots
    reads commitments, nullifiers, nullifiers.tree, historic
  {
    Roots(commitments.root, nullifiers.tree.root, historic.root)
  }

  /** The commitments have been appended, by insertions with proofs or otherwise. */
  twostate predicate CommitmentsIn(t: MutableTree, new cs: seq<Fr>)
    reads t
  {
    && Took(t, old(t.nodes), old(t.count), cs)
    && t.leaves == Splice(old(t.leaves), Offset(old(t.count), t.subTreeHeight), cs)
  }

  twostate predicate NullifiersIn(t: IndexedTree, new ns: seq<Fr>)
    reads t, t.tree
  {
    TookNullifiers(t, Ids(old(t.records)), old(t.tree.count), old(t.tree.nodes.Keys), ns)
  }

  /** The tree is what appending `cs` makes of these nodes and this count. */
  ghost predicate Took(t: MutableTree, nodes: Nodes, count: nat, cs: seq<Fr>)
    reads t
  {
    && Appended(t.nodes, t.root) == AppendPlain(t.h, nodes, t.treeHeight, t.subTreeHeight, count, cs)
    && t.count == count + Batches(|cs|, t.subTreeHeight)
  }

  /** The values `ns` have been given the next slots, behind these indices, count and stored places. */
  ghost predicate TookNullifiers(t: IndexedTree, ids: map<Fr, nat>, count: nat, keys: set<nat>, ns: seq<Fr>)
    reads t, t.tree
  {
    && Ids(t.records) == AssignIds(ids, ns, Offset(count, t.tree.subTreeHeight))
    && t.tree.count == count + Batches(|ns|, t.tree.subTreeHeight)
    && t.tree.nodes.Keys == keys + AppendKeys(t.tree.treeHeight, t.tree.subTreeHeight, count, Batches(|ns|, t.tree.subTreeHeight))
  }

  /** The nullifiers are new, and there is room in all three trees. */
  ghost predicate BlockFits(commitments: MutableTree, nullifiers: IndexedTree, historic: MutableTree, pis: seq<PublicInputs>)
    reads commitments, nullifiers, nullifiers.tree, historic
  {
    && Admissible(nullifiers.records.Keys, ProvedNullifiers(pis))
    && commitments.count + |pis| / 2 <= Pow2(LEVELS) && nullifiers.tree.count + |pis| / 2 <= Pow2(LEVELS)
    && historic.count < Pow2(HISTORY)
  }

  /** One insertion of each kind for two transactions, from the roots before to the roots after. */
  ghost predicate ChainsOf(h: Hasher, pis: seq<PublicInputs>, before: Roots, after: Roots,
                           c: seq<CircuitInsertionInfo>, n: seq<IMTCircuitInsertionInfo>)
  {
    && 2 * |c| == 2 * |n| == |pis|
    && (forall i :: 0 <= i < |c| ==> InsertionForm(c[i])) && (forall i :: 0 <= i < |n| ==> ImtForm(n[i]))
    && InsertionChain(h, LEVELS, SUB_TREE, before.commitments, c, after.commitments)
    && NullifierChain(h, LEVELS, SUB_TREE, before.nullifiers, ProvedNullifiers(pis), n, after.nullifiers)
  }

  /** Inserts a block's commitments and nullifiers, with the data for the circuits. */
  method InsertBlock(h: Hasher, commitments: MutableTree, nullifiers: IndexedTree, historic: MutableTree, pis: seq<PublicInputs>)
    returns (r: Result<(seq<CircuitInsertionInfo>, seq<IMTCircuitInsertionInfo>)>)
    requires CircuitTrees(h, commitments, nullifiers, historic) && AllShaped(pis) && |pis| % 2 == 0 && |pis| > 0
    modifies commitments, nullifiers, nullifiers.tree
    ensures old(BlockFits(commitments, nullifiers, historic, pis)) ==> r.Ok?
    ensures r.Ok? && historic.count < Pow2(HISTORY) ==> old(BlockFits(commitments, nullifiers, historic, pis))
    ensures r.Ok? ==>
      && CircuitTrees(h, commitments, nullifiers, historic)
      && CommitmentsIn(commitments, ProvedCommitments(pis)) && NullifiersIn(nullifiers, ProvedNullifiers(pis))
    ensures r.Ok? ==>
      ChainsOf(h, pis, old(RootsNow(commitments, nullifiers, historic)), RootsNow(commitments, nullifiers, historic),
               r.value.0, r.value.1)
  {
    hide SoundTree, WellLinked, HoldsRecords, StoredBelow, Ids, Admissible, Splice, AppendPlain, AssignIds, AppendKeys, Offset, Batches,
         IsWhole, Pow2, InsertionChain, NullifierChain, LeavesOf, Emitted, InsertionForm, ImtForm, NodeVal, Shaped,
         ProvedCommitments, ProvedNullifiers, ChunksFit;
    var cs, ns := ProvedCommitments(pis), ProvedNullifiers(pis);
    ghost var first, firstImt := commitments.root, nullifiers.tree.root;
    HalvesAreWhole(pis);
    var c :- commitments.BatchInsertWithCircuitInfo(cs);
    var n :- nullifiers.BatchInsertNullifiersWithCircuitInfo(ns);
    EmittedIsFormed(h, pis, first, c, commitments.root, firstImt, n, nullifiers.tree.root);
    r := Ok((c, n));
  }

  /** The next historic root by a dry run, and the path of its place, read through the dry run's cache. */
  method AnnounceRoot(lib: Library, historic: MutableTree, next: Fr) returns (r: Result<(Fr, MembershipProof)>)
    requires historic.Valid() && historic.h == lib.g.h && historic.treeHeight == HISTORY && historic.subTreeHeight == 0
    modifies historic
    ensures unchanged(historic`nodes, historic`count, historic`root, historic`leaves)
    ensures r.Ok? <==> historic.count < Pow2(HISTORY)
    ensures r.Ok? ==>
      && historic.CacheIsFor([next])
      && r.value.0 == TreeRoot(lib.g.h, HISTORY, Splice(historic.leaves, historic.count, [next]))
      && ProofForm(HISTORY, r.value.1) && FoldPath(lib.g.h, 0, r.value.1.siblingPath) == historic.root
      && FoldPath(lib.g.h, next, r.value.1.siblingPath) == r.value.0
  {
    hide SoundTree, Splice, NodeVal, FoldPath, ProofForm, Append, IsWhole, Offset, Pow2, SiblingPath, SubTreeNode;
    ghost var count, root, leaves := historic.count, historic.root, historic.leaves;
    OneIsWhole();
    var updated :- historic.AppendSubTrees([next], false);
    var place :- historic.GetMembershipProof(historic.count);
    DryRunOfOne(lib.g.h, HISTORY, historic.nodes, count, root, leaves, next);
    NextPlaceServes(lib, historic.nodes, historic.cache, count, root, leaves, next, place);
    r := Ok((updated.0, place));
  }

  lemma OneIsWhole()
    ensures IsWhole(1, 0)
  {
    assert Pow2(0) == 1;
  }

  /**
   Inserts the block's commitments and nullifiers, looks up the roots of the clients' proofs, works out the next
   historic root by a dry run, and gathers all vectors that the proving library needs.
   */
  method PrepareStateTransition(lib: Library, commitments: MutableTree, nullifiers: IndexedTree, historic: MutableTree,
                                deposits: seq<PublicInputs>, clients: seq<ClientTransaction>)
    returns (r: Result<(Prepared, Roots)>, ghost w: Emissions)
    requires ReadsBack(lib) && CircuitTrees(lib.g.h, commitments, nullifiers, historic) && historic.cache == map[]
    requires LeafOrZero(historic.leaves, 0) == 0
    requires AllShaped(ProvedInputs(deposits, clients)) && (|deposits| + |clients|) % 4 == 0 && |deposits| + |clients| > 0
    modifies commitments, nullifiers, nullifiers.tree, historic
    ensures var pis := ProvedInputs(deposits, clients);
            && (r.Ok? ==> old(BlockFits(commitments, nullifiers, historic, pis)))
            && (old(BlockFits(commitments, nullifiers, historic, pis) && AllFound(historic, pis)) ==> r.Ok?)
    ensures unchanged(historic`nodes, historic`count, historic`root, historic`leaves)
    ensures r.Ok? ==>
      && (forall d, x :: d in deposits && x in d.roots ==> exists k: nat :: LeafOrZero(historic.leaves, k) == x)
      && (forall t, x :: t in clients && x in t.historicRoots ==> exists k: nat :: LeafOrZero(historic.leaves, k) == x)
    ensures r.Ok? ==>
      && CircuitTrees(lib.g.h, commitments, nullifiers, historic) && historic.CacheIsFor([commitments.root])
      && CommitmentsIn(commitments, ProvedCommitments(ProvedInputs(deposits, clients)))
      && NullifiersIn(nullifiers, ProvedNullifiers(ProvedInputs(deposits, clients)))
    ensures r.Ok? ==>
      && r.value.1 == Roots(commitments.root, nullifiers.tree.root,
                            TreeRoot(lib.g.h, HISTORY, Splice(historic.leaves, historic.count, [commitments.root])))
      && PreparedFrom(lib, ProvedInputs(deposits, clients), w, old(RootsNow(commitments, nullifiers, historic)), r.value.1, r.value.0)
  {
    hide SoundTree, WellLinked, HoldsRecords, StoredBelow, Ids, Admissible, Splice, AppendPlain, AssignIds, AppendKeys, Offset, Batches,
         IsWhole, Pow2, InsertionChain, NullifierChain, InsertionForm, ImtForm, FoldPath, DryRun, NodeVal, Shaped, ProvedCommitments,
         ProvedNullifiers, ReadsBack, RootsProved, ProofForm, InQuads, ProofsGathered, RootsKnown, InputVector, AllHistoric, LeafOrZero;
    var pis := ProvedInputs(deposits, clients);
    w := Emissions(map[], [], [], MembershipProof(0, [], 0));
    ghost var before := RootsNow(commitments, nullifiers, historic);
    var inserted := InsertBlock(lib.g.h, commitments, nullifiers, historic, pis);
    if inserted.Err? {
      return Err(inserted.error), w;
    }
    var gathered, proofs, length := ProveRoots(lib, historic, pis);
    if gathered.Err? {
      return Err(gathered.error), w;
    }
    var oldRoot := historic.root;
    var announced := AnnounceRoot(lib, historic, commitments.root);
    if announced.Err? {
      return Err(announced.error), w;
    }
    var next := announced.value.1;
    var emitted := Emissions(proofs, inserted.value.0, inserted.value.1, next);
    w := emitted;
    GatheredIsFormed(lib, pis, gathered.value, w);
    RootsAreHistoric(historic.leaves, proofs, deposits, clients, gathered.value);
    var extra := AuxiliaryVectors(lib, length, pis, gathered.value, emitted);
    ProofLength(lib, next);
    var proofVector := lib.proofVector(next);
    var decider := [FromInt(|proofVector|)] + proofVector + [oldRoot];
    r := Ok((Prepared(Map(InputVector, pis), extra, decider), Roots(commitments.root, nullifiers.tree.root, announced.value.0)));
  }

  lemma RootsAreHistoric(leaves: seq<Fr>, proofs: map<Fr, seq<Fr>>, deposits: seq<PublicInputs>, clients: seq<ClientTransaction>,
                         gathered: seq<seq<Fr>>)
    requires ProofsGathered(proofs, ProvedInputs(deposits, clients), gathered) && |gathered| == |deposits| + |clients|
    requires AllHistoric(leaves, proofs.Keys)
    ensures forall d, x :: d in deposits && x in d.roots ==> exists k: nat :: LeafOrZero(leaves, k) == x
    ensures forall t, x :: t in clients && x in t.historicRoots ==> exists k: nat :: LeafOrZero(leaves, k) == x
  {
    hide Concat, ChunksFor, LeafOrZero;
    var pis := ProvedInputs(deposits, clients);
    forall i | 0 <= i < |gathered|
      ensures RootsKnown(proofs, pis[i])
    {
    }
    forall d, x | d in deposits && x in d.roots
      ensures exists k: nat :: LeafOrZero(leaves, k) == x
    {
      var i :| 0 <= i < |deposits| && deposits[i] == d;
      assert pis[i] == d && x in proofs.Keys;
    }
    forall t, x | t in clients && x in t.historicRoots
      ensures exists k: nat :: LeafOrZero(leaves, k) == x
    {
      var i :| 0 <= i < |clients| && clients[i] == t;
      assert pis[|deposits| + i].roots == t.historicRoots && x in proofs.Keys;
    }
  }

  lemma GatheredIsFormed(lib: Library, pis: seq<PublicInputs>, gathered: seq<seq<Fr>>, w: Emissions)
    requires AllShaped(pis) && ProofsGathered(w.proofs, pis, gathered) && |gathered| == |pis|
    requires forall i :: 0 <= i < |w.commitments| ==> InsertionForm(w.commitments[i])
    requires forall i :: 0 <= i < |w.nullifiers| ==> ImtForm(w.nullifiers[i])
    ensures Formed(lib, pis, w) && (pis != [] ==> w.proofs != map[])
  {
    hide InsertionForm, ImtForm, ChunksFor, Concat;
    if pis != [] {
      assert Shaped(pis[0]) && RootsKnown(w.proofs, pis[0]);
      assert pis[0].roots[0] in w.proofs;
    }
  }

  /** The values of a block fill one sub-tree for each two transactions. */
  lemma HalvesAreWhole(pis: seq<PublicInputs>)
    requires AllShaped(pis) && |pis| % 2 == 0
    ensures |ProvedCommitments(pis)| == |ProvedNullifiers(pis)| == 4 * |pis|
    ensures IsWhole(|ProvedCommitments(pis)|, SUB_TREE) && Batches(|ProvedCommitments(pis)|, SUB_TREE) == |pis| / 2
    ensures IsWhole(|ProvedNullifiers(pis)|, SUB_TREE) && Batches(|ProvedNullifiers(pis)|, SUB_TREE) == |pis| / 2
    ensures ChunksFit(|ProvedNullifiers(pis)|, SUB_TREE)
  {
    assert FourValued(pis);
    Agreement.FourEach(pis);
    HalfAsManyBatches(|pis|);
    hide IsWhole, Batches;
  }
}
