/**
 The constraints of the rollup circuits, as relations over their inputs, and what a satisfied tree
 of them proves about a block: one unbroken chain of insertions, the sum of the fees, and the
 hash the contract computes. Outputs are vectors of field elements, read and written by position.
 */
module RollupChecks {
  import opened Field
  import opened Merkle
  import opened Paths
  import opened AppendSpec
  import opened IndexedSpec
  import opened LinkedRecords
  import opened MutableTrees
  import opened IndexedTrees
  import opened NullifierProofs
  import opened NullifierSoundness

  /** What the circuits take from the proving library: hashes, SHA-256 over two and over twelve words, and the decoding of vectors. */
  datatype Gadgets = Gadgets(
    h: Hasher,
    sha2: (Fr, Fr) -> Fr,
    sha12: seq<nat> -> Fr,
    membershipProof: seq<Fr> -> Option<seq<PathElement>>,
    insertionInfo: seq<Fr> -> Option<CircuitInsertionInfo>,
    imtInsertionInfo: seq<Fr> -> Option<IMTCircuitInsertionInfo>)

  const LEVELS := 29
  const SUB_TREE := 3

  /** The sum of field elements as numbers. */
  ghost function NumberSum(s: seq<Fr>): nat {
    if s == [] then 0 else NumberSum(s[..|s| - 1]) + s[|s| - 1]
  }

  lemma {:induction false} NumberSumOfConcat(a: seq<Fr>, b: seq<Fr>)
    ensures NumberSum(a + b) == NumberSum(a) + NumberSum(b)
  {
    if b == [] {
      assert a + b == a;
    } else {
      var init := b[..|b| - 1];
      assert (a + b)[..|a + b| - 1] == a + init;
      NumberSumOfConcat(a, init);
    }
  }

  /** A sum in a circuit over the other field, handed on to a circuit over this one. */
  function AddInFq(a: Fr, b: Fr): Fr {
    FromInt((a + b) % FQ_MODULUS)
  }

  // ---------------------------------------------------------------- auxiliary data of four transactions

  /** Lengths of a root membership proof and of the two insertion vectors. */
  datatype Sizes = Sizes(proof: nat, commitment: nat, nullifier: nat)

  /** What two transactions bring along: eight roots, their proofs with the historic root behind each, two insertions. */
  datatype Half = Half(roots: seq<Fr>, proofs: seq<seq<Fr>>, commitment: seq<Fr>, nullifier: seq<Fr>)

  const ROOTS := 8

  ghost predicate Fits(z: Sizes, d: Half) {
    && |d.roots| == ROOTS && |d.proofs| == ROOTS
    && (forall j :: 0 <= j < ROOTS ==> |d.proofs[j]| == z.proof + 1)
    && |d.commitment| == z.commitment && |d.nullifier| == z.nullifier
  }

  function Concat(s: seq<seq<Fr>>): seq<Fr> {
    if s == [] then [] else s[0] + Concat(s[1..])
  }

  /** The proposer's layout. */
  function Layout(d: Half): seq<Fr> {
    d.roots + Concat(d.proofs) + d.commitment + d.nullifier
  }

  /** The size of `n` chunks, as a sum. */
  function Times(n: nat, width: nat): nat {
    if n == 0 then 0 else Times(n - 1, width) + width
  }

  lemma {:induction false} TimesIsProduct(n: nat, width: nat)
    ensures Times(n, width) == n * width
  {
    if n > 0 {
      TimesIsProduct(n - 1, width);
      assert (n - 1) * width == n * width - width;
    }
  }

  function Chunks(s: seq<Fr>, width: nat, n: nat): (r: seq<seq<Fr>>)
    requires |s| >= Times(n, width)
    ensures |r| == n
  {
    if n == 0 then [] else [s[..width]] + Chunks(s[width..], width, n - 1)
  }

  /** The circuit's slices of the layout. */
  function Read(z: Sizes, pi: seq<Fr>): Option<Half> {
    var start := 8 * (z.proof + 2);
    if |pi| < start + z.commitment + z.nullifier then None else
    TimesIsProduct(8, z.proof + 1);
    Some(Half(pi[..8], Chunks(pi[8..], z.proof + 1, 8),
              pi[start..][..z.commitment], pi[start + z.commitment..][..z.nullifier]))
  }

  lemma {:induction false} ChunksOfConcat(s: seq<seq<Fr>>, rest: seq<Fr>, width: nat)
    requires forall j :: 0 <= j < |s| ==> |s[j]| == width
    ensures |Concat(s)| == Times(|s|, width)
    ensures Chunks(Concat(s) + rest, width, |s|) == s
  {
    if s != [] {
      ChunksOfConcat(s[1..], rest, width);
      var all := Concat(s) + rest;
      assert all[..width] == s[0];
      assert all[width..] == Concat(s[1..]) + rest;
    }
  }

  /** The circuit reads back what the proposer laid out. */
  lemma LayoutRoundTrip(z: Sizes, d: Half)
    requires Fits(z, d)
    ensures Read(z, Layout(d)) == Some(d)
  {
    var rest := d.commitment + d.nullifier;
    ChunksOfConcat(d.proofs, rest, z.proof + 1);
    TimesIsProduct(8, z.proof + 1);
    ReadParts(z, d.roots, Concat(d.proofs), d.commitment, d.nullifier);
  }

  lemma ReadParts(z: Sizes, roots: seq<Fr>, proofs: seq<Fr>, commitment: seq<Fr>, nullifier: seq<Fr>)
    requires |roots| == ROOTS && |proofs| == 8 * (z.proof + 1) && |commitment| == z.commitment && |nullifier| == z.nullifier
    ensures Times(8, z.proof + 1) == 8 * (z.proof + 1)
    ensures Read(z, roots + proofs + commitment + nullifier)
         == Some(Half(roots, Chunks(proofs + (commitment + nullifier), z.proof + 1, 8), commitment, nullifier))
  {
    hide Chunks;
    TimesIsProduct(8, z.proof + 1);
    var pi, rest := roots + proofs + commitment + nullifier, proofs + (commitment + nullifier);
    FourParts(pi, roots, proofs, commitment, nullifier, 8 * (z.proof + 2));
    ReadIs(z, pi, roots, rest, commitment, nullifier);
  }

  lemma ReadIs(z: Sizes, pi: seq<Fr>, roots: seq<Fr>, rest: seq<Fr>, commitment: seq<Fr>, nullifier: seq<Fr>)
    requires var start := 8 * (z.proof + 2);
             && |pi| == start + z.commitment + z.nullifier && pi[..8] == roots && pi[8..] == rest
             && pi[start..][..z.commitment] == commitment && pi[start + z.commitment..][..z.nullifier] == nullifier
    ensures |rest| >= 8 * (z.proof + 1) == Times(8, z.proof + 1)
    ensures Read(z, pi) == Some(Half(roots, Chunks(rest, z.proof + 1, 8), commitment, nullifier))
  {
    TimesIsProduct(8, z.proof + 1);
  }

  lemma FourParts(s: seq<Fr>, a: seq<Fr>, b: seq<Fr>, c: seq<Fr>, d: seq<Fr>, start: nat)
    requires s == a + b + c + d && |a| == 8 && start == 8 + |b|
    ensures |s| == start + |c| + |d|
    ensures s[..8] == a && s[8..] == b + (c + d)
    ensures s[start..][..|c|] == c && s[start + |c|..][..|d|] == d
  {
    assert s[start..] == c + d;
    assert s[start + |c|..] == d && d[..|d|] == d;
  }

  lemma LayoutSize(z: Sizes, d: Half)
    requires Fits(z, d)
    ensures |Layout(d)| == 8 * (z.proof + 2) + z.commitment + z.nullifier
  {
    ChunksOfConcat(d.proofs, [], z.proof + 1);
    TimesIsProduct(8, z.proof + 1);
  }

  lemma HalvesOf(a: seq<Fr>, b: seq<Fr>)
    requires |a| == |b|
    ensures (a + b)[..|a + b| / 2] == a && (a + b)[|a + b| / 2..] == b
  {
  }

  /** So a base circuit that is given two laid out halves reads the data of all four transactions. */
  lemma ExtraReadsBack(z: Sizes, a: Half, b: Half)
    requires Fits(z, a) && Fits(z, b)
    ensures var pis := Layout(a) + Layout(b);
            Read(z, pis[..|pis| / 2]) == Some(a) && Read(z, pis[|pis| / 2..]) == Some(b)
  {
    hide Layout, Read, Fits;
    LayoutSize(z, a);
    LayoutSize(z, b);
    LayoutRoundTrip(z, a);
    LayoutRoundTrip(z, b);
    HalvesOf(Layout(a), Layout(b));
  }

  /** As it is handed to the proving library, each half comes behind its three lengths. */
  function Headed(z: Sizes, d: Half): seq<Fr> {
    [FromInt(z.proof), FromInt(z.commitment), FromInt(z.nullifier)] + Layout(d)
  }

  /** The lengths are read from the front, and the rest is sliced by them. */
  function ReadHeaded(v: seq<Fr>): Option<Half> {
    if |v| < 3 then None else Read(Sizes(v[0], v[1], v[2]), v[3..])
  }

  lemma HeadedRoundTrip(z: Sizes, d: Half)
    requires Fits(z, d) && z.proof < MODULUS && z.commitment < MODULUS && z.nullifier < MODULUS
    ensures |Headed(z, d)| == 3 + |Layout(d)| && ReadHeaded(Headed(z, d)) == Some(d)
  {
    hide Layout, Read, Fits;
    LayoutRoundTrip(z, d);
    assert Headed(z, d)[3..] == Layout(d);
  }

  /** Two halves behind their lengths can be told apart and read back from the vector alone. */
  lemma HeadedReadsBack(z: Sizes, a: Half, b: Half)
    requires Fits(z, a) && Fits(z, b)
    requires z.proof < MODULUS && z.commitment < MODULUS && z.nullifier < MODULUS
    ensures var v := Headed(z, a) + Headed(z, b);
            ReadHeaded(v[..|v| / 2]) == Some(a) && ReadHeaded(v[|v| / 2..]) == Some(b)
  {
    hide Layout, ReadHeaded, Headed, Fits;
    LayoutSize(z, a);
    LayoutSize(z, b);
    HeadedRoundTrip(z, a);
    HeadedRoundTrip(z, b);
    HalvesOf(Headed(z, a), Headed(z, b));
  }

  // ---------------------------------------------------------------- the base circuits

  /** The path folds the given root to the value that comes with it. Nothing here says that this is the root of the historic roots' tree. */
  ghost predicate RootProved(g: Gadgets, root: Fr, chunk: seq<Fr>) {
    && |chunk| > 0
    && var path := g.membershipProof(chunk[..|chunk| - 1]);
       path.Some? && FoldPath(g.h, root, path.value) == chunk[|chunk| - 1]
  }

  function ValuesOf(info: IMTCircuitInsertionInfo): (vs: seq<Fr>)
    ensures |vs| == |info.pendingInserts|
  {
    seq(|info.pendingInserts|, i requires 0 <= i < |info.pendingInserts| => info.pendingInserts[i].value)
  }

  /** The vectors decode, and the eight roots given fold to the values given beside their proofs. */
  ghost predicate HalfReadable(g: Gadgets, d: Option<Half>) {
    && d.Some? && |d.value.roots| == |d.value.proofs| == ROOTS
    && (forall j :: 0 <= j < ROOTS ==> RootProved(g, d.value.roots[j], d.value.proofs[j]))
    && g.insertionInfo(d.value.commitment).Some?
    && g.imtInsertionInfo(d.value.nullifier).Some?
    && |g.imtInsertionInfo(d.value.nullifier).value.pendingInserts| == Pow2(SUB_TREE)
  }

  ghost predicate CommitmentsVerify(g: Gadgets, info: CircuitInsertionInfo) {
    InsertionVerifies(g.h, LEVELS, SUB_TREE, info)
  }

  ghost predicate ImtVerifies(g: Gadgets, info: IMTCircuitInsertionInfo) {
    NullifiersVerify(g.h, LEVELS, SUB_TREE, ValuesOf(info), info)
  }

  ghost predicate ExtraReadable(g: Gadgets, z: Sizes, pis: seq<Fr>) {
    HalfReadable(g, Read(z, pis[..|pis| / 2])) && HalfReadable(g, Read(z, pis[|pis| / 2..]))
  }

  ghost function ExtraCommitments(g: Gadgets, z: Sizes, pis: seq<Fr>): (r: seq<CircuitInsertionInfo>)
    requires ExtraReadable(g, z, pis)
    ensures |r| == 2
  {
    var first, second := Read(z, pis[..|pis| / 2]).value, Read(z, pis[|pis| / 2..]).value;
    [g.insertionInfo(first.commitment).value, g.insertionInfo(second.commitment).value]
  }

  ghost function ExtraNullifiers(g: Gadgets, z: Sizes, pis: seq<Fr>): (r: seq<IMTCircuitInsertionInfo>)
    requires ExtraReadable(g, z, pis)
    ensures |r| == 2 && |r[0].pendingInserts| == |r[1].pendingInserts| == Pow2(SUB_TREE)
  {
    var first, second := Read(z, pis[..|pis| / 2]).value, Read(z, pis[|pis| / 2..]).value;
    [g.imtInsertionInfo(first.nullifier).value, g.imtInsertionInfo(second.nullifier).value]
  }

  /** The base circuit on its auxiliary data: the four roots, if its constraints hold. */
  ghost function BaseExtraChecks(g: Gadgets, z: Sizes, pis: seq<Fr>): (r: Option<seq<Fr>>)
    ensures r.Some? ==> |r.value| == 4
  {
    if !ExtraReadable(g, z, pis) then None else
    var comm, imt := ExtraCommitments(g, z, pis), ExtraNullifiers(g, z, pis);
    if !(CommitmentsVerify(g, comm[0]) && ImtVerifies(g, imt[0]) && CommitmentsVerify(g, comm[1]) && ImtVerifies(g, imt[1])) then None
    else if comm[1].oldRoot == comm[0].newRoot && imt[1].oldRoot == imt[0].circuitInfo.newRoot then
      Some([comm[0].oldRoot, comm[1].newRoot, imt[0].oldRoot, imt[1].circuitInfo.newRoot])
    else None
  }

  const TX := 18

  /** The highest bit of a word of 256. */
  const TOP_BIT: nat := 0x8000000000000000000000000000000000000000000000000000000000000000

  /** The bit goes on top of the last of the twelve words. */
  function TxSha(g: Gadgets, pi: seq<Fr>): Fr
    requires |pi| == TX
  {
    var words: seq<nat> := pi[5..16] + [if pi[17] == 1 then pi[16] + TOP_BIT else pi[16]];
    g.sha12(words)
  }

  /** Two transactions' public inputs side by side. */
  function BaseGrumpkinChecks(a: seq<Fr>, b: seq<Fr>): seq<Fr> {
    a + b
  }

  function BaseBn254Checks(g: Gadgets, first: seq<Fr>, second: seq<Fr>): seq<Fr>
    requires |first| == |second| == 2 * TX
  {
    var slices := [first[..TX], first[TX..], second[..TX], second[TX..]];
    var fee := Add(Add(Add(Add(0, slices[0][0]), slices[1][0]), slices[2][0]), slices[3][0]);
    var left := g.sha2(TxSha(g, slices[0]), TxSha(g, slices[1]));
    var right := g.sha2(TxSha(g, slices[2]), TxSha(g, slices[3]));
    [fee, g.sha2(left, right)]
  }

  // ---------------------------------------------------------------- the merge circuits

  const MERGED_6 := 6
  const MERGED_7 := 7

  function MergeGrumpkin(a: seq<Fr>, b: seq<Fr>): (r: Option<seq<Fr>>)
    requires |a| == |b| == MERGED_6
    ensures r.Some? ==> |r.value| == MERGED_7
  {
    if a[1] == b[0] && a[3] == b[2] then Some([a[0], b[1], a[2], b[3], AddInFq(a[4], b[4]), a[5], b[5]]) else None
  }

  function MergeBn254(g: Gadgets, a: seq<Fr>, b: seq<Fr>): (r: Option<seq<Fr>>)
    requires |a| == |b| == MERGED_7
    ensures r.Some? ==> |r.value| == MERGED_6
  {
    if a[1] == b[0] && a[3] == b[2] then
      Some([a[0], b[1], a[2], b[3], Add(a[4], b[4]), g.sha2(g.sha2(a[5], a[6]), g.sha2(b[5], b[6]))])
    else None
  }

  /** The decider also moves the historic roots on: from a tree with nothing in a place to one with the new commitment root there. */
  function Decide(g: Gadgets, a: seq<Fr>, b: seq<Fr>, aux: seq<Fr>, proofLength: nat): (r: Option<seq<Fr>>)
    requires |a| == |b| == MERGED_7 && proofLength < |aux|
    ensures r.Some? ==> |r.value| == 8
  {
    var path := g.membershipProof(aux[..proofLength]);
    if path.None? || a[1] != b[0] || a[3] != b[2] then None else
    var newRoot, oldRoot := FoldPath(g.h, b[1], path.value), FoldPath(g.h, 0, path.value);
    if oldRoot != aux[proofLength] then None else
    Some([Add(a[4], b[4]), g.sha2(g.sha2(a[5], a[6]), g.sha2(b[5], b[6])), a[0], b[1], a[2], b[3], oldRoot, newRoot])
  }

  // ---------------------------------------------------------------- trees of circuits

  /** The kinds of circuit alternate; a base circuit takes four transactions. */
  datatype Bn254Node =
    | Base(sizes: Sizes, extra: seq<Fr>, txs: seq<seq<Fr>>)
    | MergeBn(left: GrumpkinNode, right: GrumpkinNode)

  datatype GrumpkinNode = MergeGr(left: Bn254Node, right: Bn254Node)

  ghost predicate FourTxs(txs: seq<seq<Fr>>) {
    |txs| == 4 && forall i :: 0 <= i < 4 ==> |txs[i]| == TX
  }

  /** The public output of a node whose constraints all hold. */
  ghost function OutBn(g: Gadgets, t: Bn254Node): (r: Option<seq<Fr>>)
    ensures r.Some? ==> |r.value| == MERGED_6
    decreases t
  {
    match t
    case Base(z, extra, txs) =>
      if !FourTxs(txs) then None else
      (match BaseExtraChecks(g, z, extra)
       case None => None
       case Some(roots) =>
         Some(roots + BaseBn254Checks(g, BaseGrumpkinChecks(txs[0], txs[1]), BaseGrumpkinChecks(txs[2], txs[3]))))
    case MergeBn(left, right) =>
      var a, b := OutGr(g, left), OutGr(g, right);
      if a.None? || b.None? then None else MergeBn254(g, a.value, b.value)
  }

  ghost function OutGr(g: Gadgets, t: GrumpkinNode): (r: Option<seq<Fr>>)
    ensures r.Some? ==> |r.value| == MERGED_7
    decreases t
  {
    var a, b := OutBn(g, t.left), OutBn(g, t.right);
    if a.None? || b.None? then None else MergeGrumpkin(a.value, b.value)
  }

  // ---------------------------------------------------------------- what a tree is about

  /** All vectors decode, and all roots given fold to the values given beside their proofs. */
  ghost predicate LeavesReadableBn(g: Gadgets, t: Bn254Node)
    decreases t
  {
    match t
    case Base(z, extra, txs) =>
      FourTxs(txs) && ExtraReadable(g, z, extra)
    case MergeBn(left, right) => LeavesReadableGr(g, left) && LeavesReadableGr(g, right)
  }

  ghost predicate LeavesReadableGr(g: Gadgets, t: GrumpkinNode)
    decreases t
  {
    LeavesReadableBn(g, t.left) && LeavesReadableBn(g, t.right)
  }

  /** One block part: its transactions and insertions, in order. */
  datatype Part = Part(txs: seq<seq<Fr>>, commitments: seq<CircuitInsertionInfo>, nullifiers: seq<IMTCircuitInsertionInfo>)

  ghost predicate WellFormed(p: Part) {
    && |p.txs| > 0 && |p.commitments| > 0 && |p.nullifiers| > 0
    && (forall i :: 0 <= i < |p.txs| ==> |p.txs[i]| == TX)
    && (forall i :: 0 <= i < |p.nullifiers| ==> |p.nullifiers[i].pendingInserts| == Pow2(SUB_TREE))
  }

  function Join(a: Part, b: Part): Part {
    Part(a.txs + b.txs, a.commitments + b.commitments, a.nullifiers + b.nullifiers)
  }

  ghost function PartBn(g: Gadgets, t: Bn254Node): (p: Part)
    requires LeavesReadableBn(g, t)
    ensures WellFormed(p)
    decreases t
  {
    match t
    case Base(z, extra, txs) =>
      Part(txs, ExtraCommitments(g, z, extra), ExtraNullifiers(g, z, extra))
    case MergeBn(left, right) => Join(PartGr(g, left), PartGr(g, right))
  }

  ghost function PartGr(g: Gadgets, t: GrumpkinNode): (p: Part)
    requires LeavesReadableGr(g, t)
    ensures WellFormed(p)
    decreases t
  {
    Join(PartBn(g, t.left), PartBn(g, t.right))
  }

  /** Each insertion verifies, and starts from the root the one before it left. */
  ghost predicate Linked(g: Gadgets, p: Part) {
    && AllCommitmentsVerify(g, p.commitments) && AllImtsVerify(g, p.nullifiers)
    && Unbroken(p.commitments, StartRoot, EndRoot) && Unbroken(p.nullifiers, ImtStartRoot, ImtEndRoot)
  }

  ghost predicate AllCommitmentsVerify(g: Gadgets, s: seq<CircuitInsertionInfo>) {
    forall i :: 0 <= i < |s| ==> CommitmentsVerify(g, s[i])
  }

  ghost predicate AllImtsVerify(g: Gadgets, s: seq<IMTCircuitInsertionInfo>) {
    forall i :: 0 <= i < |s| ==> ImtVerifies(g, s[i])
  }

  lemma CommitmentsVerifyConcat(g: Gadgets, a: seq<CircuitInsertionInfo>, b: seq<CircuitInsertionInfo>)
    ensures AllCommitmentsVerify(g, a + b) <==> AllCommitmentsVerify(g, a) && AllCommitmentsVerify(g, b)
  {
    hide CommitmentsVerify;
    if AllCommitmentsVerify(g, a + b) {
      forall i | 0 <= i < |a|
        ensures CommitmentsVerify(g, a[i])
      {
        assert (a + b)[i] == a[i];
      }
      forall i | 0 <= i < |b|
        ensures CommitmentsVerify(g, b[i])
      {
        assert (a + b)[|a| + i] == b[i];
      }
    }
  }

  lemma ImtsVerifyConcat(g: Gadgets, a: seq<IMTCircuitInsertionInfo>, b: seq<IMTCircuitInsertionInfo>)
    ensures AllImtsVerify(g, a + b) <==> AllImtsVerify(g, a) && AllImtsVerify(g, b)
  {
    hide ImtVerifies;
    if AllImtsVerify(g, a + b) {
      forall i | 0 <= i < |a|
        ensures ImtVerifies(g, a[i])
      {
        assert (a + b)[i] == a[i];
      }
      forall i | 0 <= i < |b|
        ensures ImtVerifies(g, b[i])
      {
        assert (a + b)[|a| + i] == b[i];
      }
    }
  }

  ghost predicate Unbroken<T>(s: seq<T>, start: T -> Fr, end: T -> Fr) {
    forall i :: 0 < i < |s| ==> start(s[i]) == end(s[i - 1])
  }

  function StartRoot(info: CircuitInsertionInfo): Fr {
    info.oldRoot
  }

  function EndRoot(info: CircuitInsertionInfo): Fr {
    info.newRoot
  }

  function ImtStartRoot(info: IMTCircuitInsertionInfo): Fr {
    info.oldRoot
  }

  function ImtEndRoot(info: IMTCircuitInsertionInfo): Fr {
    info.circuitInfo.newRoot
  }

  function Fees(txs: seq<seq<Fr>>): (r: seq<Fr>)
    requires forall i :: 0 <= i < |txs| ==> |txs[i]| == TX
    ensures |r| == |txs| && forall i :: 0 <= i < |r| ==> r[i] == txs[i][0]
  {
    seq(|txs|, i requires 0 <= i < |txs| => txs[i][0])
  }

  /**
   The first four outputs are the ends of this part's insertions, and the fifth is the sum of its fees,
   as long as that is a field element.
   */
  ghost predicate Describes(out: seq<Fr>, p: Part)
    requires WellFormed(p)
  {
    && |out| >= 5
    && out[0] == p.commitments[0].oldRoot
    && out[1] == p.commitments[|p.commitments| - 1].newRoot
    && out[2] == p.nullifiers[0].oldRoot
    && out[3] == p.nullifiers[|p.nullifiers| - 1].circuitInfo.newRoot
    && (NumberSum(Fees(p.txs)) < MODULUS ==> out[4] == NumberSum(Fees(p.txs)))
  }

  lemma UnbrokenConcat<T>(a: seq<T>, b: seq<T>, start: T -> Fr, end: T -> Fr)
    requires a != [] && b != []
    ensures Unbroken(a + b, start, end) <==>
              Unbroken(a, start, end) && Unbroken(b, start, end) && end(a[|a| - 1]) == start(b[0])
  {
    var c := a + b;
    if Unbroken(c, start, end) {
      forall i | 0 < i < |a|
        ensures start(a[i]) == end(a[i - 1])
      {
        assert c[i] == a[i] && c[i - 1] == a[i - 1];
      }
      forall i | 0 < i < |b|
        ensures start(b[i]) == end(b[i - 1])
      {
        assert c[|a| + i] == b[i] && c[|a| + i - 1] == b[i - 1];
      }
      assert c[|a|] == b[0] && c[|a| - 1] == a[|a| - 1];
    } else {
      var i :| 0 < i < |c| && start(c[i]) != end(c[i - 1]);
      if i > |a| {
        assert c[i] == b[i - |a|] && c[i - 1] == b[i - |a| - 1];
      }
    }
  }

  lemma LinkedJoin(g: Gadgets, a: Part, b: Part)
    requires |a.commitments| > 0 && |a.nullifiers| > 0 && |b.commitments| > 0 && |b.nullifiers| > 0
    ensures Linked(g, Join(a, b)) <==>
              && Linked(g, a) && Linked(g, b)
              && a.commitments[|a.commitments| - 1].newRoot == b.commitments[0].oldRoot
              && a.nullifiers[|a.nullifiers| - 1].circuitInfo.newRoot == b.nullifiers[0].oldRoot
  {
    CommitmentsVerifyConcat(g, a.commitments, b.commitments);
    ImtsVerifyConcat(g, a.nullifiers, b.nullifiers);
    hide AllCommitmentsVerify, AllImtsVerify, Unbroken;
    UnbrokenConcat(a.commitments, b.commitments, StartRoot, EndRoot);
    UnbrokenConcat(a.nullifiers, b.nullifiers, ImtStartRoot, ImtEndRoot);
  }

  lemma FeesJoin(a: Part, b: Part)
    requires forall i :: 0 <= i < |a.txs| ==> |a.txs[i]| == TX
    requires forall i :: 0 <= i < |b.txs| ==> |b.txs[i]| == TX
    ensures NumberSum(Fees(Join(a, b).txs)) == NumberSum(Fees(a.txs)) + NumberSum(Fees(b.txs))
  {
    assert Fees(Join(a, b).txs) == Fees(a.txs) + Fees(b.txs);
    NumberSumOfConcat(Fees(a.txs), Fees(b.txs));
  }

  /** In either field, what does not reach the modulus is added as numbers. */
  lemma SmallSum(a: Fr, b: Fr)
    ensures a + b < MODULUS ==> Add(a, b) == a + b && AddInFq(a, b) == a + b
  {
  }

  lemma BaseFees(g: Gadgets, txs: seq<seq<Fr>>)
    requires FourTxs(txs)
    ensures var out := BaseBn254Checks(g, BaseGrumpkinChecks(txs[0], txs[1]), BaseGrumpkinChecks(txs[2], txs[3]));
            && |out| == 2
            && (NumberSum(Fees(txs)) < MODULUS ==> out[0] == NumberSum(Fees(txs)))
            && out[1] == g.sha2(g.sha2(TxSha(g, txs[0]), TxSha(g, txs[1])), g.sha2(TxSha(g, txs[2]), TxSha(g, txs[3])))
  {
    var first, second := txs[0] + txs[1], txs[2] + txs[3];
    assert first[..TX] == txs[0] && first[TX..] == txs[1] && second[..TX] == txs[2] && second[TX..] == txs[3];
    var f := Fees(txs);
    assert f == [f[0], f[1], f[2], f[3]];
    FourFees(f[0], f[1], f[2], f[3]);
  }

  lemma FourFees(a: Fr, b: Fr, c: Fr, d: Fr)
    ensures NumberSum([a, b, c, d]) == a + b + c + d
    ensures a + b + c + d < MODULUS ==> Add(Add(Add(Add(0, a), b), c), d) == a + b + c + d
  {
    assert [a, b, c, d][..3] == [a, b, c] && [a, b, c][..2] == [a, b] && [a, b][..1] == [a] && [a][..0] == [];
    assert NumberSum([a]) == a;
    assert NumberSum([a, b]) == NumberSum([a]) + b;
    assert NumberSum([a, b, c]) == NumberSum([a, b]) + c;
  }

  lemma JoinWellFormed(p: Part, q: Part)
    requires WellFormed(p) && WellFormed(q)
    ensures WellFormed(Join(p, q))
  {
  }

  lemma JoinDescribes(a: seq<Fr>, b: seq<Fr>, out: seq<Fr>, p: Part, q: Part)
    requires WellFormed(p) && WellFormed(q) && WellFormed(Join(p, q)) && Describes(a, p) && Describes(b, q)
    requires |out| >= 5 && out[0] == a[0] && out[1] == b[1] && out[2] == a[2] && out[3] == b[3]
    requires out[4] == Add(a[4], b[4]) || out[4] == AddInFq(a[4], b[4])
    ensures Describes(out, Join(p, q))
  {
    FeesJoin(p, q);
    SmallSum(a[4], b[4]);
    hide Add, AddInFq, NumberSum;
  }

  /** Merging needs just the link between the parts. */
  lemma MergeIffLinked(g: Gadgets, a: seq<Fr>, b: seq<Fr>, p: Part, q: Part)
    requires WellFormed(p) && WellFormed(q) && Describes(a, p) && Describes(b, q)
    requires Linked(g, p) && Linked(g, q)
    ensures a[1] == b[0] && a[3] == b[2] <==> Linked(g, Join(p, q))
  {
    LinkedJoin(g, p, q);
    hide Linked;
  }

  lemma UnlinkedParts(g: Gadgets, p: Part, q: Part)
    requires WellFormed(p) && WellFormed(q) && Linked(g, Join(p, q))
    ensures Linked(g, p) && Linked(g, q)
  {
    LinkedJoin(g, p, q);
  }

  lemma BaseIffLinked(g: Gadgets, z: Sizes, extra: seq<Fr>, txs: seq<seq<Fr>>)
    ensures var t := Base(z, extra, txs);
            && (OutBn(g, t).Some? <==> LeavesReadableBn(g, t) && Linked(g, PartBn(g, t)))
            && (OutBn(g, t).Some? ==> Describes(OutBn(g, t).value, PartBn(g, t)))
  {
    var t := Base(z, extra, txs);
    hide CommitmentsVerify, ImtVerifies, ExtraReadable, ExtraCommitments, ExtraNullifiers, Linked, NumberSum,
         BaseBn254Checks, TxSha, BaseGrumpkinChecks;
    if FourTxs(txs) {
      BaseFees(g, txs);
      if ExtraReadable(g, z, extra) {
        TwoLinked(g, PartBn(g, t));
      }
    }
  }

  lemma TwoLinked(g: Gadgets, p: Part)
    requires |p.commitments| == |p.nullifiers| == 2
    ensures Linked(g, p) <==>
              && CommitmentsVerify(g, p.commitments[0]) && ImtVerifies(g, p.nullifiers[0])
              && CommitmentsVerify(g, p.commitments[1]) && ImtVerifies(g, p.nullifiers[1])
              && p.commitments[1].oldRoot == p.commitments[0].newRoot
              && p.nullifiers[1].oldRoot == p.nullifiers[0].circuitInfo.newRoot
  {
    hide CommitmentsVerify, ImtVerifies;
  }

  /**
   A tree's constraints hold if and only if every base circuit's own checks hold and the insertions
   of all its transactions form one unbroken chain; its output is then about that chain and all fees.
   */
  lemma {:induction false} SatisfiedIffLinkedBn(g: Gadgets, t: Bn254Node)
    ensures OutBn(g, t).Some? <==> LeavesReadableBn(g, t) && Linked(g, PartBn(g, t))
    ensures OutBn(g, t).Some? ==> Describes(OutBn(g, t).value, PartBn(g, t))
    decreases t
  {
    hide Linked, Describes, Join, ExtraReadable, FourTxs, BaseExtraChecks, BaseBn254Checks, WellFormed, Add, AddInFq;
    match t
    case Base(z, extra, txs) =>
      BaseIffLinked(g, z, extra, txs);
    case MergeBn(left, right) =>
      SatisfiedIffLinkedGr(g, left);
      SatisfiedIffLinkedGr(g, right);
      if LeavesReadableBn(g, t) {
        var a, b := PartGr(g, left), PartGr(g, right);
        if Linked(g, Join(a, b)) {
          UnlinkedParts(g, a, b);
        }
        if Linked(g, a) && Linked(g, b) {
          JoinWellFormed(a, b);
          MergeIffLinked(g, OutGr(g, left).value, OutGr(g, right).value, a, b);
          if OutBn(g, t).Some? {
            JoinDescribes(OutGr(g, left).value, OutGr(g, right).value, OutBn(g, t).value, a, b);
          }
        }
      }
  }

  lemma {:induction false} SatisfiedIffLinkedGr(g: Gadgets, t: GrumpkinNode)
    ensures OutGr(g, t).Some? <==> LeavesReadableGr(g, t) && Linked(g, PartGr(g, t))
    ensures OutGr(g, t).Some? ==> Describes(OutGr(g, t).value, PartGr(g, t))
    decreases t
  {
    hide Linked, Describes, Join, ExtraReadable, FourTxs, BaseExtraChecks, BaseBn254Checks, WellFormed, Add, AddInFq;
    SatisfiedIffLinkedBn(g, t.left);
    SatisfiedIffLinkedBn(g, t.right);
    if LeavesReadableGr(g, t) {
      var a, b := PartBn(g, t.left), PartBn(g, t.right);
      if Linked(g, Join(a, b)) {
        UnlinkedParts(g, a, b);
      }
      if Linked(g, a) && Linked(g, b) {
        JoinWellFormed(a, b);
        MergeIffLinked(g, OutBn(g, t.left).value, OutBn(g, t.right).value, a, b);
        if OutGr(g, t).Some? {
          JoinDescribes(OutBn(g, t.left).value, OutBn(g, t.right).value, OutGr(g, t).value, a, b);
        }
      }
    }
  }

  // ---------------------------------------------------------------- what a base circuit has checked

  lemma {:induction false} ChunkAt(s: seq<Fr>, width: nat, n: nat, j: nat, at: nat)
    requires |s| >= Times(n, width) && j < n && at == Times(j, width)
    ensures at + width <= |s| && Chunks(s, width, n)[j] == s[at..at + width]
  {
    assert Times(n, width) == Times(n - 1, width) + width;
    var rest := Chunks(s[width..], width, n - 1);
    assert Chunks(s, width, n) == [s[..width]] + rest;
    if j > 0 {
      assert Times(j, width) == Times(j - 1, width) + width;
      var from: nat := at - width;
      ChunkAt(s[width..], width, n - 1, j - 1, from);
      assert s[width..][from..at] == s[at..at + width];
      assert Chunks(s, width, n)[j] == rest[j - 1];
    } else {
      assert at == 0 && s[..width] == s[0..width];
    }
  }

  lemma HalfIsLongEnough(g: Gadgets, z: Sizes, extra: seq<Fr>, v: seq<Fr>)
    requires BaseExtraChecks(g, z, extra).Some? && (v == extra[..|extra| / 2] || v == extra[|extra| / 2..])
    ensures |v| >= 8 * (z.proof + 2) + z.commitment + z.nullifier && HalfReadable(g, Read(z, v))
  {
    hide RootProved, CommitmentsVerify, ImtVerifies, Chunks, Pow2;
  }

  /** A satisfied base circuit has folded every root it is given along the path beside it to the value behind that path. */
  lemma GivenRootFolds(g: Gadgets, z: Sizes, extra: seq<Fr>, v: seq<Fr>, j: nat, from: nat)
    requires BaseExtraChecks(g, z, extra).Some? && (v == extra[..|extra| / 2] || v == extra[|extra| / 2..])
    requires j < 8 && from == Times(j, z.proof + 1)
    ensures 8 + from + z.proof < |v|
    ensures var path := g.membershipProof(v[8 + from..8 + from + z.proof]);
            path.Some? && FoldPath(g.h, v[j], path.value) == v[8 + from + z.proof]
  {
    hide FoldPath, Chunks, BaseExtraChecks, Pow2, Times;
    HalfIsLongEnough(g, z, extra, v);
    TimesIsProduct(8, z.proof + 1);
    ChunkAt(v[8..], z.proof + 1, 8, j, from);
    var d := Read(z, v);
    assert RootProved(g, d.value.roots[j], d.value.proofs[j]);
    ChunkOfVector(v, z.proof, from, d.value.proofs[j]);
  }

  lemma ChunkOfVector(v: seq<Fr>, length: nat, from: nat, chunk: seq<Fr>)
    requires 8 + from + length < |v| && chunk == v[8..][from..from + (length + 1)]
    ensures |chunk| == length + 1 && chunk[..length] == v[8 + from..8 + from + length] && chunk[length] == v[8 + from + length]
  {
  }

  /** And it has verified the two insertions that follow in each half. */
  lemma GivenInsertionsVerify(g: Gadgets, z: Sizes, extra: seq<Fr>, v: seq<Fr>, start: nat)
    requires BaseExtraChecks(g, z, extra).Some? && (v == extra[..|extra| / 2] || v == extra[|extra| / 2..])
    requires start == 8 * (z.proof + 2)
    ensures start + z.commitment + z.nullifier <= |v|
    ensures var c := g.insertionInfo(v[start..start + z.commitment]);
            var n := g.imtInsertionInfo(v[start + z.commitment..start + z.commitment + z.nullifier]);
            && c.Some? && InsertionVerifies(g.h, LEVELS, SUB_TREE, c.value)
            && n.Some? && NullifiersVerify(g.h, LEVELS, SUB_TREE, ValuesOf(n.value), n.value)
  {
    hide InsertionVerifies, NullifiersVerify, Pow2, Chunks, RootProved;
    HalfIsLongEnough(g, z, extra, v);
    assert v[start..][..z.commitment] == v[start..start + z.commitment];
    assert v[start + z.commitment..][..z.nullifier] == v[start + z.commitment..start + z.commitment + z.nullifier];
  }

  // ---------------------------------------------------------------- chains of insertions

  /** Linked insertions are a chain in the sense of the tree that emits them. */
  lemma {:induction false} CommitmentChainIff(g: Gadgets, first: Fr, s: seq<CircuitInsertionInfo>, last: Fr)
    requires s != []
    ensures InsertionChain(g.h, LEVELS, SUB_TREE, first, s, last) <==>
              && AllCommitmentsVerify(g, s) && Unbroken(s, StartRoot, EndRoot)
              && s[0].oldRoot == first && s[|s| - 1].newRoot == last
    decreases |s|
  {
    hide InsertionVerifies;
    var rest := s[1..];
    assert s == [s[0]] + rest;
    CommitmentsVerifyConcat(g, [s[0]], rest);
    assert AllCommitmentsVerify(g, [s[0]]) <==> CommitmentsVerify(g, s[0]);
    if rest == [] {
      assert InsertionChain(g.h, LEVELS, SUB_TREE, s[0].newRoot, rest, last) <==> s[0].newRoot == last;
    } else {
      CommitmentChainIff(g, s[0].newRoot, rest, last);
      UnbrokenConcat([s[0]], rest, StartRoot, EndRoot);
    }
  }

  function AllValues(s: seq<IMTCircuitInsertionInfo>): seq<Fr> {
    if s == [] then [] else AllValues(s[..|s| - 1]) + ValuesOf(s[|s| - 1])
  }

  ghost predicate EightEach(s: seq<IMTCircuitInsertionInfo>) {
    forall i :: 0 <= i < |s| ==> |s[i].pendingInserts| == Pow2(SUB_TREE)
  }

  lemma {:induction false} NullifierChainIff(g: Gadgets, first: Fr, s: seq<IMTCircuitInsertionInfo>, last: Fr)
    requires s != [] && EightEach(s)
    ensures NullifierChain(g.h, LEVELS, SUB_TREE, first, AllValues(s), s, last) <==>
              && AllImtsVerify(g, s) && Unbroken(s, ImtStartRoot, ImtEndRoot)
              && s[0].oldRoot == first && s[|s| - 1].circuitInfo.newRoot == last
    decreases |s|
  {
    hide NullifiersVerify;
    var init, info := s[..|s| - 1], s[|s| - 1];
    var vs := AllValues(s);
    assert vs[|vs| - Pow2(SUB_TREE)..] == ValuesOf(info) && vs[..|vs| - Pow2(SUB_TREE)] == AllValues(init);
    assert s == init + [info];
    ImtsVerifyConcat(g, init, [info]);
    assert AllImtsVerify(g, [info]) <==> ImtVerifies(g, info);
    if init == [] {
      assert NullifierChain(g.h, LEVELS, SUB_TREE, first, AllValues(init), init, info.oldRoot) <==> first == info.oldRoot;
    } else {
      assert EightEach(init) by {
        forall i | 0 <= i < |init|
          ensures |init[i].pendingInserts| == Pow2(SUB_TREE)
        {
          assert init[i] == s[i];
        }
      }
      NullifierChainIff(g, first, init, info.oldRoot);
      UnbrokenConcat(init, [info], ImtStartRoot, ImtEndRoot);
    }
  }

  lemma VerifiedValues(h: Hasher, vs: seq<Fr>, info: IMTCircuitInsertionInfo)
    requires NullifiersVerify(h, LEVELS, SUB_TREE, vs, info)
    ensures ValuesOf(info) == vs
  {
    hide Replay, InsertionVerifies;
    ReplayValues(h, LEVELS + SUB_TREE, info.firstIndex, info.oldRoot, vs, info.lowNullifiers);
  }

  /** The values of a chain are those pending in its insertions. */
  lemma {:induction false} ChainValues(h: Hasher, first: Fr, vs: seq<Fr>, s: seq<IMTCircuitInsertionInfo>, last: Fr)
    requires NullifierChain(h, LEVELS, SUB_TREE, first, vs, s, last)
    ensures EightEach(s) && AllValues(s) == vs
    decreases |s|
  {
    hide NullifiersVerify;
    if s != [] {
      var init, info := s[..|s| - 1], s[|s| - 1];
      var k := |vs| - Pow2(SUB_TREE);
      ChainValues(h, first, vs[..k], init, info.oldRoot);
      VerifiedValues(h, vs[k..], info);
      assert vs == vs[..k] + vs[k..];
      forall i | 0 <= i < |s|
        ensures |s[i].pendingInserts| == Pow2(SUB_TREE)
      {
        if i < |init| {
          assert s[i] == init[i];
        }
      }
    }
  }

  /** The insertions of a part form one chain of commitment roots and one of nullifier roots. */
  ghost predicate Chained(g: Gadgets, p: Part)
    requires WellFormed(p)
  {
    var c, n := p.commitments, p.nullifiers;
    && InsertionChain(g.h, LEVELS, SUB_TREE, c[0].oldRoot, c, c[|c| - 1].newRoot)
    && NullifierChain(g.h, LEVELS, SUB_TREE, n[0].oldRoot, AllValues(n), n, n[|n| - 1].circuitInfo.newRoot)
  }

  lemma LinkedIffChained(g: Gadgets, p: Part)
    requires WellFormed(p)
    ensures Linked(g, p) <==> Chained(g, p)
  {
    var c, n := p.commitments, p.nullifiers;
    assert EightEach(n);
    hide InsertionChain, NullifierChain, AllCommitmentsVerify, AllImtsVerify, Unbroken;
    CommitmentChainIff(g, c[0].oldRoot, c, c[|c| - 1].newRoot);
    NullifierChainIff(g, n[0].oldRoot, n, n[|n| - 1].circuitInfo.newRoot);
  }

  // ---------------------------------------------------------------- the decider

  datatype Decider = Decider(left: GrumpkinNode, right: GrumpkinNode, aux: seq<Fr>, proofLength: nat)

  ghost function OutDecider(g: Gadgets, d: Decider): (r: Option<seq<Fr>>)
    requires d.proofLength < |d.aux|
    ensures r.Some? ==> |r.value| == 8
  {
    var a, b := OutGr(g, d.left), OutGr(g, d.right);
    if a.None? || b.None? then None else Decide(g, a.value, b.value, d.aux, d.proofLength)
  }

  ghost predicate Readable(g: Gadgets, d: Decider) {
    && d.proofLength < |d.aux| && g.membershipProof(d.aux[..d.proofLength]).Some?
    && LeavesReadableGr(g, d.left) && LeavesReadableGr(g, d.right)
  }

  ghost function PartOf(g: Gadgets, d: Decider): (p: Part)
    requires Readable(g, d)
    ensures WellFormed(p)
  {
    Join(PartGr(g, d.left), PartGr(g, d.right))
  }

  /**
   A block's proof exists if and only if its data can be read, its insertions chain up, and the given
   old root is that of the historic roots' tree with the path's place empty. The public output is then
   the sum of all fees while that is a field element, the four roots of the chain, that old root, and the root with the last
   commitment root put in the empty place.
   */
  lemma BlockProvedIffChained(g: Gadgets, d: Decider)
    requires d.proofLength < |d.aux|
    ensures OutDecider(g, d).Some? <==>
              && Readable(g, d) && Chained(g, PartOf(g, d))
              && FoldPath(g.h, 0, g.membershipProof(d.aux[..d.proofLength]).value) == d.aux[d.proofLength]
    ensures OutDecider(g, d).Some? ==>
              var out, p, path := OutDecider(g, d).value, PartOf(g, d), g.membershipProof(d.aux[..d.proofLength]).value;
              && Describes([out[2], out[3], out[4], out[5], out[0]], p)
              && out[6] == d.aux[d.proofLength] && out[7] == FoldPath(g.h, out[3], path)
  {
    hide Linked, Chained, Join, ExtraReadable, OutGr, LeavesReadableGr, WellFormed, Add, Describes, FoldPath, PartGr;
    SatisfiedIffLinkedGr(g, d.left);
    SatisfiedIffLinkedGr(g, d.right);
    if Readable(g, d) {
      var a, b := PartGr(g, d.left), PartGr(g, d.right);
      var p := PartOf(g, d);
      LinkedIffChained(g, p);
      if Linked(g, p) {
        UnlinkedParts(g, a, b);
      }
      if Linked(g, a) && Linked(g, b) {
        var x, y := OutGr(g, d.left).value, OutGr(g, d.right).value;
        MergeIffLinked(g, x, y, a, b);
        DescribesSize(x, a);
        DescribesSize(y, b);
        JoinDescribes(x, y, [x[0], y[1], x[2], y[3], Add(x[4], y[4])], a, b);
      }
    }
  }

  lemma DescribesSize(out: seq<Fr>, p: Part)
    requires WellFormed(p) && Describes(out, p)
    ensures |out| >= 5
  {
  }

  // ---------------------------------------------------------------- the historic roots' tree

  lemma {:induction false} SiblingsThroughCache(a: Nodes, b: Nodes, i: nat, levels: nat, top: nat, all: nat)
    requires Deep(i, levels) && Deep(top, all) && PathKeys(i, levels) <= PathKeys(top, all)
    requires forall j :: j !in PathKeys(top, all) ==> Get(a, j) == Get(b, j)
    ensures SiblingPath(a, i, levels) == SiblingPath(b, i, levels)
    decreases levels
  {
    if levels > 0 {
      SiblingsOffPath(top, all, i);
      SiblingsThroughCache(a, b, Parent(i), levels - 1, top, all);
    }
  }

  /**
   The proposer reads the path of the next place after a dry run of its new root, through the nodes
   which that has cached. The path still leads from zero to the stored root, and from the new root to
   the root of the tree that will hold it.
   */
  lemma HistoricRootMoves(h: Hasher, levels: nat, t: Nodes, count: nat, root: Fr, leaves: seq<Fr>, next: Fr)
    requires SoundTree(h, levels, 0, t, count, root, leaves) && count < Pow2(levels)
    ensures var view := t + Step(h, t, levels, 0, count, [next]).nodes;
            var path := SiblingPath(view, SubTreeNode(levels, count), levels);
            && FoldPath(h, 0, path) == root
            && FoldPath(h, next, path) == TreeRoot(h, levels, Splice(leaves, count, [next]))
  {
    var i := SubTreeNode(levels, count);
    var step := Step(h, t, levels, 0, count, [next]);
    var view := t + step.nodes;
    LeafStep(h, t, levels, count, next);
    PathKeysSpec(h, t, i, next, levels);
    SiblingsThroughCache(t, view, i, levels, i, levels);
    FoldOfSiblingPath(h, t, i, next, levels);
    assert levels + 0 == levels;
    LeafWriteRepresents(h, levels, t, leaves, count, next);
    NextSlotIsZero(h, levels, 0, t, count, root, leaves);
    MembershipVerifies(h, t, levels, leaves, i, levels);
  }

  /**
   Soundness: when the decider holds and its first nullifier root is that of an indexed tree, none of
   the nullifiers inserted was in that tree or occurs twice, and its last nullifier root is that of
   the tree with all of them stored. Nothing is asked of who made the proof.
   */
  lemma ProvedNullifiersAreNew(g: Gadgets, d: Decider, u: Hashed, leaves: seq<Fr>, r: Records)
    returns (leaves': seq<Fr>, r': Records)
    requires d.proofLength < |d.aux| && OutDecider(g, d).Some?
    requires CollisionFree(g.h, u) && TreeState(g.h, u, LEVELS + SUB_TREE, leaves, r)
    requires OutDecider(g, d).value[4] == TreeRoot(g.h, LEVELS + SUB_TREE, leaves)
    requires Readable(g, d) ==>
      ChainWithin(g.h, u, SUB_TREE, AllValues(PartOf(g, d).nullifiers), PartOf(g, d).nullifiers)
    ensures Readable(g, d)
    ensures var n := PartOf(g, d).nullifiers;
            && Admissible(r.Keys, AllValues(n))
            && |AllValues(n)| == Offset(|n|, SUB_TREE) && Ids(r') == ChainIds(Ids(r), AllValues(n), n, SUB_TREE)
    ensures TreeState(g.h, u, LEVELS + SUB_TREE, leaves', r')
    ensures OutDecider(g, d).value[5] == TreeRoot(g.h, LEVELS + SUB_TREE, leaves')
  {
    hide OutDecider, CollisionFree, TreeState, TreeRoot, ChainWithin, InsertionChain, NullifierChain, Admissible, Ids, PartOf,
         FoldPath, AllValues, ChainIds, Fees, NumberSum;
    BlockProvedIffChained(g, d);
    var n := PartOf(g, d).nullifiers;
    TreeOfCircuitsFits();
    leaves', r' := ChainStores(g.h, u, LEVELS, SUB_TREE, n[0].oldRoot, AllValues(n), n, n[|n| - 1].circuitInfo.newRoot, leaves, r);
  }

  lemma TreeOfCircuitsFits()
    ensures Pow2(LEVELS + SUB_TREE) < MODULUS
  {
    assert Pow2(8) == 256;
    Pow2Add(8, 8);
    Pow2Add(16, 16);
  }

  lemma ChainEnds(g: Gadgets, p: Part, first: Fr, last: Fr, firstImt: Fr, lastImt: Fr, vs: seq<Fr>)
    requires WellFormed(p)
    requires InsertionChain(g.h, LEVELS, SUB_TREE, first, p.commitments, last)
    requires NullifierChain(g.h, LEVELS, SUB_TREE, firstImt, vs, p.nullifiers, lastImt)
    ensures Chained(g, p)
    ensures p.commitments[0].oldRoot == first && p.commitments[|p.commitments| - 1].newRoot == last
    ensures p.nullifiers[0].oldRoot == firstImt && p.nullifiers[|p.nullifiers| - 1].circuitInfo.newRoot == lastImt
  {
    hide InsertionChain, NullifierChain, AllCommitmentsVerify, AllImtsVerify, Unbroken;
    CommitmentChainIff(g, first, p.commitments, last);
    ChainValues(g.h, firstImt, vs, p.nullifiers, lastImt);
    NullifierChainIff(g, firstImt, p.nullifiers, lastImt);
  }

  // ---------------------------------------------------------------- the hash of all transactions

  function PairUp(f: (Fr, Fr) -> Fr, s: seq<Fr>): (r: seq<Fr>)
    ensures |r| == |s| / 2 && forall i :: 0 <= i < |r| ==> r[i] == f(s[2 * i], s[2 * i + 1])
  {
    seq(|s| / 2, i requires 0 <= i < |s| / 2 => f(s[2 * i], s[2 * i + 1]))
  }

  /** Level by level; what has no partner is dropped. */
  function Reduce(f: (Fr, Fr) -> Fr, s: seq<Fr>): Fr
    requires s != []
    decreases |s|
  {
    if |s| == 1 then s[0] else Reduce(f, PairUp(f, s))
  }

  /** The contract's loop, in place. */
  method PublicHash(f: (Fr, Fr) -> Fr, hashes: array<Fr>)
    requires hashes.Length > 0
    modifies hashes
    ensures hashes[0] == Reduce(f, old(hashes[..]))
  {
    var length := hashes.Length;
    assert hashes[..length] == hashes[..];
    while length > 1
      invariant 1 <= length <= hashes.Length
      invariant Reduce(f, hashes[..length]) == Reduce(f, old(hashes[..]))
    {
      ghost var level := hashes[..length];
      for i := 0 to length / 2
        invariant hashes[..i] == PairUp(f, level)[..i]
        invariant forall j :: i <= j < length ==> hashes[j] == level[j]
      {
        hashes[i] := f(hashes[2 * i], hashes[2 * i + 1]);
      }
      length := length / 2;
      assert hashes[..length] == PairUp(f, level);
    }
  }

  lemma {:induction false} ReduceHalves(f: (Fr, Fr) -> Fr, a: seq<Fr>, b: seq<Fr>, k: nat)
    requires |a| == |b| == Pow2(k)
    ensures Reduce(f, a + b) == f(Reduce(f, a), Reduce(f, b))
    decreases k
  {
    if k == 0 {
      assert PairUp(f, a + b) == [f(a[0], b[0])];
    } else {
      assert PairUp(f, a + b) == PairUp(f, a) + PairUp(f, b);
      ReduceHalves(f, PairUp(f, a), PairUp(f, b), k - 1);
    }
  }

  function Shas(g: Gadgets, txs: seq<seq<Fr>>): (r: seq<Fr>)
    requires forall i :: 0 <= i < |txs| ==> |txs[i]| == TX
    ensures |r| == |txs| && forall i :: 0 <= i < |r| ==> r[i] == TxSha(g, txs[i])
  {
    seq(|txs|, i requires 0 <= i < |txs| => TxSha(g, txs[i]))
  }

  /** A complete tree with `k` pairs of merges above the base circuits. */
  predicate BalancedBn(t: Bn254Node, k: nat)
    decreases t
  {
    match t
    case Base(_, _, _) => k == 0
    case MergeBn(left, right) => k > 0 && BalancedGr(left, k - 1) && BalancedGr(right, k - 1)
  }

  predicate BalancedGr(t: GrumpkinNode, k: nat)
    decreases t
  {
    BalancedBn(t.left, k) && BalancedBn(t.right, k)
  }

  lemma ShasJoin(g: Gadgets, a: Part, b: Part, k: nat)
    requires WellFormed(a) && WellFormed(b) && |a.txs| == |b.txs| == Pow2(k)
    ensures WellFormed(Join(a, b)) && |Join(a, b).txs| == Pow2(k + 1)
    ensures Reduce(g.sha2, Shas(g, Join(a, b).txs)) == g.sha2(Reduce(g.sha2, Shas(g, a.txs)), Reduce(g.sha2, Shas(g, b.txs)))
  {
    assert Shas(g, Join(a, b).txs) == Shas(g, a.txs) + Shas(g, b.txs);
    ReduceHalves(g.sha2, Shas(g, a.txs), Shas(g, b.txs), k);
  }

  lemma BaseSha(g: Gadgets, txs: seq<seq<Fr>>)
    requires FourTxs(txs)
    ensures Reduce(g.sha2, Shas(g, txs))
         == g.sha2(g.sha2(TxSha(g, txs[0]), TxSha(g, txs[1])), g.sha2(TxSha(g, txs[2]), TxSha(g, txs[3])))
  {
    hide TxSha;
    var s := Shas(g, txs);
    assert s == [s[0], s[1]] + [s[2], s[3]] && [s[0], s[1]] == [s[0]] + [s[1]] && [s[2], s[3]] == [s[2]] + [s[3]];
    ReduceHalves(g.sha2, [s[0], s[1]], [s[2], s[3]], 1);
    ReduceHalves(g.sha2, [s[0]], [s[1]], 0);
    ReduceHalves(g.sha2, [s[2]], [s[3]], 0);
  }

  /** In a complete tree the hash put out is the contract's over all transactions in order. */
  lemma {:induction false} BalancedShaBn(g: Gadgets, t: Bn254Node, k: nat)
    requires BalancedBn(t, k) && OutBn(g, t).Some?
    ensures LeavesReadableBn(g, t) && |PartBn(g, t).txs| == Pow2(2 * k + 2)
    ensures OutBn(g, t).value[5] == Reduce(g.sha2, Shas(g, PartBn(g, t).txs))
    decreases t
  {
    hide Reduce, Join, WellFormed, ExtraReadable, BaseExtraChecks, Linked, TxSha, Add, AddInFq, NumberSum;
    SatisfiedIffLinkedBn(g, t);
    match t
    case Base(z, extra, txs) =>
      BaseFees(g, txs);
      BaseSha(g, txs);
    case MergeBn(left, right) =>
      BalancedShaGr(g, left, k - 1);
      BalancedShaGr(g, right, k - 1);
      ShasJoin(g, PartGr(g, left), PartGr(g, right), 2 * k + 1);
  }

  lemma {:induction false} BalancedShaGr(g: Gadgets, t: GrumpkinNode, k: nat)
    requires BalancedGr(t, k) && OutGr(g, t).Some?
    ensures LeavesReadableGr(g, t) && |PartGr(g, t).txs| == Pow2(2 * k + 3)
    ensures g.sha2(OutGr(g, t).value[5], OutGr(g, t).value[6]) == Reduce(g.sha2, Shas(g, PartGr(g, t).txs))
    decreases t
  {
    hide Reduce, Join, WellFormed, ExtraReadable, BaseExtraChecks, Linked, TxSha, Add, AddInFq, NumberSum;
    SatisfiedIffLinkedGr(g, t);
    BalancedShaBn(g, t.left, k);
    BalancedShaBn(g, t.right, k);
    ShasJoin(g, PartBn(g, t.left), PartBn(g, t.right), 2 * k + 2);
  }

  /** The decider's hash of a block of 16 * 4^k transactions is the one the contract computes. */
  lemma BlockHash(g: Gadgets, d: Decider, k: nat)
    requires d.proofLength < |d.aux| && BalancedGr(d.left, k) && BalancedGr(d.right, k) && OutDecider(g, d).Some?
    ensures Readable(g, d) && |PartOf(g, d).txs| == Pow2(2 * k + 4)
    ensures OutDecider(g, d).value[1] == Reduce(g.sha2, Shas(g, PartOf(g, d).txs))
  {
    hide Reduce, Join, WellFormed, Linked, TxSha, Add, AddInFq, NumberSum, Chained, FoldPath, Describes, OutGr,
         LeavesReadableGr, PartGr;
    BlockProvedIffChained(g, d);
    BalancedShaGr(g, d.left, k);
    BalancedShaGr(g, d.right, k);
    ShasJoin(g, PartGr(g, d.left), PartGr(g, d.right), 2 * k + 3);
  }

  // ---------------------------------------------------------------- the verification key's membership

  /** The quadratic gate acc * check - acc * constant. */
  function Gate(acc: Fr, check: Fr, constant: Fr): Fr {
    Add(Mul(acc, check), Mul(MODULUS - 1, Mul(acc, constant)))
  }

  /** The product over the list, and the constraint that it is zero. */
  function GateProduct(check: Fr, hashes: seq<Fr>): Fr {
    if hashes == [] then 1 else Gate(GateProduct(check, hashes[..|hashes| - 1]), check, hashes[|hashes| - 1])
  }

  ghost predicate NoZeroDivisors() {
    forall a: Fr, b: Fr :: Mul(a, b) == 0 ==> a == 0 || b == 0
  }

  lemma GateIsProduct(acc: Fr, check: Fr, constant: Fr)
    ensures Gate(acc, check, constant) == Mul(acc, Sub(check, constant))
  {
    var p: int, q: int := acc * check, acc * constant;
    MulMinusOne(q % MODULUS);
    ModSum(p, q);
    ModProduct(acc, check - constant);
    Distribute(acc, check, constant);
    assert Mul(acc, check) == p % MODULUS && Mul(acc, constant) == q % MODULUS;
    assert Mul(acc, Sub(check, constant)) == (p - q) % MODULUS;
    hide Mul, Sub;
  }

  lemma Distribute(a: int, b: int, c: int)
    ensures a * b - a * c == a * (b - c)
  {
  }

  lemma MulMinusOne(q: Fr)
    ensures Mul(MODULUS - 1, q) == (-(q as int)) % MODULUS
  {
    ModAddMultiple(-(q as int), q);
    assert (MODULUS - 1) * q == -(q as int) + q * MODULUS;
  }

  lemma ModAddMultiple(x: int, k: int)
    ensures (x + k * MODULUS) % MODULUS == x % MODULUS
  {
    var d, r := x / MODULUS, x % MODULUS;
    assert x + k * MODULUS == (d + k) * MODULUS + r;
    ModUnique(x + k * MODULUS, d + k, r);
  }

  lemma ModUnique(x: int, d: int, r: int)
    requires x == d * MODULUS + r && 0 <= r < MODULUS
    ensures x % MODULUS == r
  {
  }

  lemma ModSum(a: int, b: int)
    ensures (a % MODULUS + (-(b % MODULUS)) % MODULUS) % MODULUS == (a - b) % MODULUS
  {
    var m := MODULUS;
    var u, v := a % m, (-(b % m)) % m;
    var x := a / m;
    var y := b / m;
    var z := (-(b % m)) / m;
    assert a - b == u + v + (x - y + z) * m;
    ModAddMultiple(u + v, x - y + z);
  }

  lemma ModProduct(a: int, b: int)
    ensures (a * b) % MODULUS == (a * (b % MODULUS)) % MODULUS
  {
    var d, r := b / MODULUS, b % MODULUS;
    assert a * b == a * r + (a * d) * MODULUS by {
      assert b == r + d * MODULUS;
      assert a * (d * MODULUS) == (a * d) * MODULUS;
      assert a * (r + d * MODULUS) == a * r + a * (d * MODULUS);
    }
    ModAddMultiple(a * r, a * d);
  }

  lemma SubIsZero(a: Fr, b: Fr)
    ensures Sub(a, b) == 0 <==> a == b
  {
    if a < b {
      ModUnique(a - b, -1, a - b + MODULUS);
    }
  }

  lemma MulIsZero(a: Fr, b: Fr)
    requires NoZeroDivisors()
    ensures Mul(a, b) == 0 <==> a == 0 || b == 0
  {
    if a == 0 || b == 0 {
      assert a * b == 0;
    } else {
      hide Mul;
    }
  }

  /** The constraint holds exactly for the hashes in the list. */
  lemma {:induction false} VkCheckIffListed(check: Fr, hashes: seq<Fr>)
    requires NoZeroDivisors()
    ensures GateProduct(check, hashes) == 0 <==> check in hashes
  {
    if hashes != [] {
      var init, last := hashes[..|hashes| - 1], hashes[|hashes| - 1];
      assert hashes == init + [last];
      VkCheckIffListed(check, init);
      var acc := GateProduct(check, init);
      GateIsProduct(acc, check, last);
      SubIsZero(check, last);
      MulIsZero(acc, Sub(check, last));
      hide Gate, Mul, Sub, NoZeroDivisors;
    }
  }
}
